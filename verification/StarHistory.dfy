/**
 The star history of one repository: SQLite's `stars` table as a map from UTC day to cumulative
 total, the MAX upsert that every writer goes through, and the two writers.
 */
module StarHistory {
  // Seconds; zero is Go's zero time, which a cursor holds until a star has been seen.
  type Instant = nat
  type History = map<int, nat>

  const SecondsPerDay := 86400

  function DayOf(t: Instant): int {
    t / SecondsPerDay
  }

  /** Days are UTC days of twenty-four hours. */
  lemma DayHolds(t: Instant, d: int)
    ensures DayOf(t) == d <==> d * 24 * 60 * 60 <= t < (d + 1) * 24 * 60 * 60
  {
  }

  predicate Ascending(s: seq<Instant>) {
    forall i, j :: 0 <= i < j < |s| ==> s[i] <= s[j]
  }

  /** One `INSERT ... ON CONFLICT DO UPDATE SET total=MAX(...)`. */
  function UpsertMax(h: History, day: int, total: nat): History {
    h[day := if day in h && h[day] > total then h[day] else total]
  }

  /** The loop both writers run over sorted stars, from the total `base`. */
  function StoreFrom(h: History, sorted: seq<Instant>, base: nat): History {
    if sorted == [] then h
    else
      var n := |sorted|;
      UpsertMax(StoreFrom(h, sorted[..n - 1], base), DayOf(sorted[n - 1]), base + n)
  }

  /** The reference: what the stars `s` put into an empty table, each day holding its last total. */
  function RebuildFrom(s: seq<Instant>, base: nat): History {
    if s == [] then map[]
    else RebuildFrom(s[..|s| - 1], base)[DayOf(s[|s| - 1]) := base + |s|]
  }

  function Rebuild(s: seq<Instant>): History {
    RebuildFrom(s, 0)
  }

  /** How many of the stars were given on or before a day. */
  function CountUpTo(s: seq<Instant>, day: int): nat {
    if s == [] then 0
    else CountUpTo(s[..|s| - 1], day) + (if DayOf(s[|s| - 1]) <= day then 1 else 0)
  }

  function PointwiseMax(h: History, g: History): History {
    map d | d in h.Keys + g.Keys ::
      if d !in g then h[d] else if d in h && h[d] > g[d] then h[d] else g[d]
  }

  /** `SELECT MAX(total)`, zero over no rows. */
  ghost function MaxTotal(h: History): (m: nat)
    ensures forall d :: d in h ==> h[d] <= m
    ensures h == map[] ==> m == 0
    ensures h != map[] ==> exists d :: d in h && h[d] == m
  {
    if h == map[] then 0
    else
      assert (forall d :: d !in h) ==> h == map[];
      var d :| d in h;
      var others := h - {d};
      assert forall e :: e in h ==> e == d || e in others;
      var rest := MaxTotal(others);
      if h[d] >= rest then h[d] else rest
  }

  // ---------- Rebuild means: the number of stars up to each day that has one ----------

  lemma {:induction false} RebuildAt(s: seq<Instant>, base: nat, d: int)
    requires Ascending(s)
    ensures d in RebuildFrom(s, base) <==> exists i :: 0 <= i < |s| && DayOf(s[i]) == d
    ensures d in RebuildFrom(s, base) ==>
              var v := RebuildFrom(s, base)[d] - base;
              && 1 <= v <= |s|
              && DayOf(s[v - 1]) == d
              && forall j :: v <= j < |s| ==> DayOf(s[j]) > d
  {
    if s != [] {
      var n := |s|;
      var t := s[..n - 1];
      RebuildAt(t, base, d);
      assert forall i :: 0 <= i < n - 1 ==> t[i] == s[i];
      if DayOf(s[n - 1]) == d {
        assert RebuildFrom(s, base)[d] == base + n;
      } else {
        if i :| 0 <= i < n && DayOf(s[i]) == d {
          assert DayOf(t[i]) == d;
        }
        if d in RebuildFrom(t, base) {
          var v := RebuildFrom(t, base)[d] - base;
          assert DayOf(s[v - 1]) == d && s[v - 1] <= s[n - 1];
        }
      }
    }
  }

  lemma {:induction false} CountIsIndex(s: seq<Instant>, d: int, v: nat)
    requires Ascending(s)
    requires v <= |s|
    requires v > 0 ==> DayOf(s[v - 1]) <= d
    requires forall j :: v <= j < |s| ==> DayOf(s[j]) > d
    ensures CountUpTo(s, d) == v
  {
    if s != [] {
      var t := s[..|s| - 1];
      if v == |s| {
        assert |s| > 1 ==> t[|t| - 1] <= s[|s| - 1];
        CountIsIndex(t, d, v - 1);
      } else {
        assert v > 0 ==> t[v - 1] == s[v - 1];
        CountIsIndex(t, d, v);
      }
    }
  }

  /** A rebuilt row exists for exactly the days with a star, and holds the stars given by then. */
  lemma RebuildMeaning(s: seq<Instant>, d: int)
    requires Ascending(s)
    ensures d in Rebuild(s) <==> exists i :: 0 <= i < |s| && DayOf(s[i]) == d
    ensures d in Rebuild(s) ==> Rebuild(s)[d] == CountUpTo(s, d)
  {
    RebuildAt(s, 0, d);
    if d in Rebuild(s) {
      CountIsIndex(s, d, Rebuild(s)[d]);
    }
  }

  // ---------- The MAX upserts compute a pointwise maximum ----------

  lemma {:induction false} RebuildIsBounded(s: seq<Instant>, base: nat, d: int)
    ensures d in RebuildFrom(s, base) ==> RebuildFrom(s, base)[d] <= base + |s|
  {
    if s != [] {
      RebuildIsBounded(s[..|s| - 1], base, d);
    }
  }

  lemma {:induction false} StoreAt(h: History, s: seq<Instant>, base: nat, d: int)
    ensures var g := RebuildFrom(s, base);
            && (d in StoreFrom(h, s, base) <==> d in h || d in g)
            && (d in StoreFrom(h, s, base) ==>
              StoreFrom(h, s, base)[d] == if d !in g then h[d] else if d in h && h[d] > g[d] then h[d] else g[d])
  {
    if s != [] {
      StoreAt(h, s[..|s| - 1], base, d);
      RebuildIsBounded(s[..|s| - 1], base, d);
    }
  }

  lemma StoreIsPointwiseMax(h: History, s: seq<Instant>, base: nat)
    ensures StoreFrom(h, s, base) == PointwiseMax(h, RebuildFrom(s, base))
  {
    forall d
      ensures d in StoreFrom(h, s, base) <==> d in PointwiseMax(h, RebuildFrom(s, base))
      ensures d in StoreFrom(h, s, base) ==> StoreFrom(h, s, base)[d] == PointwiseMax(h, RebuildFrom(s, base))[d]
    {
      StoreAt(h, s, base, d);
    }
  }

  /** A full write leaves a rebuild of its list exactly when no old row sticks out of it. */
  lemma FullWriteIsRebuildIff(h: History, s: seq<Instant>)
    ensures StoreFrom(h, s, 0) == Rebuild(s)
      <==> forall d :: d in h ==> d in Rebuild(s) && h[d] <= Rebuild(s)[d]
  {
    StoreIsPointwiseMax(h, s, 0);
    var g := PointwiseMax(h, Rebuild(s));
    if forall d :: d in h ==> d in Rebuild(s) && h[d] <= Rebuild(s)[d] {
      assert g.Keys == Rebuild(s).Keys;
    } else {
      var d :| d in h && (d in Rebuild(s) ==> h[d] > Rebuild(s)[d]);
      assert d in g;
    }
  }

  /** Why the claim needs a list that only grows: after an unstar the old total stays. */
  lemma UnstarLeavesOldTotal()
    ensures
      var two, one := [10, 20], [10];
      StoreFrom(Rebuild(two), one, 0) != Rebuild(one)
  {
    var two, one := [10, 20], [10];
    assert Rebuild(one) == map[0 := 1] by {
      assert RebuildFrom(one[..0], 0) == map[];
    }
    assert Rebuild(two)[0] == 2;
    FullWriteIsRebuildIff(Rebuild(two), one);
    assert 0 in Rebuild(two);
  }

  /**
   Rewriting the tail from any point `c` at or below what is already stored gives the rebuild of
   the whole list. `c == 0` is a full fetch, `c == k` an incremental one.
   */
  lemma TailWriteCompletes(s: seq<Instant>, c: nat, k: nat)
    requires Ascending(s) && c <= k <= |s|
    ensures StoreFrom(Rebuild(s[..k]), s[c..], c) == Rebuild(s)
  {
    var h, tail := Rebuild(s[..k]), RebuildFrom(s[c..], c);
    StoreIsPointwiseMax(h, s[c..], c);
    var g := PointwiseMax(h, tail);
    forall d
      ensures d in g <==> d in Rebuild(s)
      ensures d in g ==> g[d] == Rebuild(s)[d]
    {
      RebuildAt(s, 0, d);
      RebuildAt(s[..k], 0, d);
      RebuildAt(s[c..], c, d);
      if i :| 0 <= i < |s| && DayOf(s[i]) == d {
        if i < k { assert s[..k][i] == s[i]; } else { assert s[c..][i - c] == s[i]; }
        SameDay(s, c, k, d);
      }
    }
  }

  lemma SameDay(s: seq<Instant>, c: nat, k: nat, d: int)
    requires Ascending(s) && c <= k <= |s|
    requires d in Rebuild(s)
    requires d in Rebuild(s[..k]) || d in RebuildFrom(s[c..], c)
    ensures d in RebuildFrom(s[c..], c) ==>
              RebuildFrom(s[c..], c)[d] == Rebuild(s)[d]
    ensures d in Rebuild(s[..k]) ==> Rebuild(s[..k])[d] <= Rebuild(s)[d]
    ensures d !in RebuildFrom(s[c..], c) ==> Rebuild(s[..k])[d] == Rebuild(s)[d]
  {
    RebuildAt(s, 0, d);
    RebuildAt(s[..k], 0, d);
    RebuildAt(s[c..], c, d);
    assert forall j :: c <= j < |s| ==> s[j] == s[c..][j - c];
    assert forall j :: 0 <= j < k ==> s[j] == s[..k][j];
  }

  /** A rebuilt history tops out at the number of stars. */
  lemma {:induction false} MaxOfRebuild(s: seq<Instant>)
    requires Ascending(s)
    ensures MaxTotal(Rebuild(s)) == |s|
  {
    var h := Rebuild(s);
    forall d | d in h
      ensures h[d] <= |s|
    {
      RebuildAt(s, 0, d);
    }
    if s != [] {
      assert h[DayOf(s[|s| - 1])] == |s|;
    }
  }

  // ---------- Sorting by starred_at ----------

  function Insert(t: Instant, s: seq<Instant>): seq<Instant> {
    if s == [] || t <= s[0] then [t] + s else [s[0]] + Insert(t, s[1..])
  }

  lemma {:induction false} InsertAscends(t: Instant, s: seq<Instant>)
    requires Ascending(s)
    ensures Ascending(Insert(t, s))
    ensures Insert(t, s)[0] == (if s == [] || t <= s[0] then t else s[0])
  {
    if s != [] && t > s[0] {
      InsertAscends(t, s[1..]);
    }
  }

  lemma {:induction false} InsertAdds(t: Instant, s: seq<Instant>)
    ensures multiset(Insert(t, s)) == multiset(s) + multiset{t}
  {
    if s != [] {
      InsertAdds(t, s[1..]);
      assert s == [s[0]] + s[1..];
    }
  }

  /** `sort.Slice` on starred_at. */
  function SortByTime(s: seq<Instant>): (r: seq<Instant>)
    ensures Ascending(r) && multiset(r) == multiset(s)
  {
    if s == [] then []
    else
      var rest := SortByTime(s[1..]);
      assert s == [s[0]] + s[1..];
      InsertAscends(s[0], rest);
      InsertAdds(s[0], rest);
      Insert(s[0], rest)
  }

  lemma HeadIsLeast(a: seq<Instant>, b: seq<Instant>)
    requires Ascending(a) && a != [] && multiset(a) == multiset(b)
    ensures b != [] && a[0] <= b[0]
  {
    assert |multiset(a)| == |a| && |multiset(b)| == |b|;
    assert b[0] in multiset(a);
  }

  lemma {:induction false} AscendingIsUnique(a: seq<Instant>, b: seq<Instant>)
    requires Ascending(a) && Ascending(b) && multiset(a) == multiset(b)
    ensures a == b
  {
    if a != [] {
      HeadIsLeast(a, b);
      HeadIsLeast(b, a);
      assert a == [a[0]] + a[1..] && b == [b[0]] + b[1..];
      assert multiset(a[1..]) == multiset(a) - multiset{a[0]};
      AscendingIsUnique(a[1..], b[1..]);
    } else {
      assert |multiset(b)| == |b|;
    }
  }

  /** Sorting recovers the timeline from a listing in any order. */
  lemma SortRecovers(listing: seq<Instant>, timeline: seq<Instant>)
    requires Ascending(timeline) && multiset(listing) == multiset(timeline)
    ensures SortByTime(listing) == timeline
  {
    AscendingIsUnique(SortByTime(listing), timeline);
  }
}
