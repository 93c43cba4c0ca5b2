/**
 One star sync from any state at all, told by the stored rows, the cursor and GitHub's answer:
 what is written when stars were lost, gained or never read, and when nothing may change.
 */
module StarCycles {
  import opened Wrappers
  import opened StarHistory
  import opened Stargazers
  import opened StarSync

  predicate GivenOn(list: seq<Instant>, day: int) {
    exists i :: 0 <= i < |list| && DayOf(list[i]) == day
  }

  function Greater(a: nat, b: nat): nat {
    if a > b then a else b
  }

  /** After one cycle: old rows never sink, and each day with a star holds at least `base` and the stars by then. */
  ghost predicate Holds(after: History, before: History, list: seq<Instant>, base: nat) {
    forall d {:trigger d in after} ::
      && (d in after <==> d in before || GivenOn(list, d))
      && (d in after ==> after[d] == Greater(if d in before then before[d] else 0,
                                             if GivenOn(list, d) then base + CountUpTo(list, d) else 0))
  }

  predicate IsNewest(list: seq<Instant>, t: Instant) {
    (list == [] ==> t == 0) && (list != [] ==> t in list) && forall i :: 0 <= i < |list| ==> list[i] <= t
  }

  // ---------- Counting does not depend on order ----------

  lemma {:induction false} CountConcat(a: seq<Instant>, b: seq<Instant>, d: int)
    ensures CountUpTo(a + b, d) == CountUpTo(a, d) + CountUpTo(b, d)
  {
    if b == [] {
      assert a + b == a;
    } else {
      assert (a + b)[..|a + b| - 1] == a + b[..|b| - 1];
      CountConcat(a, b[..|b| - 1], d);
    }
  }

  lemma {:induction false} CountInsert(t: Instant, s: seq<Instant>, d: int)
    ensures CountUpTo(Insert(t, s), d) == CountUpTo([t], d) + CountUpTo(s, d)
  {
    if s == [] || t <= s[0] {
      CountConcat([t], s, d);
    } else {
      CountInsert(t, s[1..], d);
      CountConcat([s[0]], Insert(t, s[1..]), d);
      CountConcat([s[0]], s[1..], d);
      assert s == [s[0]] + s[1..];
    }
  }

  lemma {:induction false} CountSorted(s: seq<Instant>, d: int)
    ensures CountUpTo(SortByTime(s), d) == CountUpTo(s, d)
  {
    if s != [] {
      CountSorted(s[1..], d);
      CountInsert(s[0], SortByTime(s[1..]), d);
      CountConcat([s[0]], s[1..], d);
      assert s == [s[0]] + s[1..];
    }
  }

  lemma GivenSorted(s: seq<Instant>, d: int)
    ensures GivenOn(SortByTime(s), d) <==> GivenOn(s, d)
  {
    var r := SortByTime(s);
    if i :| 0 <= i < |s| && DayOf(s[i]) == d {
      assert s[i] in multiset(r);
      var j :| 0 <= j < |r| && r[j] == s[i];
      assert DayOf(r[j]) == d;
    }
    if i :| 0 <= i < |r| && DayOf(r[i]) == d {
      assert r[i] in multiset(s);
      var j :| 0 <= j < |s| && s[j] == r[i];
      assert DayOf(s[j]) == d;
    }
  }

  lemma RebuildCounts(s: seq<Instant>, base: nat, d: int)
    requires Ascending(s)
    ensures d in RebuildFrom(s, base) <==> GivenOn(s, d)
    ensures d in RebuildFrom(s, base) ==> RebuildFrom(s, base)[d] == base + CountUpTo(s, d)
  {
    RebuildAt(s, base, d);
    if d in RebuildFrom(s, base) {
      CountIsIndex(s, d, RebuildFrom(s, base)[d] - base);
    }
  }

  lemma WriteHolds(h: History, list: seq<Instant>, base: nat)
    ensures Holds(StoreFrom(h, SortByTime(list), base), h, list, base)
  {
    var after := StoreFrom(h, SortByTime(list), base);
    forall d
      ensures d in after <==> d in h || GivenOn(list, d)
      ensures d in after ==> after[d] == Greater(if d in h then h[d] else 0,
                                                 if GivenOn(list, d) then base + CountUpTo(list, d) else 0)
    {
      StoreAt(h, SortByTime(list), base, d);
      RebuildCounts(SortByTime(list), base, d);
      CountSorted(list, d);
      GivenSorted(list, d);
    }
  }

  // ---------- The five outcomes of a cycle ----------

  /** Stars were lost, none was ever read, or the stored rows lag what the cursor or the count claims. */
  ghost predicate MustRefetch(st: RepoStars, current: nat) {
    var stored := MaxTotal(st.history);
    || st.cursor.lastSeen < 0
    || current < st.cursor.lastSeen
    || (stored < current && (st.cursor.lastSeen == current || stored < st.cursor.lastSeen))
  }

  /** Then the whole list is written over the old rows, and the cursor is the count and its newest star. */
  lemma RefetchCycle(st: RepoStars, today: int, current: nat, w: World)
    requires MustRefetch(st, current) && w.cursorRead && w.maxRead
    ensures var after := AfterCycle(st, today, true, current, w);
            match w.full
            case None => after == st
            case Some(list) =>
              && Holds(after.history, st.history, list, 0)
              && (!w.cursorWrite ==> after.cursor == st.cursor)
              && (w.cursorWrite ==> after.cursor.lastSeen == current && IsNewest(list, after.cursor.lastAt))
  {
    if w.full.Some? {
      WriteHolds(st.history, w.full.value, 0);
    }
  }

  /** New stars only: the newest part of the listing is appended on top of what the cursor counted. */
  lemma GrowthCycle(st: RepoStars, today: int, current: nat, w: World, listing: seq<Instant>)
    requires !MustRefetch(st, current) && st.cursor.lastSeen < current && w.cursorRead && w.maxRead
    requires Serves(w.recent, listing)
    ensures var delta := current - st.cursor.lastSeen;
            var after := AfterCycle(st, today, true, current, w);
            if ReadFails([], w.recent, delta, st.cursor.lastAt) then after == st
            else AppendsRecent(after, st, current, listing, w.cursorWrite)
  {
    var delta := current - st.cursor.lastSeen;
    RecentFailsIff(w.recent, delta, st.cursor.lastAt);
    RecentMeaning(w.recent, listing, delta, st.cursor.lastAt);
    var r := RecentFrom([], w.recent, delta, st.cursor.lastAt);
    if r.Some? {
      AppendCycle(st, today, current, w, r.value);
      RecentAppends(AfterCycle(st, today, true, current, w), st, current, listing, r.value, w.cursorWrite);
    } else {
      FailedReadCycle(st, today, current, w);
    }
  }

  ghost predicate AppendsRecent(after: RepoStars, st: RepoStars, current: nat, listing: seq<Instant>, cursorWrite: bool)
    requires 0 <= st.cursor.lastSeen
  {
    exists list :: IsRecent(listing, list, current - st.cursor.lastSeen, st.cursor.lastAt)
      && Appended(after, st, current, list, cursorWrite)
  }

  lemma RecentAppends(after: RepoStars, st: RepoStars, current: nat, listing: seq<Instant>, list: seq<Instant>, cursorWrite: bool)
    requires 0 <= st.cursor.lastSeen
    requires IsRecent(listing, list, current - st.cursor.lastSeen, st.cursor.lastAt)
    requires Appended(after, st, current, list, cursorWrite)
    ensures AppendsRecent(after, st, current, listing, cursorWrite)
  {
  }

  lemma FailedReadCycle(st: RepoStars, today: int, current: nat, w: World)
    requires !MustRefetch(st, current) && st.cursor.lastSeen < current && w.cursorRead && w.maxRead
    requires RecentFrom([], w.recent, current - st.cursor.lastSeen, st.cursor.lastAt).None?
    ensures AfterCycle(st, today, true, current, w) == st
  {
  }

  /** An empty answer changes nothing; a cursor never loses its last star to one without a time. */
  ghost predicate Appended(after: RepoStars, st: RepoStars, current: nat, list: seq<Instant>, cursorWrite: bool)
    requires 0 <= st.cursor.lastSeen
  {
    if list == [] then after == st
    else
      && Holds(after.history, st.history, list, st.cursor.lastSeen)
      && (!cursorWrite ==> after.cursor == st.cursor)
      && (cursorWrite ==> after.cursor.lastSeen == current)
      && (cursorWrite ==> exists t :: IsNewest(list, t) && after.cursor.lastAt == if t == 0 then st.cursor.lastAt else t)
  }

  lemma AppendCycle(st: RepoStars, today: int, current: nat, w: World, list: seq<Instant>)
    requires !MustRefetch(st, current) && st.cursor.lastSeen < current && w.cursorRead && w.maxRead
    requires RecentFrom([], w.recent, current - st.cursor.lastSeen, st.cursor.lastAt) == Some(list)
    ensures Appended(AfterCycle(st, today, true, current, w), st, current, list, w.cursorWrite)
  {
    WriteHolds(st.history, list, st.cursor.lastSeen);
    NewestIsNewest(list);
  }

  lemma NewestIsNewest(list: seq<Instant>)
    ensures IsNewest(list, Newest(list))
  {
    if list != [] && Newest(list) == 0 {
      assert list[0] == 0;
    }
  }

  /** Nothing to do: the count is the cursor's and the stored rows reach it. */
  lemma SkipCycle(st: RepoStars, today: int, current: nat, w: World)
    requires !MustRefetch(st, current) && st.cursor.lastSeen == current
    ensures AfterCycle(st, today, true, current, w) == st
  {
  }

  /** A failed read of the cursor or of the stored maximum ends the cycle. */
  lemma UnreadCycle(st: RepoStars, today: int, current: nat, w: World)
    requires !w.cursorRead || !w.maxRead
    ensures AfterCycle(st, today, true, current, w) == st
  {
  }

  /** Without star history only today's total is kept, and never lowered. */
  lemma TotalOnlyCycle(st: RepoStars, today: int, current: nat, w: World)
    ensures var after := AfterCycle(st, today, false, current, w);
            && after.cursor == st.cursor
            && after.history.Keys == st.history.Keys + {today}
            && after.history[today] == Greater(current, if today in st.history then st.history[today] else 0)
            && forall d :: d in st.history && d != today ==> after.history[d] == st.history[d]
  {
  }

  /** In particular: after stars were taken back the cursor follows the count down. */
  lemma UnstarFollowsTheCount(st: RepoStars, today: int, current: nat, w: World)
    requires current < st.cursor.lastSeen && w.cursorRead && w.maxRead && w.cursorWrite && w.full.Some?
    ensures var after := AfterCycle(st, today, true, current, w);
            && after.cursor.lastSeen == current
            && IsNewest(w.full.value, after.cursor.lastAt)
            && (forall d :: GivenOn(w.full.value, d) ==> d in after.history && after.history[d] >= CountUpTo(w.full.value, d))
            && (forall d :: d in st.history ==> d in after.history && after.history[d] >= st.history[d])
  {
    RefetchCycle(st, today, current, w);
  }
}
