/**
 Day-over-day deltas of referrers and popular paths. `UpdateDeltasSince` runs SQL's LAG over a
 window that starts one day before `since`; `UpdateDeltas` runs it over the whole table.
 */
module Deltas {
  import opened Wrappers

  datatype RowKey = RowKey(repo: string, name: string, day: int) {
    function DayBefore(): RowKey {
      this.(day := day - 1)
    }

    predicate SameSeries(other: RowKey) {
      repo == other.repo && name == other.name
    }
  }

  datatype Row = Row(title: string, count: int, uniques: int, countDelta: int, uniquesDelta: int)

  type Table = map<RowKey, Row>

  datatype Entry = Entry(repo: string, name: string, title: string, count: int, uniques: int)

  function Max(a: int, b: int): int {
    if a > b then a else b
  }

  // ---------- LAG ... OVER (PARTITION BY repo, name ORDER BY date) ----------

  /** The days of earlier rows of the same series, none older than `floor`. */
  function EarlierDays(t: Table, k: RowKey, floor: Option<int>): set<int> {
    set r | r in t.Keys && r.SameSeries(k) && r.day < k.day && (floor.Some? ==> floor.value <= r.day) :: r.day
  }

  ghost function Latest(days: set<int>): (m: int)
    requires days != {}
    ensures m in days && forall d :: d in days ==> d <= m
  {
    assert (forall d :: d !in days) ==> days == {};
    var d :| d in days;
    var others := days - {d};
    assert days == {d} + others;
    if others == {} then d else Max(d, Latest(others))
  }

  ghost function LagDay(t: Table, k: RowKey, floor: Option<int>): Option<int> {
    var days := EarlierDays(t, k, floor);
    if days == {} then None else Some(Latest(days))
  }

  lemma LagIsARow(t: Table, k: RowKey, floor: Option<int>)
    ensures var p := LagDay(t, k, floor);
            p.Some? ==> k.(day := p.value) in t && p.value < k.day
  {
    var p := LagDay(t, k, floor);
    if p.Some? {
      var r :| r in t.Keys && r.SameSeries(k) && r.day < k.day && r.day == p.value;
      assert r == k.(day := p.value);
    }
  }

  function Delta(value: int, previous: Option<int>): int {
    Max(0, value - (if previous.Some? then previous.value else 0))
  }

  function StepFrom(row: Row, previous: Option<Row>): Row {
    row.(countDelta := Delta(row.count, if previous.Some? then Some(previous.value.count) else None),
         uniquesDelta := Delta(row.uniques, if previous.Some? then Some(previous.value.uniques) else None))
  }

  ghost function WithDeltas(t: Table, k: RowKey, floor: Option<int>): Row
    requires k in t
  {
    var p := LagDay(t, k, floor);
    LagIsARow(t, k, floor);
    StepFrom(t[k], if p.Some? then Some(t[k.(day := p.value)]) else None)
  }

  /** The UPDATE: with no `since` the window and the updated rows are the whole table. */
  ghost function Recomputed(t: Table, since: Option<int>): Table {
    var floor := if since.Some? then Some(since.value - 1) else None;
    map k | k in t :: if since.Some? && k.day < since.value then t[k] else WithDeltas(t, k, floor)
  }

  function Upserted(t: Table, day: int, e: Entry): Table {
    var k := RowKey(e.repo, e.name, day);
    if k in t then
      t[k := t[k].(title := e.title, count := Max(t[k].count, e.count), uniques := Max(t[k].uniques, e.uniques))]
    else
      t[k := Row(e.title, e.count, e.uniques, 0, 0)]
  }

  /** The tables `referrers` (whose rows carry no title) and `paths`. */
  class DeltaStore {
    var referrers: Table
    var paths: Table

    constructor ()
      ensures referrers == map[] && paths == map[]
    {
      referrers, paths := map[], map[];
    }

    method UpsertReferrer(repo: string, day: int, referrer: string, count: int, uniques: int)
      modifies this`referrers
      ensures referrers == Upserted(old(referrers), day, Entry(repo, referrer, "", count, uniques))
    {
      referrers := Upserted(referrers, day, Entry(repo, referrer, "", count, uniques));
    }

    method UpsertPath(repo: string, day: int, path: string, title: string, count: int, uniques: int)
      modifies this`paths
      ensures paths == Upserted(old(paths), day, Entry(repo, path, title, count, uniques))
    {
      paths := Upserted(paths, day, Entry(repo, path, title, count, uniques));
    }

    method UpdateDeltasSince(since: Option<int>)
      modifies this
      ensures referrers == Recomputed(old(referrers), since)
      ensures paths == Recomputed(old(paths), since)
    {
      var r := RecomputeTable(referrers, since);
      var p := RecomputeTable(paths, since);
      referrers, paths := r, p;
    }

    method UpdateDeltas()
      modifies this
      ensures referrers == Recomputed(old(referrers), None)
      ensures paths == Recomputed(old(paths), None)
    {
      UpdateDeltasSince(None);
    }
  }

  method Lag(t: Table, k: RowKey, floor: Option<int>) returns (r: Option<int>)
    ensures r == LagDay(t, k, floor)
  {
    var all := EarlierDays(t, k, floor);
    var days := all;
    r := None;
    while days != {}
      invariant days <= all
      invariant r.None? ==> days == all
      invariant r.Some? ==> r.value in all && forall d :: d in all && d !in days ==> d <= r.value
      decreases days
    {
      assert exists d :: d in days;
      var d :| d in days;
      if r.None? || d > r.value {
        r := Some(d);
      }
      days := days - {d};
    }
  }

  method RecomputeRow(t: Table, k: RowKey, floor: Option<int>) returns (row: Row)
    requires k in t
    ensures row == WithDeltas(t, k, floor)
  {
    var p := Lag(t, k, floor);
    LagIsARow(t, k, floor);
    row := StepFrom(t[k], if p.Some? then Some(t[k.(day := p.value)]) else None);
  }

  method RecomputeTable(t: Table, since: Option<int>) returns (r: Table)
    ensures r == Recomputed(t, since)
  {
    var floor := if since.Some? then Some(since.value - 1) else None;
    ghost var goal := Recomputed(t, since);
    var todo := t.Keys;
    r := t;
    while todo != {}
      invariant todo <= t.Keys && r.Keys == t.Keys
      invariant forall k :: k in t ==> r[k] == if k in todo then t[k] else goal[k]
      decreases todo
    {
      assert exists k :: k in todo;
      var k :| k in todo;
      if since.None? || k.day >= since.value {
        var row := RecomputeRow(t, k, floor);
        r := r[k := row];
      }
      todo := todo - {k};
    }
  }

  // ---------- One call: exactly when the window is wide enough ----------

  /** Subtracting `p` from `c` makes no difference once both are cut off at zero. */
  predicate NoDifference(c: int, p: int) {
    p == 0 || (c <= 0 && c <= p)
  }

  /** The row before `k` is inside the window, or there is none, or it changes neither delta. */
  ghost predicate WindowSuffices(t: Table, k: RowKey, since: int)
    requires k in t
  {
    var p := LagDay(t, k, None);
    LagIsARow(t, k, None);
    p.None? || p.value >= since - 1
    || (NoDifference(t[k].count, t[k.(day := p.value)].count)
        && NoDifference(t[k].uniques, t[k.(day := p.value)].uniques))
  }

  lemma LagInWindow(t: Table, k: RowKey, floor: int)
    ensures var p := LagDay(t, k, None);
            LagDay(t, k, Some(floor)) == if p.Some? && p.value >= floor then p else None
  {
    var all, near := EarlierDays(t, k, None), EarlierDays(t, k, Some(floor));
    assert near <= all;
    assert forall d :: d in all && d >= floor ==> d in near;
    if near != {} {
      assert Latest(near) in all;
      assert Latest(all) in near;
    } else if all != {} {
      assert Latest(all) in all;
    }
  }

  lemma RowAgreesIff(t: Table, k: RowKey, since: int)
    requires k in t && k.day >= since
    ensures WithDeltas(t, k, Some(since - 1)) == WithDeltas(t, k, None) <==> WindowSuffices(t, k, since)
  {
    LagInWindow(t, k, since - 1);
  }

  lemma WindowedRowIff(t: Table, k: RowKey, since: int)
    requires k in t
    requires k.day < since ==> t[k] == WithDeltas(t, k, None)
    ensures Recomputed(t, Some(since))[k] == Recomputed(t, None)[k]
      <==> k.day < since || WindowSuffices(t, k, since)
  {
    if k.day >= since {
      RowAgreesIff(t, k, since);
    }
  }

  ghost predicate EarlierRowsCorrect(t: Table, since: int) {
    forall k :: k in t && k.day < since ==> t[k] == WithDeltas(t, k, None)
  }

  ghost predicate WindowSufficesFrom(t: Table, since: int) {
    forall k :: k in t ==> k.day < since || WindowSuffices(t, k, since)
  }

  /**
   Over up-to-date earlier deltas, one windowed call leaves what a full recomputation would exactly
   when the window suffices for every row it updates; rows before `since` are never touched.
   */
  lemma WindowedCallAgreesIff(t: Table, since: int)
    requires EarlierRowsCorrect(t, since)
    ensures Recomputed(t, Some(since)) == Recomputed(t, None) <==> WindowSufficesFrom(t, since)
    ensures Recomputed(t, Some(since)).Keys == t.Keys
    ensures forall k :: k in t && k.day < since ==> Recomputed(t, Some(since))[k] == t[k]
  {
    var w, f := Recomputed(t, Some(since)), Recomputed(t, None);
    forall k | k in t
      ensures w[k] == f[k] <==> k.day < since || WindowSuffices(t, k, since)
    {
      WindowedRowIff(t, k, since);
    }
    SameMaps(w, f);
  }

  lemma SameMaps(w: Table, f: Table)
    requires w.Keys == f.Keys
    ensures w == f <==> forall k :: k in w ==> w[k] == f[k]
  {
  }

  // ---------- Runs of daily passes ----------

  datatype Pass = Pass(today: int, entries: seq<Entry>)

  function UpsertAll(t: Table, day: int, entries: seq<Entry>): Table {
    if entries == [] then t
    else Upserted(UpsertAll(t, day, entries[..|entries| - 1]), day, entries[|entries| - 1])
  }

  ghost function AfterPasses(passes: seq<Pass>): Table {
    if passes == [] then map[]
    else
      var last := passes[|passes| - 1];
      Recomputed(UpsertAll(AfterPasses(passes[..|passes| - 1]), last.today, last.entries), Some(last.today))
  }

  /** The clock's date never goes back; one day may see several passes. */
  predicate DatesNeverGoBack(passes: seq<Pass>) {
    forall i, j :: 0 <= i < j < |passes| ==> passes[i].today <= passes[j].today
  }

  /** Both deltas compare the row with the row of the day before, or with zero if there is none. */
  predicate DayOverDay(t: Table, k: RowKey)
    requires k in t
  {
    var y := k.DayBefore();
    t[k] == StepFrom(t[k], if y in t then Some(t[y]) else None)
  }

  ghost predicate UpToDate(t: Table, day: int) {
    forall k :: k in t ==> k.day <= day && DayOverDay(t, k)
  }

  lemma {:induction false} UpsertAllStaysOnDay(t: Table, day: int, entries: seq<Entry>)
    ensures var u := UpsertAll(t, day, entries);
            && (forall k :: k in t ==> k in u)
            && (forall k :: k in u && k.day != day ==> k in t && u[k] == t[k])
  {
    if entries != [] {
      UpsertAllStaysOnDay(t, day, entries[..|entries| - 1]);
    }
  }

  lemma LagOnLastDay(t: Table, k: RowKey)
    requires k in t
    ensures LagDay(t, k, Some(k.day - 1)) == if k.DayBefore() in t then Some(k.day - 1) else None
  {
    var days := EarlierDays(t, k, Some(k.day - 1));
    forall d | d in days
      ensures d == k.day - 1 && k.DayBefore() in t
    {
      var r :| r in t.Keys && r.SameSeries(k) && r.day < k.day && k.day - 1 <= r.day && r.day == d;
      assert r == k.DayBefore();
    }
    if k.DayBefore() in t {
      assert k.DayBefore().day in days;
    }
  }

  lemma PassKeepsDayOverDay(t: Table, today: int, entries: seq<Entry>)
    requires UpToDate(t, today)
    ensures UpToDate(Recomputed(UpsertAll(t, today, entries), Some(today)), today)
  {
    var u := UpsertAll(t, today, entries);
    UpsertAllStaysOnDay(t, today, entries);
    forall k | k in u
      ensures k.day <= today && DayOverDay(Recomputed(u, Some(today)), k)
    {
      if k.day == today {
        TodaysRow(u, k);
      } else {
        assert k in t && DayOverDay(t, k);
        EarlierRow(t, u, today, k);
      }
    }
  }

  lemma TodaysRow(u: Table, k: RowKey)
    requires k in u
    ensures DayOverDay(Recomputed(u, Some(k.day)), k)
  {
    LagOnLastDay(u, k);
    var r, y := Recomputed(u, Some(k.day)), k.DayBefore();
    assert y in u ==> r[y] == u[y];
    assert r[k] == WithDeltas(u, k, Some(k.day - 1));
  }

  lemma EarlierRow(t: Table, u: Table, today: int, k: RowKey)
    requires k in t && k in u && k.day < today && DayOverDay(t, k) && t[k] == u[k]
    requires k.DayBefore() in t <==> k.DayBefore() in u
    requires k.DayBefore() in t ==> t[k.DayBefore()] == u[k.DayBefore()]
    ensures DayOverDay(Recomputed(u, Some(today)), k)
  {
  }

  /** What every run leaves, with no assumption on which days have rows. */
  lemma {:induction false} RunsAreDayOverDay(passes: seq<Pass>)
    requires DatesNeverGoBack(passes)
    ensures passes == [] ==> AfterPasses(passes) == map[]
    ensures passes != [] ==> UpToDate(AfterPasses(passes), passes[|passes| - 1].today)
  {
    if passes != [] {
      var before, last := passes[..|passes| - 1], passes[|passes| - 1];
      assert forall i :: 0 <= i < |before| ==> before[i] == passes[i];
      RunsAreDayOverDay(before);
      PassKeepsDayOverDay(AfterPasses(before), last.today, last.entries);
    }
  }

  lemma RowEqualsFullIff(t: Table, k: RowKey)
    requires k in t && DayOverDay(t, k)
    ensures t[k] == WithDeltas(t, k, None) <==> WindowSuffices(t, k, k.day)
  {
    LagOnLastDay(t, k);
    RowAgreesIff(t, k, k.day);
  }

  /**
   A run's deltas equal a full recomputation exactly when every row's predecessor is the day
   before, or absent, or makes no difference.
   */
  lemma RunEqualsFullIff(passes: seq<Pass>)
    requires DatesNeverGoBack(passes)
    ensures var t := AfterPasses(passes);
            t == Recomputed(t, None) <==> forall k {:trigger WindowSuffices(t, k, k.day)} :: k in t ==> WindowSuffices(t, k, k.day)
  {
    RunsAreDayOverDay(passes);
    UpToDateEqualsFullIff(AfterPasses(passes), if passes == [] then 0 else passes[|passes| - 1].today);
  }

  lemma UpToDateEqualsFullIff(t: Table, day: int)
    requires UpToDate(t, day)
    ensures t == Recomputed(t, None) <==> forall k {:trigger WindowSuffices(t, k, k.day)} :: k in t ==> WindowSuffices(t, k, k.day)
  {
    var full := Recomputed(t, None);
    forall k | k in t
      ensures t[k] == full[k] <==> WindowSuffices(t, k, k.day)
    {
      RowEqualsFullIff(t, k);
    }
    SameMaps(t, full);
  }

  /** In particular: when no series skips a calendar day between its rows. */
  lemma RunWithoutGapsEqualsFull(passes: seq<Pass>)
    requires DatesNeverGoBack(passes)
    requires var t := AfterPasses(passes);
             forall k, r :: k in t && r in t && r.SameSeries(k) && r.day < k.day ==> k.DayBefore() in t
    ensures AfterPasses(passes) == Recomputed(AfterPasses(passes), None)
  {
    var t := AfterPasses(passes);
    forall k | k in t
      ensures WindowSuffices(t, k, k.day)
    {
      var days := EarlierDays(t, k, None);
      if days != {} {
        var m := Latest(days);
        var r :| r in t.Keys && r.SameSeries(k) && r.day < k.day && r.day == m;
        assert k.DayBefore().day in days;
      }
    }
    RunEqualsFullIff(passes);
  }

  // ---------- What a delta is ----------

  /** `p` is the latest earlier row of the series that the call sees. */
  predicate IsPredecessor(t: Table, k: RowKey, p: RowKey, since: Option<int>) {
    && p in t && p.SameSeries(k) && p.day < k.day && (since.Some? ==> since.value - 1 <= p.day)
    && forall q :: q in t && q.SameSeries(k) && q.day < k.day ==> q.day <= p.day
  }

  /** The growth from one value to the next, never below zero. */
  predicate IsGrowth(delta: int, from: int, value: int) {
    if value >= from then from + delta == value else delta == 0
  }

  /** Every updated row holds its growth over its predecessor, column by column, and is otherwise unchanged. */
  lemma UpdatedRowGrowth(t: Table, since: Option<int>, k: RowKey, p: RowKey)
    requires k in t && (since.Some? ==> since.value <= k.day) && IsPredecessor(t, k, p, since)
    ensures var row := Recomputed(t, since)[k];
            && IsGrowth(row.countDelta, t[p].count, t[k].count)
            && IsGrowth(row.uniquesDelta, t[p].uniques, t[k].uniques)
            && row.title == t[k].title && row.count == t[k].count && row.uniques == t[k].uniques
  {
    var floor := if since.Some? then Some(since.value - 1) else None;
    var days := EarlierDays(t, k, floor);
    assert p.day in days;
    LagIsARow(t, k, floor);
    var m := LagDay(t, k, floor).value;
    assert k.(day := m).SameSeries(k);
    assert m == p.day;
    assert p == k.(day := m);
  }

  /** A row with no earlier row in sight grew from nothing. */
  lemma FirstRowGrowth(t: Table, since: Option<int>, k: RowKey)
    requires k in t && (since.Some? ==> since.value <= k.day)
    requires forall q :: q in t && q.SameSeries(k) && q.day < k.day ==> since.Some? && q.day < since.value - 1
    ensures var row := Recomputed(t, since)[k];
            && IsGrowth(row.countDelta, 0, t[k].count)
            && IsGrowth(row.uniquesDelta, 0, t[k].uniques)
            && row.title == t[k].title && row.count == t[k].count && row.uniques == t[k].uniques
  {
    var floor := if since.Some? then Some(since.value - 1) else None;
    assert EarlierDays(t, k, floor) == {};
  }

  /** After any run of passes, each row's growth is over the row of the day before, or over nothing. */
  lemma RunGrowth(passes: seq<Pass>, k: RowKey)
    requires DatesNeverGoBack(passes) && k in AfterPasses(passes)
    ensures var t, y := AfterPasses(passes), k.DayBefore();
            && IsGrowth(t[k].countDelta, if y in t then t[y].count else 0, t[k].count)
            && IsGrowth(t[k].uniquesDelta, if y in t then t[y].uniques else 0, t[k].uniques)
  {
    RunsAreDayOverDay(passes);
    assert DayOverDay(AfterPasses(passes), k);
  }

  /** Within a day counts and uniques only grow, each to the greater of old and new; nothing else moves. */
  lemma UpsertKeepsTheGreater(t: Table, day: int, e: Entry)
    ensures var after, k := Upserted(t, day, e), RowKey(e.repo, e.name, day);
            && k in after && after[k].title == e.title
            && after[k].count >= e.count && after[k].uniques >= e.uniques
            && (k in t ==> after[k].count >= t[k].count && after[k].uniques >= t[k].uniques)
            && (after[k].count == e.count || (k in t && after[k].count == t[k].count))
            && (after[k].uniques == e.uniques || (k in t && after[k].uniques == t[k].uniques))
            && (k in t ==> after[k].countDelta == t[k].countDelta && after[k].uniquesDelta == t[k].uniquesDelta)
            && after.Keys == t.Keys + {k} && forall r :: r in t && r != k ==> after[r] == t[r]
  {
  }
}
