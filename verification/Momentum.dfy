/**
 Clone momentum: the ratio of the last `window` days to the `window` days before, computed directly
 from two range queries, and as a rolling series over a calendar without gaps.
 Ratios are real numbers; the rounding of floating point is not part of this model.
 */
module Momentum {
  import opened Wrappers
  import opened DayRows

  datatype Window = Window(from: int, to: int)

  function UtcWindow(now: int, daysBackEnd: int, spanDays: int): Window {
    var end := now - daysBackEnd;
    Window(end - (spanDays - 1), end)
  }

  function Change(last: int, prev: int): real {
    (last - prev) as real / (if prev < 1 then 1 else prev) as real
  }

  /** The momentum of a table on a day: its last `w` days against the `w` before them. */
  function Ratio(t: Table, now: int, w: int): real {
    Change(SumDays(t, now - w + 1, now), SumDays(t, now - 2 * w + 1, now - w))
  }

  /** Growing the earlier window's count by the ratio gives the later one's; from nothing it is the count itself. */
  lemma RatioMeaning(t: Table, now: int, w: int)
    requires w >= 1
    ensures var last, prev := SumDays(t, now - w + 1, now), SumDays(t, now - 2 * w + 1, now - w);
            && (prev >= 1 ==> prev as real * (1.0 + Ratio(t, now, w)) == last as real)
            && (prev < 1 ==> Ratio(t, now, w) == (last - prev) as real)
  {
    var last, prev := SumDays(t, now - w + 1, now), SumDays(t, now - 2 * w + 1, now - w);
    if prev >= 1 {
      GrowsTo(last as real, prev as real);
    }
  }

  lemma GrowsTo(last: real, prev: real)
    requires prev > 0.0
    ensures prev * (1.0 + (last - prev) / prev) == last
  {
    assert (last - prev) / prev * prev == last - prev;
  }

  method CloneMomentumRatio(t: Table, now: int, window: int) returns (r: real)
    ensures r == Ratio(t, now, window)
  {
    var last, prev := UtcWindow(now, 0, window), UtcWindow(now, window, window);
    SumOfRange(t, last.from, last.to);
    SumOfRange(t, prev.from, prev.to);
    var lastN := SumDayCountRows(RowsInRange(t, last.from, last.to));
    var prevN := SumDayCountRows(RowsInRange(t, prev.from, prev.to));
    var denom := prevN;
    if denom < 1 {
      denom := 1;
    }
    r := (lastN - prevN) as real / denom as real;
  }

  // ---------- The calendar without gaps ----------

  function Earliest(rows: seq<DayRow>): int
    requires rows != []
  {
    var last := rows[|rows| - 1].date;
    if |rows| == 1 then last
    else
      var rest := Earliest(rows[..|rows| - 1]);
      if last < rest then last else rest
  }

  function Latest(rows: seq<DayRow>): int
    requires rows != []
  {
    var last := rows[|rows| - 1].date;
    if |rows| == 1 then last
    else
      var rest := Latest(rows[..|rows| - 1]);
      if last > rest then last else rest
  }

  function FirstDay(rows: seq<DayRow>, calendarFrom: Option<int>): int
    requires rows != []
  {
    if calendarFrom.Some? && calendarFrom.value < Earliest(rows) then calendarFrom.value else Earliest(rows)
  }

  lemma {:induction false} RowsLieBetween(rows: seq<DayRow>)
    requires rows != []
    ensures Earliest(rows) <= Latest(rows)
    ensures forall i :: 0 <= i < |rows| ==> Earliest(rows) <= rows[i].date <= Latest(rows)
    ensures exists i :: 0 <= i < |rows| && rows[i].date == Earliest(rows)
    ensures exists i :: 0 <= i < |rows| && rows[i].date == Latest(rows)
  {
    var front := rows[..|rows| - 1];
    if front != [] {
      RowsLieBetween(front);
      assert forall i :: 0 <= i < |front| ==> front[i] == rows[i];
      var i :| 0 <= i < |front| && front[i].date == Earliest(front);
      var j :| 0 <= j < |front| && front[j].date == Latest(front);
      assert rows[i].date == Earliest(front) && rows[j].date == Latest(front);
    }
    assert rows[|rows| - 1].date == rows[|rows| - 1].date;
  }

  /** Every day of a range, in order. */
  function DaysBetween(from: int, to: int): (days: seq<int>) {
    seq(if from > to then 0 else to - from + 1, i => from + i)
  }

  type Counts = map<int, int>

  /** `counts` says for every day what the rows say, and zero where they say nothing. */
  predicate CountsRows(counts: Counts, rows: seq<DayRow>, days: seq<int>) {
    forall i :: 0 <= i < |days| ==> days[i] in counts && counts[days[i]] == CountOn(PutAll(map[], rows), days[i])
  }

  function CountsOf(rows: seq<DayRow>): Counts {
    if rows == [] then map[]
    else CountsOf(rows[..|rows| - 1])[rows[|rows| - 1].date := rows[|rows| - 1].cell.count]
  }

  lemma {:induction false} CountsOfAt(rows: seq<DayRow>, d: int)
    ensures d in CountsOf(rows) <==> d in PutAll(map[], rows)
    ensures d in CountsOf(rows) ==> CountsOf(rows)[d] == PutAll(map[], rows)[d].count
  {
    if rows != [] {
      CountsOfAt(rows[..|rows| - 1], d);
    }
  }

  method DenseDailyCounts(rows: seq<DayRow>, calendarFrom: Option<int>) returns (days: seq<int>, counts: Counts)
    ensures rows == [] ==> days == []
    ensures rows != [] ==> days == DaysBetween(FirstDay(rows, calendarFrom), Latest(rows))
    ensures CountsRows(counts, rows, days)
  {
    days, counts := [], map[];
    if |rows| == 0 {
      return;
    }
    var minD, maxD := 0, 0;
    for i := 0 to |rows|
      invariant counts == CountsOf(rows[..i])
      invariant i > 0 ==> minD == Earliest(rows[..i]) && maxD == Latest(rows[..i])
    {
      assert rows[..i + 1][..i] == rows[..i];
      var d := rows[i].date;
      counts := counts[d := rows[i].cell.count];
      if i == 0 || d < minD {
        minD := d;
      }
      if i == 0 || d > maxD {
        maxD := d;
      }
    }
    assert rows[..|rows|] == rows;
    if calendarFrom.Some? && calendarFrom.value < minD {
      minD := calendarFrom.value;
    }
    days, counts := FillGaps(minD, maxD, CountsOf(rows));
    forall i | 0 <= i < |days|
      ensures counts[days[i]] == CountOn(PutAll(map[], rows), days[i])
    {
      CountsOfAt(rows, days[i]);
    }
  }

  method FillGaps(minD: int, maxD: int, known: Counts) returns (days: seq<int>, counts: Counts)
    ensures days == DaysBetween(minD, maxD)
    ensures forall i :: 0 <= i < |days| ==>
              days[i] in counts && counts[days[i]] == if days[i] in known then known[days[i]] else 0
  {
    days, counts := [], known;
    var d := minD;
    while d <= maxD
      invariant minD <= d && (d == minD || d <= maxD + 1)
      invariant days == DaysBetween(minD, d - 1)
      invariant forall x :: minD <= x < d ==> x in counts && counts[x] == if x in known then known[x] else 0
      invariant forall x :: x >= d ==> (x in counts <==> x in known) && (x in known ==> counts[x] == known[x])
      decreases maxD - d
    {
      days := days + [d];
      if d !in counts {
        counts := counts[d := 0];
      }
      d := d + 1;
    }
    assert days == DaysBetween(minD, maxD);
    forall i | 0 <= i < |days|
      ensures days[i] in counts && counts[days[i]] == if days[i] in known then known[days[i]] else 0
    {
      assert minD <= days[i] < d;
    }
  }

  // ---------- The rolling series ----------

  datatype Series = Series(labels: seq<int>, values: seq<real>)

  /** A point for every day with `2 * w` days of calendar behind it, the direct ratio on that day. */
  function RollingSeries(rows: seq<DayRow>, w: int, calendarFrom: Option<int>): Series
    requires w >= 1
  {
    if rows == [] then Series([], [])
    else
      var labels := DaysBetween(FirstDay(rows, calendarFrom) + 2 * w - 1, Latest(rows));
      Series(labels, seq(|labels|, k requires 0 <= k < |labels| => Ratio(PutAll(map[], rows), labels[k], w)))
  }

  lemma SumDaysSnoc(t: Table, from: int, to: int)
    requires from <= to
    ensures SumDays(t, from, to) == SumDays(t, from, to - 1) + CountOn(t, to)
  {
    SumDaysSplit(t, from, to, to);
    assert SumDays(t, to, to) == CountOn(t, to) + SumDays(t, to + 1, to);
  }

  /** `for j := from; j <= to; j++ { sum += counts[days[j]] }`. */
  method SumWindow(days: seq<int>, counts: Counts, from: nat, to: nat, ghost t: Table) returns (sum: int)
    requires from <= to < |days|
    requires forall i :: 0 <= i < |days| ==> days[i] == days[0] + i
    requires forall i :: 0 <= i < |days| ==> days[i] in counts && counts[days[i]] == CountOn(t, days[i])
    ensures sum == SumDays(t, days[from], days[to])
  {
    sum := 0;
    for j := from to to + 1
      invariant sum == SumDays(t, days[from], days[0] + j - 1)
    {
      SumDaysSnoc(t, days[from], days[j]);
      sum := sum + counts[days[j]];
    }
  }

  /** The body of the rolling loop at position `i`. */
  method RollingPoint(days: seq<int>, counts: Counts, i: nat, window: int, ghost t: Table) returns (r: real)
    requires window >= 1 && 2 * window - 1 <= i < |days|
    requires forall k :: 0 <= k < |days| ==> days[k] == days[0] + k
    requires forall k :: 0 <= k < |days| ==> days[k] in counts && counts[days[k]] == CountOn(t, days[k])
    ensures r == Ratio(t, days[i], window)
  {
    var last := SumWindow(days, counts, i - window + 1, i, t);
    var prev := SumWindow(days, counts, i - 2 * window + 1, i - window, t);
    var denom := prev;
    if denom < 1 {
      denom := 1;
    }
    r := (last - prev) as real / denom as real;
  }

  method CloneMomentumSeries(rows: seq<DayRow>, window: int, calendarFrom: Option<int>)
    returns (labels: seq<int>, values: seq<real>)
    requires window >= 1
    ensures Series(labels, values) == RollingSeries(rows, window, calendarFrom)
  {
    labels, values := [], [];
    var days, counts := DenseDailyCounts(rows, calendarFrom);
    if |days| < 2 * window {
      return;
    }
    ghost var t := PutAll(map[], rows);
    for i := 2 * window - 1 to |days|
      invariant |labels| == |values| == i - (2 * window - 1)
      invariant forall k :: 0 <= k < |labels| ==>
                  labels[k] == days[2 * window - 1 + k] && values[k] == Ratio(t, labels[k], window)
    {
      var point := RollingPoint(days, counts, i, window, t);
      labels := labels + [days[i]];
      values := values + [point];
    }
  }

  // ---------- Rows read from a table ----------

  predicate HasRowIn(t: Table, from: int, to: int) {
    RowsInRange(t, from, to) != []
  }

  function LatestDay(t: Table, from: int, to: int): int
    requires HasRowIn(t, from, to)
  {
    Latest(RowsInRange(t, from, to))
  }

  lemma RowsInRangeCount(t: Table, from: int, to: int, d: int)
    requires from <= d <= to
    ensures CountOn(PutAll(map[], RowsInRange(t, from, to)), d) == CountOn(t, d)
  {
    var rows := RowsInRange(t, from, to);
    RangeQueryRows(t, from, to);
    PutAllDays(rows, d);
    if d in t {
      assert DayRow(d, t[d]) in rows;
      var i :| 0 <= i < |rows| && rows[i] == DayRow(d, t[d]);
      PutAllKeeps(rows, i);
    }
  }

  lemma RatioOfFetchedRows(t: Table, from: int, to: int, d: int, w: int)
    requires w >= 1 && from <= d - 2 * w + 1 && d <= to
    ensures Ratio(PutAll(map[], RowsInRange(t, from, to)), d, w) == Ratio(t, d, w)
  {
    var u := PutAll(map[], RowsInRange(t, from, to));
    forall x | from <= x <= to
      ensures CountOn(u, x) == CountOn(t, x)
    {
      RowsInRangeCount(t, from, to, x);
    }
    SumDaysDependsOnDays(u, t, d - w + 1, d);
    SumDaysDependsOnDays(u, t, d - 2 * w + 1, d - w);
  }

  /**
   Over rows fetched from `from` on, with the calendar starting there too, the series has a point on
   exactly the days from `from + 2w - 1` to the latest row, and each is what two range queries over
   the whole table give for that day.
   */
  lemma RollingIsDirect(t: Table, from: int, to: int, w: int)
    requires w >= 1
    ensures var s := RollingSeries(RowsInRange(t, from, to), w, Some(from));
            && |s.values| == |s.labels|
            && s.labels == (if HasRowIn(t, from, to) then DaysBetween(from + 2 * w - 1, LatestDay(t, from, to)) else [])
            && forall k :: 0 <= k < |s.labels| ==> s.values[k] == Ratio(t, s.labels[k], w)
  {
    var rows := RowsInRange(t, from, to);
    if rows != [] {
      RangeQueryRows(t, from, to);
      RowsLieBetween(rows);
      assert FirstDay(rows, Some(from)) == from;
      assert Latest(rows) <= to;
      var s := RollingSeries(rows, w, Some(from));
      forall k | 0 <= k < |s.labels|
        ensures s.values[k] == Ratio(t, s.labels[k], w)
      {
        RatioOfFetchedRows(t, from, to, s.labels[k], w);
      }
    }
  }
}
