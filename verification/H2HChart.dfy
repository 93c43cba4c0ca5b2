/**
 The data of the head-to-head charts: the union of two repositories' days, the range shown, and the
 earlier rows fetched so that every momentum point shown has its full history behind it.
 */
module H2HChart {
  import opened Wrappers
  import opened Calendar
  import opened DayRows
  import opened SortedInts
  import opened Momentum

  datatype Interval = SevenDays | ThirtyDays | AllTime {
    predicate HasMomentum() {
      !AllTime?
    }

    function MomentumWindowDays(): nat {
      match this
      case ThirtyDays => 30
      case SevenDays => 7
      case AllTime => 0
    }

    function ChartSpanDays(): nat {
      match this
      case ThirtyDays => 30
      case AllTime => 0
      case SevenDays => 7
    }

    function CloneHistoryDays(): nat {
      var span := ChartSpanDays();
      if span == 0 then 0 else if !HasMomentum() then span else span + 2 * MomentumWindowDays()
    }
  }

  datatype ChartDates = ChartDates(chartFrom: int, fetchFrom: int)

  function H2HChartFromDates(now: int, interval: Interval): ChartDates {
    if interval.ChartSpanDays() == 0 then
      var from := DayNumber(RawDate(2000, 1, 1));
      ChartDates(from, from)
    else ChartDates(now - interval.ChartSpanDays(), now - interval.CloneHistoryDays())
  }

  /** The first day shown, and how much earlier rows are fetched: two windows before it. */
  lemma FirstDayShown(now: int)
    ensures H2HChartFromDates(now, SevenDays) == ChartDates(now - 7, now - 21)
    ensures H2HChartFromDates(now, ThirtyDays) == ChartDates(now - 30, now - 90)
  {
  }

  // ---------- Unions ----------

  /** The value a series gives to a day; of several the last. */
  function ValueOn(labels: seq<int>, values: seq<real>, d: int): Option<real>
    requires |labels| == |values|
  {
    if labels == [] then None
    else
      var n := |labels| - 1;
      if labels[n] == d then Some(values[n]) else ValueOn(labels[..n], values[..n], d)
  }

  lemma {:induction false} ValueOnMeaning(labels: seq<int>, values: seq<real>, d: int)
    requires |labels| == |values| && StrictlyAscending(labels)
    ensures d in labels <==> ValueOn(labels, values, d).Some?
    ensures forall k :: 0 <= k < |labels| && labels[k] == d ==> ValueOn(labels, values, d) == Some(values[k])
  {
    if labels != [] {
      var n := |labels| - 1;
      ValueOnMeaning(labels[..n], values[..n], d);
      assert labels == labels[..n] + [labels[n]];
    }
  }

  predicate IsColumn(out: seq<Option<real>>, labels: seq<int>, ls: seq<int>, vs: seq<real>)
    requires |ls| == |vs|
  {
    |out| == |labels| && forall i :: 0 <= i < |labels| ==> out[i] == ValueOn(ls, vs, labels[i])
  }

  method ToMap(ls: seq<int>, vs: seq<real>) returns (m: map<int, real>)
    requires |ls| == |vs|
    ensures forall d :: (d in m <==> ValueOn(ls, vs, d).Some?) && (d in m ==> ValueOn(ls, vs, d) == Some(m[d]))
    ensures forall d :: d in m <==> d in ls
  {
    m := map[];
    for i := 0 to |ls|
      invariant forall d :: (d in m <==> ValueOn(ls[..i], vs[..i], d).Some?)
                  && (d in m ==> ValueOn(ls[..i], vs[..i], d) == Some(m[d]))
      invariant forall d :: d in m <==> d in ls[..i]
    {
      assert ls[..i + 1][..i] == ls[..i] && vs[..i + 1][..i] == vs[..i];
      assert ls[..i + 1] == ls[..i] + [ls[i]];
      m := m[ls[i] := vs[i]];
    }
    assert ls[..|ls|] == ls && vs[..|vs|] == vs;
  }

  method Column(labels: seq<int>, m: map<int, real>) returns (out: seq<Option<real>>)
    ensures |out| == |labels|
    ensures forall i :: 0 <= i < |labels| ==> out[i] == if labels[i] in m then Some(m[labels[i]]) else None
  {
    out := [];
    for i := 0 to |labels|
      invariant |out| == i
      invariant forall k :: 0 <= k < i ==> out[k] == if labels[k] in m then Some(m[labels[k]]) else None
    {
      out := out + [if labels[i] in m then Some(m[labels[i]]) else None];
    }
  }

  /** The union loses no value and moves none: each column says on a day what its series says. */
  method AlignNullableFloatSeries(la: seq<int>, va: seq<real>, lb: seq<int>, vb: seq<real>)
    returns (labels: seq<int>, outA: seq<Option<real>>, outB: seq<Option<real>>)
    requires |la| == |va| && |lb| == |vb|
    ensures StrictlyAscending(labels) && forall d :: d in labels <==> d in la || d in lb
    ensures IsColumn(outA, labels, la, va) && IsColumn(outB, labels, lb, vb)
  {
    var mA := ToMap(la, va);
    var mB := ToMap(lb, vb);
    labels := SortedSet(mA.Keys + mB.Keys);
    outA := Column(labels, mA);
    outB := Column(labels, mB);
  }

  method AlignMomentumSeries(a: seq<DayRow>, b: seq<DayRow>, window: int, calendarFrom: Option<int>)
    returns (labels: seq<int>, momA: seq<Option<real>>, momB: seq<Option<real>>)
    ensures window < 1 ==> labels == [] && momA == [] && momB == []
    ensures window >= 1 ==>
              var sa, sb := RollingSeries(a, window, calendarFrom), RollingSeries(b, window, calendarFrom);
              && StrictlyAscending(labels) && (forall d :: d in labels <==> d in sa.labels || d in sb.labels)
              && |sa.labels| == |sa.values| && |sb.labels| == |sb.values|
              && IsColumn(momA, labels, sa.labels, sa.values) && IsColumn(momB, labels, sb.labels, sb.values)
  {
    if window < 1 {
      return [], [], [];
    }
    var la, va := CloneMomentumSeries(a, window, calendarFrom);
    var lb, vb := CloneMomentumSeries(b, window, calendarFrom);
    assert Series(la, va) == RollingSeries(a, window, calendarFrom);
    assert Series(lb, vb) == RollingSeries(b, window, calendarFrom);
    labels, momA, momB := AlignNullableFloatSeries(la, va, lb, vb);
  }

  ghost predicate IsUnionOf(labels: seq<int>, a: Table, b: Table) {
    StrictlyAscending(labels) && forall d :: d in labels <==> d in a || d in b
  }

  predicate CountsOn(out: seq<int>, labels: seq<int>, t: Table) {
    |out| == |labels| && forall i :: 0 <= i < |labels| ==> out[i] == CountOn(t, labels[i])
  }

  method AlignDayRows(a: seq<DayRow>, b: seq<DayRow>)
    returns (labels: seq<int>, outA: seq<int>, outB: seq<int>)
    ensures IsUnionOf(labels, PutAll(map[], a), PutAll(map[], b))
    ensures CountsOn(outA, labels, PutAll(map[], a)) && CountsOn(outB, labels, PutAll(map[], b))
  {
    var mA := CountMap(a);
    var mB := CountMap(b);
    labels := SortedSet(mA.Keys + mB.Keys);
    outA := CountColumn(labels, mA);
    outB := CountColumn(labels, mB);
  }

  method CountMap(rows: seq<DayRow>) returns (m: Counts)
    ensures forall d :: (d in m <==> d in PutAll(map[], rows)) && (d in m ==> m[d] == PutAll(map[], rows)[d].count)
  {
    m := map[];
    for i := 0 to |rows|
      invariant m == CountsOf(rows[..i])
    {
      assert rows[..i + 1][..i] == rows[..i];
      m := m[rows[i].date := rows[i].cell.count];
    }
    assert rows[..|rows|] == rows;
    forall d {
      CountsOfAt(rows, d);
    }
  }

  method CountColumn(labels: seq<int>, m: Counts) returns (out: seq<int>)
    ensures |out| == |labels|
    ensures forall i :: 0 <= i < |labels| ==> out[i] == if labels[i] in m then m[labels[i]] else 0
  {
    out := [];
    for i := 0 to |labels|
      invariant |out| == i
      invariant forall k :: 0 <= k < i ==> out[k] == if labels[k] in m then m[labels[k]] else 0
    {
      out := out + [if labels[i] in m then m[labels[i]] else 0];
    }
  }

  // ---------- Trimming to the range shown ----------

  function RowsFrom(rows: seq<DayRow>, from: int): seq<DayRow> {
    if rows == [] then []
    else
      var r := rows[|rows| - 1];
      RowsFrom(rows[..|rows| - 1], from) + (if r.date >= from then [r] else [])
  }

  method TrimDayRowsFrom(rows: seq<DayRow>, from: Option<int>) returns (out: seq<DayRow>)
    ensures out == if from.None? then rows else RowsFrom(rows, from.value)
  {
    if from.None? {
      return rows;
    }
    out := [];
    for i := 0 to |rows|
      invariant out == RowsFrom(rows[..i], from.value)
    {
      assert rows[..i + 1][..i] == rows[..i];
      if rows[i].date >= from.value {
        out := out + [rows[i]];
      }
    }
    assert rows[..|rows|] == rows;
  }

  lemma {:induction false} RowsFromConcat(a: seq<DayRow>, b: seq<DayRow>, from: int)
    ensures RowsFrom(a + b, from) == RowsFrom(a, from) + RowsFrom(b, from)
  {
    if b == [] {
      assert a + b == a;
    } else {
      assert (a + b)[..|a + b| - 1] == a + b[..|b| - 1];
      RowsFromConcat(a, b[..|b| - 1], from);
    }
  }

  /** Trimming the rows fetched for the history gives what a query of the chart's range would. */
  lemma {:induction false} TrimmedIsRangeQuery(t: Table, fetchFrom: int, from: int, to: int)
    requires fetchFrom <= from
    ensures RowsFrom(RowsInRange(t, fetchFrom, to), from) == RowsInRange(t, from, to)
    decreases 1 + to - fetchFrom
  {
    if fetchFrom == from {
      TrimmingKeepsAll(t, from, fetchFrom, to);
    } else if fetchFrom <= to {
      var head := if fetchFrom in t then [DayRow(fetchFrom, t[fetchFrom])] else [];
      RowsFromConcat(head, RowsInRange(t, fetchFrom + 1, to), from);
      TrimmedIsRangeQuery(t, fetchFrom + 1, from, to);
      assert head != [] ==> RowsFrom(head[..0], from) == [];
    }
  }

  lemma {:induction false} TrimmingKeepsAll(t: Table, from: int, low: int, to: int)
    requires from <= low
    ensures RowsFrom(RowsInRange(t, low, to), from) == RowsInRange(t, low, to)
    decreases 1 + to - low
  {
    if low <= to {
      var head := if low in t then [DayRow(low, t[low])] else [];
      TrimmingKeepsAll(t, from, low + 1, to);
      RowsFromConcat(head, RowsInRange(t, low + 1, to), from);
      assert head != [] ==> RowsFrom(head[..0], from) == [];
    }
  }

  /** How many labels lie before `from`. */
  function Before(labels: seq<int>, from: int): (n: nat)
    ensures n <= |labels|
  {
    if labels == [] then 0
    else Before(labels[..|labels| - 1], from) + (if labels[|labels| - 1] < from then 1 else 0)
  }

  lemma {:induction false} BeforeCuts(labels: seq<int>, from: int)
    requires StrictlyAscending(labels)
    ensures forall i :: 0 <= i < |labels| ==> (labels[i] < from <==> i < Before(labels, from))
  {
    if labels != [] {
      var front := labels[..|labels| - 1];
      BeforeCuts(front, from);
      assert forall i :: 0 <= i < |front| ==> front[i] == labels[i] < labels[|front|];
      if |front| > 0 {
        assert labels[|front| - 1] == front[|front| - 1];
      }
    }
  }

  /** What stands beside the labels on or after `from`, as far as `a` reaches. */
  function Kept<T>(labels: seq<int>, a: seq<T>, from: int): seq<T> {
    if labels == [] then []
    else
      var n := |labels| - 1;
      Kept(labels[..n], a, from) + (if labels[n] >= from && n < |a| then [a[n]] else [])
  }

  method TrimFloatSeriesFrom(labels: seq<int>, a: seq<Option<real>>, b: seq<Option<real>>, from: Option<int>)
    returns (outL: seq<int>, outA: seq<Option<real>>, outB: seq<Option<real>>)
    ensures from.None? || labels == [] ==> outL == labels && outA == a && outB == b
    ensures from.Some? && labels != [] ==> outL == Kept(labels, labels, from.value)
    ensures from.Some? && labels != [] ==> outA == Kept(labels, a, from.value) && outB == Kept(labels, b, from.value)
  {
    if from.None? || |labels| == 0 {
      return labels, a, b;
    }
    outL, outA, outB := [], [], [];
    for i := 0 to |labels|
      invariant outL == Kept(labels[..i], labels, from.value)
      invariant outA == Kept(labels[..i], a, from.value)
      invariant outB == Kept(labels[..i], b, from.value)
    {
      assert labels[..i + 1][..i] == labels[..i];
      if labels[i] >= from.value {
        outL := outL + [labels[i]];
        if i < |a| {
          outA := outA + [a[i]];
        }
        if i < |b| {
          outB := outB + [b[i]];
        }
      }
    }
    assert labels[..|labels|] == labels;
  }

  /** On ascending labels trimming drops a prefix, and the same prefix of every column. */
  lemma {:induction false} KeptIsSuffix<T>(labels: seq<int>, a: seq<T>, from: int)
    requires StrictlyAscending(labels) && |labels| <= |a|
    ensures Kept(labels, a, from) == a[Before(labels, from)..|labels|]
  {
    if labels != [] {
      var n := |labels| - 1;
      var front := labels[..n];
      KeptIsSuffix(front, a, from);
      BeforeCuts(labels, from);
      if labels[n] >= from {
        assert a[Before(labels, from)..n] + [a[n]] == a[Before(labels, from)..|labels|];
      } else {
        AllBefore(front, from);
      }
    }
  }

  lemma {:induction false} AllBefore(labels: seq<int>, from: int)
    requires forall i :: 0 <= i < |labels| ==> labels[i] < from
    ensures Before(labels, from) == |labels|
  {
    if labels != [] {
      AllBefore(labels[..|labels| - 1], from);
    }
  }

  // ---------- The chart ----------

  datatype Chart = Chart(
    cloneLabels: seq<int>, clonesA: seq<int>, clonesB: seq<int>,
    viewLabels: seq<int>, viewsA: seq<int>, viewsB: seq<int>,
    momentumLabels: seq<int>, momentumA: seq<Option<real>>, momentumB: seq<Option<real>>)

  function InRange(t: Table, from: int, to: int): Table {
    map d | d in t && from <= d <= to :: t[d]
  }

  /** A label for each day of the range on which either repository has a row, with both counts. */
  ghost predicate ShowsCounts(labels: seq<int>, outA: seq<int>, outB: seq<int>, a: Table, b: Table, from: int, to: int) {
    && IsUnionOf(labels, InRange(a, from, to), InRange(b, from, to))
    && CountsOn(outA, labels, a) && CountsOn(outB, labels, b)
  }

  /** The direct ratio on every shown day up to the repository's latest fetched row, else nothing. */
  function MomentumOn(t: Table, now: int, interval: Interval, d: int): Option<real> {
    var dates := H2HChartFromDates(now, interval);
    if HasRowIn(t, dates.fetchFrom, now) && dates.chartFrom <= d <= LatestDay(t, dates.fetchFrom, now)
    then Some(Ratio(t, d, interval.MomentumWindowDays())) else None
  }

  predicate IsMomentumOf(out: seq<Option<real>>, labels: seq<int>, t: Table, now: int, interval: Interval) {
    |out| == |labels| && forall i :: 0 <= i < |labels| ==> out[i] == MomentumOn(t, now, interval, labels[i])
  }

  ghost predicate ShowsMomentum(
    labels: seq<int>, momA: seq<Option<real>>, momB: seq<Option<real>>, a: Table, b: Table, now: int, interval: Interval) {
    && StrictlyAscending(labels)
    && (forall d :: d in labels <==> MomentumOn(a, now, interval, d).Some? || MomentumOn(b, now, interval, d).Some?)
    && IsMomentumOf(momA, labels, a, now, interval) && IsMomentumOf(momB, labels, b, now, interval)
  }

  method BuildH2HChart(clonesA: Table, clonesB: Table, viewsA: Table, viewsB: Table, now: int, interval: Interval)
    returns (chart: Chart)
    ensures var from := H2HChartFromDates(now, interval).chartFrom;
            && ShowsCounts(chart.cloneLabels, chart.clonesA, chart.clonesB, clonesA, clonesB, from, now)
            && ShowsCounts(chart.viewLabels, chart.viewsA, chart.viewsB, viewsA, viewsB, from, now)
    ensures interval.HasMomentum() ==>
              ShowsMomentum(chart.momentumLabels, chart.momentumA, chart.momentumB, clonesA, clonesB, now, interval)
    ensures !interval.HasMomentum() ==> chart.momentumLabels == [] && chart.momentumA == [] && chart.momentumB == []
  {
    var dates := H2HChartFromDates(now, interval);
    var clA := RowsInRange(clonesA, dates.fetchFrom, now);
    var clB := RowsInRange(clonesB, dates.fetchFrom, now);
    TrimmedIsRangeQuery(clonesA, dates.fetchFrom, dates.chartFrom, now);
    TrimmedIsRangeQuery(clonesB, dates.fetchFrom, dates.chartFrom, now);
    var clAChart := TrimDayRowsFrom(clA, Some(dates.chartFrom));
    var clBChart := TrimDayRowsFrom(clB, Some(dates.chartFrom));
    var clLabels, clAcounts, clBcounts := AlignDayRows(clAChart, clBChart);
    RangeAlignment(clLabels, clAcounts, clBcounts, clonesA, clonesB, dates.chartFrom, now);
    var vA := RowsInRange(viewsA, dates.chartFrom, now);
    var vB := RowsInRange(viewsB, dates.chartFrom, now);
    var vLabels, vAcounts, vBcounts := AlignDayRows(vA, vB);
    RangeAlignment(vLabels, vAcounts, vBcounts, viewsA, viewsB, dates.chartFrom, now);
    var mLabels: seq<int>, mA: seq<Option<real>>, mB: seq<Option<real>> := [], [], [];
    if interval.HasMomentum() {
      mLabels, mA, mB := MomentumColumns(clonesA, clonesB, now, interval);
    }
    chart := Chart(clLabels, clAcounts, clBcounts, vLabels, vAcounts, vBcounts, mLabels, mA, mB);
  }

  lemma RangeRowsAsTable(t: Table, from: int, to: int, d: int)
    ensures d in PutAll(map[], RowsInRange(t, from, to)) <==> d in InRange(t, from, to)
    ensures d in InRange(t, from, to) ==> CountOn(PutAll(map[], RowsInRange(t, from, to)), d) == CountOn(t, d)
  {
    RangeQueryRows(t, from, to);
    PutAllDays(RowsInRange(t, from, to), d);
    if d in InRange(t, from, to) {
      RowsInRangeCount(t, from, to, d);
      assert DayRow(d, t[d]) in RowsInRange(t, from, to);
    }
  }

  lemma RangeAlignment(labels: seq<int>, outA: seq<int>, outB: seq<int>, a: Table, b: Table, from: int, to: int)
    requires IsUnionOf(labels, PutAll(map[], RowsInRange(a, from, to)), PutAll(map[], RowsInRange(b, from, to)))
    requires CountsOn(outA, labels, PutAll(map[], RowsInRange(a, from, to)))
    requires CountsOn(outB, labels, PutAll(map[], RowsInRange(b, from, to)))
    ensures ShowsCounts(labels, outA, outB, a, b, from, to)
  {
    forall d
      ensures d in PutAll(map[], RowsInRange(a, from, to)) <==> d in InRange(a, from, to)
      ensures d in PutAll(map[], RowsInRange(b, from, to)) <==> d in InRange(b, from, to)
    {
      RangeRowsAsTable(a, from, to, d);
      RangeRowsAsTable(b, from, to, d);
    }
    assert IsUnionOf(labels, InRange(a, from, to), InRange(b, from, to));
    forall i | 0 <= i < |labels|
      ensures from <= labels[i] <= to
    {
      assert labels[i] in labels;
    }
    RangeColumn(labels, outA, a, from, to);
    RangeColumn(labels, outB, b, from, to);
  }

  lemma RangeColumn(labels: seq<int>, out: seq<int>, t: Table, from: int, to: int)
    requires CountsOn(out, labels, PutAll(map[], RowsInRange(t, from, to)))
    requires forall i :: 0 <= i < |labels| ==> from <= labels[i] <= to
    ensures CountsOn(out, labels, t)
  {
    forall i | 0 <= i < |labels|
      ensures out[i] == CountOn(t, labels[i])
    {
      RowsInRangeCount(t, from, to, labels[i]);
    }
  }

  method MomentumColumns(a: Table, b: Table, now: int, interval: Interval)
    returns (labels: seq<int>, momA: seq<Option<real>>, momB: seq<Option<real>>)
    requires interval.HasMomentum()
    ensures ShowsMomentum(labels, momA, momB, a, b, now, interval)
  {
    var dates, w := H2HChartFromDates(now, interval), interval.MomentumWindowDays();
    var rowsA, rowsB := RowsInRange(a, dates.fetchFrom, now), RowsInRange(b, dates.fetchFrom, now);
    var all, allA, allB := AlignMomentumSeries(rowsA, rowsB, w, Some(dates.fetchFrom));
    labels, momA, momB := TrimFloatSeriesFrom(all, allA, allB, Some(dates.chartFrom));
    KeptIsSuffix(all, all, dates.chartFrom);
    KeptIsSuffix(all, allA, dates.chartFrom);
    KeptIsSuffix(all, allB, dates.chartFrom);
    assert allA[..|all|] == allA && allB[..|all|] == allB && all[..|all|] == all;
    assert labels == all[Before(all, dates.chartFrom)..];
    TrimmedLabels(all, a, b, now, interval);
    TrimmedColumn(all, allA, a, now, interval);
    TrimmedColumn(all, allB, b, now, interval);
  }

  lemma TrimmedLabels(all: seq<int>, a: Table, b: Table, now: int, interval: Interval)
    requires interval.HasMomentum() && StrictlyAscending(all)
    requires forall d :: d in all <==> d in SeriesOf(a, now, interval).labels || d in SeriesOf(b, now, interval).labels
    ensures var labels := all[Before(all, H2HChartFromDates(now, interval).chartFrom)..];
            && StrictlyAscending(labels)
            && forall d :: d in labels <==> MomentumOn(a, now, interval, d).Some? || MomentumOn(b, now, interval, d).Some?
  {
    var from := H2HChartFromDates(now, interval).chartFrom;
    var labels := all[Before(all, from)..];
    BeforeCuts(all, from);
    forall d
      ensures d in labels <==> MomentumOn(a, now, interval, d).Some? || MomentumOn(b, now, interval, d).Some?
    {
      assert d in labels <==> d in all && d >= from by {
        SuffixFrom(all, from, d);
      }
      if d >= from {
        HistorySuffices(a, now, interval, d);
        HistorySuffices(b, now, interval, d);
        RollingIsDirectLabels(a, now, interval, d);
        RollingIsDirectLabels(b, now, interval, d);
      }
    }
  }

  lemma SuffixFrom(all: seq<int>, from: int, d: int)
    requires StrictlyAscending(all)
    ensures d in all[Before(all, from)..] <==> d in all && d >= from
  {
    var n := Before(all, from);
    BeforeCuts(all, from);
    if d in all[n..] {
      var i :| 0 <= i < |all| - n && all[n..][i] == d;
      assert all[n + i] == d;
    }
    if d in all && d >= from {
      var i :| 0 <= i < |all| && all[i] == d;
      assert all[n..][i - n] == d;
    }
  }

  lemma RollingIsDirectLabels(t: Table, now: int, interval: Interval, d: int)
    requires interval.HasMomentum()
    ensures var s := SeriesOf(t, now, interval); d in s.labels <==> ValueOn(s.labels, s.values, d).Some?
  {
    var s := SeriesOf(t, now, interval);
    RollingIsDirect(t, H2HChartFromDates(now, interval).fetchFrom, now, interval.MomentumWindowDays());
    ValueOnMeaning(s.labels, s.values, d);
  }

  lemma TrimmedColumn(all: seq<int>, column: seq<Option<real>>, t: Table, now: int, interval: Interval)
    requires interval.HasMomentum() && StrictlyAscending(all)
    requires IsColumn(column, all, SeriesOf(t, now, interval).labels, SeriesOf(t, now, interval).values)
    ensures var n := Before(all, H2HChartFromDates(now, interval).chartFrom);
            IsMomentumOf(column[n..], all[n..], t, now, interval)
  {
    var n := Before(all, H2HChartFromDates(now, interval).chartFrom);
    BeforeCuts(all, H2HChartFromDates(now, interval).chartFrom);
    forall i | 0 <= i < |all| - n
      ensures column[n..][i] == MomentumOn(t, now, interval, all[n..][i])
    {
      HistorySuffices(t, now, interval, all[n + i]);
    }
  }

  function SeriesOf(t: Table, now: int, interval: Interval): (s: Series)
    requires interval.HasMomentum()
    ensures |s.labels| == |s.values|
  {
    var dates := H2HChartFromDates(now, interval);
    RollingSeries(RowsInRange(t, dates.fetchFrom, now), interval.MomentumWindowDays(), Some(dates.fetchFrom))
  }

  function SeriesOn(t: Table, now: int, interval: Interval, d: int): Option<real>
    requires interval.HasMomentum()
  {
    var s := SeriesOf(t, now, interval);
    ValueOn(s.labels, s.values, d)
  }

  /** The fetched history always suffices: from the first day shown on, no point is missing. */
  lemma HistorySuffices(t: Table, now: int, interval: Interval, d: int)
    requires interval.HasMomentum() && d >= H2HChartFromDates(now, interval).chartFrom
    ensures SeriesOn(t, now, interval, d) == MomentumOn(t, now, interval, d)
  {
    var dates, w := H2HChartFromDates(now, interval), interval.MomentumWindowDays();
    var s := SeriesOf(t, now, interval);
    RollingIsDirect(t, dates.fetchFrom, now, w);
    if HasRowIn(t, dates.fetchFrom, now) {
      ValueOnDays(dates.fetchFrom + 2 * w - 1, LatestDay(t, dates.fetchFrom, now), s.values, d);
    }
  }

  lemma ValueOnDays(from: int, to: int, values: seq<real>, d: int)
    requires |values| == |DaysBetween(from, to)|
    ensures ValueOn(DaysBetween(from, to), values, d) == if from <= d <= to then Some(values[d - from]) else None
  {
    ValueOnMeaning(DaysBetween(from, to), values, d);
    if from <= d <= to {
      assert DaysBetween(from, to)[d - from] == d;
    }
  }
}
