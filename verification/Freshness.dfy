/**
 The two readers of the stored traffic state: the freshness classifier and the gap-preserving
 chart. Both are loops over calendar days.
 */
module Freshness {
  import opened Wrappers
  import opened DayRows
  import opened Traffic

  datatype FreshStatus = Fresh | Delayed | Missing | Failed | NeverFetched

  datatype Report = Report(status: FreshStatus, missing: seq<int>)

  datatype Point = Point(date: int, cell: Option<Cell>)

  /** The days of [from, to] outside `covered`, in order. */
  function DaysOutside(from: int, to: int, covered: set<int>): seq<int>
    decreases 1 + to - from
  {
    if from > to then []
    else (if from in covered then [] else [from]) + DaysOutside(from + 1, to, covered)
  }

  lemma {:induction false} DaysOutsideHas(from: int, to: int, covered: set<int>, d: int)
    ensures d in DaysOutside(from, to, covered) <==> from <= d <= to && d !in covered
    decreases 1 + to - from
  {
    if from <= to {
      DaysOutsideHas(from + 1, to, covered, d);
    }
  }

  predicate Ascends(s: seq<int>) {
    forall i, j :: 0 <= i < j < |s| ==> s[i] < s[j]
  }

  lemma {:induction false} DaysOutsideAscend(from: int, to: int, covered: set<int>)
    ensures Ascends(DaysOutside(from, to, covered))
    decreases 1 + to - from
  {
    if from <= to {
      var rest := DaysOutside(from + 1, to, covered);
      DaysOutsideAscend(from + 1, to, covered);
      forall i | 0 <= i < |rest|
        ensures from < rest[i]
      {
        DaysOutsideHas(from + 1, to, covered, rest[i]);
      }
      assert Ascends([from] + rest);
      assert [] + rest == rest;
    }
  }

  lemma {:induction false} DaysOutsideSplit(from: int, mid: int, to: int, covered: set<int>)
    requires from <= mid <= to + 1
    ensures DaysOutside(from, to, covered) == DaysOutside(from, mid - 1, covered) + DaysOutside(mid, to, covered)
    decreases mid - from
  {
    if from < mid {
      DaysOutsideSplit(from + 1, mid, to, covered);
    }
  }

  function Covered(s: Slice): set<int> {
    set d | d in s.coverage && s.state.lastSuccessAt == Some(s.coverage[d])
  }

  function MissingDays(s: Slice, yesterday: int): seq<int> {
    if s.state.coverageFrom.None? then []
    else
      var last := if s.state.coverageTo.Some? && s.state.coverageTo.value < yesterday
                  then s.state.coverageTo.value else yesterday;
      DaysOutside(s.state.coverageFrom.value, last, Covered(s))
  }

  function FreshnessOf(s: Slice, today: int): Report {
    var missing := MissingDays(s, today - 1);
    if s.state.status == Failure then Report(Failed, [])
    else if s.state.status == Never || s.state.lastSuccessAt.None? then Report(NeverFetched, [])
    else if missing != [] then Report(Missing, missing)
    else if s.state.latestObserved.None? || s.state.latestObserved.value < today - 1 then Report(Delayed, [])
    else Report(Fresh, [])
  }

  /** Removed by the latest reply: inside the span it reported, but not named by it. */
  predicate Revoked(s: Slice, d: int) {
    && s.state.lastSuccessAt.Some?
    && s.state.coverageFrom.Some? && s.state.coverageTo.Some?
    && s.state.coverageFrom.value <= d <= s.state.coverageTo.value
    && d !in Covered(s)
  }

  function PointOf(s: Slice, d: int): Point {
    Point(d, if d in s.rows && !Revoked(s, d) then Some(s.rows[d]) else None)
  }

  method TrafficFreshnessFor(db: TrafficStore, repo: string, metric: string, today: int) returns (f: Report)
    ensures f == FreshnessOf(db.SliceOf(repo, metric), today)
  {
    var st := db.SliceOf(repo, metric).state;
    var completed := today - 1;
    if st.status == Failure {
      return Report(Failed, []);
    }
    if st.status == Never || st.lastSuccessAt.None? {
      return Report(NeverFetched, []);
    }
    var coverage := db.TrafficCoverageDates(repo, metric, st.lastSuccessAt.value);
    var missing: seq<int> := [];
    assert coverage == Covered(db.SliceOf(repo, metric));
    if st.coverageFrom.Some? {
      ghost var from := st.coverageFrom.value;
      ghost var last := if st.coverageTo.Some? && st.coverageTo.value < completed then st.coverageTo.value else completed;
      var d := st.coverageFrom.value;
      while d <= completed
        invariant from <= d && (d <= last + 1 || d == from)
        invariant missing == DaysOutside(from, d - 1, coverage)
        decreases completed - d
      {
        if st.coverageTo.Some? && d > st.coverageTo.value {
          break;
        }
        DaysOutsideSplit(from, d, d, coverage);
        assert DaysOutside(d + 1, d, coverage) == [];
        if d !in coverage {
          missing := missing + [d];
        }
        d := d + 1;
      }
      assert d > last;
      assert d == last + 1 || missing == DaysOutside(from, last, coverage) == [];
    }
    if missing != [] {
      return Report(Missing, missing);
    }
    if st.latestObserved.None? || st.latestObserved.value < completed {
      f := Report(Delayed, []);
    } else {
      f := Report(Fresh, []);
    }
  }

  /** A range that ends more than a day before it starts would make the source panic. */
  method DenseTrafficChart(rows: seq<DayRow>, from: int, to: int) returns (out: seq<Point>)
    requires from <= to + 1
    ensures |out| == to + 1 - from
    ensures var byDate := PutAll(map[], rows);
            forall i :: 0 <= i < |out| ==>
              out[i] == Point(from + i, if from + i in byDate then Some(byDate[from + i]) else None)
  {
    var byDate: Table := map[];
    for i := 0 to |rows|
      invariant byDate == PutAll(map[], rows[..i])
    {
      assert rows[..i + 1][..i] == rows[..i];
      byDate := byDate[rows[i].date := rows[i].cell];
    }
    assert rows[..|rows|] == rows;
    out := [];
    var d := from;
    while d <= to
      invariant from <= d <= to + 1 && |out| == d - from
      invariant forall i :: 0 <= i < |out| ==>
          out[i] == Point(from + i, if from + i in byDate then Some(byDate[from + i]) else None)
    {
      out := out + [Point(d, if d in byDate then Some(byDate[d]) else None)];
      d := d + 1;
    }
  }

  function Confirmed(s: Slice, rows: seq<DayRow>): seq<DayRow> {
    if rows == [] then []
    else
      var r := rows[|rows| - 1];
      Confirmed(s, rows[..|rows| - 1]) + (if Revoked(s, r.date) then [] else [r])
  }

  method TrafficRowsWithLatestCoverage(db: TrafficStore, repo: string, metric: string, rows: seq<DayRow>)
    returns (filtered: seq<DayRow>)
    ensures filtered == Confirmed(db.SliceOf(repo, metric), rows)
  {
    ghost var s := db.SliceOf(repo, metric);
    var st := db.SliceOf(repo, metric).state;
    if st.lastSuccessAt.None? || st.coverageFrom.None? || st.coverageTo.None? {
      NothingRevoked(s, rows);
      return rows;
    }
    var coverage := db.TrafficCoverageDates(repo, metric, st.lastSuccessAt.value);
    assert coverage == Covered(s);
    filtered := [];
    for i := 0 to |rows|
      invariant filtered == Confirmed(s, rows[..i])
    {
      assert rows[..i + 1][..i] == rows[..i];
      var d := rows[i].date;
      if d < st.coverageFrom.value || d > st.coverageTo.value || d in coverage {
        filtered := filtered + [rows[i]];
      }
    }
    assert rows[..|rows|] == rows;
  }

  lemma {:induction false} NothingRevoked(s: Slice, rows: seq<DayRow>)
    requires forall d :: !Revoked(s, d)
    ensures Confirmed(s, rows) == rows
  {
    if rows != [] {
      NothingRevoked(s, rows[..|rows| - 1]);
    }
  }

  lemma {:induction false} ConfirmedRows(s: Slice, rows: seq<DayRow>, d: int)
    ensures var kept := PutAll(map[], Confirmed(s, rows));
            && (d in kept <==> d in PutAll(map[], rows) && !Revoked(s, d))
            && (d in kept ==> kept[d] == PutAll(map[], rows)[d])
  {
    if rows != [] {
      var front, r := rows[..|rows| - 1], rows[|rows| - 1];
      ConfirmedRows(s, front, d);
      var kept := Confirmed(s, rows);
      if Revoked(s, r.date) {
        assert kept == Confirmed(s, front);
      } else {
        assert kept[..|kept| - 1] == Confirmed(s, front) && kept[|kept| - 1] == r;
      }
    }
  }

  lemma {:induction false} PutAllRange(t: Table, from: int, to: int, d: int)
    ensures var m := PutAll(map[], RowsInRange(t, from, to));
            && (d in m <==> from <= d <= to && d in t)
            && (d in m ==> m[d] == t[d])
  {
    var rows := RowsInRange(t, from, to);
    RangeQueryRows(t, from, to);
    PutAllDays(rows, d);
    if from <= d <= to && d in t {
      assert DayRow(d, t[d]) in rows;
    }
    if i :| 0 <= i < |rows| && rows[i].date == d {
      PutAllKeeps(rows, i);
    }
  }

  /** The page's query and chart for one metric: one point per day, in order. */
  method TrafficChart(db: TrafficStore, repo: string, metric: string, from: int, to: int) returns (out: seq<Point>)
    requires ValidTrafficMetric(metric) && from <= to + 1
    ensures |out| == to + 1 - from
    ensures forall i :: 0 <= i < |out| ==> out[i] == PointOf(db.SliceOf(repo, metric), from + i)
  {
    ghost var s := db.SliceOf(repo, metric);
    var rows := RowsInRange(db.RowsOf(repo, metric), from, to);
    var confirmed := TrafficRowsWithLatestCoverage(db, repo, metric, rows);
    out := DenseTrafficChart(confirmed, from, to);
    forall i | 0 <= i < |out|
      ensures out[i] == PointOf(s, from + i)
    {
      ConfirmedRows(s, rows, from + i);
      PutAllRange(s.rows, from, to, from + i);
    }
  }
}
