/**
 What is stored about GitHub's traffic replies: the daily rows of `views` and `clones`, which days
 the latest successful reply named, and the outcome of the latest fetch.
 */
module Traffic {
  import opened Wrappers
  import opened DayRows

  datatype Status = Never | Success | Failure

  /** A row of `traffic_metric_state`; None is SQL's empty string. */
  datatype MetricState = MetricState(
    lastSuccessAt: Option<int>,
    latestObserved: Option<int>,
    coverageFrom: Option<int>,
    coverageTo: Option<int>,
    status: Status,
    error: string)

  const NoState := MetricState(None, None, None, None, Never, "")

  datatype MetricKey = MetricKey(repo: string, metric: string)

  predicate ValidTrafficMetric(metric: string) {
    metric == "views" || metric == "clones"
  }

  /** Everything stored for one repository and metric; `coverage` maps a day to its seen_at stamp. */
  datatype Slice = Slice(rows: Table, coverage: map<int, int>, state: MetricState)

  const EmptySlice := Slice(map[], map[], NoState)

  function LatestDay(rows: seq<DayRow>): Option<int> {
    if rows == [] then None
    else
      var rest, d := LatestDay(rows[..|rows| - 1]), rows[|rows| - 1].date;
      if rest.None? || d > rest.value then Some(d) else rest
  }

  function EarliestDay(rows: seq<DayRow>): Option<int> {
    if rows == [] then None
    else
      var rest, d := EarliestDay(rows[..|rows| - 1]), rows[|rows| - 1].date;
      if rest.None? || d < rest.value then Some(d) else rest
  }

  lemma {:induction false} BoundsAreTight(rows: seq<DayRow>)
    ensures rows == [] ==> EarliestDay(rows) == LatestDay(rows) == None
    ensures rows != [] ==>
              && EarliestDay(rows).Some? && LatestDay(rows).Some?
              && (exists i :: 0 <= i < |rows| && rows[i].date == EarliestDay(rows).value)
              && (exists i :: 0 <= i < |rows| && rows[i].date == LatestDay(rows).value)
              && forall i :: 0 <= i < |rows| ==> EarliestDay(rows).value <= rows[i].date <= LatestDay(rows).value
  {
    if rows != [] {
      var front := rows[..|rows| - 1];
      BoundsAreTight(front);
      assert forall i :: 0 <= i < |front| ==> front[i] == rows[i];
      assert rows[|rows| - 1].date == EarliestDay(rows).value || EarliestDay(rows) == EarliestDay(front);
      assert rows[|rows| - 1].date == LatestDay(rows).value || LatestDay(rows) == LatestDay(front);
    }
  }

  function Stamped(rows: seq<DayRow>, at: int): map<int, int> {
    map d | d in PutAll(map[], rows) :: at
  }

  function AfterSuccess(s: Slice, rows: seq<DayRow>, at: int, from: Option<int>, to: Option<int>): Slice {
    Slice(PutAll(s.rows, rows), Stamped(rows, at), MetricState(Some(at), LatestDay(rows), from, to, Success, ""))
  }

  function AfterFailure(s: Slice, error: string): Slice {
    s.(state := s.state.(status := Failure, error := error))
  }

  /** One fetch of one metric: the reply's rows with the fetch time, or an error. */
  datatype Fetched = Rows(rows: seq<DayRow>, at: int) | Error(error: string)

  function AfterFetch(s: Slice, f: Fetched): Slice {
    match f
    case Rows(rows, at) => AfterSuccess(s, rows, at, EarliestDay(rows), LatestDay(rows))
    case Error(e) => AfterFailure(s, e)
  }

  method TrafficCoverageBounds(rows: seq<DayRow>) returns (from: Option<int>, to: Option<int>)
    ensures from == EarliestDay(rows) && to == LatestDay(rows)
  {
    from, to := None, None;
    for i := 0 to |rows|
      invariant from == EarliestDay(rows[..i]) && to == LatestDay(rows[..i])
    {
      assert rows[..i + 1][..i] == rows[..i];
      if from.None? || rows[i].date < from.value {
        from := Some(rows[i].date);
      }
      if to.None? || rows[i].date > to.value {
        to := Some(rows[i].date);
      }
    }
    assert rows[..|rows|] == rows;
  }

  class TrafficStore {
    var views: map<string, Table>
    var clones: map<string, Table>
    var coverage: map<MetricKey, map<int, int>>
    var states: map<MetricKey, MetricState>

    constructor ()
      ensures forall repo, metric :: SliceOf(repo, metric) == EmptySlice
    {
      views, clones, coverage, states := map[], map[], map[], map[];
    }

    function RowsOf(repo: string, metric: string): Table
      reads this
    {
      var t := if metric == "views" then views else clones;
      if repo in t then t[repo] else map[]
    }

    function SliceOf(repo: string, metric: string): Slice
      reads this
    {
      var k := MetricKey(repo, metric);
      Slice(
        if ValidTrafficMetric(metric) then RowsOf(repo, metric) else map[],
        if k in coverage then coverage[k] else map[],
        if k in states then states[k] else NoState)
    }

    /** The transaction: it replaces the coverage, writes the rows and records the success. */
    method RecordTrafficMetricSuccess(repo: string, metric: string, rows: seq<DayRow>, at: int, from: Option<int>, to: Option<int>)
      returns (ok: bool)
      modifies this
      ensures ok == ValidTrafficMetric(metric)
      ensures SliceOf(repo, metric) ==
              if ok then AfterSuccess(old(SliceOf(repo, metric)), rows, at, from, to) else old(SliceOf(repo, metric))
      ensures forall r, m :: (r, m) != (repo, metric) ==> SliceOf(r, m) == old(SliceOf(r, m))
    {
      if !ValidTrafficMetric(metric) {
        return false;
      }
      var k := MetricKey(repo, metric);
      var seen: map<int, int> := map[];
      var latest: Option<int> := None;
      var table := RowsOf(repo, metric);
      ghost var before := table;
      for i := 0 to |rows|
        invariant latest == LatestDay(rows[..i])
        invariant table == PutAll(before, rows[..i])
        invariant seen == Stamped(rows[..i], at)
      {
        assert rows[..i + 1][..i] == rows[..i];
        var r := rows[i];
        if latest.None? || r.date > latest.value {
          latest := Some(r.date);
        }
        table := table[r.date := r.cell];
        seen := seen[r.date := at];
      }
      assert rows[..|rows|] == rows;
      if metric == "views" {
        views := views[repo := table];
      } else {
        clones := clones[repo := table];
      }
      coverage := coverage[k := seen];
      states := states[k := MetricState(Some(at), latest, from, to, Success, "")];
      ok := true;
    }

    method RecordTrafficMetricFailure(repo: string, metric: string, error: string) returns (ok: bool)
      modifies this`states
      ensures ok == ValidTrafficMetric(metric)
      ensures SliceOf(repo, metric) ==
              if ok then AfterFailure(old(SliceOf(repo, metric)), error) else old(SliceOf(repo, metric))
      ensures forall r, m :: (r, m) != (repo, metric) ==> SliceOf(r, m) == old(SliceOf(r, m))
    {
      if !ValidTrafficMetric(metric) {
        return false;
      }
      var k := MetricKey(repo, metric);
      var st := if k in states then states[k] else NoState;
      states := states[k := st.(status := Failure, error := error)];
      ok := true;
    }

    /** One metric's branch of `syncRepoTraffic`. */
    method SyncMetric(repo: string, metric: string, f: Fetched)
      requires ValidTrafficMetric(metric)
      modifies this
      ensures SliceOf(repo, metric) == AfterFetch(old(SliceOf(repo, metric)), f)
      ensures forall r, m :: (r, m) != (repo, metric) ==> SliceOf(r, m) == old(SliceOf(r, m))
    {
      match f
      case Rows(rows, at) =>
        var from, to := TrafficCoverageBounds(rows);
        var _ := RecordTrafficMetricSuccess(repo, metric, rows, at, from, to);
      case Error(e) =>
        var _ := RecordTrafficMetricFailure(repo, metric, e);
    }

    /** The days the reply stamped `seenAt` named. */
    function TrafficCoverageDates(repo: string, metric: string, seenAt: int): set<int>
      reads this
    {
      var c := SliceOf(repo, metric).coverage;
      set d | d in c && c[d] == seenAt
    }
  }
}
