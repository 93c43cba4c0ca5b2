/**
 Any sequence of recorded replies and failures, for any repositories and metrics: what the chart
 and the freshness report say afterwards, told in terms of the replies alone.
 */
module TrafficRuns {
  import opened Wrappers
  import opened DayRows
  import opened Traffic
  import opened Freshness

  datatype Entry = Entry(repo: string, metric: string, fetched: Fetched)

  predicate About(e: Entry, repo: string, metric: string) {
    e.repo == repo && e.metric == metric
  }

  function Stored(log: seq<Entry>, repo: string, metric: string): Slice {
    if log == [] then EmptySlice
    else
      var s, e := Stored(log[..|log| - 1], repo, metric), log[|log| - 1];
      if About(e, repo, metric) then AfterFetch(s, e.fetched) else s
  }

  /** The store's methods, run over a log, leave each metric what its own entries left it. */
  method Replay(db: TrafficStore, log: seq<Entry>)
    requires forall repo, metric :: db.SliceOf(repo, metric) == EmptySlice
    requires forall i :: 0 <= i < |log| ==> ValidTrafficMetric(log[i].metric)
    modifies db
    ensures forall repo, metric :: db.SliceOf(repo, metric) == Stored(log, repo, metric)
  {
    for i := 0 to |log|
      invariant forall repo, metric :: db.SliceOf(repo, metric) == Stored(log[..i], repo, metric)
    {
      assert log[..i + 1][..i] == log[..i];
      db.SyncMetric(log[i].repo, log[i].metric, log[i].fetched);
    }
    assert log[..|log|] == log;
  }

  // ---------- The log alone ----------

  /** The latest successful reply about a metric. */
  function LatestReply(log: seq<Entry>, repo: string, metric: string): Option<seq<DayRow>> {
    if log == [] then None
    else
      var e := log[|log| - 1];
      if About(e, repo, metric) && e.fetched.Rows? then Some(e.fetched.rows)
      else LatestReply(log[..|log| - 1], repo, metric)
  }

  /** The value a reply gave a day: its last row for it. */
  function ValueIn(rows: seq<DayRow>, d: int): Option<Cell> {
    var byDate := PutAll(map[], rows);
    if d in byDate then Some(byDate[d]) else None
  }

  /** The value the latest reply that named the day gave it. */
  function LastReported(log: seq<Entry>, repo: string, metric: string, d: int): Option<Cell> {
    if log == [] then None
    else
      var e := log[|log| - 1];
      if About(e, repo, metric) && e.fetched.Rows? && ValueIn(e.fetched.rows, d).Some?
      then ValueIn(e.fetched.rows, d)
      else LastReported(log[..|log| - 1], repo, metric, d)
  }

  function LatestFetch(log: seq<Entry>, repo: string, metric: string): Option<Fetched> {
    if log == [] then None
    else if About(log[|log| - 1], repo, metric) then Some(log[|log| - 1].fetched)
    else LatestFetch(log[..|log| - 1], repo, metric)
  }

  predicate Names(rows: seq<DayRow>, d: int) {
    exists i :: 0 <= i < |rows| && rows[i].date == d
  }

  /** Between the first and the last day of a reply. */
  predicate InSpan(rows: seq<DayRow>, d: int) {
    exists i, j :: 0 <= i < |rows| && 0 <= j < |rows| && rows[i].date <= d <= rows[j].date
  }

  lemma SpanIsBounds(rows: seq<DayRow>, d: int)
    ensures InSpan(rows, d) <==> rows != [] && EarliestDay(rows).value <= d <= LatestDay(rows).value
  {
    BoundsAreTight(rows);
    if rows != [] && EarliestDay(rows).value <= d <= LatestDay(rows).value {
      var i, j :| 0 <= i < |rows| && 0 <= j < |rows|
                  && rows[i].date == EarliestDay(rows).value && rows[j].date == LatestDay(rows).value;
      assert rows[i].date <= d <= rows[j].date;
    }
  }

  /** What the stored slice knows about the log. */
  lemma {:induction false} StoredMeaning(log: seq<Entry>, repo: string, metric: string)
    ensures var s, reply := Stored(log, repo, metric), LatestReply(log, repo, metric);
            && (forall d :: d in s.rows <==> LastReported(log, repo, metric, d).Some?)
            && (forall d :: d in s.rows ==> LastReported(log, repo, metric, d) == Some(s.rows[d]))
            && (reply.None? ==> s.coverage == map[] && s.state.(status := Never, error := "") == NoState)
            && (reply.Some? ==>
              && s.state.lastSuccessAt.Some?
              && s.coverage == Stamped(reply.value, s.state.lastSuccessAt.value)
              && s.state.coverageFrom == EarliestDay(reply.value)
              && s.state.coverageTo == s.state.latestObserved == LatestDay(reply.value))
            && (match LatestFetch(log, repo, metric)
                case None => s.state.status == Never && reply.None?
                case Some(Rows(rows, at)) =>
                  s.state.status == Success && reply == Some(rows) && s.state.lastSuccessAt == Some(at) && s.state.error == ""
                case Some(Error(text)) => s.state.status == Failure && s.state.error == text)
  {
    if log != [] {
      var front, e := log[..|log| - 1], log[|log| - 1];
      StoredMeaning(front, repo, metric);
      if About(e, repo, metric) && e.fetched.Rows? {
        forall d
          ensures d in Stored(log, repo, metric).rows <==> LastReported(log, repo, metric, d).Some?
          ensures d in Stored(log, repo, metric).rows ==>
                    LastReported(log, repo, metric, d) == Some(Stored(log, repo, metric).rows[d])
        {
          PutAllAt(Stored(front, repo, metric).rows, e.fetched.rows, d);
        }
      }
    }
  }

  lemma CoveredMeaning(log: seq<Entry>, repo: string, metric: string, d: int)
    ensures var s, reply := Stored(log, repo, metric), LatestReply(log, repo, metric);
            && (d in Covered(s) <==> reply.Some? && Names(reply.value, d))
            && (Revoked(s, d) <==> reply.Some? && InSpan(reply.value, d) && !Names(reply.value, d))
  {
    StoredMeaning(log, repo, metric);
    var reply := LatestReply(log, repo, metric);
    if reply.Some? {
      PutAllDays(reply.value, d);
      SpanIsBounds(reply.value, d);
      BoundsAreTight(reply.value);
    }
  }

  // ---------- The chart ----------

  /**
   Inside the latest reply's span a point shows that reply's value or nothing; elsewhere it shows
   the last reported value or nothing. Only the metric's own replies matter.
   */
  lemma ChartMeaning(log: seq<Entry>, repo: string, metric: string, d: int)
    ensures var p, reply := PointOf(Stored(log, repo, metric), d), LatestReply(log, repo, metric);
            && p.date == d
            && (reply.Some? && InSpan(reply.value, d) ==> p.cell == ValueIn(reply.value, d))
            && (!(reply.Some? && InSpan(reply.value, d)) ==> p.cell == LastReported(log, repo, metric, d))
  {
    StoredMeaning(log, repo, metric);
    CoveredMeaning(log, repo, metric, d);
    var reply := LatestReply(log, repo, metric);
    if reply.Some? {
      PutAllDays(reply.value, d);
      if Names(reply.value, d) {
        LatestReplyReports(log, repo, metric, d);
      }
    }
  }

  lemma {:induction false} LatestReplyReports(log: seq<Entry>, repo: string, metric: string, d: int)
    requires LatestReply(log, repo, metric).Some?
    requires Names(LatestReply(log, repo, metric).value, d)
    ensures LastReported(log, repo, metric, d) == ValueIn(LatestReply(log, repo, metric).value, d)
  {
    PutAllDays(LatestReply(log, repo, metric).value, d);
    var e := log[|log| - 1];
    if !(About(e, repo, metric) && e.fetched.Rows?) {
      LatestReplyReports(log[..|log| - 1], repo, metric, d);
    }
  }

  /** Dropping every entry about other metrics changes neither reader. */
  function Own(log: seq<Entry>, repo: string, metric: string): seq<Entry> {
    if log == [] then []
    else
      Own(log[..|log| - 1], repo, metric) +
      (if About(log[|log| - 1], repo, metric) then [log[|log| - 1]] else [])
  }

  lemma {:induction false} OnlyOwnEntriesMatter(log: seq<Entry>, repo: string, metric: string)
    ensures Stored(log, repo, metric) == Stored(Own(log, repo, metric), repo, metric)
  {
    if log != [] {
      var front, own := log[..|log| - 1], Own(log, repo, metric);
      OnlyOwnEntriesMatter(front, repo, metric);
      if About(log[|log| - 1], repo, metric) {
        assert own[..|own| - 1] == Own(front, repo, metric) && own[|own| - 1] == log[|log| - 1];
      } else {
        assert own == Own(front, repo, metric);
      }
    }
  }

  // ---------- The freshness report ----------

  /** The missing list: the reply's span up to yesterday, minus the days it named, in order. */
  lemma MissingMeaning(log: seq<Entry>, repo: string, metric: string, today: int)
    ensures var f, reply := FreshnessOf(Stored(log, repo, metric), today), LatestReply(log, repo, metric);
            && Ascends(f.missing)
            && (forall d :: d in f.missing <==>
              && f.status !in {Failed, NeverFetched}
              && reply.Some? && InSpan(reply.value, d) && d < today && !Names(reply.value, d))
  {
    var s, reply := Stored(log, repo, metric), LatestReply(log, repo, metric);
    var f := FreshnessOf(s, today);
    StoredMeaning(log, repo, metric);
    if s.state.coverageFrom.Some? {
      var last := if s.state.coverageTo.Some? && s.state.coverageTo.value < today - 1
                  then s.state.coverageTo.value else today - 1;
      DaysOutsideAscend(s.state.coverageFrom.value, last, Covered(s));
    }
    forall d
      ensures d in f.missing <==>
              && f.status !in {Failed, NeverFetched}
              && reply.Some? && InSpan(reply.value, d) && d < today && !Names(reply.value, d)
    {
      CoveredMeaning(log, repo, metric, d);
      if s.state.coverageFrom.Some? {
        var last := if s.state.coverageTo.Some? && s.state.coverageTo.value < today - 1
                    then s.state.coverageTo.value else today - 1;
        DaysOutsideHas(s.state.coverageFrom.value, last, Covered(s), d);
      }
      if reply.Some? {
        SpanIsBounds(reply.value, d);
        BoundsAreTight(reply.value);
      }
    }
  }

  /** Each status, told by the log: an if and only if for every one of the five. */
  lemma StatusMeaning(log: seq<Entry>, repo: string, metric: string, today: int)
    ensures var f, latest := FreshnessOf(Stored(log, repo, metric), today), LatestFetch(log, repo, metric);
            && (f.status == NeverFetched <==> latest.None?)
            && (f.status == Failed <==> latest.Some? && latest.value.Error?)
            && (f.status == Missing <==>
              && latest.Some? && latest.value.Rows?
              && exists d :: InSpan(latest.value.rows, d) && d < today && !Names(latest.value.rows, d))
            && (f.status == Fresh <==>
              && latest.Some? && latest.value.Rows?
              && (exists i :: 0 <= i < |latest.value.rows| && latest.value.rows[i].date >= today - 1)
              && forall d :: InSpan(latest.value.rows, d) && d < today ==> Names(latest.value.rows, d))
  {
    var s, latest := Stored(log, repo, metric), LatestFetch(log, repo, metric);
    var f := FreshnessOf(s, today);
    StoredMeaning(log, repo, metric);
    MissingMeaning(log, repo, metric, today);
    if latest.Some? && latest.value.Rows? {
      var rows := latest.value.rows;
      BoundsAreTight(rows);
      if f.status == Missing {
        assert f.missing[0] in f.missing;
      }
      if d :| InSpan(rows, d) && d < today && !Names(rows, d) {
        assert d in f.missing;
      }
    }
  }

  /** Fresh means every day from the reply's first day through yesterday was reported. */
  lemma FreshCoversYesterday(log: seq<Entry>, repo: string, metric: string, today: int, d: int)
    requires FreshnessOf(Stored(log, repo, metric), today).status == Fresh
    requires var reply := LatestReply(log, repo, metric);
             reply.Some? && (exists i :: 0 <= i < |reply.value| && reply.value[i].date <= d) && d < today
    ensures Names(LatestReply(log, repo, metric).value, d)
  {
    StoredMeaning(log, repo, metric);
    StatusMeaning(log, repo, metric, today);
    var rows := LatestReply(log, repo, metric).value;
    var i, j :| 0 <= i < |rows| && rows[i].date <= d && 0 <= j < |rows| && rows[j].date >= today - 1;
    assert InSpan(rows, d);
  }

  /** The two readers agree: inside the latest reply's span, a past day is missing iff it is null. */
  lemma MissingIffNull(log: seq<Entry>, repo: string, metric: string, today: int, d: int)
    requires var f, reply := LatestFetch(log, repo, metric), LatestReply(log, repo, metric);
             f.Some? && f.value.Rows? && reply.Some? && InSpan(reply.value, d) && d < today
    ensures d in FreshnessOf(Stored(log, repo, metric), today).missing
      <==> PointOf(Stored(log, repo, metric), d).cell.None?
  {
    StoredMeaning(log, repo, metric);
    MissingMeaning(log, repo, metric, today);
    ChartMeaning(log, repo, metric, d);
    PutAllDays(LatestReply(log, repo, metric).value, d);
  }

  lemma MissingIsNull(log: seq<Entry>, repo: string, metric: string, today: int, d: int)
    requires d in FreshnessOf(Stored(log, repo, metric), today).missing
    ensures PointOf(Stored(log, repo, metric), d).cell.None?
  {
    MissingMeaning(log, repo, metric, today);
    ChartMeaning(log, repo, metric, d);
    PutAllDays(LatestReply(log, repo, metric).value, d);
  }
}
