/** The fleet-wide "GitHub traffic is stuck" signal, over reportable repositories only. */
module FleetStale {
  import opened Wrappers
  import opened DayRows
  import opened Traffic
  import opened Names
  import opened Reports

  const EligibleWindowDays := 14

  datatype FleetUpstreamStale = FleetUpstreamStale(
    active: bool, since: Option<int>, daysStuck: int, stuckRepos: nat, eligibleRepos: nat)

  const Inactive := FleetUpstreamStale(false, None, 0, 0, 0)

  // ---------- The sets meant ----------

  predicate HasTraffic(f: Fleet, name: string, from: int, to: int) {
    SumDays(f.Clones(name), from, to) > 0 || SumDays(f.Views(name), from, to) > 0
  }

  /** The day a metric stopped at, when its latest fetch succeeded and that day is old enough. */
  function StaleObservation(f: Fleet, name: string, metric: string, cutoff: int): Option<int> {
    var st := f.State(name, metric);
    if st.status == Success && st.latestObserved.Some? && st.latestObserved.value <= cutoff
    then st.latestObserved else None
  }

  function Later(a: Option<int>, b: Option<int>): Option<int> {
    if a.None? || (b.Some? && b.value > a.value) then b else a
  }

  function RepoObservation(f: Fleet, name: string, cutoff: int): Option<int> {
    Later(StaleObservation(f, name, "clones", cutoff), StaleObservation(f, name, "views", cutoff))
  }

  function EligibleAmong(f: Fleet, names: set<string>, from: int, to: int): set<string> {
    set n | n in names && HasTraffic(f, n, from, to)
  }

  /** Each stuck repository with the day it stopped at. */
  function StuckAmong(f: Fleet, names: set<string>, cutoff: int): map<string, int> {
    map n | n in names && RepoObservation(f, n, cutoff).Some? :: RepoObservation(f, n, cutoff).value
  }

  function EligibleRepos(f: Fleet, includePrivate: bool, today: int): set<string> {
    EligibleAmong(f, f.VisibleNames(includePrivate), today - EligibleWindowDays, today - 1)
  }

  function StuckRepos(f: Fleet, includePrivate: bool, k: int, today: int): map<string, int> {
    StuckAmong(f, EligibleRepos(f, includePrivate, today), today - 1 - k)
  }

  ghost predicate IsLatest(observed: map<string, int>, since: Option<int>) {
    && (since.None? <==> observed == map[])
    && (since.Some? ==> exists n :: n in observed && observed[n] == since.value)
    && (since.Some? ==> forall n :: n in observed ==> observed[n] <= since.value)
  }

  ghost predicate Describes(r: FleetUpstreamStale, f: Fleet, includePrivate: bool, k: int, today: int) {
    var eligible, stuck := EligibleRepos(f, includePrivate, today), StuckRepos(f, includePrivate, k, today);
    && r.eligibleRepos == |eligible|
    && r.stuckRepos == |stuck|
    && (r.active <==> |stuck| >= 3 && 2 * |stuck| >= |eligible|)
    && (r.active ==> r.since.Some? && IsLatest(stuck, r.since) && r.daysStuck == today - 1 - r.since.value)
    && (!r.active ==> r.since.None? && r.daysStuck == 0)
  }

  // ---------- The detector ----------

  method RepoHasNonZeroTrafficInWindow(f: Fleet, name: string, from: int, to: int) returns (ok: bool)
    ensures ok == HasTraffic(f, name, from, to)
  {
    SumOfRange(f.Clones(name), from, to);
    var clones := SumDayCountRows(RowsInRange(f.Clones(name), from, to));
    if clones > 0 {
      return true;
    }
    SumOfRange(f.Views(name), from, to);
    var views := SumDayCountRows(RowsInRange(f.Views(name), from, to));
    ok := views > 0;
  }

  method MetricIsUpstreamStale(f: Fleet, name: string, metric: string, cutoff: int)
    returns (stale: bool, latest: Option<int>)
    ensures stale == StaleObservation(f, name, metric, cutoff).Some?
    ensures stale ==> latest == StaleObservation(f, name, metric, cutoff)
  {
    var st := f.State(name, metric);
    if st.status != Success || st.latestObserved.None? {
      return false, None;
    }
    if st.latestObserved.value <= cutoff {
      return true, st.latestObserved;
    }
    return false, st.latestObserved;
  }

  method RepoUpstreamStaleObs(f: Fleet, name: string, cutoff: int) returns (stuck: bool, since: Option<int>)
    ensures stuck == RepoObservation(f, name, cutoff).Some? && since == RepoObservation(f, name, cutoff)
  {
    var clonesStale, clonesObs := MetricIsUpstreamStale(f, name, "clones", cutoff);
    var viewsStale, viewsObs := MetricIsUpstreamStale(f, name, "views", cutoff);
    if !clonesStale && !viewsStale {
      return false, None;
    }
    since := None;
    if clonesStale && clonesObs.Some? {
      since := clonesObs;
    }
    if viewsStale && viewsObs.Some? && (since.None? || viewsObs.value > since.value) {
      since := viewsObs;
    }
    stuck := true;
  }

  predicate Distinct(names: seq<string>) {
    forall i, j :: 0 <= i < j < |names| ==> names[i] != names[j]
  }

  function Elements(names: seq<string>): set<string> {
    set n | n in names
  }

  lemma OneMoreName(f: Fleet, names: seq<string>, i: nat, from: int, to: int)
    requires Distinct(names) && i < |names|
    ensures var seen, name := Elements(names[..i]), names[i];
            var e := EligibleAmong(f, seen, from, to);
            && name !in e
            && EligibleAmong(f, Elements(names[..i + 1]), from, to) ==
               (if HasTraffic(f, name, from, to) then e + {name} else e)
  {
    assert names[..i + 1] == names[..i] + [names[i]];
  }

  lemma OneMoreEligible(f: Fleet, e: set<string>, name: string, cutoff: int)
    requires name !in e
    ensures var s, o := StuckAmong(f, e, cutoff), RepoObservation(f, name, cutoff);
            && name !in s
            && StuckAmong(f, e + {name}, cutoff) == if o.Some? then s[name := o.value] else s
  {
  }

  ghost predicate Tallied(f: Fleet, names: seq<string>, from: int, to: int, cutoff: int, stuck: nat, eligible: nat, since: Option<int>) {
    var e := EligibleAmong(f, Elements(names), from, to);
    eligible == |e| && stuck == |StuckAmong(f, e, cutoff)| && IsLatest(StuckAmong(f, e, cutoff), since)
  }

  lemma OneMoreObservation(s: map<string, int>, name: string, day: int, since: Option<int>)
    requires name !in s && IsLatest(s, since)
    ensures IsLatest(s[name := day], Later(since, Some(day)))
    ensures |s[name := day]| == |s| + 1
  {
    var t, later := s[name := day], Later(since, Some(day));
    if later == Some(day) {
      assert t[name] == later.value;
    } else {
      var n :| n in s && s[n] == since.value;
      assert t[n] == later.value;
    }
  }

  method TallyFleetUpstreamStale(f: Fleet, names: seq<string>, from: int, to: int, cutoff: int)
    returns (stuck: nat, eligible: nat, since: Option<int>)
    requires Distinct(names)
    ensures Tallied(f, names, from, to, cutoff, stuck, eligible, since)
  {
    stuck, eligible, since := 0, 0, None;
    ghost var e: set<string>, s: map<string, int> := {}, map[];
    for i := 0 to |names|
      invariant e == EligibleAmong(f, Elements(names[..i]), from, to)
      invariant s == StuckAmong(f, e, cutoff)
      invariant eligible == |e| && stuck == |s|
      invariant IsLatest(s, since)
    {
      OneMoreName(f, names, i, from, to);
      OneMoreEligible(f, e, names[i], cutoff);
      var ok := RepoHasNonZeroTrafficInWindow(f, names[i], from, to);
      if !ok {
        continue;
      }
      eligible := eligible + 1;
      e := e + {names[i]};
      var repoStuck, obs := RepoUpstreamStaleObs(f, names[i], cutoff);
      if !repoStuck {
        continue;
      }
      OneMoreObservation(s, names[i], obs.value, since);
      stuck := stuck + 1;
      s := s[names[i] := obs.value];
      if obs.Some? && (since.None? || obs.value > since.value) {
        since := obs;
      }
    }
    assert names[..|names|] == names;
  }

  /** The thresholds applied to a tally of the report list describe the fleet. */
  lemma TallyDescribes(f: Fleet, names: seq<string>, includePrivate: bool, k: int, today: int, stuck: nat, eligible: nat, since: Option<int>)
    requires k > 0 && Elements(names) == f.VisibleNames(includePrivate)
    requires Tallied(f, names, today - EligibleWindowDays, today - 1, today - 1 - k, stuck, eligible, since)
    ensures stuck < 3 || stuck * 2 < eligible ==>
              Describes(FleetUpstreamStale(false, None, 0, stuck, eligible), f, includePrivate, k, today)
    ensures !(stuck < 3 || stuck * 2 < eligible) ==>
              since.Some? && since.value <= today - 1 - k
              && Describes(FleetUpstreamStale(true, since, today - 1 - since.value, stuck, eligible), f, includePrivate, k, today)
  {
    SinceIsOld(f, EligibleRepos(f, includePrivate, today), today - 1 - k, since);
  }

  method DetectFleetUpstreamStale(db: ReportStore, includePrivate: bool, k: int, today: int, lastSyncOk: bool)
    returns (r: FleetUpstreamStale)
    ensures k <= 0 || !lastSyncOk ==> r == Inactive
    ensures k > 0 && lastSyncOk ==> Describes(r, db.Data(), includePrivate, k, today)
  {
    if k <= 0 || !lastSyncOk {
      return Inactive;
    }
    var f := db.Data();
    var completed := today - 1;
    var names := ReportNames(db, includePrivate);
    var stuck, eligible, since := TallyFleetUpstreamStale(
      f, names, completed - (EligibleWindowDays - 1), completed, completed - k);
    TallyDescribes(f, names, includePrivate, k, today, stuck, eligible, since);
    if stuck < 3 || stuck * 2 < eligible {
      return FleetUpstreamStale(false, None, 0, stuck, eligible);
    }
    var days := DaysStuckFromSince(completed, since);
    r := FleetUpstreamStale(true, since, days, stuck, eligible);
  }

  method ReportNames(db: ReportStore, includePrivate: bool) returns (names: seq<string>)
    ensures Distinct(names) && Elements(names) == db.Data().VisibleNames(includePrivate)
  {
    var list := db.ListReportRepos(includePrivate);
    SortedMeaning(db.Data().VisibleNames(includePrivate));
    names := seq(|list|, i requires 0 <= i < |list| => list[i].name);
    assert names == Sorted(db.Data().VisibleNames(includePrivate));
    AscendingIsDistinct(names);
  }

  lemma AscendingIsDistinct(names: seq<string>)
    requires Ascending(names)
    ensures Distinct(names)
  {
    forall i, j | 0 <= i < j < |names|
      ensures names[i] != names[j]
    {
      BeforeIsStrict(names[i]);
    }
  }

  lemma SinceIsOld(f: Fleet, names: set<string>, cutoff: int, since: Option<int>)
    requires IsLatest(StuckAmong(f, names, cutoff), since)
    ensures since.Some? ==> since.value <= cutoff
    ensures |StuckAmong(f, names, cutoff)| > 0 ==> since.Some?
  {
  }

  method DaysStuckFromSince(completed: int, since: Option<int>) returns (days: int)
    ensures days == if since.None? || completed < since.value then 0 else completed - since.value
  {
    if since.None? {
      return 0;
    }
    days := completed - since.value;
    if days < 0 {
      days := 0;
    }
  }

  // ---------- Properties ----------

  /** An active signal is about at least three repositories, half the fleet, and `k` days. */
  lemma ActiveMeansStuck(r: FleetUpstreamStale, f: Fleet, includePrivate: bool, k: int, today: int)
    requires k > 0 && Describes(r, f, includePrivate, k, today) && r.active
    ensures r.stuckRepos >= 3 && 2 * r.stuckRepos >= r.eligibleRepos
    ensures r.since.Some? && r.since.value <= today - 1 - k
    ensures r.daysStuck >= k
  {
    SinceIsOld(f, EligibleRepos(f, includePrivate, today), today - 1 - k, r.since);
  }

  /** The signal is active exactly from three stuck repositories on that are half of the eligible. */
  lemma ActiveIff(r: FleetUpstreamStale, f: Fleet, includePrivate: bool, k: int, today: int)
    requires k > 0 && Describes(r, f, includePrivate, k, today)
    ensures var stuck, eligible := |StuckRepos(f, includePrivate, k, today)|, |EligibleRepos(f, includePrivate, today)|;
            r.active <==> stuck >= 3 && eligible <= 2 * stuck
  {
  }

  /** Either metric alone, in the fourteen days up to yesterday, makes a reportable repository eligible. */
  lemma EitherMetricMakesEligible(f: Fleet, includePrivate: bool, today: int, n: string)
    requires n in f.VisibleNames(includePrivate)
    ensures SumDays(f.Clones(n), today - 14, today - 1) > 0 ==> n in EligibleRepos(f, includePrivate, today)
    ensures SumDays(f.Views(n), today - 14, today - 1) > 0 ==> n in EligibleRepos(f, includePrivate, today)
    ensures SumDays(f.Clones(n), today - 14, today - 1) <= 0 && SumDays(f.Views(n), today - 14, today - 1) <= 0 ==>
              n !in EligibleRepos(f, includePrivate, today)
  {
  }

  predicate StoppedOn(st: MetricState, day: int, today: int, k: int) {
    st.status == Success && st.latestObserved == Some(day) && today - 1 - day >= k
  }

  /** An eligible repository is stuck exactly when a metric last fetched well stopped `k` days before yesterday, since the later of two. */
  lemma StuckIff(f: Fleet, includePrivate: bool, k: int, today: int, n: string)
    requires n in EligibleRepos(f, includePrivate, today)
    ensures var stuck := StuckRepos(f, includePrivate, k, today);
            && (n in stuck <==> exists day :: StoppedOn(f.State(n, "clones"), day, today, k) || StoppedOn(f.State(n, "views"), day, today, k))
            && (n in stuck ==> StoppedOn(f.State(n, "clones"), stuck[n], today, k) || StoppedOn(f.State(n, "views"), stuck[n], today, k))
            && (n in stuck ==> forall day :: StoppedOn(f.State(n, "clones"), day, today, k) || StoppedOn(f.State(n, "views"), day, today, k) ==> day <= stuck[n])
  {
    var clones, views, cutoff := f.State(n, "clones"), f.State(n, "views"), today - 1 - k;
    assert StaleObservation(f, n, "clones", cutoff).Some? ==> StoppedOn(clones, clones.latestObserved.value, today, k);
    assert StaleObservation(f, n, "views", cutoff).Some? ==> StoppedOn(views, views.latestObserved.value, today, k);
  }

  lemma SubsetIsSmaller(a: set<string>, b: set<string>)
    requires a <= b
    ensures |a| <= |b|
  {
    assert b == a + (b - a);
  }

  /** Active at a threshold means active at every smaller positive one. */
  lemma ActiveAtSmallerThresholds(r: FleetUpstreamStale, r': FleetUpstreamStale, f: Fleet, includePrivate: bool, k: int, k': int, today: int)
    requires 0 < k' <= k
    requires Describes(r, f, includePrivate, k, today) && Describes(r', f, includePrivate, k', today)
    requires r.active
    ensures r'.active && r'.stuckRepos >= r.stuckRepos && r'.eligibleRepos == r.eligibleRepos
  {
    var few, many := StuckRepos(f, includePrivate, k, today), StuckRepos(f, includePrivate, k', today);
    SubsetIsSmaller(few.Keys, many.Keys);
    assert |few| == |few.Keys| && |many| == |many.Keys|;
  }

  lemma SameObservations(f: Fleet, g: Fleet, includePrivate: bool, cutoff: int, n: string)
    requires SameReportable(f, g, includePrivate) && n in f.VisibleNames(includePrivate)
    ensures f.Clones(n) == g.Clones(n) && f.Views(n) == g.Views(n)
    ensures RepoObservation(f, n, cutoff) == RepoObservation(g, n, cutoff)
  {
    assert f.State(n, "clones") == g.State(n, "clones") && f.State(n, "views") == g.State(n, "views");
  }

  lemma SameEligibleRepos(f: Fleet, g: Fleet, includePrivate: bool, today: int)
    requires SameReportable(f, g, includePrivate)
    ensures EligibleRepos(f, includePrivate, today) == EligibleRepos(g, includePrivate, today)
  {
    var names, from, to := f.VisibleNames(includePrivate), today - EligibleWindowDays, today - 1;
    SameVisibleNames(f, g, includePrivate);
    forall n | n in names
      ensures HasTraffic(f, n, from, to) == HasTraffic(g, n, from, to)
    {
      SameObservations(f, g, includePrivate, today, n);
    }
    SameEligible(f, g, names, from, to);
  }

  lemma SameStuckRepos(f: Fleet, g: Fleet, includePrivate: bool, k: int, today: int)
    requires SameReportable(f, g, includePrivate)
    ensures StuckRepos(f, includePrivate, k, today) == StuckRepos(g, includePrivate, k, today)
  {
    SameEligibleRepos(f, g, includePrivate, today);
    SameStuckAmong(f, g, includePrivate, EligibleRepos(f, includePrivate, today), today - 1 - k);
  }

  lemma SameStuckAmong(f: Fleet, g: Fleet, includePrivate: bool, names: set<string>, cutoff: int)
    requires SameReportable(f, g, includePrivate) && names <= f.VisibleNames(includePrivate)
    ensures StuckAmong(f, names, cutoff) == StuckAmong(g, names, cutoff)
  {
    forall n | n in names
      ensures RepoObservation(f, n, cutoff) == RepoObservation(g, n, cutoff)
    {
      SameObservations(f, g, includePrivate, cutoff, n);
    }
    SameStuck(f, g, names, cutoff);
  }

  lemma SameEligible(f: Fleet, g: Fleet, names: set<string>, from: int, to: int)
    requires forall n :: n in names ==> HasTraffic(f, n, from, to) == HasTraffic(g, n, from, to)
    ensures EligibleAmong(f, names, from, to) == EligibleAmong(g, names, from, to)
  {
  }

  lemma SameStuck(f: Fleet, g: Fleet, names: set<string>, cutoff: int)
    requires forall n :: n in names ==> RepoObservation(f, n, cutoff) == RepoObservation(g, n, cutoff)
    ensures StuckAmong(f, names, cutoff) == StuckAmong(g, names, cutoff)
  {
  }

  lemma LatestIsUnique(observed: map<string, int>, a: Option<int>, b: Option<int>)
    requires IsLatest(observed, a) && IsLatest(observed, b)
    ensures a == b
  {
  }

  /** The signal depends on reportable repositories only; over one fleet it is unique. */
  lemma StaleSeesOnlyReportable(r: FleetUpstreamStale, r': FleetUpstreamStale, f: Fleet, g: Fleet, includePrivate: bool, k: int, today: int)
    requires SameReportable(f, g, includePrivate)
    requires Describes(r, f, includePrivate, k, today) && Describes(r', g, includePrivate, k, today)
    ensures r == r'
  {
    SameEligibleRepos(f, g, includePrivate, today);
    SameStuckRepos(f, g, includePrivate, k, today);
    if r.active {
      LatestIsUnique(StuckRepos(f, includePrivate, k, today), r.since, r'.since);
    }
  }
}
