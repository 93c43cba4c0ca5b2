/**
 Whole runs of repository changes and alert evaluations, with arbitrary delivery outcomes: how often
 a key can be delivered, and what the consecutive-failure counter holds.
 */
module AlertRuns {
  import opened Wrappers
  import opened Calendar
  import opened Reports
  import opened AlertKeys
  import opened Alerts

  /** `snaps` and `dates` record the evaluations so far. */
  datatype World = World(repos: Repos, desk: Desk, snaps: seq<Snapshot>, dates: seq<Date>)

  datatype Event = Changed(change: Change) | Evaluated(evaluation: Evaluation)

  function Start(repos: Repos): World {
    World(repos, Desk(map[], []), [], [])
  }

  function Step(cfg: Config, w: World, ev: Event, sinks: Sinks): World {
    match ev
    case Changed(c) => w.(repos := AfterChange(w.repos, c))
    case Evaluated(e) =>
      if cfg.Quiet() then w
      else World(w.repos, AfterEvaluation(cfg, w.desk, w.repos, |w.snaps|, e, sinks), w.snaps + [e.snap], w.dates + [e.date])
  }

  function Exec(cfg: Config, w: World, events: seq<Event>, sinks: Sinks): World {
    if events == [] then w
    else Step(cfg, Exec(cfg, w, events[..|events| - 1], sinks), events[|events| - 1], sinks)
  }

  predicate ClockNeverGoesBack(dates: seq<Date>) {
    forall i, j :: 0 <= i < j < |dates| ==> DayNumber(dates[i]) <= DayNumber(dates[j])
  }

  predicate AllNormalized(cfg: Config) {
    forall i :: 0 <= i < |cfg.rules| ==> cfg.rules[i].Normalized()
  }

  /** Whatever asks to fire under `key` asks for this mode. */
  ghost predicate ModePerKey(cfg: Config, key: string, mode: Mode) {
    forall r :: r in cfg.rules ==>
      && (r.kind == "ops" && r.OpsKey() == key ==> ModeOf(r.OpsDebounceMode()) == mode)
      && (r.kind != "ops" ==> forall scope :: r.IdentityKey(scope) == key ==> ModeOf(r.DebounceMode()) == mode)
      && (forall t :: t in r.milestones && r.MilestoneKey(t) == key ==> mode == Once)
  }

  ghost predicate NeverCleared(cfg: Config, key: string) {
    forall r :: r in cfg.rules && IsStaleRule(r) ==> r.OpsKey() != key
  }

  predicate OkOn(a: Attempt, key: string) {
    a.key == key && a.ok
  }

  ghost predicate AnyOk(attempts: seq<Attempt>, from: nat, key: string) {
    exists i :: from <= i < |attempts| && OkOn(attempts[i], key)
  }

  predicate AtMostOneOk(attempts: seq<Attempt>, from: nat, key: string) {
    forall i, j :: from <= i < j < |attempts| ==> !(OkOn(attempts[i], key) && OkOn(attempts[j], key))
  }

  ghost predicate Tried(attempts: seq<Attempt>, from: nat, key: string) {
    exists i :: from <= i < |attempts| && attempts[i].key == key
  }

  // ---------- The candidates ----------

  lemma {:induction false} OpsCandidatesMeaning(rules: seq<RuleSpec>, snap: Snapshot, consecutive: int, c: Candidate)
    ensures c in OpsCandidates(rules, snap, consecutive) <==>
            exists r :: r in rules && r.kind == "ops" && OpsFires(r, snap, consecutive) && c == OpsCandidate(r)
  {
    if rules != [] {
      var front, r := rules[..|rules| - 1], rules[|rules| - 1];
      assert rules == front + [r];
      OpsCandidatesMeaning(front, snap, consecutive, c);
      assert c in OpsCandidates(rules, snap, consecutive) <==>
             c in OpsCandidates(front, snap, consecutive) || c in OpsWanted(r, snap, consecutive);
    }
  }

  lemma {:induction false} TrafficCandidatesMeaning(rules: seq<RuleSpec>, fires: seq<seq<string>>, c: Candidate)
    requires c in TrafficCandidates(rules, fires)
    ensures exists r, scope :: r in rules && r.kind != "ops" && c == TrafficCandidate(r, scope)
  {
    var i := |rules| - 1;
    var front, wanted := TrafficCandidates(rules[..i], fires), TrafficWanted(rules[i], FiresOf(fires, i));
    assert c in front || c in wanted;
    if c in front {
      TrafficCandidatesMeaning(rules[..i], fires, c);
    } else {
      var j :| 0 <= j < |wanted| && wanted[j] == c;
      assert c == TrafficCandidate(rules[i], FiresOf(fires, i)[j]);
    }
  }

  lemma {:induction false} CrossedMeaning(thresholds: seq<int>, stars: int, t: int)
    ensures t in Crossed(thresholds, stars) <==> t in thresholds && stars >= t
  {
    if thresholds != [] {
      var front, last := thresholds[..|thresholds| - 1], thresholds[|thresholds| - 1];
      assert thresholds == front + [last];
      CrossedMeaning(front, stars, t);
    }
  }

  predicate IsCrossed(rule: RuleSpec, repos: Repos, includePrivate: bool, t: int) {
    && t in rule.milestones
    && ReportVisible(repos, rule.repo, includePrivate)
    && repos[rule.repo].stars >= t
  }

  lemma MilestonesWantedMeaning(r: RuleSpec, repos: Repos, includePrivate: bool, c: Candidate)
    ensures c in MilestonesWanted(r, repos, includePrivate) <==>
            exists t :: IsCrossed(r, repos, includePrivate, t) && c == Candidate(r.MilestoneKey(t), Once)
  {
    var crossed, wanted := CrossedBy(r, repos, includePrivate), MilestonesWanted(r, repos, includePrivate);
    forall t
      ensures t in crossed <==> IsCrossed(r, repos, includePrivate, t)
    {
      if ReportVisible(repos, r.repo, includePrivate) {
        CrossedMeaning(r.milestones, repos[r.repo].stars, t);
      }
    }
    if c in wanted {
      var i :| 0 <= i < |wanted| && wanted[i] == c;
      assert crossed[i] in crossed;
    }
    if t :| IsCrossed(r, repos, includePrivate, t) && c == Candidate(r.MilestoneKey(t), Once) {
      var i :| 0 <= i < |crossed| && crossed[i] == t;
      assert wanted[i] == c;
    }
  }

  lemma {:induction false} MilestoneCandidatesMeaning(rules: seq<RuleSpec>, repos: Repos, includePrivate: bool, c: Candidate)
    ensures c in MilestoneCandidates(rules, repos, includePrivate) <==>
            exists r, t :: r in rules && IsCrossed(r, repos, includePrivate, t) && c == Candidate(r.MilestoneKey(t), Once)
  {
    if rules != [] {
      var front, r := rules[..|rules| - 1], rules[|rules| - 1];
      assert rules == front + [r];
      MilestoneCandidatesMeaning(front, repos, includePrivate, c);
      MilestonesWantedMeaning(r, repos, includePrivate, c);
      assert c in MilestoneCandidates(rules, repos, includePrivate) <==>
             c in MilestoneCandidates(front, repos, includePrivate) || c in MilestonesWanted(r, repos, includePrivate);
    }
  }

  predicate ModesAgree(cs: seq<Candidate>, key: string, mode: Mode) {
    forall i :: 0 <= i < |cs| && cs[i].key == key ==> cs[i].mode == mode
  }

  lemma CandidatesHaveMode(cfg: Config, stamps: Stamps, repos: Repos, e: Evaluation, key: string, mode: Mode)
    requires ModePerKey(cfg, key, mode)
    ensures ModesAgree(AllCandidates(cfg, stamps, repos, e), key, mode)
  {
    var cs := AllCandidates(cfg, stamps, repos, e);
    var consecutive := ConsecutiveAfter(stamps, e.snap.success);
    forall i | 0 <= i < |cs| && cs[i].key == key
      ensures cs[i].mode == mode
    {
      CandidateOrigin(cfg, consecutive, repos, e, cs[i]);
    }
  }

  /** Every candidate comes from an ops rule, a traffic rule and a scope, or a milestone. */
  lemma CandidateOrigin(cfg: Config, consecutive: int, repos: Repos, e: Evaluation, c: Candidate)
    requires c in OpsCandidates(cfg.rules, e.snap, consecutive)
               + (if e.snap.success
                  then TrafficCandidates(cfg.rules, e.fires) + MilestoneCandidates(cfg.rules, repos, cfg.includePrivate)
                  else [])
    ensures (exists r :: r in cfg.rules && r.kind == "ops" && OpsFires(r, e.snap, consecutive) && c == OpsCandidate(r))
         || (exists r, scope :: r in cfg.rules && r.kind != "ops" && c == TrafficCandidate(r, scope))
         || (exists r, t :: r in cfg.rules && t in r.milestones && c == Candidate(r.MilestoneKey(t), Once))
  {
    OpsCandidatesMeaning(cfg.rules, e.snap, consecutive, c);
    MilestoneCandidatesMeaning(cfg.rules, repos, cfg.includePrivate, c);
    if c in TrafficCandidates(cfg.rules, e.fires) {
      TrafficCandidatesMeaning(cfg.rules, e.fires, c);
    }
  }

  // ---------- One key through one loop of candidates ----------

  lemma {:induction false} NewAttempts(d: Desk, cs: seq<Candidate>, n: nat, date: Date, sinks: Sinks)
    ensures var d' := FireAll(d, cs, n, date, sinks);
            && d.attempts <= d'.attempts
            && (forall i :: |d.attempts| <= i < |d'.attempts| ==>
              && d'.attempts[i].eval == n && d'.attempts[i].date == date
              && d'.attempts[i].ok == Delivered(sinks(i))
              && exists c :: c in cs && c.key == d'.attempts[i].key)
  {
    if cs != [] {
      var front, c := cs[..|cs| - 1], cs[|cs| - 1];
      assert cs == front + [c];
      NewAttempts(d, front, n, date, sinks);
    }
  }

  predicate Blocked(stamps: Stamps, key: string, mode: Mode, date: Date) {
    !ShouldFire(stamps, Candidate(key, mode), FullDate(date))
  }

  function Mark(mode: Mode, date: Date): string {
    if mode == Once then "fired" else FullDate(date)
  }

  /** A blocked key is not tried; an open one succeeds at most once, and that success blocks it. */
  lemma {:induction false} KeyThroughLoop(d: Desk, cs: seq<Candidate>, n: nat, date: Date, sinks: Sinks, key: string, mode: Mode)
    requires mode != EverySync && ModesAgree(cs, key, mode)
    ensures var d' := FireAll(d, cs, n, date, sinks);
            && |d.attempts| <= |d'.attempts|
            && AtMostOneOk(d'.attempts, |d.attempts|, key)
            && (Blocked(d.stamps, key, mode, date) ==>
              forall i :: |d.attempts| <= i < |d'.attempts| ==> d'.attempts[i].key != key)
            && StampOf(d'.stamps, key) ==
               (if AnyOk(d'.attempts, |d.attempts|, key) then Mark(mode, date) else StampOf(d.stamps, key))
  {
    if cs != [] {
      var front, c := cs[..|cs| - 1], cs[|cs| - 1];
      assert forall i :: 0 <= i < |front| ==> front[i] == cs[i];
      KeyThroughLoop(d, front, n, date, sinks, key, mode);
      KeyThroughOne(d, FireAll(d, front, n, date, sinks), c, n, date, sinks, key, mode);
    }
  }

  lemma KeyThroughOne(d: Desk, m: Desk, c: Candidate, n: nat, date: Date, sinks: Sinks, key: string, mode: Mode)
    requires mode != EverySync && (c.key == key ==> c.mode == mode)
    requires |d.attempts| <= |m.attempts| && AtMostOneOk(m.attempts, |d.attempts|, key)
    requires Blocked(d.stamps, key, mode, date) ==>
               forall i :: |d.attempts| <= i < |m.attempts| ==> m.attempts[i].key != key
    requires StampOf(m.stamps, key) ==
             (if AnyOk(m.attempts, |d.attempts|, key) then Mark(mode, date) else StampOf(d.stamps, key))
    ensures var d' := FireOne(m, c, n, date, sinks);
            && |d.attempts| <= |d'.attempts|
            && AtMostOneOk(d'.attempts, |d.attempts|, key)
            && (Blocked(d.stamps, key, mode, date) ==>
              forall i :: |d.attempts| <= i < |d'.attempts| ==> d'.attempts[i].key != key)
            && StampOf(d'.stamps, key) ==
               (if AnyOk(d'.attempts, |d.attempts|, key) then Mark(mode, date) else StampOf(d.stamps, key))
  {
    var d' := FireOne(m, c, n, date, sinks);
    if ShouldFire(m.stamps, c, FullDate(date)) {
      var last := |d'.attempts| - 1;
      assert d'.attempts[..last] == m.attempts;
      if OkOn(d'.attempts[last], key) {
        assert !AnyOk(m.attempts, |d.attempts|, key);
        assert AnyOk(d'.attempts, |d.attempts|, key);
      } else if AnyOk(m.attempts, |d.attempts|, key) {
        var i :| |d.attempts| <= i < |m.attempts| && OkOn(m.attempts[i], key);
        assert OkOn(d'.attempts[i], key);
      }
    }
  }

  /** An open key that some candidate asks for is tried. */
  lemma {:induction false} OpenKeyIsTried(d: Desk, cs: seq<Candidate>, n: nat, date: Date, sinks: Sinks, key: string, mode: Mode)
    requires mode != EverySync && ModesAgree(cs, key, mode)
    requires Candidate(key, mode) in cs && !Blocked(d.stamps, key, mode, date)
    ensures Tried(FireAll(d, cs, n, date, sinks).attempts, |d.attempts|, key)
  {
    var front, c := cs[..|cs| - 1], cs[|cs| - 1];
    assert cs == front + [c];
    assert forall i :: 0 <= i < |front| ==> front[i] == cs[i];
    var m := FireAll(d, front, n, date, sinks);
    var d' := FireAll(d, cs, n, date, sinks);
    assert m.attempts <= d'.attempts;
    if Candidate(key, mode) in front {
      OpenKeyIsTried(d, front, n, date, sinks, key, mode);
    } else {
      KeyThroughLoop(d, front, n, date, sinks, key, mode);
      NewAttempts(d, front, n, date, sinks);
      if !AnyOk(m.attempts, |d.attempts|, key) {
        assert d'.attempts[|d'.attempts| - 1].key == key;
      }
    }
  }

  // ---------- The table before the loops ----------

  lemma {:induction false} ClearedKeeps(stamps: Stamps, rules: seq<RuleSpec>, key: string)
    ensures StampOf(Cleared(stamps, rules), key) ==
            (if exists r :: r in rules && IsStaleRule(r) && r.OpsKey() == key then "" else StampOf(stamps, key))
  {
    if rules != [] {
      var front, r := rules[..|rules| - 1], rules[|rules| - 1];
      assert rules == front + [r];
      ClearedKeeps(stamps, front, key);
      if x :| x in front && IsStaleRule(x) && x.OpsKey() == key {
        assert x in rules;
      }
    }
  }

  lemma PreparedKeeps(cfg: Config, stamps: Stamps, snap: Snapshot, key: string)
    requires key != CounterKey
    ensures snap.upstreamStale || NeverCleared(cfg, key) ==>
              StampOf(Prepared(cfg, stamps, snap), key) == StampOf(stamps, key)
    ensures !snap.upstreamStale && !NeverCleared(cfg, key) ==> StampOf(Prepared(cfg, stamps, snap), key) == ""
  {
    ClearedKeeps(Counted(stamps, snap.success), cfg.rules, key);
  }

  /** One evaluation, seen by one key that is not the counter's. */
  lemma KeyThroughEvaluation(cfg: Config, w: World, e: Evaluation, sinks: Sinks, key: string, mode: Mode)
    requires !cfg.Quiet() && mode != EverySync && key != CounterKey && ModePerKey(cfg, key, mode)
    ensures var w' := Step(cfg, w, Evaluated(e), sinks);
            var prepared := Prepared(cfg, w.desk.stamps, e.snap);
            var before, after := w.desk.attempts, w'.desk.attempts;
            && before <= after
            && (forall i :: |before| <= i < |after| ==> after[i].eval == |w.snaps| && after[i].date == e.date)
            && AtMostOneOk(after, |before|, key)
            && (Blocked(prepared, key, mode, e.date) ==> forall i :: |before| <= i < |after| ==> after[i].key != key)
            && StampOf(w'.desk.stamps, key) ==
               (if AnyOk(after, |before|, key) then Mark(mode, e.date) else StampOf(prepared, key))
  {
    var d := w.desk.(stamps := Prepared(cfg, w.desk.stamps, e.snap));
    var cs := AllCandidates(cfg, w.desk.stamps, w.repos, e);
    CandidatesHaveMode(cfg, w.desk.stamps, w.repos, e, key, mode);
    KeyThroughLoop(d, cs, |w.snaps|, e.date, sinks, key, mode);
    NewAttempts(d, cs, |w.snaps|, e.date, sinks);
  }
}
