/**
 Which alerts an evaluation tries, in every mode: what is asked for is tried unless its mode holds
 it back, nothing else is, and a rule that fires at every sync is never held back.
 */
module AlertDelivery {
  import opened Wrappers
  import opened Calendar
  import opened Reports
  import opened AlertKeys
  import opened Alerts
  import opened AlertRuns
  import opened AlertGuarantees

  // ---------- Who asks ----------

  predicate AskedByOps(cfg: Config, w: World, e: Evaluation, rule: RuleSpec) {
    rule in cfg.rules && rule.kind == "ops" && OpsFires(rule, e.snap, ConsecutiveAfter(w.desk.stamps, e.snap.success))
  }

  /** A successful sync's i-th rule is a plain traffic rule that fires for this scope. */
  predicate AskedByTraffic(cfg: Config, e: Evaluation, i: nat, scope: string) {
    && e.snap.success
    && i < |cfg.rules| && !cfg.rules[i].IsMilestone() && cfg.rules[i].kind != "ops"
    && i < |e.fires| && scope in e.fires[i]
  }

  predicate AskedByMilestone(cfg: Config, w: World, e: Evaluation, rule: RuleSpec, t: int) {
    e.snap.success && rule in cfg.rules && IsCrossed(rule, w.repos, cfg.includePrivate, t)
  }

  predicate AskedIn(rules: seq<RuleSpec>, fires: seq<seq<string>>, c: Candidate, i: nat, scope: string) {
    && i < |rules| && !rules[i].IsMilestone() && rules[i].kind != "ops"
    && scope in FiresOf(fires, i) && c == TrafficCandidate(rules[i], scope)
  }

  lemma TrafficWantedMeaning(rule: RuleSpec, scopes: seq<string>, c: Candidate)
    ensures c in TrafficWanted(rule, scopes) <==>
            !rule.IsMilestone() && rule.kind != "ops" && exists scope :: scope in scopes && c == TrafficCandidate(rule, scope)
  {
    if !rule.IsMilestone() && rule.kind != "ops" {
      var wanted := TrafficWanted(rule, scopes);
      if c in wanted {
        var j :| 0 <= j < |wanted| && wanted[j] == c;
        assert scopes[j] in scopes;
      }
      if scope :| scope in scopes && c == TrafficCandidate(rule, scope) {
        var j :| 0 <= j < |scopes| && scopes[j] == scope;
        assert wanted[j] == c;
      }
    }
  }

  ghost predicate TrafficAsks(rules: seq<RuleSpec>, fires: seq<seq<string>>, c: Candidate) {
    exists i: nat, scope :: AskedIn(rules, fires, c, i, scope)
  }

  lemma OneMoreRuleAsks(front: seq<RuleSpec>, rule: RuleSpec, fires: seq<seq<string>>, c: Candidate)
    ensures TrafficAsks(front + [rule], fires, c) <==>
            TrafficAsks(front, fires, c) || c in TrafficWanted(rule, FiresOf(fires, |front|))
  {
    var n, rules := |front|, front + [rule];
    TrafficWantedMeaning(rule, FiresOf(fires, n), c);
    if c in TrafficWanted(rule, FiresOf(fires, n)) {
      var scope :| scope in FiresOf(fires, n) && c == TrafficCandidate(rule, scope);
      assert AskedIn(rules, fires, c, n, scope);
    }
    if i: nat, scope :| AskedIn(front, fires, c, i, scope) {
      assert AskedIn(rules, fires, c, i, scope);
    }
    if i: nat, scope :| AskedIn(rules, fires, c, i, scope) {
      assert i < n ==> AskedIn(front, fires, c, i, scope);
    }
  }

  /** Every plain traffic rule asks for each scope it fires for, and for nothing else. */
  lemma {:induction false} TrafficAsksIff(rules: seq<RuleSpec>, fires: seq<seq<string>>, c: Candidate)
    ensures c in TrafficCandidates(rules, fires) <==> TrafficAsks(rules, fires, c)
  {
    if rules != [] {
      var n := |rules| - 1;
      assert rules == rules[..n] + [rules[n]];
      TrafficAsksIff(rules[..n], fires, c);
      OneMoreRuleAsks(rules[..n], rules[n], fires, c);
    }
  }

  lemma AskedByOpsIsCandidate(cfg: Config, w: World, e: Evaluation, rule: RuleSpec)
    requires AskedByOps(cfg, w, e, rule)
    ensures OpsCandidate(rule) in AllCandidates(cfg, w.desk.stamps, w.repos, e)
  {
    OpsCandidatesMeaning(cfg.rules, e.snap, ConsecutiveAfter(w.desk.stamps, e.snap.success), OpsCandidate(rule));
  }

  lemma AskedByTrafficIsCandidate(cfg: Config, w: World, e: Evaluation, i: nat, scope: string)
    requires AskedByTraffic(cfg, e, i, scope)
    ensures TrafficCandidate(cfg.rules[i], scope) in AllCandidates(cfg, w.desk.stamps, w.repos, e)
  {
    var c := TrafficCandidate(cfg.rules[i], scope);
    TrafficAsksIff(cfg.rules, e.fires, c);
    assert AskedIn(cfg.rules, e.fires, c, i, scope);
  }

  /** Each fan-out of an evaluation was asked for; after a failed sync only by ops rules. */
  lemma TriedIsAsked(cfg: Config, w: World, e: Evaluation, sinks: Sinks, n: nat)
    requires !cfg.Quiet()
    requires |w.desk.attempts| <= n < |Step(cfg, w, Evaluated(e), sinks).desk.attempts|
    ensures var key := Step(cfg, w, Evaluated(e), sinks).desk.attempts[n].key;
            || (exists rule :: AskedByOps(cfg, w, e, rule) && key == rule.OpsKey())
            || (exists i: nat, scope :: AskedByTraffic(cfg, e, i, scope) && key == cfg.rules[i].IdentityKey(scope))
            || (exists rule, t :: AskedByMilestone(cfg, w, e, rule, t) && key == rule.MilestoneKey(t))
  {
    var cs := AllCandidates(cfg, w.desk.stamps, w.repos, e);
    var after := Step(cfg, w, Evaluated(e), sinks).desk.attempts;
    NewAttempts(w.desk.(stamps := Prepared(cfg, w.desk.stamps, e.snap)), cs, |w.snaps|, e.date, sinks);
    var c :| c in cs && c.key == after[n].key;
    CandidateIsAsked(cfg, w, e, c);
  }

  lemma CandidateIsAsked(cfg: Config, w: World, e: Evaluation, c: Candidate)
    requires c in AllCandidates(cfg, w.desk.stamps, w.repos, e)
    ensures || (exists rule :: AskedByOps(cfg, w, e, rule) && c.key == rule.OpsKey())
            || (exists i: nat, scope :: AskedByTraffic(cfg, e, i, scope) && c.key == cfg.rules[i].IdentityKey(scope))
            || (exists rule, t :: AskedByMilestone(cfg, w, e, rule, t) && c.key == rule.MilestoneKey(t))
  {
    var consecutive := ConsecutiveAfter(w.desk.stamps, e.snap.success);
    if c in OpsCandidates(cfg.rules, e.snap, consecutive) {
      OpsCandidatesMeaning(cfg.rules, e.snap, consecutive, c);
      var rule :| rule in cfg.rules && rule.kind == "ops" && OpsFires(rule, e.snap, consecutive) && c == OpsCandidate(rule);
      assert AskedByOps(cfg, w, e, rule);
    } else if c in TrafficCandidates(cfg.rules, e.fires) {
      TrafficAsksIff(cfg.rules, e.fires, c);
      var i: nat, scope :| AskedIn(cfg.rules, e.fires, c, i, scope);
      assert AskedByTraffic(cfg, e, i, scope);
    } else {
      MilestoneCandidatesMeaning(cfg.rules, w.repos, cfg.includePrivate, c);
      var rule, t :| rule in cfg.rules && IsCrossed(rule, w.repos, cfg.includePrivate, t) && c == Candidate(rule.MilestoneKey(t), Once);
      assert AskedByMilestone(cfg, w, e, rule, t);
    }
  }

  // ---------- Every sync ----------

  lemma {:induction false} EverySyncInLoop(d: Desk, cs: seq<Candidate>, n: nat, date: Date, sinks: Sinks, key: string)
    requires Candidate(key, EverySync) in cs
    ensures Tried(FireAll(d, cs, n, date, sinks).attempts, |d.attempts|, key)
  {
    var front, c := cs[..|cs| - 1], cs[|cs| - 1];
    assert cs == front + [c];
    var m, d' := FireAll(d, front, n, date, sinks), FireAll(d, cs, n, date, sinks);
    assert m.attempts <= d'.attempts;
    if Candidate(key, EverySync) in front {
      EverySyncInLoop(d, front, n, date, sinks, key);
    } else {
      NewAttempts(d, front, n, date, sinks);
      assert d'.attempts[|m.attempts|].key == key;
    }
  }

  lemma {:induction false} EverySyncKeepsStamp(d: Desk, cs: seq<Candidate>, n: nat, date: Date, sinks: Sinks, key: string)
    requires ModesAgree(cs, key, EverySync)
    ensures StampOf(FireAll(d, cs, n, date, sinks).stamps, key) == StampOf(d.stamps, key)
  {
    if cs != [] {
      assert forall i :: 0 <= i < |cs| - 1 ==> cs[..|cs| - 1][i] == cs[i];
      EverySyncKeepsStamp(d, cs[..|cs| - 1], n, date, sinks, key);
    }
  }

  /**
   A rule of this mode that meets its comparison is tried in that evaluation, whatever the debounce
   table holds, and leaves no stamp.
   */
  lemma EverySyncIsAlwaysTried(cfg: Config, w: World, e: Evaluation, sinks: Sinks, rule: RuleSpec)
    requires AllNormalized(cfg) && !cfg.Quiet() && AskedByOps(cfg, w, e, rule)
    requires ModeOf(rule.OpsDebounceMode()) == EverySync
    ensures Tried(Step(cfg, w, Evaluated(e), sinks).desk.attempts, |w.desk.attempts|, rule.OpsKey())
    ensures OneModePerKey(cfg, rule) ==>
              StampOf(Step(cfg, w, Evaluated(e), sinks).desk.stamps, rule.OpsKey()) == StampOf(w.desk.stamps, rule.OpsKey())
  {
    var cs := AllCandidates(cfg, w.desk.stamps, w.repos, e);
    var d := w.desk.(stamps := Prepared(cfg, w.desk.stamps, e.snap));
    AskedByOpsIsCandidate(cfg, w, e, rule);
    EverySyncInLoop(d, cs, |w.snaps|, e.date, sinks, rule.OpsKey());
    if OneModePerKey(cfg, rule) {
      EverySyncStamp(cfg, w, e, sinks, rule);
    }
  }

  lemma EverySyncStamp(cfg: Config, w: World, e: Evaluation, sinks: Sinks, rule: RuleSpec)
    requires AllNormalized(cfg) && !cfg.Quiet() && AskedByOps(cfg, w, e, rule)
    requires ModeOf(rule.OpsDebounceMode()) == EverySync && OneModePerKey(cfg, rule)
    ensures StampOf(Step(cfg, w, Evaluated(e), sinks).desk.stamps, rule.OpsKey()) == StampOf(w.desk.stamps, rule.OpsKey())
  {
    var key := rule.OpsKey();
    OpsKeyHasOneMode(cfg, rule);
    CandidatesHaveMode(cfg, w.desk.stamps, w.repos, e, key, EverySync);
    FiringKeyIsNotCleared(cfg, w, e, rule);
    PreparedKeeps(cfg, w.desk.stamps, e.snap, key);
    EverySyncKeepsStamp(w.desk.(stamps := Prepared(cfg, w.desk.stamps, e.snap)),
                        AllCandidates(cfg, w.desk.stamps, w.repos, e), |w.snaps|, e.date, sinks, key);
  }

  /** A rule that fires is not cleared in the same evaluation: under a stale key it fires only when stuck. */
  lemma FiringKeyIsNotCleared(cfg: Config, w: World, e: Evaluation, rule: RuleSpec)
    requires AskedByOps(cfg, w, e, rule)
    ensures e.snap.upstreamStale || NeverCleared(cfg, rule.OpsKey())
  {
    if r :| r in cfg.rules && IsStaleRule(r) && r.OpsKey() == rule.OpsKey() {
      FiringUnderStaleKey(rule, r, e.snap, ConsecutiveAfter(w.desk.stamps, e.snap.success));
    }
  }

  /** The mode of an ops rule, by what it says and, if it says nothing, by its event and level. */
  lemma OpsModeIff(rule: RuleSpec)
    requires rule.Normalized() && rule.kind == "ops"
    ensures ModeOf(rule.OpsDebounceMode()) == EverySync <==>
              || (rule.debounce == "every_sync" && rule.fire != "once")
              || (rule.debounce == "" && rule.event == "sync_failed" && rule.level == "crit")
              || (rule.debounce == "" && rule.event == "github_unreachable" && rule.level in {"crit", ""})
    ensures ModeOf(rule.OpsDebounceMode()) == Once <==>
              || (rule.debounce == "" && rule.event == "upstream_stale")
              || (rule.debounce != "" && (rule.debounce == "once" || rule.fire == "once"))
  {
  }

  /** The mode of a traffic rule: ladders are once, and anything it does not know is daily. */
  lemma TrafficModeIff(rule: RuleSpec)
    ensures ModeOf(rule.DebounceMode()) == Once <==> rule.IsMilestone() || rule.debounce == "once" || rule.fire == "once"
    ensures ModeOf(rule.DebounceMode()) == EverySync <==> !rule.IsMilestone() && rule.debounce == "every_sync" && rule.fire != "once"
  {
  }

  // ---------- Once and daily ----------

  lemma OpenIsTriedIff(cfg: Config, w: World, e: Evaluation, sinks: Sinks, key: string, mode: Mode)
    requires !cfg.Quiet() && mode != EverySync && key != CounterKey
    requires ModePerKey(cfg, key, mode) && NeverCleared(cfg, key)
    requires Candidate(key, mode) in AllCandidates(cfg, w.desk.stamps, w.repos, e)
    ensures Tried(Step(cfg, w, Evaluated(e), sinks).desk.attempts, |w.desk.attempts|, key)
      <==> !Blocked(w.desk.stamps, key, mode, e.date)
  {
    PreparedKeeps(cfg, w.desk.stamps, e.snap, key);
    if Blocked(w.desk.stamps, key, mode, e.date) {
      KeyThroughEvaluation(cfg, w, e, sinks, key, mode);
    } else {
      CandidatesHaveMode(cfg, w.desk.stamps, w.repos, e, key, mode);
      OpenKeyIsTried(w.desk.(stamps := Prepared(cfg, w.desk.stamps, e.snap)),
                     AllCandidates(cfg, w.desk.stamps, w.repos, e), |w.snaps|, e.date, sinks, key, mode);
    }
  }

  /** What may be delivered once is tried whenever it is asked for, until it has been delivered. */
  lemma OnceIsTriedIff(cfg: Config, repos: Repos, events: seq<Event>, sinks: Sinks, e: Evaluation, key: string)
    requires !cfg.Quiet() && OnceKey(cfg, key)
    requires var w := Exec(cfg, Start(repos), events, sinks);
             Candidate(key, Once) in AllCandidates(cfg, w.desk.stamps, w.repos, e)
    ensures var w := Exec(cfg, Start(repos), events, sinks);
            Tried(Step(cfg, w, Evaluated(e), sinks).desk.attempts, |w.desk.attempts|, key) <==> !EverOk(w, key)
  {
    var w := Exec(cfg, Start(repos), events, sinks);
    RunsKeepOnce(cfg, repos, events, sinks, key);
    OpenIsTriedIff(cfg, w, e, sinks, key, Once);
  }

  ghost predicate OkOnDate(attempts: seq<Attempt>, key: string, date: Date) {
    exists i :: 0 <= i < |attempts| && OkOn(attempts[i], key) && attempts[i].date == date
  }

  predicate NotBefore(dates: seq<Date>, today: Date) {
    forall i :: 0 <= i < |dates| ==> DayNumber(dates[i]) <= DayNumber(today)
  }

  /** A daily key is held back exactly by a success on the evaluation's own date. */
  lemma DailyBlockedIff(w: World, key: string, date: Date)
    requires DailyInvariant(w, key) && NotBefore(w.dates, date)
    ensures Blocked(w.desk.stamps, key, Daily, date) <==> OkOnDate(w.desk.attempts, key, date)
  {
    var a, stamp := w.desk.attempts, StampOf(w.desk.stamps, key);
    DatesAreText(date);
    if stamp == FullDate(date) {
      var k: nat :| LatestOk(a, key, k) && stamp == FullDate(a[k].date);
      SameText(a[k].date, date);
    } else if i :| 0 <= i < |a| && OkOn(a[i], key) && a[i].date == date {
      EarlierDates(w, date, key, i);
    }
  }

  lemma SameText(a: Date, b: Date)
    requires FullDate(a) == FullDate(b)
    ensures a == b
  {
    TextOrderIsDayOrder(a, b);
  }

  /** What may be delivered once a day is tried whenever it is asked for, until that date has a success. */
  lemma DailyIsTriedIff(cfg: Config, repos: Repos, events: seq<Event>, sinks: Sinks, e: Evaluation, key: string)
    requires !cfg.Quiet() && DailyKey(cfg, key)
    requires var w := Exec(cfg, Start(repos), events, sinks);
             && ClockNeverGoesBack(w.dates) && NotBefore(w.dates, e.date)
             && Candidate(key, Daily) in AllCandidates(cfg, w.desk.stamps, w.repos, e)
    ensures var w := Exec(cfg, Start(repos), events, sinks);
            Tried(Step(cfg, w, Evaluated(e), sinks).desk.attempts, |w.desk.attempts|, key)
            <==> !OkOnDate(w.desk.attempts, key, e.date)
  {
    var w := Exec(cfg, Start(repos), events, sinks);
    RunsKeepDaily(cfg, repos, events, sinks, key);
    DailyBlockedIff(w, key, e.date);
    OpenIsTriedIff(cfg, w, e, sinks, key, Daily);
  }

  lemma TrafficKeyIsNotCleared(cfg: Config, rule: RuleSpec, scope: string)
    requires AllNormalized(cfg) && rule in cfg.rules && rule.kind == "traffic"
    ensures rule.IdentityKey(scope) != CounterKey && NeverCleared(cfg, rule.IdentityKey(scope))
  {
    RuleKeysAreApart(rule, scope, "", 0);
    forall r | r in cfg.rules && IsStaleRule(r)
      ensures r.OpsKey() != rule.IdentityKey(scope)
    {
      TrafficKeyIsNoOpsKey(rule, scope, r);
    }
  }

  /** A traffic rule that fires for a scope is tried in its own mode: always, until delivered, or once a date. */
  lemma TrafficIsTried(cfg: Config, repos: Repos, events: seq<Event>, sinks: Sinks, e: Evaluation, i: nat, scope: string)
    requires AllNormalized(cfg) && !cfg.Quiet() && AskedByTraffic(cfg, e, i, scope)
    requires ModePerKey(cfg, cfg.rules[i].IdentityKey(scope), ModeOf(cfg.rules[i].DebounceMode()))
    requires var w := Exec(cfg, Start(repos), events, sinks); ClockNeverGoesBack(w.dates) && NotBefore(w.dates, e.date)
    ensures var w := Exec(cfg, Start(repos), events, sinks);
            var key := cfg.rules[i].IdentityKey(scope);
            var tried := Tried(Step(cfg, w, Evaluated(e), sinks).desk.attempts, |w.desk.attempts|, key);
            match ModeOf(cfg.rules[i].DebounceMode())
            case EverySync => tried
            case Once => tried <==> !EverOk(w, key)
            case Daily => tried <==> !OkOnDate(w.desk.attempts, key, e.date)
  {
    var w := Exec(cfg, Start(repos), events, sinks);
    var rule := cfg.rules[i];
    AskedByTrafficIsCandidate(cfg, w, e, i, scope);
    TrafficKeyIsNotCleared(cfg, rule, scope);
    match ModeOf(rule.DebounceMode())
    case EverySync =>
      EverySyncInLoop(w.desk.(stamps := Prepared(cfg, w.desk.stamps, e.snap)),
                      AllCandidates(cfg, w.desk.stamps, w.repos, e), |w.snaps|, e.date, sinks, rule.IdentityKey(scope));
    case Once => OnceIsTriedIff(cfg, repos, events, sinks, e, rule.IdentityKey(scope));
    case Daily => DailyIsTriedIff(cfg, repos, events, sinks, e, rule.IdentityKey(scope));
  }

  /** The same for an ops rule whose key no stale rule clears. */
  lemma OpsIsTried(cfg: Config, repos: Repos, events: seq<Event>, sinks: Sinks, e: Evaluation, rule: RuleSpec)
    requires AllNormalized(cfg) && !cfg.Quiet() && OneModePerKey(cfg, rule) && NeverCleared(cfg, rule.OpsKey())
    requires var w := Exec(cfg, Start(repos), events, sinks);
             AskedByOps(cfg, w, e, rule) && ClockNeverGoesBack(w.dates) && NotBefore(w.dates, e.date)
    ensures var w := Exec(cfg, Start(repos), events, sinks);
            var tried := Tried(Step(cfg, w, Evaluated(e), sinks).desk.attempts, |w.desk.attempts|, rule.OpsKey());
            match ModeOf(rule.OpsDebounceMode())
            case EverySync => tried
            case Once => tried <==> !EverOk(w, rule.OpsKey())
            case Daily => tried <==> !OkOnDate(w.desk.attempts, rule.OpsKey(), e.date)
  {
    var w := Exec(cfg, Start(repos), events, sinks);
    OpsKeyHasOneMode(cfg, rule);
    AskedByOpsIsCandidate(cfg, w, e, rule);
    match ModeOf(rule.OpsDebounceMode())
    case EverySync => EverySyncIsAlwaysTried(cfg, w, e, sinks, rule);
    case Once => OnceIsTriedIff(cfg, repos, events, sinks, e, rule.OpsKey());
    case Daily => DailyIsTriedIff(cfg, repos, events, sinks, e, rule.OpsKey());
  }

  // ---------- Without rules or sinks ----------

  /** Nothing is evaluated, not even the counter, exactly when there is no sink or no rule. */
  lemma QuietIff(cfg: Config, d: Desk, repos: Repos, n: nat, e: Evaluation, sinks: Sinks)
    requires AllNormalized(cfg)
    ensures cfg.senders == 0 || cfg.rules == [] ==> AfterEvaluation(cfg, d, repos, n, e, sinks) == d
    ensures cfg.senders > 0 && cfg.rules != [] ==>
              StampOf(AfterEvaluation(cfg, d, repos, n, e, sinks).stamps, CounterKey)
              == Itoa(ConsecutiveAfter(d.stamps, e.snap.success))
  {
    if !cfg.Quiet() {
      ClearingSparesTheCounter(cfg, Counted(d.stamps, e.snap.success));
      NoneAsksForTheCounter(cfg, d.stamps, repos, e);
      UnaskedKeyStays(d.(stamps := Prepared(cfg, d.stamps, e.snap)), AllCandidates(cfg, d.stamps, repos, e), n, e.date, sinks, CounterKey);
      ZeroText();
    }
  }
}
