/**
 What every run of alert evaluations guarantees: milestones are delivered once ever and stay due
 until then, stale alerts once per stuck episode, daily rules once per date, and the
 consecutive-failure counter is the length of the current failing streak.
 */
module AlertGuarantees {
  import opened Wrappers
  import opened Calendar
  import opened Reports
  import opened AlertKeys
  import opened Alerts
  import opened AlertRuns

  ghost predicate EverOk(w: World, key: string) {
    AnyOk(w.desk.attempts, 0, key)
  }

  lemma LongerHistory(before: seq<Attempt>, after: seq<Attempt>, key: string)
    requires before <= after
    ensures AnyOk(after, 0, key) <==> AnyOk(before, 0, key) || AnyOk(after, |before|, key)
  {
    if i :| 0 <= i < |after| && OkOn(after[i], key) {
      if i < |before| {
        assert OkOn(before[i], key);
      }
    }
    if i :| 0 <= i < |before| && OkOn(before[i], key) {
      assert OkOn(after[i], key);
    }
  }

  // ---------- Milestones: once ever, and due until delivered ----------

  ghost predicate OnceEver(w: World, key: string) {
    && AtMostOneOk(w.desk.attempts, 0, key)
    && (EverOk(w, key) <==> StampOf(w.desk.stamps, key) != "")
  }

  /** Nothing but rules that fire once asks for this key, and no rule clears it. */
  ghost predicate OnceKey(cfg: Config, key: string) {
    key != CounterKey && ModePerKey(cfg, key, Once) && NeverCleared(cfg, key)
  }

  lemma EvaluationKeepsOnce(cfg: Config, w: World, e: Evaluation, sinks: Sinks, key: string)
    requires OnceKey(cfg, key) && OnceEver(w, key)
    ensures OnceEver(Step(cfg, w, Evaluated(e), sinks), key)
  {
    if !cfg.Quiet() {
      PreparedKeeps(cfg, w.desk.stamps, e.snap, key);
      KeyThroughEvaluation(cfg, w, e, sinks, key, Once);
      LongerHistory(w.desk.attempts, Step(cfg, w, Evaluated(e), sinks).desk.attempts, key);
    }
  }

  lemma {:induction false} RunsKeepOnce(cfg: Config, repos: Repos, events: seq<Event>, sinks: Sinks, key: string)
    requires OnceKey(cfg, key)
    ensures OnceEver(Exec(cfg, Start(repos), events, sinks), key)
  {
    if events != [] {
      var before := events[..|events| - 1];
      RunsKeepOnce(cfg, repos, before, sinks, key);
      if events[|events| - 1].Evaluated? {
        EvaluationKeepsOnce(cfg, Exec(cfg, Start(repos), before, sinks), events[|events| - 1].evaluation, sinks, key);
      }
    }
  }

  lemma MilestoneKeysAreOnce(cfg: Config, repo: string, t: int)
    requires AllNormalized(cfg)
    ensures OnceKey(cfg, MilestoneKeyOf(repo, t))
  {
    var key := MilestoneKeyOf(repo, t);
    forall r | r in cfg.rules
      ensures r.OpsKey() != key && forall scope :: r.IdentityKey(scope) != key
    {
      RuleKeysAreApart(r, r.event, repo, t);
      forall scope
        ensures r.IdentityKey(scope) != key
      {
        RuleKeysAreApart(r, scope, repo, t);
      }
    }
    MilestoneIsNotTheCounter(repo, t);
  }

  /** At most one fan-out for a threshold ever succeeds, and the stamp says whether one did. */
  lemma MilestoneDeliveredOnce(cfg: Config, repos: Repos, events: seq<Event>, sinks: Sinks, repo: string, t: int)
    requires AllNormalized(cfg)
    ensures OnceEver(Exec(cfg, Start(repos), events, sinks), MilestoneKeyOf(repo, t))
  {
    MilestoneKeysAreOnce(cfg, repo, t);
    RunsKeepOnce(cfg, repos, events, sinks, MilestoneKeyOf(repo, t));
  }

  /**
   After any run, an evaluation of a successful sync tries a crossed threshold exactly when no
   fan-out for it has succeeded yet. If its sinks accept everything, it is delivered by then.
   */
  lemma CrossedIsDelivered(
    cfg: Config, repos: Repos, events: seq<Event>, sinks: Sinks, rule: RuleSpec, t: int, e: Evaluation)
    requires AllNormalized(cfg) && !cfg.Quiet() && rule in cfg.rules && e.snap.success
    requires IsCrossed(rule, Exec(cfg, Start(repos), events, sinks).repos, cfg.includePrivate, t)
    ensures var w := Exec(cfg, Start(repos), events, sinks);
            var w' := Step(cfg, w, Evaluated(e), sinks);
            var tried := Tried(w'.desk.attempts, |w.desk.attempts|, rule.MilestoneKey(t));
            && (tried <==> !EverOk(w, rule.MilestoneKey(t)))
            && ((forall n :: n >= |w.desk.attempts| ==> Delivered(sinks(n))) ==> EverOk(w', rule.MilestoneKey(t)))
  {
    var key := rule.MilestoneKey(t);
    var w := Exec(cfg, Start(repos), events, sinks);
    MilestoneDeliveredOnce(cfg, repos, events, sinks, rule.repo, t);
    MilestoneKeysAreOnce(cfg, rule.repo, t);
    CrossedIsTried(cfg, w, sinks, rule, t, e);
    var after := Step(cfg, w, Evaluated(e), sinks).desk.attempts;
    KeyThroughEvaluation(cfg, w, e, sinks, key, Once);
    PreparedKeeps(cfg, w.desk.stamps, e.snap, key);
    AttemptsOfEvaluation(cfg, w, e, sinks);
    LongerHistory(w.desk.attempts, after, key);
    if Tried(after, |w.desk.attempts|, key) && forall n :: n >= |w.desk.attempts| ==> Delivered(sinks(n)) {
      var i :| |w.desk.attempts| <= i < |after| && after[i].key == key;
      assert OkOn(after[i], key);
    }
  }

  lemma CrossedIsTried(cfg: Config, w: World, sinks: Sinks, rule: RuleSpec, t: int, e: Evaluation)
    requires !cfg.Quiet() && rule in cfg.rules && e.snap.success
    requires IsCrossed(rule, w.repos, cfg.includePrivate, t) && OnceKey(cfg, rule.MilestoneKey(t))
    ensures StampOf(w.desk.stamps, rule.MilestoneKey(t)) == "" ==>
              Tried(Step(cfg, w, Evaluated(e), sinks).desk.attempts, |w.desk.attempts|, rule.MilestoneKey(t))
  {
    var key := rule.MilestoneKey(t);
    MilestoneCandidatesMeaning(cfg.rules, w.repos, cfg.includePrivate, Candidate(key, Once));
    var cs := AllCandidates(cfg, w.desk.stamps, w.repos, e);
    assert Candidate(key, Once) in cs;
    CandidatesHaveMode(cfg, w.desk.stamps, w.repos, e, key, Once);
    PreparedKeeps(cfg, w.desk.stamps, e.snap, key);
    var d := w.desk.(stamps := Prepared(cfg, w.desk.stamps, e.snap));
    if StampOf(w.desk.stamps, key) == "" {
      OpenKeyIsTried(d, cs, |w.snaps|, e.date, sinks, key, Once);
    }
  }

  lemma AttemptsOfEvaluation(cfg: Config, w: World, e: Evaluation, sinks: Sinks)
    requires !cfg.Quiet()
    ensures var after := Step(cfg, w, Evaluated(e), sinks).desk.attempts;
            forall i :: |w.desk.attempts| <= i < |after| ==> after[i].ok == Delivered(sinks(i))
  {
    NewAttempts(w.desk.(stamps := Prepared(cfg, w.desk.stamps, e.snap)), AllCandidates(cfg, w.desk.stamps, w.repos, e),
                |w.snaps|, e.date, sinks);
  }

  /** A threshold once crossed stays crossed for as long as the repository may be reported. */
  lemma {:induction false} CrossedStaysCrossed(cfg: Config, w: World, events: seq<Event>, sinks: Sinks, rule: RuleSpec, t: int)
    requires IsCrossed(rule, w.repos, cfg.includePrivate, t)
    ensures var w' := Exec(cfg, w, events, sinks);
            && rule.repo in w'.repos && w'.repos[rule.repo].stars >= t
            && (ReportVisible(w'.repos, rule.repo, cfg.includePrivate) ==>
              IsCrossed(rule, w'.repos, cfg.includePrivate, t))
  {
    if events != [] {
      var before, last := events[..|events| - 1], events[|events| - 1];
      CrossedStaysCrossed(cfg, w, before, sinks, rule, t);
      if last.Changed? {
        StarsNeverDecrease(Exec(cfg, w, before, sinks).repos, last.change, rule.repo);
      }
    }
  }

  // ---------- Stale alerts: once per stuck episode ----------

  /** The evaluations after the `from`-th were all stuck: the episode is still the same. */
  predicate StuckSince(snaps: seq<Snapshot>, from: nat) {
    forall e :: from < e < |snaps| ==> snaps[e].upstreamStale
  }

  predicate CalmBetween(snaps: seq<Snapshot>, i: nat, j: nat) {
    exists e :: i < e < j && e < |snaps| && !snaps[e].upstreamStale
  }

  /** Fan-outs for the key happen at stuck evaluations, and between two successes a calm one lies. */
  ghost predicate OncePerEpisode(w: World, key: string) {
    var a := w.desk.attempts;
    && (forall i :: 0 <= i < |a| && a[i].key == key ==> a[i].eval < |w.snaps| && w.snaps[a[i].eval].upstreamStale)
    && (forall i, j :: 0 <= i < j < |a| && OkOn(a[i], key) && OkOn(a[j], key) ==>
      CalmBetween(w.snaps, a[i].eval, a[j].eval))
  }

  ghost predicate DeliveredThisEpisode(w: World, key: string) {
    exists i :: 0 <= i < |w.desk.attempts| && OkOn(w.desk.attempts[i], key) && StuckSince(w.snaps, w.desk.attempts[i].eval)
  }

  ghost predicate EpisodeInvariant(w: World, key: string) {
    && OncePerEpisode(w, key)
    && (StampOf(w.desk.stamps, key) != "" <==> DeliveredThisEpisode(w, key))
    && (w.snaps != [] && !w.snaps[|w.snaps| - 1].upstreamStale ==> StampOf(w.desk.stamps, key) == "")
  }

  /** Rules that share the rule's key are of its mode. */
  ghost predicate OneModePerKey(cfg: Config, rule: RuleSpec) {
    forall r :: r in cfg.rules && r.kind == "ops" && r.OpsKey() == rule.OpsKey() ==>
      ModeOf(r.OpsDebounceMode()) == ModeOf(rule.OpsDebounceMode())
  }

  lemma OpsKeyHasOneMode(cfg: Config, rule: RuleSpec)
    requires AllNormalized(cfg) && rule in cfg.rules && rule.kind == "ops" && OneModePerKey(cfg, rule)
    ensures rule.OpsKey() != CounterKey && ModePerKey(cfg, rule.OpsKey(), ModeOf(rule.OpsDebounceMode()))
  {
    var key := rule.OpsKey();
    RuleKeysAreApart(rule, rule.event, "", 0);
    forall r, scope | r in cfg.rules && r.kind != "ops"
      ensures r.IdentityKey(scope) != key
    {
      TrafficKeyIsNoOpsKey(r, scope, rule);
    }
    forall r, t | r in cfg.rules && t in r.milestones
      ensures r.MilestoneKey(t) != key
    {
      RuleKeysAreApart(rule, rule.event, r.repo, t);
    }
  }

  /** What asks to fire under a stale rule's key is a stale rule, so it asks only when stuck. */
  lemma StaleKeyAsksOnlyWhenStuck(cfg: Config, stamps: Stamps, repos: Repos, e: Evaluation, rule: RuleSpec, c: Candidate)
    requires AllNormalized(cfg) && rule in cfg.rules && IsStaleRule(rule)
    requires c in AllCandidates(cfg, stamps, repos, e) && c.key == rule.OpsKey()
    ensures exists r :: r in cfg.rules && IsStaleRule(r) && r.OpsKey() == rule.OpsKey()
              && e.snap.upstreamStale && Compare(r.op, 1.0, r.value)
  {
    var consecutive := ConsecutiveAfter(stamps, e.snap.success);
    CandidateOrigin(cfg, consecutive, repos, e, c);
    if r :| r in cfg.rules && r.kind == "ops" && OpsFires(r, e.snap, consecutive) && c == OpsCandidate(r) {
      FiringUnderStaleKey(r, rule, e.snap, consecutive);
    } else if r, t :| r in cfg.rules && t in r.milestones && c == Candidate(r.MilestoneKey(t), Once) {
      RuleKeysAreApart(rule, rule.event, r.repo, t);
    } else {
      var r, scope :| r in cfg.rules && r.kind != "ops" && c == TrafficCandidate(r, scope);
      TrafficKeyIsNoOpsKey(r, scope, rule);
    }
  }

  lemma FiringUnderStaleKey(r: RuleSpec, rule: RuleSpec, snap: Snapshot, consecutive: int)
    requires r.kind == "ops" && OpsFires(r, snap, consecutive) && IsStaleRule(rule) && r.OpsKey() == rule.OpsKey()
    ensures IsStaleRule(r) && snap.upstreamStale && Compare(r.op, 1.0, r.value)
  {
    FiringEventIsKnown(r, snap, consecutive);
    SameKeySameEvent(r, rule);
  }

  lemma TrafficKeyIsNoOpsKey(r: RuleSpec, scope: string, rule: RuleSpec)
    requires r.Normalized() && r.kind != "ops" && rule.kind == "ops"
    ensures r.IdentityKey(scope) != rule.OpsKey()
  {
    assert r.IdentityKey(scope)[0] == 't' && rule.OpsKey()[0] == 'o';
  }

  lemma FiringEventIsKnown(r: RuleSpec, snap: Snapshot, consecutive: int)
    requires OpsFires(r, snap, consecutive)
    ensures NoBarIn(r.event)
    ensures r.event == "upstream_stale" ==> snap.upstreamStale && Compare(r.op, 1.0, r.value)
  {
  }

  lemma CalmAsksNothing(cfg: Config, w: World, e: Evaluation, sinks: Sinks, rule: RuleSpec)
    requires AllNormalized(cfg) && rule in cfg.rules && IsStaleRule(rule) && !cfg.Quiet() && !e.snap.upstreamStale
    ensures var after := Step(cfg, w, Evaluated(e), sinks).desk.attempts;
            !Tried(after, |w.desk.attempts|, rule.OpsKey())
  {
    var cs := AllCandidates(cfg, w.desk.stamps, w.repos, e);
    NewAttempts(w.desk.(stamps := Prepared(cfg, w.desk.stamps, e.snap)), cs, |w.snaps|, e.date, sinks);
    var after := Step(cfg, w, Evaluated(e), sinks).desk.attempts;
    if i :| |w.desk.attempts| <= i < |after| && after[i].key == rule.OpsKey() {
      var c :| c in cs && c.key == after[i].key;
      StaleKeyAsksOnlyWhenStuck(cfg, w.desk.stamps, w.repos, e, rule, c);
    }
  }

  /** A stale rule with the default mode, alone in its mode under its key. */
  ghost predicate EpisodeRule(cfg: Config, rule: RuleSpec) {
    && AllNormalized(cfg) && !cfg.Quiet()
    && rule in cfg.rules && IsStaleRule(rule)
    && ModeOf(rule.OpsDebounceMode()) == Once && OneModePerKey(cfg, rule)
  }

  /** A stale rule is of that mode by default, or when once is asked for. */
  lemma StaleModeIff(rule: RuleSpec)
    requires rule.Normalized() && IsStaleRule(rule)
    ensures ModeOf(rule.OpsDebounceMode()) == Once <==> rule.debounce == "" || rule.debounce == "once" || rule.fire == "once"
  {
  }

  lemma {:induction false} RunsKeepEpisodes(cfg: Config, repos: Repos, events: seq<Event>, sinks: Sinks, rule: RuleSpec)
    requires EpisodeRule(cfg, rule)
    ensures EpisodeInvariant(Exec(cfg, Start(repos), events, sinks), rule.OpsKey())
  {
    if events != [] {
      var before, last := events[..|events| - 1], events[|events| - 1];
      RunsKeepEpisodes(cfg, repos, before, sinks, rule);
      if last.Evaluated? {
        EvaluationKeepsEpisodes(cfg, Exec(cfg, Start(repos), before, sinks), last.evaluation, sinks, rule);
      }
    }
  }

  lemma EvaluationKeepsEpisodes(cfg: Config, w: World, e: Evaluation, sinks: Sinks, rule: RuleSpec)
    requires EpisodeRule(cfg, rule) && EpisodeInvariant(w, rule.OpsKey())
    ensures EpisodeInvariant(Step(cfg, w, Evaluated(e), sinks), rule.OpsKey())
  {
    var key := rule.OpsKey();
    OpsKeyHasOneMode(cfg, rule);
    KeyThroughEvaluation(cfg, w, e, sinks, key, Once);
    PreparedKeeps(cfg, w.desk.stamps, e.snap, key);
    var w' := Step(cfg, w, Evaluated(e), sinks);
    assert w'.snaps[..|w.snaps|] == w.snaps;
    if e.snap.upstreamStale {
      StuckKeepsEpisodes(w, w', e.snap, key);
    } else {
      CalmAsksNothing(cfg, w, e, sinks, rule);
      CalmKeepsEpisodes(w, w', e.snap, key);
    }
  }

  lemma CalmKeepsEpisodes(w: World, w': World, snap: Snapshot, key: string)
    requires EpisodeInvariant(w, key) && !snap.upstreamStale
    requires w.desk.attempts <= w'.desk.attempts && w'.snaps == w.snaps + [snap]
    requires !Tried(w'.desk.attempts, |w.desk.attempts|, key)
    requires StampOf(w'.desk.stamps, key) == ""
    ensures EpisodeInvariant(w', key)
  {
    var a, a' := w.desk.attempts, w'.desk.attempts;
    assert forall i :: 0 <= i < |a'| && a'[i].key == key ==> i < |a| && a'[i] == a[i];
    OldEpisodesStay(w, w', key);
    assert forall i :: 0 <= i < |a'| && OkOn(a'[i], key) ==> !StuckSince(w'.snaps, a'[i].eval) by {
      assert !w'.snaps[|w.snaps|].upstreamStale;
    }
  }

  lemma OldEpisodesStay(w: World, w': World, key: string)
    requires OncePerEpisode(w, key) && w.desk.attempts <= w'.desk.attempts && w.snaps <= w'.snaps
    ensures var a := w'.desk.attempts;
            forall i, j :: 0 <= i < j < |w.desk.attempts| && OkOn(a[i], key) && OkOn(a[j], key) ==>
              CalmBetween(w'.snaps, a[i].eval, a[j].eval)
  {
    var a := w'.desk.attempts;
    forall i, j | 0 <= i < j < |w.desk.attempts| && OkOn(a[i], key) && OkOn(a[j], key)
      ensures CalmBetween(w'.snaps, a[i].eval, a[j].eval)
    {
      assert a[i] == w.desk.attempts[i] && a[j] == w.desk.attempts[j];
      assert CalmBetween(w.snaps, a[i].eval, a[j].eval);
      var e :| a[i].eval < e < a[j].eval && e < |w.snaps| && !w.snaps[e].upstreamStale;
      assert !w'.snaps[e].upstreamStale;
    }
  }

  lemma StuckKeepsEpisodes(w: World, w': World, snap: Snapshot, key: string)
    requires EpisodeInvariant(w, key) && snap.upstreamStale
    requires w.desk.attempts <= w'.desk.attempts && w'.snaps == w.snaps + [snap]
    requires forall i :: |w.desk.attempts| <= i < |w'.desk.attempts| ==> w'.desk.attempts[i].eval == |w.snaps|
    requires AtMostOneOk(w'.desk.attempts, |w.desk.attempts|, key)
    requires StampOf(w.desk.stamps, key) != "" ==> !Tried(w'.desk.attempts, |w.desk.attempts|, key)
    requires StampOf(w'.desk.stamps, key) ==
             (if AnyOk(w'.desk.attempts, |w.desk.attempts|, key) then "fired" else StampOf(w.desk.stamps, key))
    ensures EpisodeInvariant(w', key)
  {
    var a, a' := w.desk.attempts, w'.desk.attempts;
    assert forall i :: 0 <= i < |a| ==> a'[i] == a[i];
    OldEpisodesStay(w, w', key);
    StuckSinceStays(w, w', snap, key);
    forall i, j | 0 <= i < |a| <= j < |a'| && OkOn(a'[i], key) && OkOn(a'[j], key)
      ensures CalmBetween(w'.snaps, a'[i].eval, a'[j].eval)
    {
      assert !StuckSince(w.snaps, a[i].eval);
      var e :| a[i].eval < e < |w.snaps| && !w.snaps[e].upstreamStale;
      assert !w'.snaps[e].upstreamStale;
    }
    if AnyOk(a', |a|, key) {
      var j :| |a| <= j < |a'| && OkOn(a'[j], key);
      assert StuckSince(w'.snaps, a'[j].eval);
    }
  }

  /** A stuck evaluation ends no episode. */
  lemma StuckSinceStays(w: World, w': World, snap: Snapshot, key: string)
    requires snap.upstreamStale && w'.snaps == w.snaps + [snap] && w.desk.attempts <= w'.desk.attempts
    ensures DeliveredThisEpisode(w', key) <==>
            DeliveredThisEpisode(w, key)
            || exists j :: |w.desk.attempts| <= j < |w'.desk.attempts| && OkOn(w'.desk.attempts[j], key)
                 && StuckSince(w'.snaps, w'.desk.attempts[j].eval)
  {
    var a, a' := w.desk.attempts, w'.desk.attempts;
    forall from: nat
      ensures StuckSince(w'.snaps, from) <==> StuckSince(w.snaps, from)
    {
      if StuckSince(w'.snaps, from) {
        assert forall e :: from < e < |w.snaps| ==> w.snaps[e] == w'.snaps[e];
      }
    }
    if i :| 0 <= i < |a| && OkOn(a[i], key) && StuckSince(w.snaps, a[i].eval) {
      assert a'[i] == a[i];
    }
    if i :| 0 <= i < |a'| && OkOn(a'[i], key) && StuckSince(w'.snaps, a'[i].eval) {
      assert i < |a| ==> a'[i] == a[i];
    }
  }

  /** Between two successful stale alerts of one rule there is an evaluation that was not stuck. */
  lemma StaleFiresOncePerEpisode(cfg: Config, repos: Repos, events: seq<Event>, sinks: Sinks, rule: RuleSpec)
    requires EpisodeRule(cfg, rule)
    ensures OncePerEpisode(Exec(cfg, Start(repos), events, sinks), rule.OpsKey())
  {
    RunsKeepEpisodes(cfg, repos, events, sinks, rule);
  }

  /**
   A stuck evaluation that meets the rule's comparison is tried exactly when its episode has no
   success yet; so after any evaluation that was not stuck the rule can fire again.
   */
  lemma StaleIsTriedUntilDelivered(
    cfg: Config, repos: Repos, events: seq<Event>, sinks: Sinks, rule: RuleSpec, e: Evaluation)
    requires EpisodeRule(cfg, rule) && e.snap.upstreamStale && Compare(rule.op, 1.0, rule.value)
    ensures var w := Exec(cfg, Start(repos), events, sinks);
            var w' := Step(cfg, w, Evaluated(e), sinks);
            Tried(w'.desk.attempts, |w.desk.attempts|, rule.OpsKey()) <==> !DeliveredThisEpisode(w, rule.OpsKey())
    ensures var w := Exec(cfg, Start(repos), events, sinks);
            w.snaps != [] && !w.snaps[|w.snaps| - 1].upstreamStale ==> !DeliveredThisEpisode(w, rule.OpsKey())
  {
    var w := Exec(cfg, Start(repos), events, sinks);
    RunsKeepEpisodes(cfg, repos, events, sinks, rule);
    TriedIffUndelivered(cfg, w, e, sinks, rule);
  }

  lemma TriedIffUndelivered(cfg: Config, w: World, e: Evaluation, sinks: Sinks, rule: RuleSpec)
    requires EpisodeRule(cfg, rule) && e.snap.upstreamStale && Compare(rule.op, 1.0, rule.value)
    requires EpisodeInvariant(w, rule.OpsKey())
    ensures Tried(Step(cfg, w, Evaluated(e), sinks).desk.attempts, |w.desk.attempts|, rule.OpsKey())
      <==> !DeliveredThisEpisode(w, rule.OpsKey())
  {
    OpsKeyHasOneMode(cfg, rule);
    PreparedKeeps(cfg, w.desk.stamps, e.snap, rule.OpsKey());
    KeyThroughEvaluation(cfg, w, e, sinks, rule.OpsKey(), Once);
    if StampOf(w.desk.stamps, rule.OpsKey()) == "" {
      StuckIsTried(cfg, w, e, sinks, rule, Once);
    }
  }

  lemma StuckIsTried(cfg: Config, w: World, e: Evaluation, sinks: Sinks, rule: RuleSpec, mode: Mode)
    requires !cfg.Quiet() && rule in cfg.rules && IsStaleRule(rule) && mode != EverySync
    requires ModeOf(rule.OpsDebounceMode()) == mode && ModePerKey(cfg, rule.OpsKey(), mode)
    requires e.snap.upstreamStale && Compare(rule.op, 1.0, rule.value)
    requires rule.OpsKey() != CounterKey && StampOf(w.desk.stamps, rule.OpsKey()) == ""
    ensures Tried(Step(cfg, w, Evaluated(e), sinks).desk.attempts, |w.desk.attempts|, rule.OpsKey())
  {
    var key := rule.OpsKey();
    var consecutive := ConsecutiveAfter(w.desk.stamps, e.snap.success);
    var cs := AllCandidates(cfg, w.desk.stamps, w.repos, e);
    OpsCandidatesMeaning(cfg.rules, e.snap, consecutive, Candidate(key, mode));
    StuckRuleFires(rule, e.snap, consecutive);
    assert Candidate(key, mode) in cs;
    CandidatesHaveMode(cfg, w.desk.stamps, w.repos, e, key, mode);
    PreparedKeeps(cfg, w.desk.stamps, e.snap, key);
    DatesAreText(e.date);
    OpenKeyIsTried(w.desk.(stamps := Prepared(cfg, w.desk.stamps, e.snap)), cs, |w.snaps|, e.date, sinks, key, mode);
  }

  lemma DatesAreText(date: Date)
    ensures FullDate(date) != ""
  {
    assert |FullDate(date)| > 0;
  }

  lemma StuckRuleFires(rule: RuleSpec, snap: Snapshot, consecutive: int)
    requires rule.event == "upstream_stale" && snap.upstreamStale && Compare(rule.op, 1.0, rule.value)
    ensures OpsFires(rule, snap, consecutive)
  {
  }

  // ---------- Daily rules: once per date, unless a stale stamp is cleared ----------

  /** No two successes for the key on one date. */
  predicate OncePerDate(attempts: seq<Attempt>, key: string) {
    forall i, j :: 0 <= i < j < |attempts| && OkOn(attempts[i], key) && OkOn(attempts[j], key) ==>
      attempts[i].date != attempts[j].date
  }

  /** The stamp is the date of the latest success, and no success is later than it. */
  ghost predicate DailyInvariant(w: World, key: string) {
    var a := w.desk.attempts;
    && OncePerDate(a, key)
    && (StampOf(w.desk.stamps, key) == "" ==> !AnyOk(a, 0, key))
    && (StampOf(w.desk.stamps, key) != "" ==> exists k: nat :: LatestOk(a, key, k) && StampOf(w.desk.stamps, key) == FullDate(a[k].date))
    && (forall i :: 0 <= i < |a| && OkOn(a[i], key) ==> a[i].date in w.dates)
  }

  predicate LatestOk(a: seq<Attempt>, key: string, k: nat) {
    && k < |a| && OkOn(a[k], key)
    && forall i :: 0 <= i < |a| && OkOn(a[i], key) ==> DayNumber(a[i].date) <= DayNumber(a[k].date)
  }

  ghost predicate DailyKey(cfg: Config, key: string) {
    key != CounterKey && ModePerKey(cfg, key, Daily) && NeverCleared(cfg, key)
  }

  lemma EvaluationKeepsDaily(cfg: Config, w: World, e: Evaluation, sinks: Sinks, key: string)
    requires DailyKey(cfg, key) && DailyInvariant(w, key) && !cfg.Quiet()
    requires forall i :: 0 <= i < |w.dates| ==> DayNumber(w.dates[i]) <= DayNumber(e.date)
    ensures DailyInvariant(Step(cfg, w, Evaluated(e), sinks), key)
  {
    var w' := Step(cfg, w, Evaluated(e), sinks);
    var stamp := StampOf(w.desk.stamps, key);
    PreparedKeeps(cfg, w.desk.stamps, e.snap, key);
    KeyThroughEvaluation(cfg, w, e, sinks, key, Daily);
    LongerHistory(w.desk.attempts, w'.desk.attempts, key);
    assert Blocked(Prepared(cfg, w.desk.stamps, e.snap), key, Daily, e.date) <==> stamp == FullDate(e.date);
    DailyKeeps(w, w', e.date, key);
  }

  lemma DailyKeeps(w: World, w': World, date: Date, key: string)
    requires DailyInvariant(w, key)
    requires forall i :: 0 <= i < |w.dates| ==> DayNumber(w.dates[i]) <= DayNumber(date)
    requires w.desk.attempts <= w'.desk.attempts && w'.dates == w.dates + [date]
    requires AnyOk(w'.desk.attempts, 0, key) <==>
             AnyOk(w.desk.attempts, 0, key) || AnyOk(w'.desk.attempts, |w.desk.attempts|, key)
    requires forall i :: |w.desk.attempts| <= i < |w'.desk.attempts| ==> w'.desk.attempts[i].date == date
    requires AtMostOneOk(w'.desk.attempts, |w.desk.attempts|, key)
    requires StampOf(w.desk.stamps, key) == FullDate(date) ==> !AnyOk(w'.desk.attempts, |w.desk.attempts|, key)
    requires StampOf(w'.desk.stamps, key) ==
             (if AnyOk(w'.desk.attempts, |w.desk.attempts|, key) then FullDate(date) else StampOf(w.desk.stamps, key))
    ensures DailyInvariant(w', key)
  {
    var a, a' := w.desk.attempts, w'.desk.attempts;
    assert forall i :: 0 <= i < |a| ==> a'[i] == a[i];
    DatesAreText(date);
    if AnyOk(a', |a|, key) {
      forall i | 0 <= i < |a| && OkOn(a[i], key)
        ensures a[i].date != date && DayNumber(a[i].date) <= DayNumber(date)
      {
        EarlierDates(w, date, key, i);
      }
      var k :| |a| <= k < |a'| && OkOn(a'[k], key);
      assert LatestOk(a', key, k);
    } else {
      NoNewSuccess(a, a', key);
      assert AnyOk(a', 0, key) ==> AnyOk(a, 0, key);
      if k: nat :| LatestOk(a, key, k) && StampOf(w.desk.stamps, key) == FullDate(a[k].date) {
        assert LatestOk(a', key, k) && a'[k] == a[k];
      }
    }
  }

  lemma EarlierDates(w: World, date: Date, key: string, i: nat)
    requires DailyInvariant(w, key) && StampOf(w.desk.stamps, key) != FullDate(date)
    requires forall i :: 0 <= i < |w.dates| ==> DayNumber(w.dates[i]) <= DayNumber(date)
    requires i < |w.desk.attempts| && OkOn(w.desk.attempts[i], key)
    ensures w.desk.attempts[i].date != date && DayNumber(w.desk.attempts[i].date) <= DayNumber(date)
  {
    var a := w.desk.attempts;
    assert AnyOk(a, 0, key);
    var k: nat :| LatestOk(a, key, k) && StampOf(w.desk.stamps, key) == FullDate(a[k].date);
    assert a[k].date in w.dates;
    BeforeANewDate(a[i].date, a[k].date, date);
  }

  lemma BeforeANewDate(some: Date, last: Date, today: Date)
    requires DayNumber(some) <= DayNumber(last) <= DayNumber(today) && FullDate(last) != FullDate(today)
    ensures some != today && DayNumber(some) <= DayNumber(today)
  {
    TextOrderIsDayOrder(last, today);
  }

  lemma NoNewSuccess(a: seq<Attempt>, a': seq<Attempt>, key: string)
    requires a <= a' && !AnyOk(a', |a|, key)
    ensures forall i :: 0 <= i < |a'| && OkOn(a'[i], key) ==> i < |a| && OkOn(a[i], key) && a'[i] == a[i]
    ensures forall k: nat :: LatestOk(a, key, k) ==> LatestOk(a', key, k)
  {
  }

  lemma {:induction false} RunsKeepDaily(cfg: Config, repos: Repos, events: seq<Event>, sinks: Sinks, key: string)
    requires DailyKey(cfg, key)
    requires ClockNeverGoesBack(Exec(cfg, Start(repos), events, sinks).dates)
    ensures DailyInvariant(Exec(cfg, Start(repos), events, sinks), key)
  {
    if events != [] {
      var before, last := events[..|events| - 1], events[|events| - 1];
      var w, w' := Exec(cfg, Start(repos), before, sinks), Exec(cfg, Start(repos), events, sinks);
      assert w.dates <= w'.dates;
      assert forall i :: 0 <= i < |w.dates| ==> w.dates[i] == w'.dates[i];
      RunsKeepDaily(cfg, repos, before, sinks, key);
      if last.Evaluated? && !cfg.Quiet() {
        assert w'.dates[|w.dates|] == last.evaluation.date;
        EvaluationKeepsDaily(cfg, w, last.evaluation, sinks, key);
      }
    }
  }

  /** While the clock never goes back, no run has two successes for the key on one date. */
  ghost predicate AlwaysOncePerDate(cfg: Config, key: string) {
    forall repos: Repos, events: seq<Event>, sinks: Sinks ::
      ClockNeverGoesBack(Exec(cfg, Start(repos), events, sinks).dates) ==>
        OncePerDate(Exec(cfg, Start(repos), events, sinks).desk.attempts, key)
  }

  /** A traffic rule's key that only daily rules ask for. */
  lemma TrafficFiresOncePerDate(cfg: Config, rule: RuleSpec, scope: string)
    requires AllNormalized(cfg) && rule in cfg.rules && rule.kind == "traffic"
    requires ModePerKey(cfg, rule.IdentityKey(scope), Daily)
    ensures AlwaysOncePerDate(cfg, rule.IdentityKey(scope))
  {
    var key := rule.IdentityKey(scope);
    RuleKeysAreApart(rule, scope, "", 0);
    forall r | r in cfg.rules && IsStaleRule(r)
      ensures r.OpsKey() != key
    {
      TrafficKeyIsNoOpsKey(rule, scope, r);
    }
    DailyKeyHolds(cfg, key);
  }

  lemma DailyKeyHolds(cfg: Config, key: string)
    requires DailyKey(cfg, key)
    ensures AlwaysOncePerDate(cfg, key)
  {
    forall repos: Repos, events: seq<Event>, sinks: Sinks | ClockNeverGoesBack(Exec(cfg, Start(repos), events, sinks).dates)
      ensures OncePerDate(Exec(cfg, Start(repos), events, sinks).desk.attempts, key)
    {
      RunsKeepDaily(cfg, repos, events, sinks, key);
    }
  }

  /** Some stale rule under this key can fire, so a calm evaluation clears the date it stamped. */
  predicate ClearedAndAsked(cfg: Config, key: string) {
    exists i :: 0 <= i < |cfg.rules| && IsStaleRule(cfg.rules[i]) && cfg.rules[i].OpsKey() == key
      && Compare(cfg.rules[i].op, 1.0, cfg.rules[i].value)
  }

  /** A daily ops rule keeps its promise exactly when its key is no stale rule's that can fire. */
  lemma DailyHoldsUnlessCleared(cfg: Config, rule: RuleSpec)
    requires AllNormalized(cfg) && !cfg.Quiet() && rule in cfg.rules && rule.kind == "ops"
    requires ModeOf(rule.OpsDebounceMode()) == Daily && OneModePerKey(cfg, rule)
    ensures AlwaysOncePerDate(cfg, rule.OpsKey()) <==> !ClearedAndAsked(cfg, rule.OpsKey())
  {
    var key := rule.OpsKey();
    OpsKeyHasOneMode(cfg, rule);
    if ClearedAndAsked(cfg, key) {
      ClearedBreaks(cfg, key);
    } else {
      NotClearedHolds(cfg, key);
    }
  }

  lemma ClearedBreaks(cfg: Config, key: string)
    requires AllNormalized(cfg) && !cfg.Quiet() && key != CounterKey && ModePerKey(cfg, key, Daily)
    requires ClearedAndAsked(cfg, key)
    ensures !AlwaysOncePerDate(cfg, key)
  {
    var i :| 0 <= i < |cfg.rules| && IsStaleRule(cfg.rules[i]) && cfg.rules[i].OpsKey() == key
      && Compare(cfg.rules[i].op, 1.0, cfg.rules[i].value);
    StuckCalmStuck(cfg, cfg.rules[i], RawDate(2024, 1, 1));
  }

  lemma NotClearedHolds(cfg: Config, key: string)
    requires AllNormalized(cfg) && key != CounterKey && ModePerKey(cfg, key, Daily) && !ClearedAndAsked(cfg, key)
    ensures AlwaysOncePerDate(cfg, key)
  {
    if NeverCleared(cfg, key) {
      DailyKeyHolds(cfg, key);
    } else {
      var r :| r in cfg.rules && IsStaleRule(r) && r.OpsKey() == key;
      UnaskedKeyHolds(cfg, r);
    }
  }

  lemma UnaskedKeyHolds(cfg: Config, rule: RuleSpec)
    requires AllNormalized(cfg) && rule in cfg.rules && IsStaleRule(rule) && !ClearedAndAsked(cfg, rule.OpsKey())
    ensures AlwaysOncePerDate(cfg, rule.OpsKey())
  {
    forall repos: Repos, events: seq<Event>, sinks: Sinks
      ensures OncePerDate(Exec(cfg, Start(repos), events, sinks).desk.attempts, rule.OpsKey())
    {
      NeverTriedAtAll(cfg, repos, events, sinks, rule);
    }
  }

  lemma {:induction false} NeverTriedAtAll(cfg: Config, repos: Repos, events: seq<Event>, sinks: Sinks, rule: RuleSpec)
    requires AllNormalized(cfg) && rule in cfg.rules && IsStaleRule(rule) && !ClearedAndAsked(cfg, rule.OpsKey())
    ensures !Tried(Exec(cfg, Start(repos), events, sinks).desk.attempts, 0, rule.OpsKey())
  {
    if events != [] {
      var before, last := events[..|events| - 1], events[|events| - 1];
      NeverTriedAtAll(cfg, repos, before, sinks, rule);
      if last.Evaluated? && !cfg.Quiet() {
        NotAskedNotTried(cfg, Exec(cfg, Start(repos), before, sinks), last.evaluation, sinks, rule);
      }
    }
  }

  lemma NotAskedNotTried(cfg: Config, w: World, e: Evaluation, sinks: Sinks, rule: RuleSpec)
    requires AllNormalized(cfg) && !cfg.Quiet() && rule in cfg.rules && IsStaleRule(rule)
    requires !ClearedAndAsked(cfg, rule.OpsKey()) && !Tried(w.desk.attempts, 0, rule.OpsKey())
    ensures !Tried(Step(cfg, w, Evaluated(e), sinks).desk.attempts, 0, rule.OpsKey())
  {
    var cs := AllCandidates(cfg, w.desk.stamps, w.repos, e);
    NewAttempts(w.desk.(stamps := Prepared(cfg, w.desk.stamps, e.snap)), cs, |w.snaps|, e.date, sinks);
    var after := Step(cfg, w, Evaluated(e), sinks).desk.attempts;
    assert forall i :: 0 <= i < |w.desk.attempts| ==> after[i] == w.desk.attempts[i];
    if i :| |w.desk.attempts| <= i < |after| && after[i].key == rule.OpsKey() {
      var c :| c in cs && c.key == after[i].key;
      StaleKeyAsksOnlyWhenStuck(cfg, w.desk.stamps, w.repos, e, rule, c);
    }
  }

  /** The run that breaks the promise: stuck, calm and stuck again on one date, all delivered. */
  lemma StuckCalmStuck(cfg: Config, rule: RuleSpec, date: Date)
    requires AllNormalized(cfg) && !cfg.Quiet() && rule in cfg.rules && IsStaleRule(rule)
    requires Compare(rule.op, 1.0, rule.value)
    requires rule.OpsKey() != CounterKey && ModePerKey(cfg, rule.OpsKey(), Daily)
    requires ModeOf(rule.OpsDebounceMode()) == Daily
    ensures !AlwaysOncePerDate(cfg, rule.OpsKey())
  {
    var stuck := Evaluation(date, Snapshot(true, 0, false, -1, true), []);
    var calm := Evaluation(date, Snapshot(true, 0, false, -1, false), []);
    var sinks: Sinks := n => [true];
    assert forall n :: Delivered(sinks(n));
    BreaksThePromise(cfg, stuck, calm, sinks, rule);
  }

  lemma BreaksThePromise(cfg: Config, stuck: Evaluation, calm: Evaluation, sinks: Sinks, rule: RuleSpec)
    requires AllNormalized(cfg) && !cfg.Quiet() && rule in cfg.rules && IsStaleRule(rule)
    requires Compare(rule.op, 1.0, rule.value)
    requires rule.OpsKey() != CounterKey && ModePerKey(cfg, rule.OpsKey(), Daily)
    requires ModeOf(rule.OpsDebounceMode()) == Daily
    requires stuck.date == calm.date && stuck.snap.upstreamStale && !calm.snap.upstreamStale
    requires forall n :: Delivered(sinks(n))
    ensures !AlwaysOncePerDate(cfg, rule.OpsKey())
  {
    var events := [] + [Evaluated(stuck)] + [Evaluated(calm)] + [Evaluated(stuck)];
    OneDayLong(cfg, events, sinks, stuck.date);
    TwiceInOneDay(cfg, events, stuck, calm, sinks, rule);
    OneRunSuffices(cfg, events, sinks, rule.OpsKey());
  }

  lemma OneRunSuffices(cfg: Config, events: seq<Event>, sinks: Sinks, key: string)
    requires ClockNeverGoesBack(Exec(cfg, Start(map[]), events, sinks).dates)
    requires !OncePerDate(Exec(cfg, Start(map[]), events, sinks).desk.attempts, key)
    ensures !AlwaysOncePerDate(cfg, key)
  {
  }

  lemma TwiceInOneDay(cfg: Config, events: seq<Event>, stuck: Evaluation, calm: Evaluation, sinks: Sinks, rule: RuleSpec)
    requires AllNormalized(cfg) && !cfg.Quiet() && rule in cfg.rules && IsStaleRule(rule)
    requires Compare(rule.op, 1.0, rule.value) && events == [] + [Evaluated(stuck)] + [Evaluated(calm)] + [Evaluated(stuck)]
    requires rule.OpsKey() != CounterKey && ModePerKey(cfg, rule.OpsKey(), Daily)
    requires ModeOf(rule.OpsDebounceMode()) == Daily
    requires stuck.date == calm.date && stuck.snap.upstreamStale && !calm.snap.upstreamStale
    requires forall n :: Delivered(sinks(n))
    ensures !OncePerDate(Exec(cfg, Start(map[]), events, sinks).desk.attempts, rule.OpsKey())
  {
    ThreeSteps(cfg, Start(map[]), Evaluated(stuck), Evaluated(calm), sinks);
    var w0 := Start(map[]);
    var w1 := Step(cfg, w0, Evaluated(stuck), sinks);
    var w2 := Step(cfg, w1, Evaluated(calm), sinks);
    var i := StuckIsDelivered(cfg, w0, stuck, sinks, rule);
    CalmReopens(cfg, w1, calm, sinks, rule);
    var j := StuckIsDelivered(cfg, w2, stuck, sinks, rule);
    var a := Step(cfg, w2, Evaluated(stuck), sinks).desk.attempts;
    assert OkOn(a[i], rule.OpsKey()) && OkOn(a[j], rule.OpsKey()) && a[i].date == a[j].date;
  }

  predicate AllOn(dates: seq<Date>, date: Date) {
    forall i :: 0 <= i < |dates| ==> dates[i] == date
  }

  lemma {:induction false} OneDayLong(cfg: Config, events: seq<Event>, sinks: Sinks, date: Date)
    requires forall i :: 0 <= i < |events| ==> events[i].Evaluated? && events[i].evaluation.date == date
    ensures AllOn(Exec(cfg, Start(map[]), events, sinks).dates, date)
    ensures ClockNeverGoesBack(Exec(cfg, Start(map[]), events, sinks).dates)
  {
    if events != [] {
      OneDayLong(cfg, events[..|events| - 1], sinks, date);
    }
  }

  lemma OneMoreEvent(cfg: Config, w: World, events: seq<Event>, e: Event, sinks: Sinks)
    ensures Exec(cfg, w, events + [e], sinks) == Step(cfg, Exec(cfg, w, events, sinks), e, sinks)
  {
    assert (events + [e])[..|events|] == events;
  }

  lemma ThreeSteps(cfg: Config, w: World, a: Event, b: Event, sinks: Sinks)
    ensures Exec(cfg, w, [] + [a] + [b] + [a], sinks) == Step(cfg, Step(cfg, Step(cfg, w, a, sinks), b, sinks), a, sinks)
  {
    OneMoreEvent(cfg, w, [], a, sinks);
    OneMoreEvent(cfg, w, [] + [a], b, sinks);
    OneMoreEvent(cfg, w, [] + [a] + [b], a, sinks);
  }

  lemma StuckIsDelivered(cfg: Config, w: World, e: Evaluation, sinks: Sinks, rule: RuleSpec) returns (i: nat)
    requires !cfg.Quiet() && rule in cfg.rules && IsStaleRule(rule)
    requires ModeOf(rule.OpsDebounceMode()) == Daily && ModePerKey(cfg, rule.OpsKey(), Daily)
    requires e.snap.upstreamStale && Compare(rule.op, 1.0, rule.value)
    requires rule.OpsKey() != CounterKey && StampOf(w.desk.stamps, rule.OpsKey()) == ""
    requires forall n :: Delivered(sinks(n))
    ensures var after := Step(cfg, w, Evaluated(e), sinks).desk.attempts;
            && |w.desk.attempts| <= i < |after| && OkOn(after[i], rule.OpsKey()) && after[i].date == e.date
            && w.desk.attempts <= after
  {
    StuckIsTried(cfg, w, e, sinks, rule, Daily);
    KeyThroughEvaluation(cfg, w, e, sinks, rule.OpsKey(), Daily);
    AttemptsOfEvaluation(cfg, w, e, sinks);
    var after := Step(cfg, w, Evaluated(e), sinks).desk.attempts;
    i :| |w.desk.attempts| <= i < |after| && after[i].key == rule.OpsKey();
  }

  lemma CalmReopens(cfg: Config, w: World, e: Evaluation, sinks: Sinks, rule: RuleSpec)
    requires AllNormalized(cfg) && !cfg.Quiet() && rule in cfg.rules && IsStaleRule(rule) && !e.snap.upstreamStale
    requires rule.OpsKey() != CounterKey && ModePerKey(cfg, rule.OpsKey(), Daily)
    ensures StampOf(Step(cfg, w, Evaluated(e), sinks).desk.stamps, rule.OpsKey()) == ""
    ensures w.desk.attempts <= Step(cfg, w, Evaluated(e), sinks).desk.attempts
  {
    PreparedKeeps(cfg, w.desk.stamps, e.snap, rule.OpsKey());
    CalmAsksNothing(cfg, w, e, sinks, rule);
    KeyThroughEvaluation(cfg, w, e, sinks, rule.OpsKey(), Daily);
  }

  // ---------- The consecutive-failure counter ----------

  /** The length of the failing streak a run of snapshots ends in. */
  function FailingSuffix(snaps: seq<Snapshot>): nat {
    if snaps == [] || snaps[|snaps| - 1].success then 0 else FailingSuffix(snaps[..|snaps| - 1]) + 1
  }

  lemma {:induction false} FailingSuffixMeaning(snaps: seq<Snapshot>)
    ensures var n := FailingSuffix(snaps);
            && n <= |snaps|
            && (forall i :: |snaps| - n <= i < |snaps| ==> !snaps[i].success)
            && (n < |snaps| ==> snaps[|snaps| - n - 1].success)
  {
    if snaps != [] && !snaps[|snaps| - 1].success {
      FailingSuffixMeaning(snaps[..|snaps| - 1]);
    }
  }

  ghost predicate Counts(w: World) {
    StampOf(w.desk.stamps, CounterKey) == if w.snaps == [] then "" else Itoa(FailingSuffix(w.snaps))
  }

  lemma ConsecutiveIsSuffix(w: World, snap: Snapshot)
    requires Counts(w)
    ensures ConsecutiveAfter(w.desk.stamps, snap.success) == FailingSuffix(w.snaps + [snap])
    ensures StampOf(Counted(w.desk.stamps, snap.success), CounterKey) == Itoa(FailingSuffix(w.snaps + [snap]))
  {
    assert (w.snaps + [snap])[..|w.snaps|] == w.snaps;
    ZeroText();
    if !snap.success && w.snaps != [] {
      OneMoreFailure(w.desk.stamps, FailingSuffix(w.snaps));
    }
  }

  lemma ZeroText()
    ensures Itoa(0) == "0"
  {
  }

  lemma OneMoreFailure(stamps: Stamps, n: nat)
    requires StampOf(stamps, CounterKey) == Itoa(n)
    ensures ConsecutiveAfter(stamps, false) == n + 1
  {
    AtoiOfItoa(n);
  }

  predicate NoneAsksFor(cs: seq<Candidate>, key: string) {
    forall i :: 0 <= i < |cs| ==> cs[i].key != key
  }

  lemma {:induction false} UnaskedKeyStays(d: Desk, cs: seq<Candidate>, n: nat, date: Date, sinks: Sinks, key: string)
    requires NoneAsksFor(cs, key)
    ensures StampOf(FireAll(d, cs, n, date, sinks).stamps, key) == StampOf(d.stamps, key)
  {
    if cs != [] {
      assert forall i :: 0 <= i < |cs| - 1 ==> cs[..|cs| - 1][i] == cs[i];
      UnaskedKeyStays(d, cs[..|cs| - 1], n, date, sinks, key);
    }
  }

  lemma NoneAsksForTheCounter(cfg: Config, stamps: Stamps, repos: Repos, e: Evaluation)
    requires AllNormalized(cfg)
    ensures NoneAsksFor(AllCandidates(cfg, stamps, repos, e), CounterKey)
  {
    var cs := AllCandidates(cfg, stamps, repos, e);
    var consecutive := ConsecutiveAfter(stamps, e.snap.success);
    forall i | 0 <= i < |cs|
      ensures cs[i].key != CounterKey
    {
      var c := cs[i];
      CandidateOrigin(cfg, consecutive, repos, e, c);
      if r :| r in cfg.rules && r.kind == "ops" && OpsFires(r, e.snap, consecutive) && c == OpsCandidate(r) {
        RuleKeysAreApart(r, r.event, "", 0);
      } else if r, t :| r in cfg.rules && t in r.milestones && c == Candidate(r.MilestoneKey(t), Once) {
        MilestoneIsNotTheCounter(r.repo, t);
      } else {
        var r, scope :| r in cfg.rules && r.kind != "ops" && c == TrafficCandidate(r, scope);
        RuleKeysAreApart(r, scope, "", 0);
      }
    }
  }

  lemma ClearingSparesTheCounter(cfg: Config, stamps: Stamps)
    requires AllNormalized(cfg)
    ensures StampOf(Cleared(stamps, cfg.rules), CounterKey) == StampOf(stamps, CounterKey)
  {
    ClearedKeeps(stamps, cfg.rules, CounterKey);
    forall r | r in cfg.rules
      ensures r.OpsKey() != CounterKey
    {
      RuleKeysAreApart(r, r.event, "", 0);
    }
  }

  lemma EvaluationKeepsCount(cfg: Config, w: World, e: Evaluation, sinks: Sinks)
    requires AllNormalized(cfg) && Counts(w)
    ensures Counts(Step(cfg, w, Evaluated(e), sinks))
  {
    if !cfg.Quiet() {
      ConsecutiveIsSuffix(w, e.snap);
      ClearingSparesTheCounter(cfg, Counted(w.desk.stamps, e.snap.success));
      NoneAsksForTheCounter(cfg, w.desk.stamps, w.repos, e);
      var prepared := w.desk.(stamps := Prepared(cfg, w.desk.stamps, e.snap));
      UnaskedKeyStays(prepared, AllCandidates(cfg, w.desk.stamps, w.repos, e), |w.snaps|, e.date, sinks, CounterKey);
    }
  }

  /** After every run the stored counter is the length of the longest failing suffix. */
  lemma {:induction false} CounterIsFailingSuffix(cfg: Config, repos: Repos, events: seq<Event>, sinks: Sinks)
    requires AllNormalized(cfg)
    ensures Counts(Exec(cfg, Start(repos), events, sinks))
  {
    if events != [] {
      var before, last := events[..|events| - 1], events[|events| - 1];
      CounterIsFailingSuffix(cfg, repos, before, sinks);
      if last.Evaluated? {
        EvaluationKeepsCount(cfg, Exec(cfg, Start(repos), before, sinks), last.evaluation, sinks);
      }
    }
  }

  /** So the number a consecutive-failure rule compares is the true streak, this run included. */
  lemma RulesSeeTheStreak(cfg: Config, repos: Repos, events: seq<Event>, sinks: Sinks, snap: Snapshot)
    requires AllNormalized(cfg)
    ensures var w := Exec(cfg, Start(repos), events, sinks);
            OpsCount("sync_failed", snap, ConsecutiveAfter(w.desk.stamps, snap.success), "consecutive_runs")
            == Some(FailingSuffix(w.snaps + [snap]) as real)
  {
    CounterIsFailingSuffix(cfg, repos, events, sinks);
    ConsecutiveIsSuffix(Exec(cfg, Start(repos), events, sinks), snap);
  }
}
