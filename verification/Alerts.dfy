/**
 Post-sync alert evaluation: which rules want to fire, the debounce table that may hold them back,
 and the deliveries. A delivery is one fan-out over all sinks; it succeeds only if every sink does.
 */
module Alerts {
  import opened Wrappers
  import opened Calendar
  import opened Traffic
  import opened Reports
  import opened AlertKeys

  // ---------- Debounce ----------

  datatype Mode = EverySync | Once | Daily

  function ModeOf(mode: string): Mode {
    if mode == "every_sync" then EverySync else if mode == "once" then Once else Daily
  }

  type Stamps = map<string, string>

  /** One firing that a rule asks for. */
  datatype Candidate = Candidate(key: string, mode: Mode)

  /** One fan-out, in the `eval`-th evaluation. */
  datatype Attempt = Attempt(key: string, eval: nat, date: Date, ok: bool)

  datatype Desk = Desk(stamps: Stamps, attempts: seq<Attempt>)

  // What each sink answers to the n-th fan-out.
  type Sinks = nat -> seq<bool>

  function StampOf(stamps: Stamps, key: string): string {
    if key in stamps then stamps[key] else ""
  }

  predicate ShouldFire(stamps: Stamps, c: Candidate, today: string) {
    match c.mode
    case EverySync => true
    case Once => StampOf(stamps, c.key) == ""
    case Daily => StampOf(stamps, c.key) != today
  }

  function Marked(stamps: Stamps, c: Candidate, today: string): Stamps {
    match c.mode
    case EverySync => stamps
    case Once => stamps[c.key := "fired"]
    case Daily => stamps[c.key := today]
  }

  predicate Delivered(results: seq<bool>) {
    results != [] && forall i :: 0 <= i < |results| ==> results[i]
  }

  function FireOne(d: Desk, c: Candidate, n: nat, date: Date, sinks: Sinks): Desk {
    if !ShouldFire(d.stamps, c, FullDate(date)) then d
    else
      var ok := Delivered(sinks(|d.attempts|));
      Desk(if ok then Marked(d.stamps, c, FullDate(date)) else d.stamps,
           d.attempts + [Attempt(c.key, n, date, ok)])
  }

  function FireAll(d: Desk, cs: seq<Candidate>, n: nat, date: Date, sinks: Sinks): Desk {
    if cs == [] then d
    else FireOne(FireAll(d, cs[..|cs| - 1], n, date, sinks), cs[|cs| - 1], n, date, sinks)
  }

  lemma {:induction false} FireAllConcat(d: Desk, a: seq<Candidate>, b: seq<Candidate>, n: nat, date: Date, sinks: Sinks)
    ensures FireAll(d, a + b, n, date, sinks) == FireAll(FireAll(d, a, n, date, sinks), b, n, date, sinks)
  {
    if b == [] {
      assert a + b == a;
    } else {
      assert (a + b)[..|a + b| - 1] == a + b[..|b| - 1];
      FireAllConcat(d, a, b[..|b| - 1], n, date, sinks);
    }
  }

  // ---------- Which rules want to fire ----------

  datatype Snapshot = Snapshot(
    success: bool, reposFailed: int, unreachable: bool, rateLimitRemaining: int, upstreamStale: bool)

  function Compare(op: string, value: real, threshold: real): bool {
    if op == "gte" || op == "drop_pct" then value >= threshold
    else if op == "gt" then value > threshold
    else if op == "lte" then value <= threshold
    else if op == "lt" then value < threshold
    else if op == "eq" then value == threshold
    else false
  }

  /** The number an ops event is about; None when it is skipped or the rule is in error. */
  function OpsCount(event: string, snap: Snapshot, consecutive: int, window: string): Option<real> {
    if event == "repo_fetch_failed" then
      if window == "this_sync" then Some(snap.reposFailed as real) else None
    else if event == "sync_failed" then
      if window == "consecutive_runs" then Some(consecutive as real)
      else if snap.success then None else Some(1.0)
    else if event == "github_unreachable" then
      if snap.unreachable then Some(1.0) else None
    else if event == "rate_limit" then
      if snap.rateLimitRemaining < 0 then None else Some(snap.rateLimitRemaining as real)
    else if event == "upstream_stale" then
      if snap.upstreamStale then Some(1.0) else None
    else None
  }

  predicate OpsFires(rule: RuleSpec, snap: Snapshot, consecutive: int) {
    var window := if rule.window == "" then "this_sync" else rule.window;
    var count := OpsCount(rule.event, snap, consecutive, window);
    count.Some? && Compare(rule.op, count.value, rule.value)
  }

  function OpsCandidate(rule: RuleSpec): Candidate {
    Candidate(rule.OpsKey(), ModeOf(rule.OpsDebounceMode()))
  }

  function OpsWanted(rule: RuleSpec, snap: Snapshot, consecutive: int): seq<Candidate> {
    if rule.kind == "ops" && OpsFires(rule, snap, consecutive) then [OpsCandidate(rule)] else []
  }

  function OpsCandidates(rules: seq<RuleSpec>, snap: Snapshot, consecutive: int): seq<Candidate> {
    if rules == [] then []
    else OpsCandidates(rules[..|rules| - 1], snap, consecutive) + OpsWanted(rules[|rules| - 1], snap, consecutive)
  }

  function TrafficCandidate(rule: RuleSpec, scope: string): Candidate {
    Candidate(rule.IdentityKey(scope), ModeOf(rule.DebounceMode()))
  }

  function TrafficWanted(rule: RuleSpec, scopes: seq<string>): seq<Candidate> {
    if rule.IsMilestone() || rule.kind == "ops" then []
    else seq(|scopes|, i requires 0 <= i < |scopes| => TrafficCandidate(rule, scopes[i]))
  }

  /** `fires[i]` are the repositories or scopes the i-th rule's evaluation returned a payload for. */
  function FiresOf(fires: seq<seq<string>>, i: nat): seq<string> {
    if i < |fires| then fires[i] else []
  }

  function TrafficCandidates(rules: seq<RuleSpec>, fires: seq<seq<string>>): seq<Candidate> {
    if rules == [] then []
    else
      var i := |rules| - 1;
      TrafficCandidates(rules[..i], fires) + TrafficWanted(rules[i], FiresOf(fires, i))
  }

  function Crossed(thresholds: seq<int>, stars: int): seq<int> {
    if thresholds == [] then []
    else
      var t := thresholds[|thresholds| - 1];
      Crossed(thresholds[..|thresholds| - 1], stars) + (if stars >= t then [t] else [])
  }

  function CrossedBy(rule: RuleSpec, repos: Repos, includePrivate: bool): seq<int> {
    if ReportVisible(repos, rule.repo, includePrivate) then Crossed(rule.milestones, repos[rule.repo].stars) else []
  }

  function MilestonesWanted(rule: RuleSpec, repos: Repos, includePrivate: bool): seq<Candidate> {
    var crossed := CrossedBy(rule, repos, includePrivate);
    seq(|crossed|, i requires 0 <= i < |crossed| => Candidate(rule.MilestoneKey(crossed[i]), Once))
  }

  function MilestoneCandidates(rules: seq<RuleSpec>, repos: Repos, includePrivate: bool): seq<Candidate> {
    if rules == [] then []
    else
      MilestoneCandidates(rules[..|rules| - 1], repos, includePrivate)
      + MilestonesWanted(rules[|rules| - 1], repos, includePrivate)
  }

  // ---------- One evaluation ----------

  datatype Config = Config(rules: seq<RuleSpec>, senders: nat, includePrivate: bool) {
    predicate Quiet() {
      senders == 0 || rules == []
    }
  }

  datatype Evaluation = Evaluation(date: Date, snap: Snapshot, fires: seq<seq<string>>)

  function ConsecutiveAfter(stamps: Stamps, success: bool): int {
    if success then 0
    else (if StampOf(stamps, CounterKey) == "" then 0 else Atoi(StampOf(stamps, CounterKey))) + 1
  }

  function Counted(stamps: Stamps, success: bool): Stamps {
    stamps[CounterKey := if success then "0" else Itoa(ConsecutiveAfter(stamps, success))]
  }

  predicate IsStaleRule(r: RuleSpec) {
    r.kind == "ops" && r.event == "upstream_stale"
  }

  function Cleared(stamps: Stamps, rules: seq<RuleSpec>): Stamps {
    if rules == [] then stamps
    else
      var r, rest := rules[|rules| - 1], Cleared(stamps, rules[..|rules| - 1]);
      if IsStaleRule(r) then rest - {r.OpsKey()} else rest
  }

  /** The table before any rule fires: the counter updated, stale stamps cleared unless stuck. */
  function Prepared(cfg: Config, stamps: Stamps, snap: Snapshot): Stamps {
    var counted := Counted(stamps, snap.success);
    if snap.upstreamStale then counted else Cleared(counted, cfg.rules)
  }

  function AllCandidates(cfg: Config, stamps: Stamps, repos: Repos, e: Evaluation): seq<Candidate> {
    OpsCandidates(cfg.rules, e.snap, ConsecutiveAfter(stamps, e.snap.success))
    + (if e.snap.success
       then TrafficCandidates(cfg.rules, e.fires) + MilestoneCandidates(cfg.rules, repos, cfg.includePrivate)
       else [])
  }

  function AfterEvaluation(cfg: Config, d: Desk, repos: Repos, n: nat, e: Evaluation, sinks: Sinks): Desk {
    if cfg.Quiet() then d
    else FireAll(d.(stamps := Prepared(cfg, d.stamps, e.snap)), AllCandidates(cfg, d.stamps, repos, e), n, e.date, sinks)
  }

  /** A fan-out tells every sink, even after one failed, and fails if any did or there is none. */
  method FanOut(results: seq<bool>) returns (ok: bool)
    ensures ok == Delivered(results)
    ensures ok <==> |results| > 0 && forall i :: 0 <= i < |results| ==> results[i]
  {
    if |results| == 0 {
      return false;
    }
    var errors := 0;
    for i := 0 to |results|
      invariant 0 <= errors <= i
      invariant errors == 0 <==> forall j :: 0 <= j < i ==> results[j]
    {
      if !results[i] {
        errors := errors + 1;
      }
    }
    ok := errors == 0;
  }

  class AlertRunner {
    var stamps: Stamps
    var attempts: seq<Attempt>
    const sinks: Sinks

    constructor (sinks: Sinks)
      ensures State() == Desk(map[], []) && this.sinks == sinks
    {
      stamps, attempts := map[], [];
      this.sinks := sinks;
    }

    function State(): Desk
      reads this
    {
      Desk(stamps, attempts)
    }

    method AlertDebounceSet(key: string, stamp: string)
      modifies this`stamps
      ensures stamps == old(stamps)[key := stamp]
    {
      stamps := stamps[key := stamp];
    }

    method AlertDebounceDelete(key: string)
      modifies this`stamps
      ensures stamps == old(stamps) - {key}
    {
      stamps := stamps - {key};
    }

    /** The body all three rule loops share: debounce, fan out, stamp on success. */
    method Fire(c: Candidate, n: nat, date: Date)
      modifies this
      ensures State() == FireOne(old(State()), c, n, date, sinks)
    {
      var today := FullDate(date);
      if !ShouldFire(stamps, c, today) {
        return;
      }
      var ok := FanOut(sinks(|attempts|));
      attempts := attempts + [Attempt(c.key, n, date, ok)];
      if !ok {
        return;
      }
      match c.mode
      case EverySync =>
      case Once => AlertDebounceSet(c.key, "fired");
      case Daily => AlertDebounceSet(c.key, today);
    }

    method UpdateConsecutiveFailures(success: bool) returns (n: int)
      modifies this`stamps
      ensures n == ConsecutiveAfter(old(stamps), success) && stamps == Counted(old(stamps), success)
    {
      if success {
        AlertDebounceSet(CounterKey, "0");
        return 0;
      }
      var stamp := StampOf(stamps, CounterKey);
      n := 0;
      if stamp != "" {
        n := Atoi(stamp);
      }
      n := n + 1;
      AlertDebounceSet(CounterKey, Itoa(n));
    }

    method ClearUpstreamStaleDebounce(rules: seq<RuleSpec>)
      modifies this`stamps
      ensures stamps == Cleared(old(stamps), rules)
    {
      for i := 0 to |rules|
        invariant stamps == Cleared(old(stamps), rules[..i])
      {
        assert rules[..i + 1][..i] == rules[..i];
        if IsStaleRule(rules[i]) {
          AlertDebounceDelete(rules[i].OpsKey());
        }
      }
      assert rules[..|rules|] == rules;
    }

    method RunOpsRules(cfg: Config, snap: Snapshot, n: nat, date: Date)
      modifies this
      ensures State() == if cfg.Quiet() then old(State()) else
                FireAll(old(State()).(stamps := Prepared(cfg, old(stamps), snap)),
                        OpsCandidates(cfg.rules, snap, ConsecutiveAfter(old(stamps), snap.success)), n, date, sinks)
    {
      if cfg.Quiet() {
        return;
      }
      var consecutive := UpdateConsecutiveFailures(snap.success);
      if !snap.upstreamStale {
        ClearUpstreamStaleDebounce(cfg.rules);
      }
      RunOpsRuleLoop(cfg.rules, snap, consecutive, n, date);
    }

    method RunOpsRuleLoop(rules: seq<RuleSpec>, snap: Snapshot, consecutive: int, n: nat, date: Date)
      modifies this
      ensures State() == FireAll(old(State()), OpsCandidates(rules, snap, consecutive), n, date, sinks)
    {
      ghost var d := State();
      for i := 0 to |rules|
        invariant State() == FireAll(d, OpsCandidates(rules[..i], snap, consecutive), n, date, sinks)
      {
        assert rules[..i + 1][..i] == rules[..i];
        FireAllConcat(d, OpsCandidates(rules[..i], snap, consecutive), OpsWanted(rules[i], snap, consecutive), n, date, sinks);
        RunOpsRule(rules[i], snap, consecutive, n, date);
      }
      assert rules[..|rules|] == rules;
    }

    method RunOpsRule(rule: RuleSpec, snap: Snapshot, consecutive: int, n: nat, date: Date)
      modifies this
      ensures State() == FireAll(old(State()), OpsWanted(rule, snap, consecutive), n, date, sinks)
    {
      if rule.kind == "ops" && OpsFires(rule, snap, consecutive) {
        Fire(OpsCandidate(rule), n, date);
      }
    }

    method RunTrafficRules(cfg: Config, fires: seq<seq<string>>, n: nat, date: Date)
      modifies this
      ensures State() == if cfg.Quiet() then old(State()) else
                FireAll(old(State()), TrafficCandidates(cfg.rules, fires), n, date, sinks)
    {
      if cfg.Quiet() {
        return;
      }
      ghost var d := State();
      var rules := cfg.rules;
      for i := 0 to |rules|
        invariant State() == FireAll(d, TrafficCandidates(rules[..i], fires), n, date, sinks)
      {
        assert rules[..i + 1][..i] == rules[..i];
        var cs := TrafficWanted(rules[i], FiresOf(fires, i));
        FireEach(cs, n, date);
        FireAllConcat(d, TrafficCandidates(rules[..i], fires), cs, n, date, sinks);
      }
      assert rules[..|rules|] == rules;
    }

    method FireEach(cs: seq<Candidate>, n: nat, date: Date)
      modifies this
      ensures State() == FireAll(old(State()), cs, n, date, sinks)
    {
      for j := 0 to |cs|
        invariant State() == FireAll(old(State()), cs[..j], n, date, sinks)
      {
        assert cs[..j + 1][..j] == cs[..j];
        Fire(cs[j], n, date);
      }
      assert cs[..|cs|] == cs;
    }

    method RunMilestoneRules(cfg: Config, db: ReportStore, n: nat, date: Date)
      modifies this
      ensures State() == if cfg.Quiet() then old(State()) else
                FireAll(old(State()), MilestoneCandidates(cfg.rules, db.repos, cfg.includePrivate), n, date, sinks)
    {
      if cfg.Quiet() {
        return;
      }
      RunMilestoneRuleLoop(cfg.rules, db, cfg.includePrivate, n, date);
    }

    method RunMilestoneRuleLoop(rules: seq<RuleSpec>, db: ReportStore, includePrivate: bool, n: nat, date: Date)
      modifies this
      ensures State() == FireAll(old(State()), MilestoneCandidates(rules, db.repos, includePrivate), n, date, sinks)
    {
      ghost var d, repos := State(), db.repos;
      for i := 0 to |rules|
        invariant State() == FireAll(d, MilestoneCandidates(rules[..i], repos, includePrivate), n, date, sinks)
      {
        assert rules[..i + 1][..i] == rules[..i];
        ghost var before, wanted := MilestoneCandidates(rules[..i], repos, includePrivate), MilestonesWanted(rules[i], repos, includePrivate);
        RunMilestoneRule(rules[i], db, includePrivate, n, date);
        FireAllConcat(d, before, wanted, n, date, sinks);
      }
      assert rules[..|rules|] == rules;
    }

    method RunMilestoneRule(rule: RuleSpec, db: ReportStore, includePrivate: bool, n: nat, date: Date)
      modifies this
      ensures State() == FireAll(old(State()), MilestonesWanted(rule, db.repos, includePrivate), n, date, sinks)
    {
      if !rule.IsMilestone() {
        return;
      }
      var crossed := CrossedMilestones(rule, db, includePrivate);
      var cs := seq(|crossed|, i requires 0 <= i < |crossed| => Candidate(rule.MilestoneKey(crossed[i]), Once));
      assert cs == MilestonesWanted(rule, db.repos, includePrivate);
      FireEach(cs, n, date);
    }

    method RunAllRules(cfg: Config, db: ReportStore, n: nat, e: Evaluation)
      modifies this
      ensures State() == AfterEvaluation(cfg, old(State()), db.repos, n, e, sinks)
    {
      ghost var d := State().(stamps := Prepared(cfg, stamps, e.snap));
      ghost var ops := OpsCandidates(cfg.rules, e.snap, ConsecutiveAfter(stamps, e.snap.success));
      RunOpsRules(cfg, e.snap, n, e.date);
      if e.snap.success {
        RunTrafficRules(cfg, e.fires, n, e.date);
        RunMilestoneRules(cfg, db, n, e.date);
        ThreeLoops(d, ops, TrafficCandidates(cfg.rules, e.fires),
                   MilestoneCandidates(cfg.rules, db.repos, cfg.includePrivate), n, e.date, sinks);
      } else {
        assert ops + [] == ops;
      }
    }
  }

  lemma ThreeLoops(d: Desk, a: seq<Candidate>, b: seq<Candidate>, c: seq<Candidate>, n: nat, date: Date, sinks: Sinks)
    ensures FireAll(FireAll(FireAll(d, a, n, date, sinks), b, n, date, sinks), c, n, date, sinks)
         == FireAll(d, a + (b + c), n, date, sinks)
  {
    FireAllConcat(d, a, b + c, n, date, sinks);
    FireAllConcat(FireAll(d, a, n, date, sinks), b, c, n, date, sinks);
  }

  /** An unknown or unreportable repository is an error the rule loop logs and passes over. */
  method CrossedMilestones(rule: RuleSpec, db: ReportStore, includePrivate: bool) returns (out: seq<int>)
    ensures out == CrossedBy(rule, db.repos, includePrivate)
  {
    var sum := db.ReportRepoByName(rule.repo, includePrivate);
    if sum.None? {
      return [];
    }
    out := [];
    for i := 0 to |rule.milestones|
      invariant out == Crossed(rule.milestones[..i], sum.value.row.stars)
    {
      assert rule.milestones[..i + 1][..i] == rule.milestones[..i];
      if sum.value.row.stars >= rule.milestones[i] {
        out := out + [rule.milestones[i]];
      }
    }
    assert rule.milestones[..|rule.milestones|] == rule.milestones;
  }

  /** An ops rule "at least one" over this sync fires exactly when its trouble has happened. */
  lemma AtLeastOneFiresIff(rule: RuleSpec, snap: Snapshot, consecutive: int)
    requires rule.op == "gte" && rule.value == 1.0 && (rule.window == "" || rule.window == "this_sync")
    ensures rule.event == "repo_fetch_failed" ==> (OpsFires(rule, snap, consecutive) <==> snap.reposFailed > 0)
    ensures rule.event == "sync_failed" ==> (OpsFires(rule, snap, consecutive) <==> !snap.success)
    ensures rule.event == "github_unreachable" ==> (OpsFires(rule, snap, consecutive) <==> snap.unreachable)
    ensures rule.event == "upstream_stale" ==> (OpsFires(rule, snap, consecutive) <==> snap.upstreamStale)
  {
  }

  /** The remaining ops events: a known rate limit is compared, anything unknown never fires. */
  lemma OtherEventsFireIff(rule: RuleSpec, snap: Snapshot, consecutive: int)
    requires rule.op == "lt"
    ensures rule.event == "rate_limit" ==>
              (OpsFires(rule, snap, consecutive) <==> 0 <= snap.rateLimitRemaining && snap.rateLimitRemaining as real < rule.value)
    ensures rule.event == "repo_fetch_failed" && rule.window !in {"", "this_sync"} ==> !OpsFires(rule, snap, consecutive)
    ensures rule.event !in {"repo_fetch_failed", "sync_failed", "github_unreachable", "rate_limit", "upstream_stale"} ==>
              !OpsFires(rule, snap, consecutive)
  {
  }

  /** The operators are the order: two of three are complements, two are converses, one is equality. */
  lemma OperatorsAreTheOrder(v: real, t: real)
    ensures Compare("gte", v, t) <==> !Compare("lt", v, t)
    ensures Compare("lte", v, t) <==> !Compare("gt", v, t)
    ensures Compare("gt", v, t) <==> Compare("lt", t, v)
    ensures Compare("eq", v, t) <==> Compare("gte", v, t) && Compare("lte", v, t)
    ensures Compare("drop_pct", v, t) <==> Compare("gte", v, t)
    ensures Compare("gt", v, t) <==> v - t > 0.0
  {
  }
}
