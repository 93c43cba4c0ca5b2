/**
 The coordinator that lets at most one sync run at a time. Its mutex-guarded fields change only in
 the locked sections below; a run is any interleaving of those sections with the sync bodies and
 the callbacks, which hold no lock.
 */
module Coordinator {
  import opened Wrappers

  datatype RunResult = RunResult(success: bool, reposAttempted: nat, reposFailed: nat, unreachable: bool)

  /** What one sync body returned; `err` is the error's text. */
  datatype Report = Report(result: RunResult, err: Option<string>)

  datatype Job = Job(scope: string, repo: string)

  /** Times are instants of the clock, None before the first. */
  datatype Fields = Fields(
    running: bool, job: Job, lastStartedAt: Option<int>, lastFinishedAt: Option<int>, lastError: string)

  const NoJob := Job("", "")
  const Fresh := Fields(false, NoJob, None, None, "")

  function Marked(f: Fields, job: Job, now: int): Fields {
    f.(running := true, job := job, lastStartedAt := Some(now), lastError := "")
  }

  function Begun(f: Fields, job: Job, now: int): Fields {
    if f.running then f else Marked(f, job, now)
  }

  function Finished(f: Fields, err: Option<string>, now: int): Fields {
    var idle := f.(running := false, job := NoJob, lastFinishedAt := Some(now));
    if err.Some? then idle.(lastError := err.value) else idle
  }

  class SyncCoordinator {
    var running: bool
    var scope: string
    var repo: string
    var lastStartedAt: Option<int>
    var lastFinishedAt: Option<int>
    var lastError: string

    constructor ()
      ensures State() == Fresh
    {
      running, scope, repo := false, "", "";
      lastStartedAt, lastFinishedAt, lastError := None, None, "";
    }

    function State(): Fields
      reads this
    {
      Fields(running, Job(scope, repo), lastStartedAt, lastFinishedAt, lastError)
    }

    method MarkRunningLocked(scope: string, repo: string, now: int)
      modifies this
      ensures State() == Marked(old(State()), Job(scope, repo), now)
    {
      running := true;
      this.scope := scope;
      this.repo := repo;
      lastStartedAt := Some(now);
      lastError := "";
    }

    /** The locked section that `Run`, `Start` and `StartRepo` begin with. */
    method Begin(scope: string, repo: string, now: int) returns (accepted: bool)
      modifies this
      ensures accepted == !old(State()).running
      ensures State() == Begun(old(State()), Job(scope, repo), now)
    {
      if running {
        return false;
      }
      MarkRunningLocked(scope, repo, now);
      accepted := true;
    }

    /** The locked section of `finishRun`; the callback comes after it. */
    method FinishRun(err: Option<string>, now: int)
      modifies this
      ensures State() == Finished(old(State()), err, now)
    {
      running := false;
      scope := "";
      repo := "";
      lastFinishedAt := Some(now);
      if err.Some? {
        lastError := err.value;
      }
    }
  }

  // ---------- Interleavings ----------

  datatype Phase = Body | Finishing(report: Report) | Callback(report: Report) | Over(report: Report)

  /** One accepted start. */
  datatype Thread = Thread(job: Job, phase: Phase) {
    predicate InFlight() {
      phase.Body? || phase.Finishing?
    }
  }

  datatype Finish = Finish(id: nat, report: Report)

  datatype System = System(fields: Fields, threads: seq<Thread>, finishes: seq<Finish>)

  datatype Step =
    | Begins(job: Job, now: int)
    | BodyReturns(id: nat, result: RunResult, err: Option<string>)
    | FinishLocked(id: nat, now: int)
    | CallbackReturns(id: nat)

  const AtRest := System(Fresh, [], [])

  predicate Enabled(y: System, s: Step) {
    match s
    case Begins(_, _) => true
    case BodyReturns(id, _, _) => id < |y.threads| && y.threads[id].phase.Body?
    case FinishLocked(id, _) => id < |y.threads| && y.threads[id].phase.Finishing?
    case CallbackReturns(id) => id < |y.threads| && y.threads[id].phase.Callback?
  }

  function MovedTo(y: System, id: nat, phase: Phase): System
    requires id < |y.threads|
  {
    y.(threads := y.threads[id := y.threads[id].(phase := phase)])
  }

  /** A run that ended in an error is never passed on as a success. */
  function ReportOf(result: RunResult, err: Option<string>): Report {
    Report(if err.Some? then result.(success := false) else result, err)
  }

  function After(y: System, s: Step): System
    requires Enabled(y, s)
  {
    match s
    case Begins(job, now) =>
      System(Begun(y.fields, job, now), if y.fields.running then y.threads else y.threads + [Thread(job, Body)], y.finishes)
    case BodyReturns(id, result, err) => MovedTo(y, id, Finishing(ReportOf(result, err)))
    case FinishLocked(id, now) =>
      var report := y.threads[id].phase.report;
      MovedTo(y, id, Callback(report)).(fields := Finished(y.fields, report.err, now),
                                        finishes := y.finishes + [Finish(id, report)])
    case CallbackReturns(id) => MovedTo(y, id, Over(y.threads[id].phase.report))
  }

  function Run(y: System, steps: seq<Step>): Option<System> {
    if steps == [] then Some(y)
    else
      var m, s := Run(y, steps[..|steps| - 1]), steps[|steps| - 1];
      if m.Some? && Enabled(m.value, s) then Some(After(m.value, s)) else None
  }

  // ---------- What every interleaving keeps ----------

  /** Only the newest accepted start can be in flight, and it is while `running` is set. */
  predicate OneAtATime(y: System) {
    && (forall i :: 0 <= i < |y.threads| ==> (y.threads[i].InFlight() <==> i == |y.threads| - 1 && y.fields.running))
    && (y.fields.running ==> y.threads != [] && y.fields.job == y.threads[|y.threads| - 1].job)
    && (!y.fields.running ==> y.fields.job == NoJob)
  }

  /** Starts finish in the order they were accepted, each once and with its own report. */
  predicate FinishedInOrder(y: System) {
    && |y.finishes| == |y.threads| - (if y.fields.running then 1 else 0)
    && forall k :: 0 <= k < |y.finishes| ==>
      && y.finishes[k].id == k
      && !y.threads[k].InFlight()
      && y.finishes[k].report == y.threads[k].phase.report
  }

  predicate ErrorIsCurrent(y: System) {
    y.fields.lastError ==
      if y.fields.running || y.finishes == [] || y.finishes[|y.finishes| - 1].report.err.None? then ""
      else y.finishes[|y.finishes| - 1].report.err.value
  }

  predicate Invariant(y: System) {
    OneAtATime(y) && FinishedInOrder(y) && ErrorIsCurrent(y)
  }

  lemma StepKeepsOne(y: System, s: Step)
    requires OneAtATime(y) && Enabled(y, s)
    ensures OneAtATime(After(y, s))
  {
  }

  lemma StepKeepsOrder(y: System, s: Step)
    requires OneAtATime(y) && FinishedInOrder(y) && Enabled(y, s)
    ensures FinishedInOrder(After(y, s))
  {
  }

  lemma StepKeepsError(y: System, s: Step)
    requires OneAtATime(y) && ErrorIsCurrent(y) && Enabled(y, s)
    ensures ErrorIsCurrent(After(y, s))
  {
  }

  lemma {:induction false} RunKeeps(steps: seq<Step>)
    requires Run(AtRest, steps).Some?
    ensures Invariant(Run(AtRest, steps).value)
  {
    if steps != [] {
      var before, s := steps[..|steps| - 1], steps[|steps| - 1];
      RunKeeps(before);
      StepKeepsOne(Run(AtRest, before).value, s);
      StepKeepsOrder(Run(AtRest, before).value, s);
      StepKeepsError(Run(AtRest, before).value, s);
    }
  }

  /** At most one body is in flight, and `running` is set exactly while one is. */
  lemma AtMostOneBody(steps: seq<Step>)
    requires Run(AtRest, steps).Some?
    ensures var y := Run(AtRest, steps).value;
            && (forall i, j :: 0 <= i < j < |y.threads| ==> !(y.threads[i].InFlight() && y.threads[j].InFlight()))
            && (y.fields.running <==> exists i :: 0 <= i < |y.threads| && y.threads[i].InFlight())
  {
    RunKeeps(steps);
    var y := Run(AtRest, steps).value;
    if y.fields.running {
      assert y.threads[|y.threads| - 1].InFlight();
    }
  }

  /** A start while one is in flight is rejected and changes nothing. */
  lemma RejectedStartChangesNothing(steps: seq<Step>, job: Job, now: int, i: nat)
    requires Run(AtRest, steps).Some?
    requires var y := Run(AtRest, steps).value; i < |y.threads| && y.threads[i].InFlight()
    ensures var y := Run(AtRest, steps).value; After(y, Begins(job, now)) == y
  {
    RunKeeps(steps);
  }

  function FinishesOf(finishes: seq<Finish>, id: nat): seq<Report> {
    if finishes == [] then []
    else
      var last := finishes[|finishes| - 1];
      FinishesOf(finishes[..|finishes| - 1], id) + (if last.id == id then [last.report] else [])
  }

  lemma {:induction false} OneFinishAt(finishes: seq<Finish>, id: nat)
    requires forall k :: 0 <= k < |finishes| ==> finishes[k].id == k
    ensures FinishesOf(finishes, id) == if id < |finishes| then [finishes[id].report] else []
  {
    if finishes != [] {
      OneFinishAt(finishes[..|finishes| - 1], id);
    }
  }

  /** Each accepted start gets exactly one finish, with its own report, as soon as it leaves flight. */
  lemma OneFinishEach(steps: seq<Step>, id: nat)
    requires Run(AtRest, steps).Some? && id < |Run(AtRest, steps).value.threads|
    ensures var y := Run(AtRest, steps).value;
            FinishesOf(y.finishes, id) == if y.threads[id].InFlight() then [] else [y.threads[id].phase.report]
  {
    RunKeeps(steps);
    OneFinishAt(Run(AtRest, steps).value.finishes, id);
  }

  // ---------- What the bodies returned ----------

  /** What a body returned is what its report carries, except that an error is never a success. */
  predicate Carries(report: Report, result: RunResult, err: Option<string>) {
    && report.err == err
    && report.result.success == (result.success && err.None?)
    && report.result.reposAttempted == result.reposAttempted
    && report.result.reposFailed == result.reposFailed
    && report.result.unreachable == result.unreachable
  }

  /** A thread holds a report exactly when its body returned, and that report carries what it returned. */
  ghost predicate HoldsReturns(y: System, steps: seq<Step>) {
    && (forall i :: 0 <= i < |steps| && steps[i].BodyReturns? ==>
      && steps[i].id < |y.threads| && !y.threads[steps[i].id].phase.Body?
      && Carries(y.threads[steps[i].id].phase.report, steps[i].result, steps[i].err))
    && (forall id :: 0 <= id < |y.threads| && !y.threads[id].phase.Body? ==> HasReturned(steps, id))
  }

  ghost predicate HasReturned(steps: seq<Step>, id: nat) {
    exists i :: 0 <= i < |steps| && steps[i].BodyReturns? && steps[i].id == id
  }

  lemma ReturnedBefore(steps: seq<Step>, s: Step, id: nat)
    ensures HasReturned(steps + [s], id) <==> HasReturned(steps, id) || (s.BodyReturns? && s.id == id)
  {
    var all := steps + [s];
    assert all[|steps|] == s;
    assert forall i :: 0 <= i < |steps| ==> all[i] == steps[i];
  }

  lemma StepHoldsReturns(y: System, steps: seq<Step>, s: Step)
    requires HoldsReturns(y, steps) && Enabled(y, s)
    ensures HoldsReturns(After(y, s), steps + [s])
  {
    var y', all := After(y, s), steps + [s];
    assert all[|steps|] == s && forall i :: 0 <= i < |steps| ==> all[i] == steps[i];
    forall id | 0 <= id < |y'.threads| && !y'.threads[id].phase.Body?
      ensures HasReturned(all, id)
    {
      ReturnedBefore(steps, s, id);
    }
  }

  lemma {:induction false} RunHoldsReturns(steps: seq<Step>)
    requires Run(AtRest, steps).Some?
    ensures HoldsReturns(Run(AtRest, steps).value, steps)
  {
    if steps != [] {
      var before, s := steps[..|steps| - 1], steps[|steps| - 1];
      assert steps == before + [s];
      RunHoldsReturns(before);
      StepHoldsReturns(Run(AtRest, before).value, before, s);
    }
  }

  /** The one finish of a start carries exactly what the body of that start returned. */
  lemma FinishCarriesTheReturn(steps: seq<Step>, i: nat)
    requires Run(AtRest, steps).Some? && i < |steps| && steps[i].BodyReturns?
    ensures var y, s := Run(AtRest, steps).value, steps[i];
            && s.id < |y.threads|
            && (!y.threads[s.id].InFlight() ==>
              var own := FinishesOf(y.finishes, s.id);
              |own| == 1 && Carries(own[0], s.result, s.err))
  {
    RunHoldsReturns(steps);
    var y, s := Run(AtRest, steps).value, steps[i];
    OneFinishEach(steps, s.id);
  }

  /** When idle, LastError is the text the last started body returned, or empty if it returned none. */
  lemma IdleErrorIsTheLast(steps: seq<Step>)
    requires Run(AtRest, steps).Some?
    requires var y := Run(AtRest, steps).value; !y.fields.running && y.threads != []
    ensures var y := Run(AtRest, steps).value;
            && HasReturned(steps, |y.threads| - 1)
            && forall i :: 0 <= i < |steps| && steps[i].BodyReturns? && steps[i].id == |y.threads| - 1 ==>
              y.fields.lastError == if steps[i].err.Some? then steps[i].err.value else ""
  {
    RunKeeps(steps);
    RunHoldsReturns(steps);
  }

  /** An accepted start is shown as running, under its own scope and repository, with the old error gone. */
  lemma AcceptedStartIsShown(y: System, scope: string, repo: string, now: int)
    requires !y.fields.running
    ensures var y' := After(y, Begins(Job(scope, repo), now));
            && y'.fields.running && y'.fields.job.scope == scope && y'.fields.job.repo == repo
            && y'.fields.lastError == ""
            && |y'.threads| == |y.threads| + 1 && y'.threads[|y.threads|].phase.Body?
  {
  }

  /** The times are those of the last accepted start and of the last finish; other steps leave them. */
  lemma TimesAreOfTheLastSteps(y: System, s: Step)
    requires Enabled(y, s)
    ensures After(y, s).fields.lastStartedAt ==
            if s.Begins? && !y.fields.running then Some(s.now) else y.fields.lastStartedAt
    ensures After(y, s).fields.lastFinishedAt == if s.FinishLocked? then Some(s.now) else y.fields.lastFinishedAt
  {
  }

  /** A report the callback is given never claims success beside an error. */
  predicate Honest(y: System) {
    forall i :: 0 <= i < |y.threads| && !y.threads[i].phase.Body? && y.threads[i].phase.report.err.Some? ==>
      !y.threads[i].phase.report.result.success
  }

  lemma {:induction false} ReportsAreHonest(steps: seq<Step>)
    requires Run(AtRest, steps).Some?
    ensures Honest(Run(AtRest, steps).value)
  {
    if steps != [] {
      ReportsAreHonest(steps[..|steps| - 1]);
    }
  }

  // ---------- What the callback is not promised ----------

  /** The callback runs after the lock is released, so two callbacks can overlap. */
  lemma CallbacksCanOverlap(job: Job, result: RunResult) returns (steps: seq<Step>)
    ensures Run(AtRest, steps).Some?
    ensures var y := Run(AtRest, steps).value;
            |y.threads| == 2 && y.threads[0].phase.Callback? && y.threads[1].phase.Callback?
  {
    var started := OneMore([], Begins(job, 0));
    var returned := OneMore(started, BodyReturns(0, result, None));
    var finished := OneMore(returned, FinishLocked(0, 1));
    var again := OneMore(finished, Begins(job, 2));
    var back := OneMore(again, BodyReturns(1, result, None));
    steps := OneMore(back, FinishLocked(1, 3));
  }

  lemma OneMore(steps: seq<Step>, s: Step) returns (grown: seq<Step>)
    requires Run(AtRest, steps).Some? && Enabled(Run(AtRest, steps).value, s)
    ensures Run(AtRest, grown) == Some(After(Run(AtRest, steps).value, s))
  {
    grown := steps + [s];
    assert grown[..|steps|] == steps;
  }
}
