/**
 The worker pool of one sync cycle: a sender on an unbuffered channel, workers that may be
 cancelled between jobs, and the failure counter they share. A run is any sequence of steps, so a
 statement over runs is a statement over all interleavings.
 */
module WorkerPool {
  import opened Wrappers
  import opened Catalog

  // ---------- The shared counter ----------

  const MaxName := 5

  datatype Failures = Failures(failed: nat, names: seq<string>)

  function Noted(f: Failures, name: string): Failures {
    Failures(f.failed + 1, if |f.names| < MaxName then f.names + [name] else f.names)
  }

  class RepoFailCounter {
    var failed: nat
    var names: seq<string>

    constructor ()
      ensures State() == Failures(0, [])
    {
      failed, names := 0, [];
    }

    function State(): Failures
      reads this
    {
      Failures(failed, names)
    }

    method NoteFail(name: string)
      modifies this
      ensures State() == Noted(old(State()), name)
    {
      failed := failed + 1;
      if |names| < MaxName {
        names := names + [name];
      }
    }

    method Snapshot() returns (n: nat, sample: seq<string>)
      ensures Failures(n, sample) == State()
    {
      n, sample := failed, names;
    }
  }

  // ---------- States and steps ----------

  /** Jobs are positions in the list, so that a name listed twice is two jobs. */
  datatype Worker = Waiting | Holding(job: nat) | Working(job: nat) | Exited {
    predicate Has(j: nat) {
      (Holding? || Working?) && job == j
    }
  }

  datatype Sender = Sending | Closed | Returned

  datatype Outcome = Outcome(job: nat, ok: bool)

  datatype Pool = Pool(
    cancelled: bool, sender: Sender, next: nat, workers: seq<Worker>,
    done: seq<Outcome>, dropped: seq<nat>, failures: Failures)

  datatype Step =
    | Cancel
    | Handoff(w: nat)
    | SenderSeesCancel
    | SenderCloses
    | SenderReturns
    | WorkerChecks(w: nat)
    | WorkerFinishes(w: nat, ok: bool)
    | WorkerExits(w: nat)

  function WorkerCount(n: int): nat {
    if n < 1 then 1 else n
  }

  function Start(workers: int): Pool {
    Pool(false, Sending, 0, seq(WorkerCount(workers), _ => Waiting), [], [], Failures(0, []))
  }

  predicate AllExited(p: Pool) {
    forall w :: 0 <= w < |p.workers| ==> p.workers[w].Exited?
  }

  predicate Enabled(repos: seq<Repo>, p: Pool, s: Step) {
    match s
    case Cancel => !p.cancelled
    case Handoff(w) => p.sender.Sending? && p.next < |repos| && w < |p.workers| && p.workers[w].Waiting?
    case SenderSeesCancel => p.sender.Sending? && p.next < |repos| && p.cancelled
    case SenderCloses => p.sender.Sending? && p.next == |repos|
    case SenderReturns => p.sender.Closed? && AllExited(p)
    case WorkerChecks(w) => w < |p.workers| && p.workers[w].Holding?
    case WorkerFinishes(w, _) => w < |p.workers| && p.workers[w].Working? && p.workers[w].job < |repos|
    case WorkerExits(w) => w < |p.workers| && p.workers[w].Waiting? && !p.sender.Sending?
  }

  function After(repos: seq<Repo>, p: Pool, s: Step): Pool
    requires Enabled(repos, p, s)
  {
    match s
    case Cancel => p.(cancelled := true)
    case Handoff(w) => p.(workers := p.workers[w := Holding(p.next)], next := p.next + 1)
    case SenderSeesCancel => p.(sender := Closed)
    case SenderCloses => p.(sender := Closed)
    case SenderReturns => p.(sender := Returned)
    case WorkerChecks(w) =>
      var job := p.workers[w].job;
      if p.cancelled then p.(workers := p.workers[w := Exited], dropped := p.dropped + [job])
      else p.(workers := p.workers[w := Working(job)])
    case WorkerFinishes(w, ok) =>
      var job := p.workers[w].job;
      p.(workers := p.workers[w := Waiting], done := p.done + [Outcome(job, ok)],
         failures := if ok then p.failures else Noted(p.failures, repos[job].name))
    case WorkerExits(w) => p.(workers := p.workers[w := Exited])
  }

  /** The state a sequence of steps leads to; None if some step was not possible. */
  function Run(repos: seq<Repo>, p: Pool, steps: seq<Step>): Option<Pool> {
    if steps == [] then Some(p)
    else
      var m, s := Run(repos, p, steps[..|steps| - 1]), steps[|steps| - 1];
      if m.Some? && Enabled(repos, m.value, s) then Some(After(repos, m.value, s)) else None
  }

  // ---------- Where every job is ----------

  function Held(workers: seq<Worker>, j: nat): nat {
    if workers == [] then 0
    else Held(workers[..|workers| - 1], j) + (if workers[|workers| - 1].Has(j) then 1 else 0)
  }

  function Finished(done: seq<Outcome>, j: nat): nat {
    if done == [] then 0
    else Finished(done[..|done| - 1], j) + (if done[|done| - 1].job == j then 1 else 0)
  }

  function Dropped(dropped: seq<nat>, j: nat): nat {
    if dropped == [] then 0
    else Dropped(dropped[..|dropped| - 1], j) + (if dropped[|dropped| - 1] == j then 1 else 0)
  }

  function Places(p: Pool, j: nat): nat {
    (if p.next <= j then 1 else 0) + Held(p.workers, j) + Finished(p.done, j) + Dropped(p.dropped, j)
  }

  /** Every job is in exactly one place: unsent, in flight, done or dropped. */
  ghost predicate Partitioned(repos: seq<Repo>, p: Pool) {
    && p.next <= |repos|
    && (forall j: nat :: Places(p, j) == 1)
  }

  lemma {:induction false} HeldAfter(workers: seq<Worker>, w: nat, x: Worker, j: nat)
    requires w < |workers|
    ensures Held(workers[w := x], j)
         == Held(workers, j) - (if workers[w].Has(j) then 1 else 0) + (if x.Has(j) then 1 else 0)
  {
    var n := |workers| - 1;
    if w < n {
      HeldAfter(workers[..n], w, x, j);
      assert workers[w := x][..n] == workers[..n][w := x];
    } else {
      assert workers[w := x][..n] == workers[..n];
    }
  }

  lemma {:induction false} HeldSomewhere(workers: seq<Worker>, j: nat)
    ensures Held(workers, j) > 0 <==> exists w :: 0 <= w < |workers| && workers[w].Has(j)
  {
    if workers != [] {
      var front := workers[..|workers| - 1];
      HeldSomewhere(front, j);
      assert workers == front + [workers[|workers| - 1]];
      assert forall w :: 0 <= w < |front| ==> front[w] == workers[w];
      assert Held(workers, j) > 0 <==> Held(front, j) > 0 || workers[|front|].Has(j);
    }
  }

  lemma {:induction false} TwoHolders(workers: seq<Worker>, j: nat, v: nat, w: nat)
    requires v < w < |workers| && workers[v].Has(j) && workers[w].Has(j)
    ensures Held(workers, j) >= 2
  {
    var gone := workers[w := Exited];
    HeldAfter(workers, w, Exited, j);
    assert gone[v].Has(j);
    HeldSomewhere(gone, j);
  }

  // ---------- What every step keeps ----------

  function Failed(done: seq<Outcome>): seq<nat> {
    if done == [] then []
    else Failed(done[..|done| - 1]) + (if done[|done| - 1].ok then [] else [done[|done| - 1].job])
  }

  function Min(a: nat, b: nat): nat {
    if a < b then a else b
  }

  predicate KnownJobs(repos: seq<Repo>, jobs: seq<nat>) {
    forall i :: 0 <= i < |jobs| ==> jobs[i] < |repos|
  }

  predicate CountsThese(repos: seq<Repo>, f: Failures, failed: seq<nat>) {
    && KnownJobs(repos, failed)
    && f.failed == |failed|
    && |f.names| == Min(MaxName, |failed|)
    && forall i :: 0 <= i < |f.names| ==> f.names[i] == repos[failed[i]].name
  }

  /** The counter holds the number of failures and the names of the first five. */
  predicate CountsFailures(repos: seq<Repo>, p: Pool) {
    CountsThese(repos, p.failures, Failed(p.done))
  }

  predicate Orderly(repos: seq<Repo>, p: Pool) {
    && p.workers != []
    && (forall w :: 0 <= w < |p.workers| && p.workers[w].Exited? ==> p.cancelled || !p.sender.Sending?)
    && (!p.sender.Sending? && p.next < |repos| ==> p.cancelled)
    && (p.dropped != [] ==> p.cancelled)
    && (p.sender.Returned? ==> AllExited(p))
  }

  ghost predicate Invariant(repos: seq<Repo>, p: Pool) {
    Partitioned(repos, p) && CountsFailures(repos, p) && Orderly(repos, p)
  }

  lemma {:induction false} NoneHeldAtFirst(n: nat, j: nat)
    ensures Held(seq(n, _ => Waiting), j) == 0
  {
    HeldSomewhere(seq(n, _ => Waiting), j);
  }

  lemma StartIsGood(repos: seq<Repo>, workers: int)
    ensures Invariant(repos, Start(workers))
  {
    forall j: nat
      ensures Places(Start(workers), j) == 1
    {
      NoneHeldAtFirst(WorkerCount(workers), j);
    }
  }

  /** A step moves at most one job, from one place to the next. */
  lemma StepMovesOneJob(repos: seq<Repo>, p: Pool, s: Step, j: nat)
    requires Enabled(repos, p, s)
    ensures Places(After(repos, p, s), j) == Places(p, j)
  {
    var p' := After(repos, p, s);
    match s
    case Handoff(w) => HeldAfter(p.workers, w, Holding(p.next), j);
    case WorkerChecks(w) =>
      HeldAfter(p.workers, w, p'.workers[w], j);
      if p.cancelled {
        assert p'.dropped[..|p.dropped|] == p.dropped;
      }
    case WorkerFinishes(w, _) =>
      HeldAfter(p.workers, w, Waiting, j);
      assert p'.done[..|p.done|] == p.done;
    case WorkerExits(w) => HeldAfter(p.workers, w, Exited, j);
    case _ =>
  }

  lemma StepKeepsPartition(repos: seq<Repo>, p: Pool, s: Step)
    requires Partitioned(repos, p) && Enabled(repos, p, s)
    ensures Partitioned(repos, After(repos, p, s))
  {
    var p' := After(repos, p, s);
    forall j: nat
      ensures Places(p', j) == 1
    {
      StepMovesOneJob(repos, p, s, j);
    }
    assert p'.next <= |repos|;
  }

  lemma OneMoreFailure(repos: seq<Repo>, f: Failures, failed: seq<nat>, job: nat)
    requires CountsThese(repos, f, failed) && job < |repos|
    ensures CountsThese(repos, Noted(f, repos[job].name), failed + [job])
  {
  }

  lemma StepKeepsCount(repos: seq<Repo>, p: Pool, s: Step)
    requires CountsFailures(repos, p) && Enabled(repos, p, s)
    ensures CountsFailures(repos, After(repos, p, s))
  {
    if s.WorkerFinishes? {
      var job := p.workers[s.w].job;
      var done := p.done + [Outcome(job, s.ok)];
      assert done[..|p.done|] == p.done;
      if s.ok {
        assert Failed(p.done) + [] == Failed(p.done);
      } else {
        OneMoreFailure(repos, p.failures, Failed(p.done), job);
      }
    }
  }

  lemma StepKeepsOrder(repos: seq<Repo>, p: Pool, s: Step)
    requires Invariant(repos, p) && Enabled(repos, p, s)
    ensures Orderly(repos, After(repos, p, s))
  {
  }

  lemma {:induction false} RunKeeps(repos: seq<Repo>, workers: int, steps: seq<Step>)
    requires Run(repos, Start(workers), steps).Some?
    ensures Invariant(repos, Run(repos, Start(workers), steps).value)
  {
    if steps == [] {
      StartIsGood(repos, workers);
    } else {
      var before, s := steps[..|steps| - 1], steps[|steps| - 1];
      RunKeeps(repos, workers, before);
      var p := Run(repos, Start(workers), before).value;
      StepKeepsPartition(repos, p, s);
      StepKeepsCount(repos, p, s);
      StepKeepsOrder(repos, p, s);
    }
  }

  /** In every interleaving, each job is unsent, held by one worker, done once or dropped once. */
  lemma JobsArePartitioned(repos: seq<Repo>, workers: int, steps: seq<Step>, j: nat)
    requires Run(repos, Start(workers), steps).Some? && j < |repos|
    ensures var p := Run(repos, Start(workers), steps).value;
            && Places(p, j) == 1
            && (forall v, w :: 0 <= v < w < |p.workers| ==> !(p.workers[v].Has(j) && p.workers[w].Has(j)))
            && Finished(p.done, j) <= 1
  {
    RunKeeps(repos, workers, steps);
    var p := Run(repos, Start(workers), steps).value;
    assert Places(p, j) == 1;
    forall v, w | 0 <= v < w < |p.workers|
      ensures !(p.workers[v].Has(j) && p.workers[w].Has(j))
    {
      if p.workers[v].Has(j) && p.workers[w].Has(j) {
        TwoHolders(p.workers, j, v, w);
        assert false;
      }
    }
  }

  // ---------- No deadlock, and no run without end ----------

  /** Until the pool returns, some step other than a cancellation is possible. */
  lemma NoDeadlock(repos: seq<Repo>, workers: int, steps: seq<Step>)
    requires Run(repos, Start(workers), steps).Some?
    ensures var p := Run(repos, Start(workers), steps).value;
            p.sender.Returned? || exists s: Step :: s != Cancel && Enabled(repos, p, s)
  {
    RunKeeps(repos, workers, steps);
    var p := Run(repos, Start(workers), steps).value;
    if w :| 0 <= w < |p.workers| && p.workers[w].Holding? {
      assert Enabled(repos, p, WorkerChecks(w));
    } else if w :| 0 <= w < |p.workers| && p.workers[w].Working? {
      WorkedJobIsKnown(repos, p, w);
      assert Enabled(repos, p, WorkerFinishes(w, true));
    } else if p.sender.Sending? && p.next == |repos| {
      assert Enabled(repos, p, SenderCloses);
    } else if w :| 0 <= w < |p.workers| && p.workers[w].Waiting? {
      assert p.sender.Sending? ==> Enabled(repos, p, Handoff(w));
      assert !p.sender.Sending? ==> Enabled(repos, p, WorkerExits(w));
    } else {
      assert AllExited(p);
      assert p.workers[0].Exited?;
      assert p.sender.Sending? ==> Enabled(repos, p, SenderSeesCancel);
      assert p.sender.Closed? ==> Enabled(repos, p, SenderReturns);
    }
  }

  lemma WorkedJobIsKnown(repos: seq<Repo>, p: Pool, w: nat)
    requires Partitioned(repos, p) && w < |p.workers| && (p.workers[w].Working? || p.workers[w].Holding?)
    ensures p.workers[w].job < p.next
  {
    var j := p.workers[w].job;
    assert p.workers[w].Has(j);
    HeldSomewhere(p.workers, j);
    assert Places(p, j) == 1;
  }

  function Todo(w: Worker): nat {
    match w
    case Exited => 0
    case Waiting => 1
    case Working(_) => 2
    case Holding(_) => 3
  }

  function TodoAll(workers: seq<Worker>): nat {
    if workers == [] then 0 else TodoAll(workers[..|workers| - 1]) + Todo(workers[|workers| - 1])
  }

  function Measure(repos: seq<Repo>, p: Pool): nat
    requires p.next <= |repos|
  {
    (if p.cancelled then 0 else 1) + TodoAll(p.workers)
    + match p.sender
      case Sending => 2 + 3 * (|repos| - p.next)
      case Closed => 1
      case Returned => 0
  }

  lemma {:induction false} TodoAfter(workers: seq<Worker>, w: nat, x: Worker)
    requires w < |workers|
    ensures TodoAll(workers[w := x]) == TodoAll(workers) - Todo(workers[w]) + Todo(x)
  {
    var n := |workers| - 1;
    if w < n {
      TodoAfter(workers[..n], w, x);
      assert workers[w := x][..n] == workers[..n][w := x];
    } else {
      assert workers[w := x][..n] == workers[..n];
    }
  }

  lemma StepDecreases(repos: seq<Repo>, p: Pool, s: Step)
    requires p.next <= |repos| && Enabled(repos, p, s)
    ensures After(repos, p, s).next <= |repos| && Measure(repos, After(repos, p, s)) < Measure(repos, p)
  {
    if s.Handoff? || s.WorkerChecks? || s.WorkerFinishes? || s.WorkerExits? {
      TodoAfter(p.workers, s.w, After(repos, p, s).workers[s.w]);
    }
  }

  lemma {:induction false} TodoAtFirst(n: nat)
    ensures TodoAll(seq(n, _ => Waiting)) == n
  {
    if n > 0 {
      assert seq(n, _ => Waiting)[..n - 1] == seq(n - 1, _ => Waiting);
      TodoAtFirst(n - 1);
    }
  }

  lemma {:induction false} MeasureShrinks(repos: seq<Repo>, p: Pool, steps: seq<Step>)
    requires p.next <= |repos| && Run(repos, p, steps).Some?
    ensures var q := Run(repos, p, steps).value;
            q.next <= |repos| && |steps| + Measure(repos, q) <= Measure(repos, p)
  {
    if steps != [] {
      var before, s := steps[..|steps| - 1], steps[|steps| - 1];
      MeasureShrinks(repos, p, before);
      StepDecreases(repos, Run(repos, p, before).value, s);
    }
  }

  /** No interleaving is longer than this, so with no deadlock every run ends in a return. */
  lemma RunsAreShort(repos: seq<Repo>, workers: int, steps: seq<Step>)
    requires Run(repos, Start(workers), steps).Some?
    ensures |steps| <= 3 * |repos| + WorkerCount(workers) + 3
  {
    MeasureShrinks(repos, Start(workers), steps);
    TodoAtFirst(WorkerCount(workers));
  }

  // ---------- What a finished cycle reports ----------

  lemma NoneInFlight(p: Pool, j: nat)
    requires AllExited(p)
    ensures Held(p.workers, j) == 0
  {
    HeldSomewhere(p.workers, j);
  }

  /** A run that returns without a cancellation has done every job once and dropped none. */
  lemma EveryJobDoneOnce(repos: seq<Repo>, workers: int, steps: seq<Step>)
    requires Run(repos, Start(workers), steps).Some?
    requires var p := Run(repos, Start(workers), steps).value; p.sender.Returned? && !p.cancelled
    ensures var p := Run(repos, Start(workers), steps).value;
            && p.dropped == []
            && (forall j: nat :: Finished(p.done, j) == if j < |repos| then 1 else 0)
            && CountsFailures(repos, p)
            && p.failures.failed == |ErrorsIn(p.done)|
            && |p.failures.names| == (if p.failures.failed < 5 then p.failures.failed else 5)
            && forall name :: name in p.failures.names ==> exists i :: i in ErrorsIn(p.done) && FailedAs(repos, p.done, i, name)
  {
    RunKeeps(repos, workers, steps);
    var p := Run(repos, Start(workers), steps).value;
    forall j: nat
      ensures Finished(p.done, j) == if j < |repos| then 1 else 0
    {
      NoneInFlight(p, j);
      assert Places(p, j) == 1;
    }
    FailedAreErrors(p.done);
    forall name | name in p.failures.names
      ensures exists i :: i in ErrorsIn(p.done) && FailedAs(repos, p.done, i, name)
    {
      var n :| 0 <= n < |p.failures.names| && p.failures.names[n] == name;
      var i := FailedComesFrom(p.done, n);
      assert FailedAs(repos, p.done, i, name);
    }
  }

  /** The outcomes that are errors. */
  function ErrorsIn(done: seq<Outcome>): set<int> {
    set i | 0 <= i < |done| && !done[i].ok
  }

  predicate FailedAs(repos: seq<Repo>, done: seq<Outcome>, i: int, name: string) {
    0 <= i < |done| && done[i].job < |repos| && repos[done[i].job].name == name
  }

  lemma {:induction false} FailedAreErrors(done: seq<Outcome>)
    ensures |Failed(done)| == |ErrorsIn(done)|
  {
    if done != [] {
      var n := |done| - 1;
      FailedAreErrors(done[..n]);
      assert ErrorsIn(done) == ErrorsIn(done[..n]) + (if done[n].ok then {} else {n});
    }
  }

  lemma {:induction false} FailedComesFrom(done: seq<Outcome>, n: nat) returns (i: int)
    requires n < |Failed(done)|
    ensures i in ErrorsIn(done) && done[i].job == Failed(done)[n]
  {
    var last := |done| - 1;
    if n < |Failed(done[..last])| {
      i := FailedComesFrom(done[..last], n);
    } else {
      i := last;
    }
  }

  function TimesWorked(repos: seq<Repo>, done: seq<Outcome>, name: string): nat
    requires forall i :: 0 <= i < |done| ==> done[i].job < |repos|
  {
    if done == [] then 0
    else
      TimesWorked(repos, done[..|done| - 1], name)
      + (if repos[done[|done| - 1].job].name == name then 1 else 0)
  }

  lemma {:induction false} WorkedAsOftenAsFinished(repos: seq<Repo>, done: seq<Outcome>, j: nat)
    requires DistinctNames(repos) && j < |repos|
    requires forall i :: 0 <= i < |done| ==> done[i].job < |repos|
    ensures TimesWorked(repos, done, repos[j].name) == Finished(done, j)
  {
    if done != [] {
      WorkedAsOftenAsFinished(repos, done[..|done| - 1], j);
    }
  }

  lemma {:induction false} FinishedSomewhere(done: seq<Outcome>, i: nat)
    requires i < |done|
    ensures Finished(done, done[i].job) > 0
  {
    if i < |done| - 1 {
      FinishedSomewhere(done[..|done| - 1], i);
    }
  }

  /** Over the filtered listing and the pins, every tracked name is worked exactly once. */
  lemma EveryTrackedNameOnce(
    listed: seq<Repo>, pins: seq<string>, repos: seq<Repo>, workers: int, steps: seq<Step>, name: string)
    requires AddsPins(listed, pins, repos) && DistinctNames(listed)
    requires name in NamesOf(listed) || name in pins
    requires Run(repos, Start(workers), steps).Some?
    requires var p := Run(repos, Start(workers), steps).value; p.sender.Returned? && !p.cancelled
    ensures var done := Run(repos, Start(workers), steps).value.done;
            && (forall i :: 0 <= i < |done| ==> done[i].job < |repos|)
            && TimesWorked(repos, done, name) == 1
  {
    PinsAddNoDuplicates(listed, pins, repos);
    EveryJobDoneOnce(repos, workers, steps);
    var done := Run(repos, Start(workers), steps).value.done;
    forall i | 0 <= i < |done|
      ensures done[i].job < |repos|
    {
      FinishedSomewhere(done, i);
    }
    assert name in NamesOf(repos);
    var j :| 0 <= j < |repos| && repos[j].name == name;
    WorkedAsOftenAsFinished(repos, done, j);
  }

  // ---------- After a cancellation ----------

  lemma {:induction false} CancelledRun(repos: seq<Repo>, p: Pool, steps: seq<Step>)
    requires p.cancelled && Run(repos, p, steps).Some?
    ensures var q := Run(repos, p, steps).value;
            && q.cancelled && |q.workers| == |p.workers| && p.done <= q.done
            && (forall w :: 0 <= w < |q.workers| && q.workers[w].Working? ==> q.workers[w] == p.workers[w])
            && (forall i :: |p.done| <= i < |q.done| ==> Working(q.done[i].job) in p.workers)
  {
    if steps != [] {
      var before, s := steps[..|steps| - 1], steps[|steps| - 1];
      CancelledRun(repos, p, before);
      var m := Run(repos, p, before).value;
      if s.WorkerFinishes? {
        assert m.workers[s.w] == p.workers[s.w];
      }
    }
  }

  /** Once cancelled, no job is taken up any more: what is done later was already being worked. */
  lemma OnlyBusyWorkersFinish(repos: seq<Repo>, p: Pool, steps: seq<Step>, i: nat)
    requires p.cancelled && Run(repos, p, steps).Some?
    requires |p.done| <= i < |Run(repos, p, steps).value.done|
    ensures Working(Run(repos, p, steps).value.done[i].job) in p.workers
  {
    CancelledRun(repos, p, steps);
  }

  /** As many workers as asked for, at least one, all waiting. */
  lemma WorkersAtFirst(workers: int)
    ensures |Start(workers).workers| == (if workers >= 1 then workers else 1)
    ensures forall w :: 0 <= w < |Start(workers).workers| ==> Start(workers).workers[w].Waiting?
  {
  }
}
