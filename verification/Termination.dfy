/** termination_job and the work that waits for a termination, each tied to one process generation. */
module Termination {
  datatype Phase = NoneYet | TermRequested | TreeDraining | ForceKillRequested | Completed
  datatype Action = Nothing | SendTerm | SendKill | Complete

  datatype Job = Job(generation: nat, phase: Phase, started: int, timeout: int)
  {
    function Deadline(): int { started + timeout }
  }

  const FRESH := Job(0, NoneYet, 0, 0)

  function Rank(p: Phase): nat {
    match p
    case NoneYet => 0
    case TermRequested => 1
    case TreeDraining => 2
    case ForceKillRequested => 3
    case Completed => 4
  }

  function TimeoutMs(seconds: int): int {
    if seconds > 0 then seconds * 1000 else 0
  }

  datatype Call =
    | Request(now: int, timeoutSec: int)
    | Force
    | MarkTreeDraining(now: int, timeoutSec: int)
    | Poll(now: int, treeEmpty: bool)

  /** The job after a call for a generation, and the action it asks for. */
  function Step(job: Job, generation: nat, call: Call): (Job, Action) {
    match call
    case Request(now, timeoutSec) =>
      if job.phase != NoneYet && job.generation == generation then (job, Nothing)
      else (Job(generation, TermRequested, now, TimeoutMs(timeoutSec)), SendTerm)
    case Force =>
      if job.generation != generation || job.phase == Completed then (job, Nothing)
      else (job.(phase := ForceKillRequested), SendKill)
    case MarkTreeDraining(now, timeoutSec) =>
      var adopted :=
        if job.phase == NoneYet || job.generation != generation
        then Job(generation, job.phase, now, TimeoutMs(timeoutSec)) else job;
      if adopted.phase in {Completed, ForceKillRequested} then (adopted, Nothing)
      else (adopted.(phase := TreeDraining), SendTerm)
    case Poll(now, treeEmpty) =>
      if job.generation != generation then (job, Nothing)
      else if treeEmpty then
        if job.phase in {NoneYet, Completed} then (job, Nothing)
        else (job.(phase := Completed), Complete)
      else if job.phase in {TermRequested, TreeDraining} && now >= job.Deadline() then
        (job.(phase := ForceKillRequested), SendKill)
      else (job, Nothing)
  }

  class TerminationJob {
    var generation: nat
    var phase: Phase
    var started: int
    var timeout: int

    ghost function Now(): Job
      reads this
    {
      Job(generation, phase, started, timeout)
    }

    constructor ()
      ensures Now() == FRESH
    {
      generation, phase, started, timeout := 0, NoneYet, 0, 0;
    }

    method RequestStop(generation: nat, now: int, timeoutSec: int) returns (action: Action)
      modifies this
      ensures (Now(), action) == Step(old(Now()), generation, Request(now, timeoutSec))
    {
      if phase != NoneYet && this.generation == generation { return Nothing; }
      this.generation, phase, started := generation, TermRequested, now;
      timeout := if timeoutSec > 0 then timeoutSec * 1000 else 0;
      action := SendTerm;
    }

    method ForceStop(generation: nat) returns (action: Action)
      modifies this
      ensures (Now(), action) == Step(old(Now()), generation, Force)
    {
      if this.generation != generation || phase == Completed { return Nothing; }
      phase := ForceKillRequested;
      action := SendKill;
    }

    method DrainTree(generation: nat, now: int, timeoutSec: int) returns (action: Action)
      modifies this
      ensures (Now(), action) == Step(old(Now()), generation, MarkTreeDraining(now, timeoutSec))
    {
      if phase == NoneYet || this.generation != generation {
        this.generation, started := generation, now;
        timeout := if timeoutSec > 0 then timeoutSec * 1000 else 0;
      }
      if phase == Completed || phase == ForceKillRequested { return Nothing; }
      phase := TreeDraining;
      action := SendTerm;
    }

    method PollTree(generation: nat, now: int, treeEmpty: bool) returns (action: Action)
      modifies this
      ensures (Now(), action) == Step(old(Now()), generation, Poll(now, treeEmpty))
    {
      if this.generation != generation { return Nothing; }
      if treeEmpty {
        if phase == NoneYet || phase == Completed { return Nothing; }
        phase := Completed;
        return Complete;
      }
      if (phase == TermRequested || phase == TreeDraining) && now >= started + timeout {
        phase := ForceKillRequested;
        return SendKill;
      }
      action := Nothing;
    }
  }

  // ----- Runs of one generation

  /** `jobs[i + 1]` is what call `i` makes of `jobs[i]`; a new process starts with a fresh job. */
  ghost predicate IsRun(generation: nat, calls: seq<Call>, jobs: seq<Job>) {
    && |jobs| == |calls| + 1 && jobs[0] == FRESH
    && forall i :: 0 <= i < |calls| ==> jobs[i + 1] == Step(jobs[i], generation, calls[i]).0
  }

  function ActionAt(generation: nat, calls: seq<Call>, jobs: seq<Job>, i: nat): Action
    requires i < |calls| && |jobs| == |calls| + 1
  {
    Step(jobs[i], generation, calls[i]).1
  }

  ghost predicate Owned(job: Job, generation: nat) {
    if job.phase == NoneYet then job == FRESH else job.generation == generation
  }

  lemma {:induction false} AlwaysOwned(generation: nat, calls: seq<Call>, jobs: seq<Job>, i: nat)
    requires IsRun(generation, calls, jobs) && i < |jobs|
    ensures Owned(jobs[i], generation)
  {
    if i > 0 {
      AlwaysOwned(generation, calls, jobs, i - 1);
      assert jobs[i - 1 + 1] == Step(jobs[i - 1], generation, calls[i - 1]).0;
    }
  }

  /** Phases only advance, and once termination is under way the deadline stays. */
  lemma {:induction false} PhasesAdvance(generation: nat, calls: seq<Call>, jobs: seq<Job>, i: nat, j: nat)
    requires IsRun(generation, calls, jobs) && i <= j < |jobs|
    ensures Rank(jobs[i].phase) <= Rank(jobs[j].phase)
    ensures jobs[i].phase != NoneYet ==> jobs[j].Deadline() == jobs[i].Deadline()
    decreases j - i
  {
    if i < j {
      PhasesAdvance(generation, calls, jobs, i, j - 1);
      AlwaysOwned(generation, calls, jobs, j - 1);
      assert jobs[j - 1 + 1] == Step(jobs[j - 1], generation, calls[j - 1]).0;
    }
  }

  /** A poll kills at most once, and not before the deadline. */
  lemma PollKillsOnce(generation: nat, calls: seq<Call>, jobs: seq<Job>, i: nat, j: nat)
    requires IsRun(generation, calls, jobs) && i < |calls| && j < |calls|
    requires calls[i].Poll? && ActionAt(generation, calls, jobs, i) == SendKill
    requires calls[j].Poll? && ActionAt(generation, calls, jobs, j) == SendKill
    ensures i == j && calls[i].now >= jobs[i].Deadline()
  {
    assert jobs[i + 1] == Step(jobs[i], generation, calls[i]).0;
    assert jobs[j + 1] == Step(jobs[j], generation, calls[j]).0;
    if i < j { PhasesAdvance(generation, calls, jobs, i + 1, j); }
    if j < i { PhasesAdvance(generation, calls, jobs, j + 1, i); }
  }

  /** Completion is reported at most once, and after it every call does nothing. */
  lemma CompletesOnce(generation: nat, calls: seq<Call>, jobs: seq<Job>, i: nat, j: nat)
    requires IsRun(generation, calls, jobs) && i < j < |calls|
    requires ActionAt(generation, calls, jobs, i) == Complete
    ensures ActionAt(generation, calls, jobs, j) == Nothing && jobs[j].phase == Completed
  {
    assert jobs[i + 1] == Step(jobs[i], generation, calls[i]).0;
    PhasesAdvance(generation, calls, jobs, i + 1, j);
    AlwaysOwned(generation, calls, jobs, j);
  }

  lemma OneMoreCall(generation: nat, calls: seq<Call>, jobs: seq<Job>, call: Call)
    requires IsRun(generation, calls, jobs)
    ensures IsRun(generation, calls + [call], jobs + [Step(jobs[|calls|], generation, call).0])
    ensures Advances(generation, jobs[|calls|], Step(jobs[|calls|], generation, call).0)
    ensures Reported(generation, calls, jobs) ==> Step(jobs[|calls|], generation, call).1 == Nothing
    ensures call.Poll? && Step(jobs[|calls|], generation, call).1 == SendKill ==>
      !PollKilled(generation, calls, jobs) && call.now >= jobs[|calls|].Deadline()
  {
    var n, calls', jobs' := |calls|, calls + [call], jobs + [Step(jobs[|calls|], generation, call).0];
    assert IsRun(generation, calls', jobs');
    PhasesAdvance(generation, calls', jobs', n, n + 1);
    AlwaysOwned(generation, calls', jobs', n + 1);
    if i :| 0 <= i < n && ActionAt(generation, calls, jobs, i) == Complete {
      CompletesOnce(generation, calls', jobs', i, n);
    }
    if call.Poll? && Step(jobs[n], generation, call).1 == SendKill {
      PollKillsOnce(generation, calls', jobs', n, n);
      if i :| 0 <= i < n && calls[i].Poll? && ActionAt(generation, calls, jobs, i) == SendKill {
        PollKillsOnce(generation, calls', jobs', i, n);
      }
    }
  }

  /** The phase has not gone back, a deadline once fixed has stayed, and the job is the generation's own. */
  ghost predicate Advances(generation: nat, before: Job, after: Job) {
    && Rank(before.phase) <= Rank(after.phase)
    && (before.phase != NoneYet ==> after.Deadline() == before.Deadline())
    && Owned(after, generation)
  }

  /** Completion has been reported. */
  ghost predicate Reported(generation: nat, calls: seq<Call>, jobs: seq<Job>)
    requires |jobs| == |calls| + 1
  {
    exists i :: 0 <= i < |calls| && ActionAt(generation, calls, jobs, i) == Complete
  }

  /** A poll has asked for a kill. */
  ghost predicate PollKilled(generation: nat, calls: seq<Call>, jobs: seq<Job>)
    requires |jobs| == |calls| + 1
  {
    exists i :: 0 <= i < |calls| && calls[i].Poll? && ActionAt(generation, calls, jobs, i) == SendKill
  }

  // ----- Tasks that run once a process has terminated

  /** A task may start the program again, which begins a new generation. */
  datatype Task = Task(generation: nat, id: nat, restarts: bool)

  /** The tasks that run, starting from a generation: those of that generation, up to the first restart. */
  function Runnable(tasks: seq<Task>, generation: nat): seq<Task> {
    if tasks == [] then []
    else if tasks[0].generation != generation then Runnable(tasks[1..], generation)
    else if tasks[0].restarts then [tasks[0]]
    else [tasks[0]] + Runnable(tasks[1..], generation)
  }

  class ManagedProcess {
    var generation: nat
    var pid: int
    var lastPid: int
    var job: TerminationJob
    var tasks: seq<Task>
    const killTimeout: int

    // the calls made to the job since it was installed, and the job before and after each
    ghost var calls: seq<Call>
    ghost var jobs: seq<Job>

    /** The job has only ever been called for the current generation. */
    ghost predicate Valid()
      reads this, job
    {
      IsRun(generation, calls, jobs) && jobs[|calls|] == job.Now()
    }

    constructor (killTimeout: int)
      ensures Valid() && generation == 0 && pid == -1 && tasks == [] && fresh(job)
      ensures this.killTimeout == killTimeout && calls == []
    {
      generation, pid, lastPid, tasks := 0, -1, -1, [];
      this.killTimeout := killTimeout;
      job := new TerminationJob();
      calls, jobs := [], [FRESH];
    }

    /** A process was launched: a new generation with a fresh termination job. */
    method Begin(newPid: int)
      modifies this`generation, this`pid, this`lastPid, this`job, this`calls, this`jobs
      ensures Valid() && generation == old(generation) + 1 && pid == lastPid == newPid
      ensures fresh(job) && job.Now() == FRESH && calls == []
    {
      generation := generation + 1;
      pid, lastPid := newPid, newPid;
      job := new TerminationJob();
      calls, jobs := [], [FRESH];
    }

    method ResetFailedStart()
      modifies this`pid, this`lastPid, this`job, this`calls, this`jobs
      ensures Valid() && pid == -1 && lastPid == -1 && fresh(job) && job.Now() == FRESH && calls == []
    {
      pid, lastPid := -1, -1;
      job := new TerminationJob();
      calls, jobs := [], [FRESH];
    }

    /** async_kill_prog: a generation is asked to terminate once. */
    method AsyncKill(now: int) returns (action: Action)
      requires Valid()
      modifies this`calls, this`jobs, job
      ensures Valid() && calls == old(calls) + [Request(now, killTimeout)]
      ensures Advances(generation, old(job.Now()), job.Now())
      ensures if action == SendTerm then job.phase == TermRequested else job.Now() == old(job.Now())
      ensures action == if old(job.phase) == NoneYet then SendTerm else Nothing
      ensures action == SendTerm ==> job.Now().Deadline() == now + if killTimeout > 0 then 1000 * killTimeout else 0
    {
      OneMoreCall(generation, calls, jobs, Request(now, killTimeout));
      AlwaysOwned(generation, calls, jobs, |calls|);
      action := job.RequestStop(generation, now, killTimeout);
      calls, jobs := calls + [Request(now, killTimeout)], jobs + [job.Now()];
    }

    /** async_force_kill: without effect on a generation that is done or was never asked to terminate. */
    method AsyncForceKill() returns (action: Action)
      requires Valid()
      modifies this`calls, this`jobs, job
      ensures Valid() && calls == old(calls) + [Force]
      ensures Advances(generation, old(job.Now()), job.Now())
      ensures old(Reported(generation, calls, jobs)) ==> action == Nothing
      ensures generation > 0 ==> (action == SendKill <==> old(job.phase) !in {NoneYet, Completed})
      ensures if action == SendKill then job.phase == ForceKillRequested else job.Now() == old(job.Now())
    {
      OneMoreCall(generation, calls, jobs, Force);
      AlwaysOwned(generation, calls, jobs, |calls|);
      action := job.ForceStop(generation);
      calls, jobs := calls + [Force], jobs + [job.Now()];
    }

    /** mark_tree_draining. */
    method MarkDraining(now: int) returns (action: Action)
      requires Valid()
      modifies this`calls, this`jobs, job
      ensures Valid() && calls == old(calls) + [MarkTreeDraining(now, killTimeout)]
      ensures Advances(generation, old(job.Now()), job.Now())
      ensures old(Reported(generation, calls, jobs)) ==> action == Nothing
      ensures action == SendTerm <==> Rank(old(job.phase)) < Rank(ForceKillRequested)
      ensures job.phase == if action == SendTerm then TreeDraining else old(job.phase)
      ensures old(job.phase) == NoneYet ==>
        job.Now().Deadline() == now + if killTimeout > 0 then 1000 * killTimeout else 0
    {
      OneMoreCall(generation, calls, jobs, MarkTreeDraining(now, killTimeout));
      action := job.DrainTree(generation, now, killTimeout);
      calls, jobs := calls + [MarkTreeDraining(now, killTimeout)], jobs + [job.Now()];
    }

    /** poll_termination: kills at most once per generation and not before the deadline, and reports
        completion at most once. */
    method PollTermination(now: int, treeEmpty: bool) returns (action: Action)
      requires Valid()
      modifies this`calls, this`jobs, job
      ensures Valid() && calls == old(calls) + [Poll(now, treeEmpty)]
      ensures Advances(generation, old(job.Now()), job.Now())
      ensures old(Reported(generation, calls, jobs)) ==> action == Nothing
      ensures action == SendKill ==>
        !treeEmpty && now >= old(job.Now()).Deadline() && !old(PollKilled(generation, calls, jobs))
      ensures old(job.phase) in {TermRequested, TreeDraining} && !treeEmpty && now >= old(job.Now()).Deadline() ==>
        action == SendKill
      ensures action == Complete <==> treeEmpty && old(job.phase) !in {NoneYet, Completed}
      ensures action == Complete ==> job.phase == Completed && Reported(generation, calls, jobs)
      ensures action == SendKill ==> job.phase == ForceKillRequested
      ensures action == Nothing ==> job.Now() == old(job.Now())
    {
      OneMoreCall(generation, calls, jobs, Poll(now, treeEmpty));
      AlwaysOwned(generation, calls, jobs, |calls|);
      action := job.PollTree(generation, now, treeEmpty);
      ghost var n := |calls|;
      calls, jobs := calls + [Poll(now, treeEmpty)], jobs + [job.Now()];
      assert ActionAt(generation, calls, jobs, n) == action;
    }

    method EnqueueAfterTermination(id: nat, restarts: bool)
      modifies this`tasks
      ensures tasks == old(tasks) + [Task(generation, id, restarts)]
    {
      tasks := tasks + [Task(generation, id, restarts)];
    }

    /** execute_penddingtasks; `ran` lists what was run, with the generation it ran under. */
    method ExecutePendingTasks(newPid: int) returns (ran: seq<(Task, nat)>)
      requires Valid()
      modifies this
      ensures Valid()
      ensures tasks == []
      ensures ran == Under(Runnable(old(tasks), old(generation)), old(generation))
      ensures generation == old(generation) + if EndsInRestart(Runnable(old(tasks), old(generation))) then 1 else 0
    {
      ran := [];
      var completed, pending := generation, tasks;
      ghost var done: seq<Task> := [];
      for i := 0 to |pending|
        invariant Valid() && ran == Under(done, completed)
        invariant generation == completed + if EndsInRestart(done) then 1 else 0
        invariant Runnable(pending, completed) ==
          if EndsInRestart(done) then done else done + Runnable(pending[i..], completed)
      {
        var task := pending[i];
        RunnableStep(pending, i, completed, done);
        if task.generation != completed || generation != completed { continue; }
        ran, done := ran + [(task, generation)], done + [task];
        if task.restarts { Begin(newPid); }
      }
      assert pending[|pending|..] == [] && done + [] == done;
      tasks := [];
    }
  }

  /** What the next pending task adds. */
  lemma RunnableStep(pending: seq<Task>, i: nat, generation: nat, done: seq<Task>)
    requires i < |pending|
    ensures pending[i].generation != generation ==>
      Runnable(pending[i..], generation) == Runnable(pending[i + 1..], generation)
    ensures pending[i].generation == generation ==>
      done + Runnable(pending[i..], generation) ==
        if pending[i].restarts then done + [pending[i]]
        else done + [pending[i]] + Runnable(pending[i + 1..], generation)
    ensures Under(done + [pending[i]], generation) == Under(done, generation) + [(pending[i], generation)]
  {}

  ghost predicate EndsInRestart(tasks: seq<Task>) {
    tasks != [] && tasks[|tasks| - 1].restarts
  }

  ghost function Under(tasks: seq<Task>, generation: nat): seq<(Task, nat)> {
    if tasks == [] then [] else Under(tasks[..|tasks| - 1], generation) + [(tasks[|tasks| - 1], generation)]
  }

  /** A task of the generation has begun another one. */
  ghost predicate RestartsIn(tasks: seq<Task>, generation: nat) {
    exists i :: 0 <= i < |tasks| && tasks[i].generation == generation && tasks[i].restarts
  }

  /** One more task runs if and only if it is the generation's own and none before it has begun another one. */
  lemma {:induction false} RunnableGrows(tasks: seq<Task>, generation: nat, task: Task)
    ensures Runnable(tasks + [task], generation) == Runnable(tasks, generation) +
      if task.generation == generation && !RestartsIn(tasks, generation) then [task] else []
  {
    var more := tasks + [task];
    if tasks == [] {
      assert more[1..] == [];
    } else {
      assert more[1..] == tasks[1..] + [task] && more[0] == tasks[0];
      if tasks[0].generation == generation && tasks[0].restarts {
        assert RestartsIn(tasks, generation);
      } else {
        RunnableGrows(tasks[1..], generation, task);
        assert RestartsIn(tasks, generation) <==> RestartsIn(tasks[1..], generation) by {
          if i :| 0 <= i < |tasks| && tasks[i].generation == generation && tasks[i].restarts {
            assert tasks[1..][i - 1] == tasks[i];
          }
          if i :| 0 <= i < |tasks[1..]| && tasks[1..][i].generation == generation && tasks[1..][i].restarts {
            assert tasks[i + 1] == tasks[1..][i];
          }
        }
      }
    }
  }

  /** No task runs under a generation other than the one it was queued for, and none runs after a
      task that starts a new generation. */
  lemma {:induction false} OnlyOwnGeneration(tasks: seq<Task>, generation: nat, i: nat)
    requires i < |Runnable(tasks, generation)|
    ensures Runnable(tasks, generation)[i] in tasks && Runnable(tasks, generation)[i].generation == generation
    ensures i < |Runnable(tasks, generation)| - 1 ==> !Runnable(tasks, generation)[i].restarts
  {
    if tasks[0].generation != generation {
      OnlyOwnGeneration(tasks[1..], generation, i);
    } else if i > 0 {
      OnlyOwnGeneration(tasks[1..], generation, i - 1);
    }
  }
}
