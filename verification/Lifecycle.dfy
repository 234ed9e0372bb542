/** plan_lifecycle_tick: which deadlines have passed, and how long the daemon may sleep. */
module Lifecycle {
  import opened Wrappers

  datatype TimeoutKind = Startup | Heartbeat
  datatype FailureAction = Skip | Restart | Reboot
  datatype TimeoutAction = AcceptReady | Ignore | RestartIt | RebootIt

  datatype Process = Process(
    index: nat, generation: nat,
    hasProcess: bool, starting: bool, online: bool, terminating: bool, treeDraining: bool, restartPending: bool,
    restartDue: int, launchTime: int, lastTick: int, heartbeatActionDue: int, terminationDue: int,
    startTimeout: int, heartbeatTimeout: int, failureAction: FailureAction)

  datatype Timeout = Timeout(index: nat, generation: nat, kind: TimeoutKind, action: TimeoutAction)
  datatype Plan = Plan(timeouts: seq<Timeout>, dueRestarts: seq<nat>, nextWait: int)

  function Max(a: int, b: int): int { if a > b then a else b }
  function Min(a: int, b: int): int { if a < b then a else b }

  /** decide_lifecycle_timeout. */
  function Decide(kind: TimeoutKind, action: FailureAction): TimeoutAction {
    match action
    case Skip => if kind == Startup then AcceptReady else Ignore
    case Restart => RestartIt
    case Reboot => RebootIt
  }

  // ----- The deadlines a process has armed

  function RestartDeadline(p: Process): Option<int> {
    if !p.hasProcess && p.restartPending then Some(p.restartDue) else None
  }

  function TerminationDeadline(p: Process): Option<int> {
    if p.hasProcess && p.terminating && p.terminationDue > 0 then Some(p.terminationDue) else None
  }

  function TimeoutDeadline(p: Process): Option<(int, TimeoutKind)> {
    if !p.hasProcess || p.terminating then None
    else if p.starting && p.startTimeout >= 0 then Some((p.launchTime + p.startTimeout * 1000, Startup))
    else if p.online && p.heartbeatTimeout > 0 then
      Some((Max(p.lastTick + p.heartbeatTimeout * 1000, p.heartbeatActionDue), Heartbeat))
    else None
  }

  function Deadline(p: Process): Option<int> {
    if RestartDeadline(p).Some? then RestartDeadline(p)
    else if TerminationDeadline(p).Some? then TerminationDeadline(p)
    else if TimeoutDeadline(p).Some? then Some(TimeoutDeadline(p).value.0)
    else None
  }

  /** At most one deadline is armed per process. */
  lemma OneDeadline(p: Process)
    ensures !(RestartDeadline(p).Some? && TerminationDeadline(p).Some?)
    ensures !(RestartDeadline(p).Some? && TimeoutDeadline(p).Some?)
    ensures !(TerminationDeadline(p).Some? && TimeoutDeadline(p).Some?)
  {}

  predicate Armed(ps: seq<Process>, deadline: int) {
    exists i :: 0 <= i < |ps| && Deadline(ps[i]) == Some(deadline)
  }

  predicate TimedOut(p: Process, now: int) {
    TimeoutDeadline(p).Some? && TimeoutDeadline(p).value.0 <= now
  }

  function TimeoutOf(p: Process): Timeout
    requires TimeoutDeadline(p).Some?
  {
    var kind := TimeoutDeadline(p).value.1;
    Timeout(p.index, p.generation, kind, Decide(kind, p.failureAction))
  }

  predicate RestartIsDue(p: Process, now: int) {
    RestartDeadline(p).Some? && RestartDeadline(p).value <= now
  }

  function Timeouts(ps: seq<Process>, now: int): seq<Timeout> {
    if ps == [] then []
    else
      var p := ps[|ps| - 1];
      Timeouts(ps[..|ps| - 1], now) +
      if TimedOut(p, now) then [TimeoutOf(p)] else []
  }

  function Restarts(ps: seq<Process>, now: int): seq<nat> {
    if ps == [] then []
    else
      var p := ps[|ps| - 1];
      Restarts(ps[..|ps| - 1], now) + if RestartIsDue(p, now) then [p.index] else []
  }

  predicate Draining(ps: seq<Process>) {
    exists i :: 0 <= i < |ps| && ps[i].hasProcess && ps[i].terminating && ps[i].treeDraining
  }

  /** The deadline of `p`, if it is still to be waited for. */
  function Awaited(p: Process, now: int): Option<int> {
    if TerminationDeadline(p).Some? then TerminationDeadline(p)
    else if Deadline(p).Some? && Deadline(p).value > now then Deadline(p)
    else None
  }

  /** The earliest of a limit and the awaited deadlines. */
  function NextDue(ps: seq<Process>, now: int, limit: int): int {
    if ps == [] then limit
    else
      var earlier, last := NextDue(ps[..|ps| - 1], now, limit), Awaited(ps[|ps| - 1], now);
      if last.Some? then Min(earlier, last.value) else earlier
  }

  /** How long to sleep. */
  function Wait(ps: seq<Process>, now: int, busy: bool, defaultWait: int, drainingWait: int): int {
    if Timeouts(ps, now) != [] || Restarts(ps, now) != [] then 1
    else if busy then 10
    else if Draining(ps) then Max(1, drainingWait)
    else
      var wait := Max(1, defaultWait);
      Max(1, Min(wait, NextDue(ps, now, now + wait) - now))
  }

  /** One process of the tick: what it reports, and when it has to be looked at again. */
  method Observe(p: Process, now: int, nextDue0: int)
    returns (timeout: Option<Timeout>, restart: bool, draining: bool, nextDue: int)
    ensures timeout == if TimedOut(p, now) then Some(TimeoutOf(p)) else None
    ensures restart <==> RestartIsDue(p, now)
    ensures draining <==> p.hasProcess && p.terminating && p.treeDraining
    ensures nextDue == if Awaited(p, now).Some? then Min(nextDue0, Awaited(p, now).value) else nextDue0
  {
    timeout, restart, draining, nextDue := None, false, false, nextDue0;
    if !p.hasProcess {
      if p.restartPending {
        if p.restartDue <= now { restart := true; } else { nextDue := Min(nextDue, p.restartDue); }
      }
      return;
    }
    if p.terminating {
      draining := p.treeDraining;
      if p.terminationDue > 0 { nextDue := Min(nextDue, p.terminationDue); }
      return;
    }
    var due, kind, enabled := 0, Startup, false;
    if p.starting && p.startTimeout >= 0 {
      due, enabled := p.launchTime + p.startTimeout * 1000, true;
    } else if p.online && p.heartbeatTimeout > 0 {
      due := p.lastTick + p.heartbeatTimeout * 1000;
      due := Max(due, p.heartbeatActionDue);
      kind, enabled := Heartbeat, true;
    }
    if !enabled { return; }
    if due <= now {
      timeout := Some(Timeout(p.index, p.generation, kind, Decide(kind, p.failureAction)));
    } else {
      nextDue := Min(nextDue, due);
    }
  }

  method PlanTick(now: int, ps: seq<Process>, busy: bool, defaultWait: int, drainingWait: int)
    returns (plan: Plan, ghost at: seq<nat>)
    ensures Ascending(at, |ps|) && |at| == |plan.timeouts|
    ensures forall i: nat :: i in at <==> i < |ps| && TooLate(ps[i], now)
    ensures forall k :: 0 <= k < |at| ==> Tells(plan.timeouts[k], ps[at[k]])
    ensures plan == Plan(Timeouts(ps, now), Restarts(ps, now), Wait(ps, now, busy, defaultWait, drainingWait))
  {
    var timeouts, dueRestarts := [], [];
    var wait := Max(1, defaultWait);
    var nextDue, draining := now + wait, false;
    for i := 0 to |ps|
      invariant timeouts == Timeouts(ps[..i], now) && dueRestarts == Restarts(ps[..i], now)
      invariant draining <==> Draining(ps[..i])
      invariant nextDue == NextDue(ps[..i], now, now + wait)
    {
      assert ps[..i + 1][..i] == ps[..i];
      DrainingMore(ps[..i], ps[i]);
      assert ps[..i + 1] == ps[..i] + [ps[i]];
      var timeout, restart, drains;
      timeout, restart, drains, nextDue := Observe(ps[i], now, nextDue);
      if timeout.Some? { timeouts := timeouts + [timeout.value]; }
      if restart { dueRestarts := dueRestarts + [ps[i].index]; }
      draining := draining || drains;
    }
    assert ps[..|ps|] == ps;
    var next;
    if timeouts != [] || dueRestarts != [] {
      next := 1;
    } else if busy {
      next := 10;
    } else if draining {
      next := Max(1, drainingWait);
    } else if nextDue <= now {
      next := 1;
    } else {
      next := Min(wait, nextDue - now);
    }
    plan := Plan(timeouts, dueRestarts, next);
    at := PlanTells(ps, now);
  }

  lemma DrainingMore(ps: seq<Process>, p: Process)
    ensures Draining(ps + [p]) <==> Draining(ps) || (p.hasProcess && p.terminating && p.treeDraining)
  {
    var more := ps + [p];
    if Draining(ps) {
      var i :| 0 <= i < |ps| && ps[i].hasProcess && ps[i].terminating && ps[i].treeDraining;
      assert more[i] == ps[i];
    }
    if p.hasProcess && p.terminating && p.treeDraining { assert more[|ps|] == p; }
  }

  /** `NextDue` is the limit or an awaited deadline, and later than none of them. */
  lemma {:induction false} NextDueIsEarliest(ps: seq<Process>, now: int, limit: int)
    ensures NextDue(ps, now, limit) <= limit
    ensures NextDue(ps, now, limit) == limit
      || exists i :: 0 <= i < |ps| && Awaited(ps[i], now) == Some(NextDue(ps, now, limit))
    ensures forall i :: 0 <= i < |ps| && Awaited(ps[i], now).Some? ==> NextDue(ps, now, limit) <= Awaited(ps[i], now).value
  {
    if ps != [] {
      var init := ps[..|ps| - 1];
      NextDueIsEarliest(init, now, limit);
      assert forall i :: 0 <= i < |init| ==> init[i] == ps[i];
    }
  }

  // ----- What the plan promises

  ghost predicate TooLate(p: Process, now: int) {
    && p.hasProcess && !p.terminating
    && if p.starting && p.startTimeout >= 0 then now - p.launchTime >= 1000 * p.startTimeout
       else p.online && p.heartbeatTimeout > 0 && now - p.lastTick >= 1000 * p.heartbeatTimeout
            && now >= p.heartbeatActionDue
  }

  /** The report is about this process, and asks for what its configuration says. */
  ghost predicate Tells(t: Timeout, p: Process) {
    var startup := p.starting && p.startTimeout >= 0;
    && t.index == p.index && t.generation == p.generation
    && (t.kind == Startup <==> startup)
    && (t.action == RestartIt <==> p.failureAction == Restart)
    && (t.action == RebootIt <==> p.failureAction == Reboot)
    && (t.action == AcceptReady <==> p.failureAction == Skip && startup)
    && (t.action == Ignore <==> p.failureAction == Skip && !startup)
  }

  /** When a process is reported, and as what, told from what was observed of it. */
  lemma ReportMeans(p: Process, now: int)
    ensures TimedOut(p, now) <==> TooLate(p, now)
    ensures TimedOut(p, now) ==> Tells(TimeoutOf(p), p)
    ensures RestartIsDue(p, now) <==> !p.hasProcess && p.restartPending && p.restartDue <= now
  {}

  /** The deadline of a process, told from what was observed of it. */
  lemma DeadlineMeans(p: Process)
    ensures !p.hasProcess ==> Deadline(p) == if p.restartPending then Some(p.restartDue) else None
    ensures p.hasProcess && p.terminating ==>
      Deadline(p) == if p.terminationDue > 0 then Some(p.terminationDue) else None
    ensures p.hasProcess && !p.terminating ==>
      Deadline(p) ==
        if p.starting && p.startTimeout >= 0 then Some(p.launchTime + 1000 * p.startTimeout)
        else if !p.online || p.heartbeatTimeout <= 0 then None
        else if p.heartbeatActionDue > p.lastTick + 1000 * p.heartbeatTimeout then Some(p.heartbeatActionDue)
        else Some(p.lastTick + 1000 * p.heartbeatTimeout)
  {}

  /** The plan reports exactly the processes that are too late, in order, and for each what it should. */
  lemma PlanTells(ps: seq<Process>, now: int) returns (at: seq<nat>)
    ensures Ascending(at, |ps|) && |at| == |Timeouts(ps, now)|
    ensures forall i: nat :: i in at <==> i < |ps| && TooLate(ps[i], now)
    ensures forall k :: 0 <= k < |at| ==> Tells(Timeouts(ps, now)[k], ps[at[k]])
  {
    at := TimeoutsExact(ps, now);
    forall i: nat | i < |ps| ensures TimedOut(ps[i], now) <==> TooLate(ps[i], now) {
      ReportMeans(ps[i], now);
    }
    forall k | 0 <= k < |at| ensures Tells(Timeouts(ps, now)[k], ps[at[k]]) {
      ReportMeans(ps[at[k]], now);
    }
  }

  /** The waits that do not depend on a deadline. */
  lemma WaitOtherwise(ps: seq<Process>, now: int, busy: bool, defaultWait: int, drainingWait: int)
    ensures var wait, reports := Wait(ps, now, busy, defaultWait, drainingWait), Timeouts(ps, now) != [] || Restarts(ps, now) != [];
      && (reports ==> wait == 1)
      && (!reports && busy ==> wait == 10)
      && (!reports && !busy && Draining(ps) ==> wait == Max(1, drainingWait))
  {}

  ghost predicate Ascending(at: seq<nat>, bound: nat) {
    && (forall k :: 0 <= k < |at| ==> at[k] < bound)
    && (forall j, k :: 0 <= j < k < |at| ==> at[j] < at[k])
  }

  lemma OneMore(at: seq<nat>, last: nat)
    requires Ascending(at, last)
    ensures Ascending(at, last + 1) && Ascending(at + [last], last + 1)
    ensures last in at + [last] && forall i :: i in at ==> i in at + [last]
  {}

  /** `reports` are the timeouts of the processes at these positions. */
  ghost predicate ReportsOf(ps: seq<Process>, now: int, at: seq<nat>, reports: seq<Timeout>)
    requires Ascending(at, |ps|)
  {
    |at| == |reports| && forall k :: 0 <= k < |at| ==> TimedOut(ps[at[k]], now) && reports[k] == TimeoutOf(ps[at[k]])
  }

  ghost predicate IndicesOf(ps: seq<Process>, now: int, at: seq<nat>, indices: seq<nat>)
    requires Ascending(at, |ps|)
  {
    |at| == |indices| && forall k :: 0 <= k < |at| ==>
      RestartIsDue(ps[at[k]], now) && indices[k] == ps[at[k]].index
  }

  lemma ReportsGrow(ps: seq<Process>, now: int, at: seq<nat>, reports: seq<Timeout>)
    requires ps != [] && Ascending(at, |ps| - 1) && ReportsOf(ps[..|ps| - 1], now, at, reports)
    ensures Ascending(at, |ps|) && ReportsOf(ps, now, at, reports)
    ensures TimedOut(ps[|ps| - 1], now) ==>
      Ascending(at + [|ps| - 1], |ps|) && ReportsOf(ps, now, at + [|ps| - 1], reports + [TimeoutOf(ps[|ps| - 1])])
  {}

  lemma IndicesGrow(ps: seq<Process>, now: int, at: seq<nat>, indices: seq<nat>)
    requires ps != [] && Ascending(at, |ps| - 1) && IndicesOf(ps[..|ps| - 1], now, at, indices)
    ensures Ascending(at, |ps|) && IndicesOf(ps, now, at, indices)
    ensures RestartIsDue(ps[|ps| - 1], now) ==>
      Ascending(at + [|ps| - 1], |ps|) && IndicesOf(ps, now, at + [|ps| - 1], indices + [ps[|ps| - 1].index])
  {}

  /** Exactly the timeouts that have passed are reported, each once and in process order. */
  lemma {:induction false} TimeoutsExact(ps: seq<Process>, now: int) returns (at: seq<nat>)
    ensures Ascending(at, |ps|) && ReportsOf(ps, now, at, Timeouts(ps, now))
    ensures forall i :: 0 <= i < |ps| && TimedOut(ps[i], now) ==> i in at
  {
    at := [];
    if ps != [] {
      var last, init := |ps| - 1, ps[..|ps| - 1];
      at := TimeoutsExact(init, now);
      ReportsGrow(ps, now, at, Timeouts(init, now));
      assert forall i :: 0 <= i < last ==> init[i] == ps[i];
      if TimedOut(ps[last], now) {
        OneMore(at, last);
        at := at + [last];
      } else {
        assert Timeouts(init, now) + [] == Timeouts(init, now);
      }
    }
  }

  /** Likewise the restarts that have come due. */
  lemma {:induction false} RestartsExact(ps: seq<Process>, now: int) returns (at: seq<nat>)
    ensures Ascending(at, |ps|) && IndicesOf(ps, now, at, Restarts(ps, now))
    ensures forall i :: 0 <= i < |ps| && RestartIsDue(ps[i], now) ==> i in at
  {
    at := [];
    if ps != [] {
      var last, init := |ps| - 1, ps[..|ps| - 1];
      at := RestartsExact(init, now);
      IndicesGrow(ps, now, at, Restarts(init, now));
      assert forall i :: 0 <= i < last ==> init[i] == ps[i];
      if RestartIsDue(ps[last], now) {
        OneMore(at, last);
        at := at + [last];
      } else {
        assert Restarts(init, now) + [] == Restarts(init, now);
      }
    }
  }

  /** The earliest armed deadline, if any is armed. */
  ghost predicate IsEarliest(ps: seq<Process>, earliest: Option<int>) {
    && (earliest.Some? ==> Armed(ps, earliest.value))
    && forall i :: 0 <= i < |ps| && Deadline(ps[i]).Some? ==> earliest.Some? && earliest.value <= Deadline(ps[i]).value
  }

  /** With nothing to report, neither busy nor draining, the daemon sleeps until the earliest armed
      deadline, but at least 1 ms and at most the default; with none armed it sleeps the default. */
  lemma WaitExact(ps: seq<Process>, now: int, defaultWait: int, drainingWait: int, earliest: Option<int>)
    requires Timeouts(ps, now) == [] && Restarts(ps, now) == [] && !Draining(ps) && IsEarliest(ps, earliest)
    ensures var longest := Max(1, defaultWait);
      Wait(ps, now, false, defaultWait, drainingWait) ==
        if earliest.Some? then Max(1, Min(longest, earliest.value - now)) else longest
  {
    var limit := now + Max(1, defaultWait);
    if earliest.Some? {
      var i :| 0 <= i < |ps| && Deadline(ps[i]) == earliest;
      assert Awaited(ps[i], now) == earliest by {
        var timeouts := TimeoutsExact(ps, now);
        var restarts := RestartsExact(ps, now);
      }
    }
    NextDueIsEarliest(ps, now, limit);
    assert NextDue(ps, now, limit) == if earliest.Some? then Min(limit, earliest.value) else limit;
  }

  /** Unless busy or draining, the daemon never sleeps past an armed deadline. */
  lemma NeverOversleeps(ps: seq<Process>, now: int, defaultWait: int, drainingWait: int, deadline: int)
    requires !Draining(ps) && Armed(ps, deadline) && now < deadline
    ensures 1 <= Wait(ps, now, false, defaultWait, drainingWait) <= deadline - now
  {
    var i :| 0 <= i < |ps| && Deadline(ps[i]) == Some(deadline);
    NextDueIsEarliest(ps, now, now + Max(1, defaultWait));
    assert Awaited(ps[i], now) == Some(deadline);
  }

  /** The time of the `k`-th tick if every sleep lasts exactly as planned. */
  function TickTime(ps: seq<Process>, now: int, defaultWait: int, drainingWait: int, k: nat): int {
    if k == 0 then now
    else
      var before := TickTime(ps, now, defaultWait, drainingWait, k - 1);
      before + Wait(ps, before, false, defaultWait, drainingWait)
  }

  lemma {:induction false} TickShift(ps: seq<Process>, now: int, defaultWait: int, drainingWait: int, k: nat)
    ensures TickTime(ps, now, defaultWait, drainingWait, k + 1) ==
      TickTime(ps, now + Wait(ps, now, false, defaultWait, drainingWait), defaultWait, drainingWait, k)
  {
    if k > 0 { TickShift(ps, now, defaultWait, drainingWait, k - 1); }
  }

  /** Ticking and sleeping as planned, the daemon wakes up exactly at every armed deadline. */
  lemma {:induction false} WakesAtDeadline(ps: seq<Process>, now: int, defaultWait: int, drainingWait: int, deadline: int)
    returns (k: nat)
    requires !Draining(ps) && Armed(ps, deadline) && now <= deadline
    ensures TickTime(ps, now, defaultWait, drainingWait, k) == deadline
    decreases deadline - now
  {
    if now == deadline {
      k := 0;
    } else {
      NeverOversleeps(ps, now, defaultWait, drainingWait, deadline);
      var next := now + Wait(ps, now, false, defaultWait, drainingWait);
      var more := WakesAtDeadline(ps, next, defaultWait, drainingWait, deadline);
      TickShift(ps, now, defaultWait, drainingWait, more);
      k := more + 1;
    }
  }
}
