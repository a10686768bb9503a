/** What a controller shows, as a function of the results it has accepted. */
module PollingHistory {
  import opened Wrappers
  import opened PollingModel
  import opened PollingSystem
  import opened PollingInvariant
  import opened PollingMoves

  datatype Acceptance = Acceptance(token: Token, outcome: Outcome)

  /** The step runs the continuation of a request that controller `id` still waits for. */
  ghost predicate IsAcceptance(s: System, step: Step, id: nat) {
    && step.Continues? && step.token.owner == id && step.token in s.world.settled
    && id in s.controllers && s.controllers[id].started && s.controllers[id].active == Some(step.token)
  }

  /** The results that controller `id` accepts in a run, in order. */
  ghost function AcceptedLog(s: System, steps: seq<Step>, id: nat): seq<Acceptance>
    decreases |steps|
  {
    if steps == [] then []
    else
      var last := |steps| - 1;
      var before := Run(s, steps[..last]);
      AcceptedLog(s, steps[..last], id)
      + (if IsAcceptance(before, steps[last], id)
         then [Acceptance(steps[last].token, before.world.settled[steps[last].token])] else [])
  }

  /** The value of the latest success, or the value shown before the run. */
  ghost function LatestData(start: Option<Payload>, log: seq<Acceptance>): Option<Payload> {
    if log == [] then start
    else match log[|log| - 1].outcome
      case Resolved(data) => data
      case Rejected(_) => LatestData(start, log[..|log| - 1])
  }

  /** The failures since the latest success. */
  ghost function ConsecutiveFailures(start: nat, log: seq<Acceptance>): nat {
    if log == [] then start
    else match log[|log| - 1].outcome
      case Resolved(_) => 0
      case Rejected(_) => ConsecutiveFailures(start, log[..|log| - 1]) + 1
  }

  ghost predicate StartOrder(log: seq<Acceptance>) {
    forall i, j :: 0 <= i < j < |log| ==> log[i].token.serial < log[j].token.serial
  }

  predicate SameResult(n: Snapshot, n1: Snapshot) {
    n1.data == n.data && n1.error == n.error && n1.failedAttempts == n.failedAttempts
      && n1.lastSuccessAt == n.lastSuccessAt
  }

  lemma HandleGateChangeKeepsResult(c: Controller, w: World, gate: Gate, now: int)
    ensures SameResult(c.snapshot, HandleGateChange(c, w, gate, now).0.snapshot)
  {
  }

  lemma CallsKeepResult(c: Controller, w: World, gate: Gate, now: int)
    ensures SameResult(c.snapshot, Start(c, w, gate, now).0.snapshot)
    ensures SameResult(c.snapshot, Stop(c, w).0.snapshot)
    ensures SameResult(c.snapshot, Refresh(c, w, gate, now).0.snapshot)
  {
    hide HandleGateChange;
    HandleGateChangeKeepsResult(c.(started := true, subscribed := true), w, gate, now);
    var p1 := AbortActive(c, w);
    var p2 := ClearTimer(p1.0, p1.1);
    HandleGateChangeKeepsResult(p2.0, p2.1, gate, now);
  }

  lemma TimerFiredKeepsResult(c: Controller, w: World, handle: nat, gate: Gate, now: int)
    ensures SameResult(c.snapshot, TimerFired(c, w, handle, gate, now).0.snapshot)
  {
    hide HandleGateChange;
    HandleGateChangeKeepsResult(c.(timer := None), w.(timers := w.timers - {handle}), gate, now);
  }

  /** Only an acceptance changes the data and the failure count. */
  lemma NextKeepsData(s: System, step: Step, id: nat)
    requires id in s.controllers && !IsAcceptance(s, step, id)
    ensures id in Next(s, step).controllers
    ensures SameResult(s.controllers[id].snapshot, Next(s, step).controllers[id].snapshot)
  {
    hide HandleGateChange, Start, Stop, Refresh, TimerFired;
    var c, w := s.controllers[id], s.world;
    match step
    case StartCalled(_, gate, now) => CallsKeepResult(c, w, gate, now);
    case StopCalled(_) => CallsKeepResult(c, w, Gate(true, true), 0);
    case RefreshCalled(_, gate, now) => CallsKeepResult(c, w, gate, now);
    case GateChanged(_, gate, now) => HandleGateChangeKeepsResult(c, w, gate, now);
    case TimerFires(handle, gate, now) => TimerFiredKeepsResult(c, w, handle, gate, now);
    case _ =>
  }

  /** An accepted success replaces the data; an accepted failure keeps it and backs off by the failure count. */
  lemma AcceptanceSetsData(s: System, step: Step, id: nat)
    requires Inv(s) && IsAcceptance(s, step, id)
    ensures id in Next(s, step).controllers
    ensures var n, n1 := s.controllers[id].snapshot, Next(s, step).controllers[id].snapshot;
            && n1.phase == Waiting && n1.lastAttemptAt == n.lastAttemptAt && n1.pauseReason.None?
            && match s.world.settled[step.token]
               case Resolved(data) =>
                 && n1.data == data && n1.error.None? && n1.failedAttempts == 0
                 && n1.freshness == Fresh && n1.lastSuccessAt == Some(step.now)
                 && n1.nextAttemptAt.Some?
                 && IsJittered(n1.nextAttemptAt.value - step.now, s.controllers[id].interval, step.random)
               case Rejected(reason) =>
                 && n1.data == n.data && n1.failedAttempts == n.failedAttempts + 1
                 && n1.freshness == (if n.data.None? then Empty else Stale) && n1.lastSuccessAt == n.lastSuccessAt
                 && n1.error == Some(if reason.Some? then reason.value else "Polling failed")
                 && n1.nextAttemptAt == Some(step.now + (if n.failedAttempts == 0 then 20_000
                                                         else if n.failedAttempts == 1 then 40_000 else 60_000))
  {
    hide JitteredIntervalMilliseconds, WorldOk, IsJittered;
    assert PhaseOk(s.controllers[id]) && Linked(s.controllers[id], id, s.world);
    JitterIsProportional(s.controllers[id].interval, step.random);
  }

  /** The delay is the interval, moved by the random value from a tenth less to a tenth more, and rounded. */
  ghost predicate IsJittered(delay: int, interval: real, random: Option<real>) {
    var share := match random
                 case None => 0.5
                 case Some(r) => if r < 0.0 then 0.0 else if r > 1.0 then 1.0 else r;
    var exact := interval * (0.9 + share * 0.2);
    exact - 0.5 < delay as real <= exact + 0.5
  }

  lemma JitterIsProportional(interval: real, random: Option<real>)
    requires 0.0 <= interval
    ensures var delay := JitteredIntervalMilliseconds(Some(interval), random);
            delay.Ok? && IsJittered(delay.value, interval, random)
  {
  }

  /**
   Over every run, what a controller shows is the value of its latest accepted success, or what it
   showed at the start, and its failure count is the number of accepted failures since then.
   */
  lemma {:induction false} SnapshotFollowsLog(s: System, steps: seq<Step>, id: nat)
    requires Inv(s) && id in s.controllers
    ensures id in Run(s, steps).controllers
    ensures var n, n1 := s.controllers[id].snapshot, Run(s, steps).controllers[id].snapshot;
            && n1.data == LatestData(n.data, AcceptedLog(s, steps, id))
            && n1.failedAttempts == ConsecutiveFailures(n.failedAttempts, AcceptedLog(s, steps, id))
    decreases |steps|
  {
    if steps != [] {
      var last := |steps| - 1;
      SnapshotFollowsLog(s, steps[..last], id);
      RunKeepsInv(s, steps[..last]);
      var s0 := Run(s, steps[..last]);
      var log0, log := AcceptedLog(s, steps[..last], id), AcceptedLog(s, steps, id);
      if IsAcceptance(s0, steps[last], id) {
        AcceptanceSetsData(s0, steps[last], id);
        assert log[..|log| - 1] == log0;
      } else {
        NextKeepsData(s0, steps[last], id);
        assert log == log0;
      }
    }
  }

  ghost predicate LogBelow(log: seq<Acceptance>, serial: nat) {
    forall i :: 0 <= i < |log| ==> log[i].token.serial < serial
  }

  /** Everything accepted so far was started before the current request and before any later one. */
  ghost predicate LogIsPast(log: seq<Acceptance>, s: System, id: nat)
    requires id in s.controllers
  {
    && LogBelow(log, s.world.nextSerial)
    && (s.controllers[id].active.Some? ==> LogBelow(log, s.controllers[id].active.value.serial))
  }

  lemma NextKeepsLogPast(s: System, step: Step, id: nat, log: seq<Acceptance>)
    requires Inv(s) && id in s.controllers && LogIsPast(log, s, id)
    ensures id in Next(s, step).controllers && LogIsPast(log, Next(s, step), id)
    ensures s.world.nextSerial <= Next(s, step).world.nextSerial
  {
    hide Next, Inv;
    var m := NextIsMove(s, step);
    assert FollowsMove(s.controllers[id].active, Next(s, step).controllers[id].active, id, s.world, m);
  }

  /** Results are accepted in the order in which their requests started, so never out of date. */
  lemma {:induction false} AcceptedInStartOrder(s: System, steps: seq<Step>, id: nat)
    requires Inv(s) && id in s.controllers
    ensures StartOrder(AcceptedLog(s, steps, id))
    ensures id in Run(s, steps).controllers && LogIsPast(AcceptedLog(s, steps, id), Run(s, steps), id)
    decreases |steps|
  {
    hide Inv, Next, IsAcceptance;
    if steps != [] {
      var last := |steps| - 1;
      AcceptedInStartOrder(s, steps[..last], id);
      RunKeepsInv(s, steps[..last]);
      var s0 := Run(s, steps[..last]);
      NextKeepsLogPast(s0, steps[last], id, AcceptedLog(s, steps[..last], id));
      if IsAcceptance(s0, steps[last], id) {
        AcceptanceEndsRequest(s0, steps[last], id);
      }
    }
  }

  lemma AcceptanceEndsRequest(s: System, step: Step, id: nat)
    requires Inv(s) && IsAcceptance(s, step, id)
    ensures id in Next(s, step).controllers && Next(s, step).controllers[id].active.None?
    ensures s.controllers[id].active == Some(step.token) && step.token.serial < s.world.nextSerial
  {
    assert Linked(s.controllers[id], id, s.world);
  }
}
