/** Every step of the polling system keeps its invariant. */
module PollingInvariant {
  import opened Wrappers
  import opened PollingModel
  import opened PollingSystem

  // ---------- Statements ----------

  lemma WithTwice(s: System, id: nat, p: (Controller, World), q: (Controller, World))
    ensures With(With(s, id, p), id, q) == With(s, id, q)
  {
    assert s.controllers[id := p.0][id := q.0] == s.controllers[id := q.0];
  }

  /** Statements that touch neither the timer nor the request keep the core invariant. */
  lemma RelabelKeepsCore(s: System, id: nat, c: Controller)
    requires Core(s) && id in s.controllers
    requires c.id == id && c.timer == s.controllers[id].timer && c.active == s.controllers[id].active
    requires c.timer.None? || c.snapshot.nextAttemptAt == s.controllers[id].snapshot.nextAttemptAt
    ensures Core(With(s, id, (c, s.world)))
  {
  }

  lemma ClearTimerKeepsCore(s: System, id: nat)
    requires Core(s) && id in s.controllers
    ensures Core(With(s, id, ClearTimer(s.controllers[id], s.world)))
  {
    var c, w := s.controllers[id], s.world;
    var (c1, w1) := ClearTimer(c, w);
    if c.timer.Some? {
      var s1 := With(s, id, (c1, w1));
      assert WorldOk(w1) by { QueueSameOnlyQueued(w, w1); }
      forall k | k in s1.controllers
        ensures Linked(s1.controllers[k], k, w1)
      {
        assert Linked(s.controllers[k], k, w);
      }
    } else {
      assert s.controllers[id := c] == s.controllers;
    }
  }

  /** The timers play no part in what the scheduler keeps. */
  lemma QueueSameOnlyQueued(w: World, w1: World)
    requires WorldOk(w)
    requires w1 == w.(timers := w1.timers, nextHandle := w1.nextHandle)
    requires forall h :: h in w1.timers ==> h < w1.nextHandle
    ensures WorldOk(w1)
  {
    forall u | u in w1.queue
      ensures OnlyQueued(w1, u)
    {
      assert OnlyQueued(w, u);
    }
  }

  lemma SetTimeoutKeepsCore(s: System, id: nat, dueAt: int)
    requires Core(s) && id in s.controllers
    requires s.controllers[id].timer.None? && s.controllers[id].snapshot.nextAttemptAt == Some(dueAt)
    ensures var (w1, h) := SetTimeout(s.world, id, dueAt);
            Core(With(s, id, (s.controllers[id].(timer := Some(h)), w1)))
  {
    var (w1, h) := SetTimeout(s.world, id, dueAt);
    var s1 := With(s, id, (s.controllers[id].(timer := Some(h)), w1));
    QueueSameOnlyQueued(s.world, w1);
    forall k | k in s1.controllers
      ensures Linked(s1.controllers[k], k, w1)
    {
      assert Linked(s.controllers[k], k, s.world);
    }
  }

  lemma AbortActiveKeepsCore(s: System, id: nat)
    requires Core(s) && id in s.controllers
    ensures Core(With(s, id, AbortActive(s.controllers[id], s.world)))
  {
    var c, w := s.controllers[id], s.world;
    var (c1, w1) := AbortActive(c, w);
    if c.active.Some? {
      var t := c.active.value;
      assert Linked(c, id, w);
      AbortDequeues(w, t);
      WithoutIsRemoval(w.queue, t);
      var s1 := With(s, id, (c1, w1));
      forall k | k in s1.controllers
        ensures Linked(s1.controllers[k], k, w1)
      {
        assert Linked(s.controllers[k], k, w);
      }
    } else {
      assert s.controllers[id := c] == s.controllers;
    }
  }

  lemma NewSerialIsUnused(w: World, owner: nat)
    requires WorldOk(w)
    ensures var w1 := w.(nextSerial := w.nextSerial + 1);
            WorldOk(w1) && Unused(w1, Token(owner, w.nextSerial))
  {
    var w1 := w.(nextSerial := w.nextSerial + 1);
    forall u | u in w1.queue
      ensures OnlyQueued(w1, u) && u != Token(owner, w.nextSerial)
    {
      assert OnlyQueued(w, u);
    }
  }

  lemma ScheduledIsLive(w: World, t: Token)
    requires WorldOk(w) && Unused(w, t)
    ensures var w1 := Schedule(w, t);
            && Live(w1, t) && (forall u :: Live(w, u) ==> Live(w1, u))
            && (forall u :: u in w1.queue ==> u in w.queue || u == t)
            && w1.aborted == w.aborted && w1.timers == w.timers && w1.nextSerial == w.nextSerial
  {
    ScheduleStartsOrQueues(w, t);
    var w1 := Schedule(w, t);
    if w.activeCount >= w.maximum {
      assert w1.queue[|w.queue|] == t;
    }
  }

  lemma BeginRequestKeepsCore(s: System, id: nat)
    requires Core(s) && id in s.controllers && s.controllers[id].active.None?
    ensures var t := Token(id, s.world.nextSerial);
            Core(With(s, id, (s.controllers[id].(active := Some(t)),
                              Schedule(s.world.(nextSerial := s.world.nextSerial + 1), t))))
  {
    hide Schedule, SlotsOk, WorkConserving;
    var w := s.world;
    var t := Token(id, w.nextSerial);
    var w1 := w.(nextSerial := w.nextSerial + 1);
    NewSerialIsUnused(w, id);
    ScheduledIsLive(w1, t);
    assert WorldOk(Schedule(w1, t)) by { ScheduleStartsOrQueues(w1, t); }
    var w2 := Schedule(w1, t);
    var s2 := With(s, id, (s.controllers[id].(active := Some(t)), w2));
    forall k | k in s2.controllers
      ensures Linked(s2.controllers[k], k, w2)
    {
      assert Linked(s.controllers[k], k, w);
      if k != id && s.controllers[k].active.Some? {
        assert Live(w, s.controllers[k].active.value) && Live(w1, s.controllers[k].active.value);
      }
    }
  }

  // ---------- Controller methods ----------

  lemma ArmKeeps(s: System, id: nat, now: int, delay: int)
    requires Core(s) && id in s.controllers
    requires s.controllers[id].started && s.controllers[id].subscribed && s.controllers[id].active.None?
    ensures var p := Arm(s.controllers[id], s.world, now, delay);
            Core(With(s, id, p)) && PhaseOk(p.0)
  {
    var c, w := s.controllers[id], s.world;
    var p := ClearTimer(c, w);
    ClearTimerKeepsCore(s, id);
    var s1 := With(s, id, p);
    var waiting := p.0.(snapshot := p.0.snapshot.(nextAttemptAt := Some(now + delay),
                                                  pauseReason := None, phase := Waiting));
    RelabelKeepsCore(s1, id, waiting);
    var s2 := With(s1, id, (waiting, p.1));
    SetTimeoutKeepsCore(s2, id, now + delay);
    WithTwice(s, id, p, (waiting, p.1));
    WithTwice(s, id, (waiting, p.1), Arm(c, w, now, delay));
  }

  lemma PauseKeeps(s: System, id: nat, reason: PauseReason)
    requires Core(s) && id in s.controllers
    requires s.controllers[id].started && s.controllers[id].subscribed
    ensures var p := Pause(s.controllers[id], s.world, reason);
            Core(With(s, id, p)) && PhaseOk(p.0)
  {
    var p1 := ClearTimer(s.controllers[id], s.world);
    ClearTimerKeepsCore(s, id);
    var s1 := With(s, id, p1);
    var p2 := AbortActive(p1.0, p1.1);
    AbortActiveKeepsCore(s1, id);
    WithTwice(s, id, p1, p2);
    var p3 := Pause(s.controllers[id], s.world, reason);
    RelabelKeepsCore(With(s, id, p2), id, p3.0);
    WithTwice(s, id, p2, p3);
  }

  lemma HandleGateChangeKeeps(s: System, id: nat, gate: Gate, now: int)
    requires Core(s) && id in s.controllers
    requires s.controllers[id].started && s.controllers[id].subscribed
    requires s.controllers[id].active.None? || PhaseOk(s.controllers[id])
    ensures var p := HandleGateChange(s.controllers[id], s.world, gate, now);
            Core(With(s, id, p)) && PhaseOk(p.0)
  {
    var c := s.controllers[id];
    if GateReason(gate).Some? {
      PauseKeeps(s, id, GateReason(gate).value);
    } else if c.snapshot.phase == Polling && c.active.Some? {
      assert s.controllers[id := c] == s.controllers;
    } else {
      ArmKeeps(s, id, now, 0);
    }
  }

  lemma StartKeeps(s: System, id: nat, gate: Gate, now: int)
    requires Inv(s) && id in s.controllers
    ensures var p := Start(s.controllers[id], s.world, gate, now);
            Core(With(s, id, p)) && PhaseOk(p.0)
  {
    var c := s.controllers[id];
    if c.started {
      assert s.controllers[id := c] == s.controllers;
    } else {
      var c1 := c.(started := true, subscribed := true);
      RelabelKeepsCore(s, id, c1);
      HandleGateChangeKeeps(With(s, id, (c1, s.world)), id, gate, now);
      WithTwice(s, id, (c1, s.world), HandleGateChange(c1, s.world, gate, now));
    }
  }

  lemma StopKeeps(s: System, id: nat)
    requires Inv(s) && id in s.controllers
    ensures var p := Stop(s.controllers[id], s.world);
            Core(With(s, id, p)) && PhaseOk(p.0)
  {
    var c := s.controllers[id];
    if !c.started {
      assert s.controllers[id := c] == s.controllers;
    } else {
      var c1 := c.(started := false, subscribed := false);
      RelabelKeepsCore(s, id, c1);
      var s1 := With(s, id, (c1, s.world));
      var p2 := ClearTimer(c1, s.world);
      ClearTimerKeepsCore(s1, id);
      WithTwice(s, id, (c1, s.world), p2);
      var p3 := AbortActive(p2.0, p2.1);
      AbortActiveKeepsCore(With(s, id, p2), id);
      WithTwice(s, id, p2, p3);
      var p4 := Stop(c, s.world);
      RelabelKeepsCore(With(s, id, p3), id, p4.0);
      WithTwice(s, id, p3, p4);
    }
  }

  lemma RefreshKeeps(s: System, id: nat, gate: Gate, now: int)
    requires Inv(s) && id in s.controllers
    ensures var p := Refresh(s.controllers[id], s.world, gate, now);
            Core(With(s, id, p)) && PhaseOk(p.0)
  {
    var c := s.controllers[id];
    if !c.started {
      assert s.controllers[id := c] == s.controllers;
    } else {
      var p1 := AbortActive(c, s.world);
      AbortActiveKeepsCore(s, id);
      var p2 := ClearTimer(p1.0, p1.1);
      ClearTimerKeepsCore(With(s, id, p1), id);
      WithTwice(s, id, p1, p2);
      HandleGateChangeKeeps(With(s, id, p2), id, gate, now);
      WithTwice(s, id, p2, HandleGateChange(p2.0, p2.1, gate, now));
    }
  }

  lemma TimerFiredKeeps(s: System, handle: nat, gate: Gate, now: int)
    requires Inv(s) && handle in s.world.timers
    ensures s.world.timers[handle].owner in s.controllers
    ensures var id := s.world.timers[handle].owner;
            var p := TimerFired(s.controllers[id], s.world, handle, gate, now);
            Core(With(s, id, p)) && PhaseOk(p.0)
  {
    hide Schedule, HandleGateChange, WorldOk, SnapshotOk;
    var id := s.world.timers[handle].owner;
    var c := s.controllers[id];
    var p1 := ClearTimer(c, s.world);
    ClearTimerKeepsCore(s, id);
    assert p1 == (c.(timer := None), s.world.(timers := s.world.timers - {handle}));
    var s1 := With(s, id, p1);
    if GateReason(gate).Some? {
      HandleGateChangeKeeps(s1, id, gate, now);
      WithTwice(s, id, p1, HandleGateChange(p1.0, p1.1, gate, now));
    } else {
      var polling := p1.0.(snapshot := p1.0.snapshot.(lastAttemptAt := Some(now), nextAttemptAt := None,
                                                      pauseReason := None, phase := Polling));
      RelabelKeepsCore(s1, id, polling);
      WithTwice(s, id, p1, (polling, p1.1));
      BeginRequestKeepsCore(With(s, id, (polling, p1.1)), id);
      WithTwice(s, id, (polling, p1.1), Poll(p1.0, p1.1, gate, now));
    }
  }

  function Consumed(w: World, t: Token): World {
    w.(settled := w.settled - {t}, finished := w.finished + {t})
  }

  lemma ConsumedKeepsWorld(w: World, t: Token)
    requires WorldOk(w) && t in w.settled
    ensures WorldOk(Consumed(w, t))
    ensures t !in w.queue && t !in w.running
  {
    assert t in w.queue ==> OnlyQueued(w, t);
    forall u | u in w.queue
      ensures OnlyQueued(Consumed(w, t), u)
    {
      assert OnlyQueued(w, u);
    }
  }

  lemma ConsumeKeepsCore(s: System, t: Token, c: Controller)
    requires Core(s) && t in s.world.settled && t.owner in s.controllers
    requires var c0 := s.controllers[t.owner];
             && c.id == t.owner && c.timer == c0.timer
             && (c.timer.None? || c.snapshot.nextAttemptAt == c0.snapshot.nextAttemptAt)
             && (if c0.active == Some(t) then c.active.None? else c.active == c0.active)
    ensures Core(With(s, t.owner, (c, Consumed(s.world, t))))
  {
    var w, w1 := s.world, Consumed(s.world, t);
    ConsumedKeepsWorld(w, t);
    var s1 := With(s, t.owner, (c, w1));
    forall k | k in s1.controllers
      ensures Linked(s1.controllers[k], k, w1)
    {
      assert Linked(s.controllers[k], k, w);
    }
  }

  lemma DeliveredKeeps(s: System, t: Token, now: int, random: Option<real>)
    requires Inv(s) && t in s.world.settled && t.owner in s.controllers
    ensures var p := Delivered(s.controllers[t.owner], s.world, t, now, random);
            Core(With(s, t.owner, p)) && PhaseOk(p.0)
  {
    var id := t.owner;
    var c, w1, o := s.controllers[id], Consumed(s.world, t), s.world.settled[t];
    if !Accepts(c, t) {
      ConsumeKeepsCore(s, t, c);
    } else {
      assert Linked(c, id, s.world);
      var n := if o.Resolved?
        then Snapshot(o.data, None, 0, Fresh, c.snapshot.lastAttemptAt, Some(now), None, None, Waiting)
        else c.snapshot.(error := Some(ErrorMessage(o.reason)), failedAttempts := c.snapshot.failedAttempts + 1,
                         freshness := AgedFreshness(c.snapshot.data), phase := Waiting);
      var delay := if o.Resolved? then JitteredIntervalMilliseconds(Some(c.interval), random).value
                   else FailureBackoffMilliseconds(c.snapshot.failedAttempts + 1);
      var c1 := c.(active := None, snapshot := n);
      ConsumeKeepsCore(s, t, c1);
      ArmKeeps(With(s, id, (c1, w1)), id, now, delay);
      WithTwice(s, id, (c1, w1), Arm(c1, w1, now, delay));
    }
  }

  // ---------- Steps that involve no controller ----------

  lemma SlotFreesKeeps(s: System, t: Token)
    requires Core(s) && t in s.world.releasing
    ensures Core(s.(world := SlotReleased(s.world, t)))
  {
    var w, w1 := s.world, SlotReleased(s.world, t);
    ReleaseStartsHead(w, t);
    forall k | k in s.controllers
      ensures Linked(s.controllers[k], k, w1)
    {
      assert Linked(s.controllers[k], k, w);
    }
  }

  lemma FetchSettlesKeeps(s: System, t: Token, o: Outcome)
    requires Core(s) && t in s.world.running
    ensures Core(s.(world := RunSettled(s.world, t, o)))
  {
    var w, w1 := s.world, RunSettled(s.world, t, o);
    SettleKeepsSlots(w, t, o);
    forall k | k in s.controllers
      ensures Linked(s.controllers[k], k, w1)
    {
      assert Linked(s.controllers[k], k, w);
    }
  }

  lemma CreatedKeeps(s: System, id: nat, interval: Interval, initial: InitialData)
    requires Core(s) && id !in s.controllers
    ensures var c := InitialController(id, interval, initial);
            Core(With(s, id, (c, s.world))) && PhaseOk(c)
  {
    var s1 := With(s, id, (InitialController(id, interval, initial), s.world));
    forall k | k in s1.controllers
      ensures Linked(s1.controllers[k], k, s.world)
    {
      assert k != id ==> Linked(s.controllers[k], k, s.world);
    }
  }

  // ---------- All steps ----------

  lemma NextKeepsCore(s: System, step: Step)
    requires Inv(s)
    ensures Core(Next(s, step))
    ensures forall id :: id in Next(s, step).controllers ==> PhaseOk(Next(s, step).controllers[id])
  {
    hide Start, Stop, Refresh, HandleGateChange, TimerFired, Delivered;
    match step
    case Created(id, interval, initial) => if id !in s.controllers { CreatedKeeps(s, id, interval, initial); }
    case StartCalled(id, gate, now) => if id in s.controllers { StartKeeps(s, id, gate, now); }
    case StopCalled(id) => if id in s.controllers { StopKeeps(s, id); }
    case RefreshCalled(id, gate, now) => if id in s.controllers { RefreshKeeps(s, id, gate, now); }
    case GateChanged(id, gate, now) =>
      if id in s.controllers && s.controllers[id].subscribed { HandleGateChangeKeeps(s, id, gate, now); }
    case TimerFires(handle, gate, now) => if handle in s.world.timers { TimerFiredKeeps(s, handle, gate, now); }
    case FetchSettles(t, o) => if t in s.world.running { FetchSettlesKeeps(s, t, o); }
    case SlotFrees(t) => if t in s.world.releasing { SlotFreesKeeps(s, t); }
    case Continues(t, now, random) =>
      if t in s.world.settled && t.owner in s.controllers { DeliveredKeeps(s, t, now, random); }
  }

  lemma ArmKeepsSnapshot(c: Controller, w: World, now: int, delay: int)
    requires SnapshotOk(c.snapshot)
    ensures SnapshotOk(Arm(c, w, now, delay).0.snapshot)
  {
  }

  lemma HandleGateChangeKeepsSnapshot(c: Controller, w: World, gate: Gate, now: int)
    requires SnapshotOk(c.snapshot)
    ensures SnapshotOk(HandleGateChange(c, w, gate, now).0.snapshot)
  {
    ArmKeepsSnapshot(c, w, now, 0);
  }

  lemma DeliveredKeepsSnapshot(c: Controller, w: World, t: Token, now: int, random: Option<real>)
    requires SnapshotOk(c.snapshot) && t in w.settled
    ensures SnapshotOk(Delivered(c, w, t, now, random).0.snapshot)
  {
    hide JitteredIntervalMilliseconds, FailureBackoffMilliseconds, ErrorMessage;
  }

  lemma NextKeepsSnapshots(s: System, step: Step)
    requires Inv(s)
    ensures forall id :: id in Next(s, step).controllers ==> SnapshotOk(Next(s, step).controllers[id].snapshot)
  {
    hide HandleGateChange, Delivered;
    match step
    case Created(id, interval, initial) =>
    case StartCalled(id, gate, now) =>
      if id in s.controllers {
        HandleGateChangeKeepsSnapshot(s.controllers[id].(started := true, subscribed := true), s.world, gate, now);
      }
    case StopCalled(id) =>
    case RefreshCalled(id, gate, now) =>
      if id in s.controllers {
        var p1 := AbortActive(s.controllers[id], s.world);
        var p2 := ClearTimer(p1.0, p1.1);
        HandleGateChangeKeepsSnapshot(p2.0, p2.1, gate, now);
      }
    case GateChanged(id, gate, now) =>
      if id in s.controllers { HandleGateChangeKeepsSnapshot(s.controllers[id], s.world, gate, now); }
    case TimerFires(handle, gate, now) =>
      if handle in s.world.timers {
        var id := s.world.timers[handle].owner;
        HandleGateChangeKeepsSnapshot(s.controllers[id].(timer := None), ClearTimeout(s.world, handle), gate, now);
      }
    case FetchSettles(t, o) =>
    case SlotFrees(t) =>
    case Continues(t, now, random) =>
      if t in s.world.settled && t.owner in s.controllers {
        DeliveredKeepsSnapshot(s.controllers[t.owner], s.world, t, now, random);
      }
  }

  /** One step, whatever it is, keeps the whole invariant. */
  lemma NextKeepsInv(s: System, step: Step)
    requires Inv(s)
    ensures Inv(Next(s, step))
  {
    NextKeepsCore(s, step);
    NextKeepsSnapshots(s, step);
  }

  lemma {:induction false} RunKeepsInv(s: System, steps: seq<Step>)
    requires Inv(s)
    ensures Inv(Run(s, steps))
    decreases |steps|
  {
    if steps != [] {
      var last := |steps| - 1;
      RunKeepsInv(s, steps[..last]);
      NextKeepsInv(Run(s, steps[..last]), steps[last]);
    }
  }

  /** The invariant holds in every state reachable from a scheduler with no controllers. */
  lemma ReachableInv(maximum: nat, steps: seq<Step>)
    requires 1 <= maximum
    ensures Inv(Run(InitialSystem(maximum), steps))
  {
    assert Inv(InitialSystem(maximum));
    RunKeepsInv(InitialSystem(maximum), steps);
  }
}
