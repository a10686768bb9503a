/** Every step of the polling system makes one of six moves on requests, slots and promises. */
module PollingMoves {
  import opened Wrappers
  import opened PollingModel
  import opened PollingSystem
  import opened PollingInvariant

  /** Up to the timers, every step makes one of these moves. */
  datatype Move =
    | Quiet
    | Aborts(t: Token)
    | Requests(t: Token)
    | Settles(t: Token, o: Outcome)
    | Frees(t: Token)
    | Consumes(t: Token)

  ghost predicate Enabled(w: World, m: Move) {
    match m
    case Quiet => true
    case Aborts(t) => t !in w.aborted && t.serial < w.nextSerial
    case Requests(t) => t.serial == w.nextSerial
    case Settles(t, o) => t in w.running
    case Frees(t) => t in w.releasing
    case Consumes(t) => t in w.settled
  }

  function Moved(w: World, m: Move): World {
    match m
    case Quiet => w
    case Aborts(t) =>
      w.(aborted := w.aborted + {t}, queue := Without(w.queue, t),
         settled := if t in w.queue then w.settled[t := ABORT_REJECTION] else w.settled)
    case Requests(t) =>
      if w.activeCount < w.maximum
      then w.(nextSerial := w.nextSerial + 1, activeCount := w.activeCount + 1, running := w.running + {t})
      else w.(nextSerial := w.nextSerial + 1, queue := w.queue + [t])
    case Settles(t, o) =>
      w.(running := w.running - {t}, releasing := w.releasing + {t}, settled := w.settled[t := o])
    case Frees(t) =>
      if w.queue == [] then w.(releasing := w.releasing - {t}, activeCount := w.activeCount - 1)
      else w.(releasing := w.releasing - {t}, queue := w.queue[1..], running := w.running + {w.queue[0]})
    case Consumes(t) => Consumed(w, t)
  }

  function SansTimers(w: World): World {
    w.(timers := map[], nextHandle := 0)
  }

  ghost predicate Makes(w: World, m: Move, w1: World) {
    Enabled(w, m) && SansTimers(w1) == SansTimers(Moved(w, m))
  }

  /** How the current request of controller `id` follows from the move. */
  ghost predicate FollowsMove(active: Option<Token>, active1: Option<Token>, id: nat, w: World, m: Move) {
    if m.Requests? && m.t.owner == id then active1 == Some(m.t)
    else if active.Some? && (m == Aborts(active.value) || m == Consumes(active.value)) then active1.None?
    else active1 == active
  }

  ghost predicate ControllersFollow(s: System, m: Move, s1: System) {
    && s.controllers.Keys <= s1.controllers.Keys
    && (forall id :: id in s.controllers ==>
          FollowsMove(s.controllers[id].active, s1.controllers[id].active, id, s.world, m))
    && (forall id :: id in s1.controllers && id !in s.controllers ==> s1.controllers[id].active.None?)
  }

  lemma AbortIsMove(s: System, id: nat, p: (Controller, World)) returns (m: Move)
    requires Inv(s) && id in s.controllers
    requires p.0.active.None? && SansTimers(p.1) == SansTimers(AbortActive(s.controllers[id], s.world).1)
    ensures Makes(s.world, m, p.1) && ControllersFollow(s, m, With(s, id, p))
  {
    var c := s.controllers[id];
    if c.active.Some? {
      assert Linked(c, id, s.world);
      AbortDequeues(s.world, c.active.value);
      m := Aborts(c.active.value);
      forall k | k in s.controllers
        ensures FollowsMove(s.controllers[k].active, With(s, id, p).controllers[k].active, k, s.world, m)
      {
        assert Linked(s.controllers[k], k, s.world);
      }
    } else {
      m := Quiet;
    }
  }

  lemma QuietIsMove(s: System, id: nat, p: (Controller, World)) returns (m: Move)
    requires Inv(s) && id in s.controllers
    requires p.0.active == s.controllers[id].active && SansTimers(p.1) == SansTimers(s.world)
    ensures Makes(s.world, m, p.1) && ControllersFollow(s, m, With(s, id, p))
  {
    m := Quiet;
  }

  lemma HandleGateChangeIsMove(s: System, id: nat, gate: Gate, now: int) returns (m: Move)
    requires Inv(s) && id in s.controllers
    ensures var p := HandleGateChange(s.controllers[id], s.world, gate, now);
            Makes(s.world, m, p.1) && ControllersFollow(s, m, With(s, id, p))
  {
    var c, w := s.controllers[id], s.world;
    var p := HandleGateChange(c, w, gate, now);
    if c.started && GateReason(gate).Some? {
      AbortIgnoresTimers(c, w);
      m := AbortIsMove(s, id, p);
    } else {
      m := QuietIsMove(s, id, p);
    }
  }

  lemma AbortIgnoresTimers(c: Controller, w: World)
    ensures var p := ClearTimer(c, w);
            SansTimers(AbortActive(p.0, p.1).1) == SansTimers(AbortActive(c, w).1)
  {
  }

  lemma RefreshIsMove(s: System, id: nat, gate: Gate, now: int) returns (m: Move)
    requires Inv(s) && id in s.controllers
    ensures var p := Refresh(s.controllers[id], s.world, gate, now);
            Makes(s.world, m, p.1) && ControllersFollow(s, m, With(s, id, p))
  {
    var c, w := s.controllers[id], s.world;
    var p := Refresh(c, w, gate, now);
    if c.started {
      m := AbortIsMove(s, id, p);
    } else {
      m := QuietIsMove(s, id, p);
    }
  }

  lemma StopIsMove(s: System, id: nat) returns (m: Move)
    requires Inv(s) && id in s.controllers
    ensures var p := Stop(s.controllers[id], s.world);
            Makes(s.world, m, p.1) && ControllersFollow(s, m, With(s, id, p))
  {
    var c, w := s.controllers[id], s.world;
    var p := Stop(c, w);
    if c.started {
      AbortIgnoresTimers(c, w);
      m := AbortIsMove(s, id, p);
    } else {
      m := QuietIsMove(s, id, p);
    }
  }

  lemma ScheduleIsMove(w: World, w1: World, t: Token)
    requires WorldOk(w1) && SansTimers(w1) == SansTimers(w) && t.serial == w.nextSerial
    ensures Makes(w, Requests(t), Schedule(w1.(nextSerial := w.nextSerial + 1), t))
  {
    NewSerialIsUnused(w1, t.owner);
    ScheduleStartsOrQueues(w1.(nextSerial := w.nextSerial + 1), t);
  }

  lemma TimerFiredIsMove(s: System, handle: nat, gate: Gate, now: int) returns (m: Move)
    requires Inv(s) && handle in s.world.timers
    ensures s.world.timers[handle].owner in s.controllers
    ensures var id := s.world.timers[handle].owner;
            var p := TimerFired(s.controllers[id], s.world, handle, gate, now);
            Makes(s.world, m, p.1) && ControllersFollow(s, m, With(s, id, p))
  {
    var w := s.world;
    var id := w.timers[handle].owner;
    var c := s.controllers[id];
    assert c.id == id && c.started && c.active.None? by { assert Linked(c, id, w) && PhaseOk(c); }
    var p := TimerFired(c, w, handle, gate, now);
    if GateReason(gate).Some? {
      m := QuietIsMove(s, id, p);
    } else {
      var w1 := ClearTimeout(w, handle);
      QueueSameOnlyQueued(w, w1);
      m := Requests(Token(id, w.nextSerial));
      ScheduleIsMove(w, w1, m.t);
      RequestFollows(s, id, p, m);
    }
  }

  lemma RequestFollows(s: System, id: nat, p: (Controller, World), m: Move)
    requires Inv(s) && id in s.controllers && m == Requests(Token(id, s.world.nextSerial))
    requires s.controllers[id].active.None? && p.0.active == Some(m.t)
    ensures ControllersFollow(s, m, With(s, id, p))
  {
  }

  lemma DeliveredEffect(c: Controller, w: World, t: Token, now: int, random: Option<real>)
    requires t in w.settled
    ensures var p := Delivered(c, w, t, now, random);
            && SansTimers(p.1) == SansTimers(Consumed(w, t))
            && p.0.active == if Accepts(c, t) then None else c.active
  {
    hide JitteredIntervalMilliseconds, FailureBackoffMilliseconds, ErrorMessage, AgedFreshness;
  }

  lemma DeliveredIsMove(s: System, t: Token, now: int, random: Option<real>) returns (m: Move)
    requires Inv(s) && t in s.world.settled && t.owner in s.controllers
    ensures m == Consumes(t)
    ensures var p := Delivered(s.controllers[t.owner], s.world, t, now, random);
            Makes(s.world, m, p.1) && ControllersFollow(s, m, With(s, t.owner, p))
  {
    hide Delivered;
    m := Consumes(t);
    DeliveredEffect(s.controllers[t.owner], s.world, t, now, random);
    forall k | k in s.controllers
      ensures s.controllers[k].active == Some(t) ==> k == t.owner
    {
      assert Linked(s.controllers[k], k, s.world);
    }
  }

  lemma StartIsMove(s: System, id: nat, gate: Gate, now: int) returns (m: Move)
    requires Inv(s) && id in s.controllers
    ensures var p := Start(s.controllers[id], s.world, gate, now);
            Makes(s.world, m, p.1) && ControllersFollow(s, m, With(s, id, p))
  {
    m := QuietIsMove(s, id, Start(s.controllers[id], s.world, gate, now));
  }

  lemma HostStepIsMove(s: System, step: Step) returns (m: Move)
    requires Inv(s) && (step.FetchSettles? || step.SlotFrees?)
    ensures Makes(s.world, m, Next(s, step).world)
    ensures step.SlotFrees? && step.token in s.world.releasing ==> m == Frees(step.token)
    ensures m.Quiet? || m.Settles? || m.Frees?
  {
    hide Drain, Settle, SlotsOk, Linked, PhaseOk, SnapshotOk;
    m := Quiet;
    if step.FetchSettles? && step.token in s.world.running {
      m := Settles(step.token, step.outcome);
      SettleKeepsSlots(s.world, step.token, step.outcome);
    }
    if step.SlotFrees? && step.token in s.world.releasing {
      m := Frees(step.token);
      ReleaseStartsHead(s.world, step.token);
    }
  }

  lemma NextIsMove(s: System, step: Step) returns (m: Move)
    requires Inv(s)
    ensures Makes(s.world, m, Next(s, step).world) && ControllersFollow(s, m, Next(s, step))
    ensures step.SlotFrees? && step.token in s.world.releasing ==> m == Frees(step.token)
  {
    hide Inv, Start, Stop, Refresh, HandleGateChange, TimerFired, Delivered, RunSettled, SlotReleased;
    m := Quiet;
    match step
    case Created(id, interval, initial) =>
    case StartCalled(id, gate, now) =>
      if id in s.controllers { m := StartIsMove(s, id, gate, now); }
    case StopCalled(id) => if id in s.controllers { m := StopIsMove(s, id); }
    case RefreshCalled(id, gate, now) => if id in s.controllers { m := RefreshIsMove(s, id, gate, now); }
    case GateChanged(id, gate, now) =>
      if id in s.controllers && s.controllers[id].subscribed { m := HandleGateChangeIsMove(s, id, gate, now); }
    case TimerFires(handle, gate, now) => if handle in s.world.timers { m := TimerFiredIsMove(s, handle, gate, now); }
    case FetchSettles(t, o) => m := HostStepIsMove(s, step);
    case SlotFrees(t) => m := HostStepIsMove(s, step);
    case Continues(t, now, random) =>
      if t in s.world.settled && t.owner in s.controllers { m := DeliveredIsMove(s, t, now, random); }
  }
}
