/** What each call and event does to its controller, on the fields that the page and the host can see. */
module PollingSteps {
  import opened Wrappers
  import opened PollingModel
  import opened PollingSystem
  import opened PollingInvariant

  // ---------- What can be seen ----------

  /** Offline pauses, and so does a hidden page; an open gate does not. */
  ghost predicate ShowsGate(c: Controller, gate: Gate) {
    && (c.snapshot.phase == Paused <==> !(gate.online && gate.visible))
    && (c.snapshot.pauseReason == Some(Offline) <==> !gate.online)
    && (c.snapshot.pauseReason == Some(Hidden) <==> gate.online && !gate.visible)
  }

  /** Nothing is under way, and what is shown has become old. */
  ghost predicate AtRest(c: Controller) {
    && c.timer.None? && c.active.None? && c.snapshot.nextAttemptAt.None?
    && c.snapshot.freshness == if c.snapshot.data.None? then Empty else Stale
  }

  /** The controller waits for a timer of its own that is due at `at`, which it announces. */
  ghost predicate PollsAt(c: Controller, w: World, at: int) {
    && c.snapshot.phase == Waiting && c.snapshot.nextAttemptAt == Some(at) && c.active.None?
    && c.timer.Some? && c.timer.value in w.timers && w.timers[c.timer.value] == Timer(c.id, at)
  }

  ghost predicate OthersUntouched(s: System, s1: System, id: nat) {
    s1.controllers.Keys == s.controllers.Keys
    && forall k :: k in s.controllers && k != id ==> s1.controllers[k] == s.controllers[k]
  }

  ghost predicate SameResults(n: Snapshot, n1: Snapshot) {
    && n1.data == n.data && n1.error == n.error && n1.failedAttempts == n.failedAttempts
    && n1.lastSuccessAt == n.lastSuccessAt
  }

  /** The request that the controller had, if any, is aborted. */
  ghost predicate RequestAborted(c: Controller, w: World) {
    c.active.Some? ==> c.active.value in w.aborted
  }

  lemma AbortKeepsTimers(w: World, t: Token)
    ensures Abort(w, t).timers == w.timers && Abort(w, t).nextHandle == w.nextHandle
            && Abort(w, t).aborted == w.aborted + {t}
  {
  }

  // ---------- A new controller ----------

  /** A controller that has never polled shows its initial data as old, and has nothing under way. */
  lemma CreatedIsIdle(s: System, id: nat, interval: Interval, initial: InitialData)
    requires id !in s.controllers
    ensures var s1 := Next(s, Created(id, interval, initial));
            && s1.world == s.world && s1.controllers.Keys == s.controllers.Keys + {id}
            && (forall k :: k in s.controllers ==> s1.controllers[k] == s.controllers[k])
            && var c := s1.controllers[id];
               && c.id == id && c.interval == interval && !c.started && !c.subscribed && c.timer.None? && c.active.None?
               && c.snapshot.phase == Idle && c.snapshot.failedAttempts == 0 && c.snapshot.error.None?
               && c.snapshot.lastAttemptAt.None? && c.snapshot.lastSuccessAt.None? && c.snapshot.nextAttemptAt.None?
               && c.snapshot.pauseReason.None?
               && (match initial
                   case Undefined => c.snapshot.data.None? && c.snapshot.freshness == Empty
                   case Null => c.snapshot.data.None? && c.snapshot.freshness == Stale
                   case Given(value) => c.snapshot.data == Some(value) && c.snapshot.freshness == Stale)
  {
  }

  // ---------- The gate ----------

  lemma GateMeans(gate: Gate)
    ensures GateReason(gate).None? <==> gate.online && gate.visible
    ensures GateReason(gate) == Some(Offline) <==> !gate.online
    ensures GateReason(gate) == Some(Hidden) <==> gate.online && !gate.visible
  {
  }

  /** Behind a closed gate, a started controller pauses, whatever it was doing. */
  lemma ClosedGatePauses(c: Controller, w: World, gate: Gate, now: int)
    requires c.started && !(gate.online && gate.visible)
    ensures var (c1, w1) := HandleGateChange(c, w, gate, now);
            && ShowsGate(c1, gate) && AtRest(c1) && RequestAborted(c, w1) && SameResults(c.snapshot, c1.snapshot)
            && c1.started && c1.subscribed == c.subscribed && c1.id == c.id
  {
    hide Abort;
    GateMeans(gate);
    var (c1, w1) := ClearTimer(c, w);
    if c.active.Some? { AbortKeepsTimers(w1, c.active.value); }
  }

  /** Behind an open gate it polls at once, unless a request is under way. */
  lemma OpenGatePolls(c: Controller, w: World, gate: Gate, now: int)
    requires c.started && gate.online && gate.visible && c.active.None?
    ensures var (c1, w1) := HandleGateChange(c, w, gate, now);
            && ShowsGate(c1, gate) && PollsAt(c1, w1, now) && SameResults(c.snapshot, c1.snapshot)
            && c1.snapshot.freshness == c.snapshot.freshness && w1.aborted == w.aborted
            && c1.started && c1.subscribed == c.subscribed && c1.id == c.id
  {
    GateMeans(gate);
  }

  /** Starting a stopped controller subscribes it and has it act on the gate. */
  lemma StartActsOnGate(s: System, id: nat, gate: Gate, now: int)
    requires Inv(s) && id in s.controllers && !s.controllers[id].started
    ensures var c, s1 := s.controllers[id], Next(s, StartCalled(id, gate, now));
            && OthersUntouched(s, s1, id)
            && var c1 := s1.controllers[id];
               && c1.started && c1.subscribed && ShowsGate(c1, gate) && SameResults(c.snapshot, c1.snapshot)
               && (if gate.online && gate.visible then PollsAt(c1, s1.world, now) else AtRest(c1))
  {
    hide HandleGateChange, WorldOk;
    var c := s.controllers[id].(started := true, subscribed := true);
    assert PhaseOk(s.controllers[id]) && Linked(s.controllers[id], id, s.world);
    if gate.online && gate.visible {
      OpenGatePolls(c, s.world, gate, now);
    } else {
      ClosedGatePauses(c, s.world, gate, now);
    }
  }

  /** Refreshing aborts the request under way, and acts on the gate. */
  lemma RefreshActsOnGate(s: System, id: nat, gate: Gate, now: int)
    requires Inv(s) && id in s.controllers && s.controllers[id].started
    ensures var c, s1 := s.controllers[id], Next(s, RefreshCalled(id, gate, now));
            && OthersUntouched(s, s1, id) && RequestAborted(c, s1.world)
            && var c1 := s1.controllers[id];
               && c1.started && ShowsGate(c1, gate) && SameResults(c.snapshot, c1.snapshot)
               && (if gate.online && gate.visible then PollsAt(c1, s1.world, now) else AtRest(c1))
  {
    hide HandleGateChange, WorldOk, Abort;
    var c := s.controllers[id];
    var (c1, w1) := AbortActive(c, s.world);
    var (c2, w2) := ClearTimer(c1, w1);
    assert Linked(c, id, s.world);
    if c.active.Some? { AbortKeepsTimers(s.world, c.active.value); }
    assert RequestAborted(c, w2);
    if gate.online && gate.visible {
      OpenGatePolls(c2, w2, gate, now);
    } else {
      ClosedGatePauses(c2, w2, gate, now);
      ClosedGateKeepsFlags(c2, w2, gate, now);
    }
  }

  lemma ClosedGateKeepsFlags(c: Controller, w: World, gate: Gate, now: int)
    requires c.started && !(gate.online && gate.visible)
    ensures w.aborted <= HandleGateChange(c, w, gate, now).1.aborted
  {
    hide Abort;
    GateMeans(gate);
    var (c1, w1) := ClearTimer(c, w);
    if c.active.Some? { AbortKeepsTimers(w1, c.active.value); }
  }

  /** A change of the gate pauses, or polls at once; a request under way goes on while the gate is open. */
  lemma GateChangeActsOnGate(s: System, id: nat, gate: Gate, now: int)
    requires Inv(s) && id in s.controllers && s.controllers[id].started
    ensures var c, s1 := s.controllers[id], Next(s, GateChanged(id, gate, now));
            && OthersUntouched(s, s1, id)
            && var c1 := s1.controllers[id];
               && c1.started && ShowsGate(c1, gate) && SameResults(c.snapshot, c1.snapshot)
               && (if gate.online && gate.visible
                   then if c.snapshot.phase == Polling then s1.world == s.world && c1 == c
                        else PollsAt(c1, s1.world, now)
                   else AtRest(c1) && RequestAborted(c, s1.world))
  {
    hide WorldOk;
    var c := s.controllers[id];
    assert PhaseOk(c) && Linked(c, id, s.world);
    GateMeans(gate);
    if !(gate.online && gate.visible) {
      ClosedGatePauses(c, s.world, gate, now);
    } else if c.active.None? {
      OpenGatePolls(c, s.world, gate, now);
    }
  }

  // ---------- The timer ----------

  /** A timer that fires behind a closed gate pauses its controller and issues nothing. */
  lemma TimerActsOnClosedGate(s: System, handle: nat, gate: Gate, now: int)
    requires Inv(s) && handle in s.world.timers && !(gate.online && gate.visible)
    ensures s.world.timers[handle].owner in s.controllers
    ensures var id := s.world.timers[handle].owner;
            var c, s1 := s.controllers[id], Next(s, TimerFires(handle, gate, now));
            && OthersUntouched(s, s1, id) && s1.world.nextSerial == s.world.nextSerial
            && var c1 := s1.controllers[id];
               c1.started && ShowsGate(c1, gate) && AtRest(c1) && SameResults(c.snapshot, c1.snapshot)
  {
    hide WorldOk, HandleGateChange, Abort;
    var id := s.world.timers[handle].owner;
    var c := s.controllers[id];
    assert PhaseOk(c) && Linked(c, id, s.world);
    GateMeans(gate);
    var c0, w0 := c.(timer := None), s.world.(timers := s.world.timers - {handle});
    ClosedGatePauses(c0, w0, gate, now);
    PauseIssuesNothing(c0, w0, gate, now);
  }

  lemma PauseIssuesNothing(c: Controller, w: World, gate: Gate, now: int)
    ensures HandleGateChange(c, w, gate, now).1.nextSerial == w.nextSerial
  {
  }

  /**
   A timer that fires behind an open gate issues a request of its controller: a new token, which starts at once when a
   slot is free and otherwise waits behind all other tasks.
   */
  lemma TimerIssuesRequest(s: System, handle: nat, gate: Gate, now: int)
    requires Inv(s) && handle in s.world.timers && gate.online && gate.visible
    ensures s.world.timers[handle].owner in s.controllers
    ensures var id := s.world.timers[handle].owner;
            var c, s1, t := s.controllers[id], Next(s, TimerFires(handle, gate, now)), Token(id, s.world.nextSerial);
            && OthersUntouched(s, s1, id)
            && s1.world.nextSerial == s.world.nextSerial + 1 && s1.world.timers == s.world.timers - {handle}
            && (if s.world.activeCount < s.world.maximum
                then s1.world.running == s.world.running + {t} && s1.world.queue == s.world.queue
                else s1.world.running == s.world.running && s1.world.queue == s.world.queue + [t])
            && var c1 := s1.controllers[id];
               && c1.active == Some(t) && c1.timer.None? && c1.started
               && c1.snapshot == c.snapshot.(phase := Polling, lastAttemptAt := Some(now), nextAttemptAt := None,
                                             pauseReason := None)
  {
    hide Schedule, HandleGateChange, SlotsOk;
    var id := s.world.timers[handle].owner;
    assert PhaseOk(s.controllers[id]) && Linked(s.controllers[id], id, s.world);
    GateMeans(gate);
    var w := s.world.(timers := s.world.timers - {handle});
    TimerGoneKeepsWorld(s.world, handle);
    NewSerialIsUnused(w, id);
    ScheduleStartsOrQueues(w.(nextSerial := w.nextSerial + 1), Token(id, w.nextSerial));
  }

  lemma TimerGoneKeepsWorld(w: World, handle: nat)
    requires WorldOk(w)
    ensures WorldOk(w.(timers := w.timers - {handle}))
  {
    QueueSameOnlyQueued(w, w.(timers := w.timers - {handle}));
  }

  // ---------- Stopping ----------

  /** A stopped controller has nothing under way, is idle, and shows what it showed. */
  lemma StopEndsEverything(s: System, id: nat)
    requires Inv(s) && id in s.controllers && s.controllers[id].started
    ensures var c, s1 := s.controllers[id], Next(s, StopCalled(id));
            && OthersUntouched(s, s1, id) && RequestAborted(c, s1.world)
            && (c.timer.Some? ==> c.timer.value !in s1.world.timers)
            && var c1 := s1.controllers[id];
               && !c1.started && !c1.subscribed && c1.timer.None? && c1.active.None?
               && c1.snapshot == c.snapshot.(phase := Idle, nextAttemptAt := None, pauseReason := None)
  {
    hide WorldOk, Abort;
    var c := s.controllers[id];
    if c.active.Some? { AbortKeepsTimers(ClearTimer(c, s.world).1, c.active.value); }
  }

  /** Starting twice, and stopping or refreshing what is not started, does nothing. */
  lemma OtherCallsDoNothing(s: System, id: nat, gate: Gate, now: int)
    requires id in s.controllers
    ensures s.controllers[id].started ==> Next(s, StartCalled(id, gate, now)) == s
    ensures !s.controllers[id].started ==> Next(s, StopCalled(id)) == s && Next(s, RefreshCalled(id, gate, now)) == s
  {
    assert s.controllers[id := s.controllers[id]] == s.controllers;
  }

  // ---------- Aborted tasks ----------

  /** A task whose signal is already aborted is rejected at once and never enters the queue. */
  lemma AbortedTaskIsRejected(w: World, t: Token)
    requires t in w.aborted && t !in w.settled && t !in w.finished
    ensures Schedule(w, t) == w.(settled := w.settled[t := Rejected(Some("The polling task was aborted"))])
  {
  }

  /** And so is a task that is aborted while it waits. */
  lemma WaitingTaskIsRejected(w: World, t: Token)
    requires WorldOk(w) && t in w.queue
    ensures t in Abort(w, t).settled && Abort(w, t).settled[t] == Rejected(Some("The polling task was aborted"))
    ensures t !in Abort(w, t).queue && (forall u :: u in w.queue && u != t ==> u in Abort(w, t).queue)
  {
    hide Abort;
    assert OnlyQueued(w, t);
    AbortDequeues(w, t);
    WithoutIsRemoval(w.queue, t);
  }
}
