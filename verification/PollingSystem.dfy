/**
 Any number of polling controllers on one scheduler, as a state machine: its steps are the
 calls and host events that can reach the code, in any order. The invariant of this module
 holds after every step of every run.
 */
module PollingSystem {
  import opened Wrappers
  import opened PollingModel

  datatype System = System(world: World, controllers: map<nat, Controller>)

  datatype Step =
    | Created(id: nat, interval: Interval, initial: InitialData)
    | StartCalled(id: nat, gate: Gate, now: int)
    | StopCalled(id: nat)
    | RefreshCalled(id: nat, gate: Gate, now: int)
    | GateChanged(id: nat, gate: Gate, now: int)
    | TimerFires(handle: nat, gate: Gate, now: int)
    | FetchSettles(token: Token, outcome: Outcome)
    | SlotFrees(token: Token)
    | Continues(token: Token, now: int, random: Option<real>)

  function With(s: System, id: nat, p: (Controller, World)): System {
    System(p.1, s.controllers[id := p.0])
  }

  function Next(s: System, step: Step): System {
    var w := s.world;
    match step
    case Created(id, interval, initial) =>
      if id in s.controllers then s else With(s, id, (InitialController(id, interval, initial), w))
    case StartCalled(id, gate, now) =>
      if id in s.controllers then With(s, id, Start(s.controllers[id], w, gate, now)) else s
    case StopCalled(id) =>
      if id in s.controllers then With(s, id, Stop(s.controllers[id], w)) else s
    case RefreshCalled(id, gate, now) =>
      if id in s.controllers then With(s, id, Refresh(s.controllers[id], w, gate, now)) else s
    case GateChanged(id, gate, now) =>
      if id in s.controllers && s.controllers[id].subscribed
      then With(s, id, HandleGateChange(s.controllers[id], w, gate, now)) else s
    case TimerFires(handle, gate, now) =>
      if handle in w.timers && w.timers[handle].owner in s.controllers
      then
        var id := w.timers[handle].owner;
        With(s, id, TimerFired(s.controllers[id], w, handle, gate, now))
      else s
    case FetchSettles(token, outcome) => s.(world := RunSettled(w, token, outcome))
    case SlotFrees(token) => s.(world := SlotReleased(w, token))
    case Continues(token, now, random) =>
      if token in w.settled && token.owner in s.controllers
      then With(s, token.owner, Delivered(s.controllers[token.owner], w, token, now, random)) else s
  }

  function InitialWorld(maximum: nat): World {
    World(maximum, 0, [], {}, {}, map[], {}, {}, map[], 0, 0)
  }

  function InitialSystem(maximum: nat): System {
    System(InitialWorld(maximum), map[])
  }

  function Run(s: System, steps: seq<Step>): System
    decreases |steps|
  {
    if steps == [] then s else Next(Run(s, steps[..|steps| - 1]), steps[|steps| - 1])
  }

  // ---------- The invariant ----------

  ghost predicate Distinct(queue: seq<Token>) {
    forall i, j :: 0 <= i < j < |queue| ==> queue[i] != queue[j]
  }

  /** A token that no task, run or promise knows yet, other than as a member of the queue. */
  ghost predicate OnlyQueued(w: World, t: Token) {
    t !in w.running && t !in w.releasing && t !in w.settled && t !in w.finished && t !in w.aborted
    && t.serial < w.nextSerial
  }

  /** What the scheduler keeps even in the middle of `#drain`. */
  ghost predicate SlotsOk(w: World) {
    && 1 <= w.maximum
    && w.activeCount == |w.running| + |w.releasing| <= w.maximum
    && w.running !! w.releasing
    && Distinct(w.queue)
    && (forall t :: t in w.queue ==> OnlyQueued(w, t))
    && (forall t :: t in w.running ==> t !in w.settled && t !in w.finished && t.serial < w.nextSerial)
    && (forall t :: t in w.releasing ==> (t in w.settled || t in w.finished) && t.serial < w.nextSerial)
    && w.settled.Keys !! w.finished
    && (forall t :: t in w.settled ==> t.serial < w.nextSerial)
    && (forall t :: t in w.finished ==> t.serial < w.nextSerial)
    && (forall t :: t in w.aborted ==> t.serial < w.nextSerial)
    && (forall h :: h in w.timers ==> h < w.nextHandle)
  }

  /** A slot is never free while a task waits. */
  ghost predicate WorkConserving(w: World) {
    w.queue != [] ==> w.activeCount == w.maximum
  }

  ghost predicate WorldOk(w: World) {
    SlotsOk(w) && WorkConserving(w)
  }

  /** A request that can still reach its continuation. */
  predicate Live(w: World, t: Token) {
    t in w.queue || t in w.running || t in w.settled
  }

  ghost predicate Linked(c: Controller, id: nat, w: World) {
    && c.id == id
    && (c.timer.Some? ==>
          && c.timer.value in w.timers
          && w.timers[c.timer.value].owner == id
          && c.snapshot.nextAttemptAt == Some(w.timers[c.timer.value].dueAt))
    && (c.active.Some? ==>
          && c.active.value.owner == id
          && c.active.value.serial < w.nextSerial
          && c.active.value !in w.aborted
          && Live(w, c.active.value))
  }

  /** What holds between the statements of a controller method. */
  ghost predicate Core(s: System) {
    && WorldOk(s.world)
    && (forall id :: id in s.controllers ==> Linked(s.controllers[id], id, s.world))
    && (forall h :: h in s.world.timers ==>
          && s.world.timers[h].owner in s.controllers
          && s.controllers[s.world.timers[h].owner].timer == Some(h))
    && (forall t :: t in s.world.queue ==> t.owner in s.controllers && s.controllers[t.owner].active == Some(t))
  }

  /** What the phase says about the other fields, between steps. */
  ghost predicate PhaseOk(c: Controller) {
    && (c.started <==> c.snapshot.phase != Idle)
    && (c.subscribed <==> c.started)
    && (c.timer.Some? <==> c.snapshot.phase == Waiting)
    && (c.snapshot.nextAttemptAt.Some? <==> c.snapshot.phase == Waiting)
    && (c.active.Some? <==> c.snapshot.phase == Polling)
    && (c.snapshot.pauseReason.Some? <==> c.snapshot.phase == Paused)
  }

  ghost predicate SnapshotOk(n: Snapshot) {
    && (n.error.Some? <==> n.failedAttempts > 0)
    && (n.freshness == Fresh ==> n.error.None? && n.lastSuccessAt.Some?)
    && (n.freshness == Empty ==> n.data.None?)
  }

  ghost predicate Inv(s: System) {
    && Core(s)
    && (forall id :: id in s.controllers ==> PhaseOk(s.controllers[id]) && SnapshotOk(s.controllers[id].snapshot))
  }

  // ---------- Scheduler steps ----------

  /** How many queued tasks one `#drain` starts. */
  function Admitted(w: World): (n: nat)
    ensures n <= |w.queue|
  {
    if w.activeCount >= w.maximum then 0
    else if |w.queue| <= w.maximum - w.activeCount then |w.queue| else w.maximum - w.activeCount
  }

  function Elements(queue: seq<Token>): set<Token> {
    set t | t in queue
  }

  lemma ElementsCons(queue: seq<Token>, n: nat)
    requires 0 < n <= |queue|
    ensures Elements(queue[..n]) == {queue[0]} + Elements(queue[1..][..n - 1])
  {
    assert queue[..n] == [queue[0]] + queue[1..][..n - 1];
  }

  function StartHead(w: World): World
    requires w.queue != []
  {
    w.(queue := w.queue[1..], activeCount := w.activeCount + 1, running := w.running + {w.queue[0]})
  }

  lemma StartHeadKeepsSlots(w: World)
    requires SlotsOk(w) && w.queue != [] && w.activeCount < w.maximum
    ensures SlotsOk(StartHead(w))
  {
    var w1 := StartHead(w);
    assert OnlyQueued(w, w.queue[0]);
    forall t | t in w1.queue
      ensures OnlyQueued(w1, t)
    {
      assert OnlyQueued(w, t);
      var i :| 0 <= i < |w1.queue| && w1.queue[i] == t;
      assert w.queue[i + 1] != w.queue[0];
    }
  }

  ghost predicate NoneAborted(w: World) {
    forall t :: t in w.queue ==> t !in w.aborted
  }

  /** The first `n` tasks of the queue have started. */
  function Started(w: World, n: nat): World
    requires n <= |w.queue|
  {
    w.(queue := w.queue[n..], activeCount := w.activeCount + n, running := w.running + Elements(w.queue[..n]))
  }

  lemma NoneStarted(w: World)
    ensures Started(w, 0) == w
  {
    assert w.queue[..0] == [] && w.queue[0..] == w.queue;
    assert w.running + Elements([]) == w.running;
  }

  lemma HeadThenRest(w: World, n: nat)
    requires 0 < n <= |w.queue|
    ensures Started(w, n) == Started(StartHead(w), n - 1)
  {
    var w1 := StartHead(w);
    ElementsCons(w.queue, n);
    assert w1.running + Elements(w1.queue[..n - 1]) == w.running + Elements(w.queue[..n]);
    assert w1.queue[n - 1..] == w.queue[n..];
  }

  lemma DrainsHead(w: World)
    requires NoneAborted(w) && w.activeCount < w.maximum && w.queue != []
    ensures Drain(w) == Drain(StartHead(w)) && NoneAborted(StartHead(w))
  {
    assert w.queue[0] !in w.aborted;
  }

  /** `#drain` starts the longest prefix of the queue that the free slots allow, and nothing else changes. */
  lemma {:induction false} DrainStartsPrefix(w: World)
    requires NoneAborted(w)
    ensures Drain(w) == Started(w, Admitted(w))
    decreases |w.queue|
  {
    hide NoneAborted, Started;
    if Admitted(w) == 0 {
      NoneStarted(w);
    } else {
      DrainsHead(w);
      DrainStartsPrefix(StartHead(w));
      HeadThenRest(w, Admitted(w));
    }
  }

  lemma {:induction false} DrainKeepsSlots(w: World)
    requires SlotsOk(w)
    ensures WorldOk(Drain(w))
    decreases |w.queue|
  {
    if w.activeCount < w.maximum && w.queue != [] {
      assert OnlyQueued(w, w.queue[0]);
      StartHeadKeepsSlots(w);
      DrainKeepsSlots(StartHead(w));
    }
  }

  lemma QueueNotAborted(w: World)
    requires SlotsOk(w)
    ensures NoneAborted(w)
  {
    forall t | t in w.queue
      ensures t !in w.aborted
    {
      assert OnlyQueued(w, t);
    }
  }

  /** A request that nothing has heard of. */
  ghost predicate Unused(w: World, t: Token) {
    t !in w.queue && OnlyQueued(w, t)
  }

  lemma AppendKeepsSlots(w: World, t: Token)
    requires SlotsOk(w) && Unused(w, t)
    ensures SlotsOk(w.(queue := w.queue + [t]))
  {
    var w1 := w.(queue := w.queue + [t]);
    forall u | u in w1.queue
      ensures OnlyQueued(w1, u)
    {
      assert u == t || u in w.queue;
      assert OnlyQueued(w, u);
    }
  }

  lemma StartsLast(w: World, t: Token)
    requires w.queue == [t]
    ensures Started(w, 1) == w.(queue := [], activeCount := w.activeCount + 1, running := w.running + {t})
  {
    assert w.queue[..1] == [t];
    assert Elements([t]) == {t};
  }

  /** A new task starts at once when a slot is free, and otherwise waits at the end of the queue. */
  lemma ScheduleStartsOrQueues(w: World, t: Token)
    requires WorldOk(w) && Unused(w, t)
    ensures WorldOk(Schedule(w, t))
    ensures Schedule(w, t) ==
            if w.activeCount < w.maximum then w.(activeCount := w.activeCount + 1, running := w.running + {t})
            else w.(queue := w.queue + [t])
  {
    hide Drain, Started, NoneAborted, SlotsOk;
    var w1 := w.(queue := w.queue + [t]);
    AppendKeepsSlots(w, t);
    QueueNotAborted(w1);
    DrainStartsPrefix(w1);
    DrainKeepsSlots(w1);
    assert t !in w.aborted;
    if w.activeCount < w.maximum {
      assert w.queue == [] && w1.queue == [t];
      StartsLast(w1, t);
    } else {
      NoneStarted(w1);
    }
  }

  function FreeSlot(w: World, t: Token): World {
    w.(releasing := w.releasing - {t}, activeCount := w.activeCount - 1)
  }

  lemma FreeSlotKeepsSlots(w: World, t: Token)
    requires SlotsOk(w) && t in w.releasing
    ensures SlotsOk(FreeSlot(w, t))
  {
    forall u | u in w.queue
      ensures OnlyQueued(FreeSlot(w, t), u)
    {
      assert OnlyQueued(w, u);
    }
  }

  /** Freeing a slot starts exactly the head of the queue, if there is one. */
  lemma ReleaseStartsHead(w: World, t: Token)
    requires WorldOk(w) && t in w.releasing
    ensures WorldOk(SlotReleased(w, t))
    ensures SlotReleased(w, t) ==
            if w.queue == [] then w.(releasing := w.releasing - {t}, activeCount := w.activeCount - 1)
            else w.(releasing := w.releasing - {t}, queue := w.queue[1..], running := w.running + {w.queue[0]})
  {
    hide Drain, Started, NoneAborted;
    var w1 := FreeSlot(w, t);
    FreeSlotKeepsSlots(w, t);
    QueueNotAborted(w1);
    DrainStartsPrefix(w1);
    DrainKeepsSlots(w1);
    if w.queue == [] {
      NoneStarted(w1);
    } else {
      assert Admitted(w1) == 1;
      HeadThenRest(w1, 1);
      NoneStarted(StartHead(w1));
    }
  }

  function Without(queue: seq<Token>, t: Token): seq<Token> {
    var i := IndexOf(queue, t);
    if i == |queue| then queue else queue[..i] + queue[i + 1..]
  }

  lemma WithoutIsRemoval(queue: seq<Token>, t: Token)
    requires Distinct(queue)
    ensures Distinct(Without(queue, t))
    ensures forall u :: u in Without(queue, t) <==> u in queue && u != t
  {
    var i := IndexOf(queue, t);
    var rest := Without(queue, t);
    if i < |queue| {
      forall u | u in queue && u != t
        ensures u in rest
      {
        var k :| 0 <= k < |queue| && queue[k] == u;
        assert rest[if k < i then k else k - 1] == u;
      }
    }
  }

  /** Aborting removes a queued task and settles it; a started or settled one is only flagged. */
  lemma AbortDequeues(w: World, t: Token)
    requires WorldOk(w) && t !in w.aborted && t.serial < w.nextSerial
    ensures WorldOk(Abort(w, t))
    ensures Abort(w, t) == w.(aborted := w.aborted + {t},
                              queue := Without(w.queue, t),
                              settled := if t in w.queue then w.settled[t := ABORT_REJECTION] else w.settled)
  {
    WithoutIsRemoval(w.queue, t);
    var w1 := Abort(w, t);
    if t in w.queue {
      assert OnlyQueued(w, t);
    }
    forall u | u in w1.queue
      ensures OnlyQueued(w1, u)
    {
      assert u in w.queue && OnlyQueued(w, u);
    }
  }

  lemma SettleKeepsSlots(w: World, t: Token, o: Outcome)
    requires WorldOk(w) && t in w.running
    ensures WorldOk(RunSettled(w, t, o))
    ensures RunSettled(w, t, o) ==
            w.(running := w.running - {t}, releasing := w.releasing + {t}, settled := w.settled[t := o])
  {
    var w1 := RunSettled(w, t, o);
    forall u | u in w1.queue
      ensures OnlyQueued(w1, u)
    {
      assert OnlyQueued(w, u);
    }
  }
}
