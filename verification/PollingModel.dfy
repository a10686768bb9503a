/**
 The polling scheduler and controller of `polling.ts`, as functions on values.

 A `World` is everything the controllers of one page share: the two fields of the
 scheduler, and the part of the JavaScript host that the code relies on (live timers,
 abort flags, fetches in flight, promises that have settled but whose continuation has
 not run yet). The classes in `PollingClasses.dfy` are proved to do what these functions
 say; `PollingSystem.dfy` proves what every run of them keeps.
 */
module PollingModel {
  import opened Wrappers

  datatype Payload = Payload(text: string)

  /** One `AbortController`: the controller it belongs to, and its place in creation order. */
  datatype Token = Token(owner: nat, serial: nat)

  /** How a promise settles. A rejection carries the message when the reason is an `Error`. */
  datatype Outcome = Resolved(data: Option<Payload>) | Rejected(reason: Option<string>)

  datatype Timer = Timer(owner: nat, dueAt: int)

  datatype World = World(
    maximum: nat,
    activeCount: int,
    queue: seq<Token>,
    running: set<Token>,           // fetches in flight
    releasing: set<Token>,         // settled fetches whose `finally` has not run
    settled: map<Token, Outcome>,  // settled promises whose continuation has not run
    finished: set<Token>,          // promises whose continuation has run
    aborted: set<Token>,
    timers: map<nat, Timer>,
    nextHandle: nat,
    nextSerial: nat)

  const ABORT_REJECTION := Rejected(Some("The polling task was aborted"))

  // ---------- Scheduler ----------

  /** Settling a promise a second time has no effect. */
  function Settle(w: World, t: Token, o: Outcome): World {
    if t in w.settled || t in w.finished then w else w.(settled := w.settled[t := o])
  }

  function Drain(w: World): World
    decreases |w.queue|
  {
    if w.activeCount >= w.maximum || w.queue == [] then w
    else
      var t := w.queue[0];
      var rest := w.(queue := w.queue[1..]);
      if t in w.aborted then Drain(Settle(rest, t, ABORT_REJECTION))
      else Drain(rest.(activeCount := w.activeCount + 1, running := w.running + {t}))
  }

  function Schedule(w: World, t: Token): World {
    if t in w.aborted then Settle(w, t, ABORT_REJECTION)
    else Drain(w.(queue := w.queue + [t]))
  }

  /** `queue.indexOf(t)`, with the length standing for "not found". */
  function IndexOf(queue: seq<Token>, t: Token): (i: nat)
    ensures i <= |queue|
    ensures forall k :: 0 <= k < i ==> queue[k] != t
    ensures i < |queue| ==> queue[i] == t
  {
    if queue == [] || queue[0] == t then 0 else 1 + IndexOf(queue[1..], t)
  }

  /** The abort listener that `schedule` registers. */
  function OnAbort(w: World, t: Token): World {
    var i := IndexOf(w.queue, t);
    if i == |w.queue| then w
    else Settle(w.(queue := w.queue[..i] + w.queue[i + 1..]), t, ABORT_REJECTION)
  }

  /** `AbortController.abort()`: raise the flag once and call the listener. */
  function Abort(w: World, t: Token): World {
    if t in w.aborted then w else OnAbort(w.(aborted := w.aborted + {t}), t)
  }

  /** The promise returned by `run()` settles; its slot is not free yet. */
  function RunSettled(w: World, t: Token, o: Outcome): World {
    if t !in w.running then w
    else Settle(w.(running := w.running - {t}, releasing := w.releasing + {t}), t, o)
  }

  /** The `finally` callback of a run. */
  function SlotReleased(w: World, t: Token): World {
    if t !in w.releasing then w
    else Drain(w.(releasing := w.releasing - {t}, activeCount := w.activeCount - 1))
  }

  // ---------- Clock ----------

  function SetTimeout(w: World, owner: nat, dueAt: int): (World, nat) {
    (w.(timers := w.timers[w.nextHandle := Timer(owner, dueAt)], nextHandle := w.nextHandle + 1), w.nextHandle)
  }

  function ClearTimeout(w: World, handle: nat): World {
    w.(timers := w.timers - {handle})
  }

  // ---------- Delays ----------

  function FailureBackoffMilliseconds(failedAttempts: int): int {
    if failedAttempts <= 1 then 20_000 else if failedAttempts == 2 then 40_000 else 60_000
  }

  /** `Math.round` on a real. */
  function Round(x: real): (r: int)
    ensures x - 0.5 < r as real <= x + 0.5
  {
    (x + 0.5).Floor
  }

  /** A random value of `None` stands for one that is not finite. */
  function JitterFactor(random: Option<real>): (factor: real)
    ensures 0.9 <= factor <= 1.1
  {
    var r := if random.None? then 0.5 else random.value;
    0.9 + (if r < 0.0 then 0.0 else if r > 1.0 then 1.0 else r) * 0.2
  }

  function Scale(interval: real, factor: real): real {
    interval * factor
  }

  lemma ScaleWithinTenth(interval: real, factor: real)
    requires 0.0 <= interval && 0.9 <= factor <= 1.1
    ensures interval * 0.9 <= Scale(interval, factor) <= interval * 1.1
  {
    var low, high := factor - 0.9, 1.1 - factor;
    assert 0.0 <= interval * low && 0.0 <= interval * high;
    assert interval * factor == interval * 0.9 + interval * low;
    assert interval * 1.1 == interval * factor + interval * high;
  }

  /** The delay stays within a tenth of the interval, up to rounding, whatever the random value. */
  function JitteredDelay(interval: real, random: Option<real>): (delay: int)
    requires 0.0 <= interval
    ensures interval * 0.9 - 0.5 < delay as real <= interval * 1.1 + 0.5
  {
    hide Scale;
    ScaleWithinTenth(interval, JitterFactor(random));
    Round(Scale(interval, JitterFactor(random)))
  }

  /** An interval of `None` stands for one that is not finite. */
  function JitteredIntervalMilliseconds(interval: Option<real>, random: Option<real>): (r: Result<int, string>)
    ensures r.Ok? <==> interval.Some? && 0.0 <= interval.value
    ensures r.Ok? ==> interval.value * 0.9 - 0.5 < r.value as real <= interval.value * 1.1 + 0.5
  {
    if interval.None? || interval.value < 0.0 then Err("intervalMilliseconds must be a non-negative finite number")
    else Ok(JitteredDelay(interval.value, random))
  }

  // ---------- Controller ----------

  datatype PauseReason = Hidden | Offline
  datatype Freshness = Empty | Fresh | Stale
  datatype Phase = Idle | Waiting | Polling | Paused

  datatype Snapshot = Snapshot(
    data: Option<Payload>,
    error: Option<string>,
    failedAttempts: nat,
    freshness: Freshness,
    lastAttemptAt: Option<int>,
    lastSuccessAt: Option<int>,
    nextAttemptAt: Option<int>,
    pauseReason: Option<PauseReason>,
    phase: Phase)

  type Interval = x: real | x > 0.0 witness 1.0

  datatype Controller = Controller(
    id: nat,
    interval: Interval,
    started: bool,
    subscribed: bool,
    timer: Option<nat>,
    active: Option<Token>,
    snapshot: Snapshot)

  datatype Gate = Gate(online: bool, visible: bool)

  /** The `initialData` option: absent, `null`, or a value. */
  datatype InitialData = Undefined | Null | Given(value: Payload)

  function InitialSnapshot(initial: InitialData): Snapshot {
    Snapshot(
      if initial.Given? then Some(initial.value) else None,
      None, 0, if initial.Undefined? then Empty else Stale,
      None, None, None, None, Idle)
  }

  function InitialController(id: nat, interval: Interval, initial: InitialData): Controller {
    Controller(id, interval, false, false, None, None, InitialSnapshot(initial))
  }

  function GateReason(gate: Gate): Option<PauseReason> {
    if !gate.online then Some(Offline) else if !gate.visible then Some(Hidden) else None
  }

  function ErrorMessage(reason: Option<string>): string {
    if reason.Some? then reason.value else "Polling failed"
  }

  function AgedFreshness(data: Option<Payload>): Freshness {
    if data.None? then Empty else Stale
  }

  function ClearTimer(c: Controller, w: World): (Controller, World) {
    if c.timer.None? then (c, w) else (c.(timer := None), ClearTimeout(w, c.timer.value))
  }

  function AbortActive(c: Controller, w: World): (Controller, World) {
    if c.active.None? then (c, w) else (c.(active := None), Abort(w, c.active.value))
  }

  function Arm(c: Controller, w: World, now: int, delay: int): (Controller, World) {
    if !c.started then (c, w)
    else
      var (c1, w1) := ClearTimer(c, w);
      var waiting := c1.snapshot.(nextAttemptAt := Some(now + delay), pauseReason := None, phase := Waiting);
      var (w2, handle) := SetTimeout(w1, c.id, now + delay);
      (c1.(snapshot := waiting, timer := Some(handle)), w2)
  }

  function Pause(c: Controller, w: World, reason: PauseReason): (Controller, World) {
    var (c1, w1) := ClearTimer(c, w);
    var (c2, w2) := AbortActive(c1, w1);
    var paused := c2.snapshot.(freshness := AgedFreshness(c2.snapshot.data),
                               nextAttemptAt := None, pauseReason := Some(reason), phase := Paused);
    (c2.(snapshot := paused), w2)
  }

  function HandleGateChange(c: Controller, w: World, gate: Gate, now: int): (Controller, World) {
    if !c.started then (c, w)
    else if GateReason(gate).Some? then Pause(c, w, GateReason(gate).value)
    else if c.snapshot.phase == Polling && c.active.Some? then (c, w)
    else Arm(c, w, now, 0)
  }

  function Start(c: Controller, w: World, gate: Gate, now: int): (Controller, World) {
    if c.started then (c, w)
    else HandleGateChange(c.(started := true, subscribed := true), w, gate, now)
  }

  function Stop(c: Controller, w: World): (Controller, World) {
    if !c.started then (c, w)
    else
      var (c1, w1) := ClearTimer(c.(started := false, subscribed := false), w);
      var (c2, w2) := AbortActive(c1, w1);
      (c2.(snapshot := c2.snapshot.(nextAttemptAt := None, pauseReason := None, phase := Idle)), w2)
  }

  function Refresh(c: Controller, w: World, gate: Gate, now: int): (Controller, World) {
    if !c.started then (c, w)
    else
      var (c1, w1) := AbortActive(c, w);
      var (c2, w2) := ClearTimer(c1, w1);
      HandleGateChange(c2, w2, gate, now)
  }

  /** The part of `#poll` up to its `await`. */
  function Poll(c: Controller, w: World, gate: Gate, now: int): (Controller, World) {
    if !c.started then (c, w)
    else if GateReason(gate).Some? then HandleGateChange(c, w, gate, now)
    else
      var t := Token(c.id, w.nextSerial);
      var polling := c.snapshot.(lastAttemptAt := Some(now), nextAttemptAt := None,
                                 pauseReason := None, phase := Polling);
      (c.(active := Some(t), snapshot := polling), Schedule(w.(nextSerial := w.nextSerial + 1), t))
  }

  /** The host fires the timer of controller `c`: the handle is spent before the callback runs. */
  function TimerFired(c: Controller, w: World, handle: nat, gate: Gate, now: int): (Controller, World) {
    Poll(c.(timer := None), w.(timers := w.timers - {handle}), gate, now)
  }

  /** A completed request changes a controller only while it is its current one. */
  predicate Accepts(c: Controller, t: Token) {
    c.started && c.active == Some(t)
  }

  function Succeed(c: Controller, w: World, data: Option<Payload>, now: int, random: Option<real>)
    : (Controller, World)
  {
    var renewed := Snapshot(data, None, 0, Fresh, c.snapshot.lastAttemptAt, Some(now), None, None, Waiting);
    Arm(c.(active := None, snapshot := renewed), w, now, JitteredIntervalMilliseconds(Some(c.interval), random).value)
  }

  function Fail(c: Controller, w: World, t: Token, reason: Option<string>, now: int): (Controller, World) {
    if t in w.aborted then (c.(active := None), w)
    else
      var failed := c.snapshot.failedAttempts + 1;
      var failing := c.snapshot.(error := Some(ErrorMessage(reason)), failedAttempts := failed,
                                 freshness := AgedFreshness(c.snapshot.data), phase := Waiting);
      Arm(c.(active := None, snapshot := failing), w, now, FailureBackoffMilliseconds(failed))
  }

  /** The part of `#poll` after its `await`, for the request `t` that settled with `o`. */
  function Continue(c: Controller, w: World, t: Token, o: Outcome, now: int, random: Option<real>)
    : (Controller, World)
  {
    if !Accepts(c, t) then (c, w)
    else match o
      case Resolved(data) => Succeed(c, w, data, now, random)
      case Rejected(reason) => Fail(c, w, t, reason, now)
  }

  /** The host runs the continuation of a settled promise. */
  function Delivered(c: Controller, w: World, t: Token, now: int, random: Option<real>): (Controller, World) {
    if t !in w.settled then (c, w)
    else Continue(c, w.(settled := w.settled - {t}, finished := w.finished + {t}), t, w.settled[t], now, random)
  }
}
