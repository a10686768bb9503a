/**
 The classes of `polling.ts`. Each method updates its object in place as the source does, and is
 proved to make exactly the transition that `PollingModel` defines for it.
 */
module PollingClasses {
  import opened Wrappers
  import opened PollingModel

  /** The host services the code uses: timers, abort flags, fetches and promise continuations. */
  class PollingHost {
    var timers: map<nat, Timer>
    var nextHandle: nat
    var nextSerial: nat
    var aborted: set<Token>
    var running: set<Token>
    var releasing: set<Token>
    var settled: map<Token, Outcome>
    var finished: set<Token>

    constructor ()
      ensures timers == map[] && nextHandle == 0 && nextSerial == 0 && aborted == {}
      ensures running == {} && releasing == {} && settled == map[] && finished == {}
    {
      timers, nextHandle, nextSerial, aborted := map[], 0, 0, {};
      running, releasing, settled, finished := {}, {}, map[], {};
    }

    method SetTimeout(owner: nat, dueAt: int) returns (handle: nat)
      modifies `timers, `nextHandle
      ensures handle == old(nextHandle) && nextHandle == old(nextHandle) + 1
      ensures timers == old(timers)[handle := Timer(owner, dueAt)]
    {
      handle := nextHandle;
      timers := timers[handle := Timer(owner, dueAt)];
      nextHandle := nextHandle + 1;
    }

    method ClearTimeout(handle: nat)
      modifies `timers
      ensures timers == old(timers) - {handle}
    {
      timers := timers - {handle};
    }

    /** Resolve or reject the promise of a request; only the first call counts. */
    method SettlePromise(t: Token, o: Outcome)
      modifies `settled
      ensures settled == if t in old(settled) || t in finished then old(settled) else old(settled)[t := o]
    {
      if t !in settled && t !in finished {
        settled := settled[t := o];
      }
    }
  }

  const MAX_SAFE_INTEGER: int := 0x1F_FFFF_FFFF_FFFF

  class BoundedPollingScheduler {
    const maximumConcurrent: nat
    const host: PollingHost
    var activeCount: int
    var queue: seq<Token>

    constructor (maximumConcurrent: nat, host: PollingHost)
      ensures this.maximumConcurrent == maximumConcurrent && this.host == host
      ensures activeCount == 0 && queue == []
    {
      this.maximumConcurrent, this.host := maximumConcurrent, host;
      activeCount, queue := 0, [];
    }

    /** The source's constructor, whose argument check may throw a `RangeError`. */
    static method Create(maximumConcurrent: int, host: PollingHost) returns (r: Result<BoundedPollingScheduler, string>)
      ensures r.Ok? <==> 1 <= maximumConcurrent <= 9_007_199_254_740_991
      ensures r.Ok? ==> fresh(r.value) && r.value.host == host && r.value.maximumConcurrent == maximumConcurrent
                        && r.value.activeCount == 0 && r.value.queue == []
    {
      if maximumConcurrent < 1 || maximumConcurrent > MAX_SAFE_INTEGER {
        return Err("maximumConcurrent must be a positive safe integer");
      }
      var scheduler := new BoundedPollingScheduler(maximumConcurrent, host);
      return Ok(scheduler);
    }

    ghost function View(): World
      reads this, host
    {
      World(maximumConcurrent, activeCount, queue, host.running, host.releasing, host.settled, host.finished,
            host.aborted, host.timers, host.nextHandle, host.nextSerial)
    }

    method Schedule(t: Token)
      modifies this, host
      ensures View() == PollingModel.Schedule(old(View()), t)
    {
      if t in host.aborted {
        host.SettlePromise(t, ABORT_REJECTION);
        return;
      }
      queue := queue + [t];
      Drain();
    }

    method Drain()
      modifies this, host
      ensures View() == PollingModel.Drain(old(View()))
    {
      while activeCount < maximumConcurrent
        invariant PollingModel.Drain(View()) == PollingModel.Drain(old(View()))
        decreases |queue|
      {
        if queue == [] {
          return;
        }
        var t := queue[0];
        queue := queue[1..];
        if t in host.aborted {
          host.SettlePromise(t, ABORT_REJECTION);
          continue;
        }
        activeCount := activeCount + 1;
        host.running := host.running + {t};
      }
    }

    /** The `abort` listener of a scheduled task. */
    method OnAbort(t: Token)
      modifies this, host
      ensures View() == PollingModel.OnAbort(old(View()), t)
    {
      var index := IndexOf(queue, t);
      if index == |queue| {
        return;
      }
      queue := queue[..index] + queue[index + 1..];
      host.SettlePromise(t, ABORT_REJECTION);
    }

    /** `abort()` on the request's `AbortController`, which calls the listener above. */
    method Abort(t: Token)
      modifies this, host
      ensures View() == PollingModel.Abort(old(View()), t)
    {
      if t !in host.aborted {
        host.aborted := host.aborted + {t};
        OnAbort(t);
      }
    }

    /** The promise of a run settles: first the task's own promise is settled. */
    method RunSettled(t: Token, o: Outcome)
      modifies this, host
      ensures View() == PollingModel.RunSettled(old(View()), t, o)
    {
      if t in host.running {
        host.running := host.running - {t};
        host.releasing := host.releasing + {t};
        host.SettlePromise(t, o);
      }
    }

    /** Then the `finally` callback frees the slot and drains. */
    method SlotReleased(t: Token)
      modifies this, host
      ensures View() == PollingModel.SlotReleased(old(View()), t)
    {
      if t in host.releasing {
        host.releasing := host.releasing - {t};
        activeCount := activeCount - 1;
        Drain();
      }
    }
  }

  class PollingController {
    const id: nat
    const intervalMilliseconds: Interval
    const scheduler: BoundedPollingScheduler
    var activeAbortController: Option<Token>
    var subscribedToGate: bool
    var started: bool
    var timeoutHandle: Option<nat>
    var snapshot: Snapshot

    constructor (id: nat, intervalMilliseconds: Interval, scheduler: BoundedPollingScheduler, initial: InitialData)
      ensures this.scheduler == scheduler
      ensures View() == InitialController(id, intervalMilliseconds, initial)
    {
      this.id, this.intervalMilliseconds, this.scheduler := id, intervalMilliseconds, scheduler;
      activeAbortController, subscribedToGate, started, timeoutHandle := None, false, false, None;
      snapshot := InitialSnapshot(initial);
    }

    /** The source's constructor, whose argument check may throw a `RangeError`; `None` is an interval that
        is not finite. */
    static method Create(id: nat, intervalMilliseconds: Option<real>, scheduler: BoundedPollingScheduler,
                         initial: InitialData)
      returns (r: Result<PollingController, string>)
      ensures r.Ok? <==> intervalMilliseconds.Some? && intervalMilliseconds.value > 0.0
      ensures r.Ok? ==> fresh(r.value) && r.value.scheduler == scheduler
                        && r.value.View() == InitialController(id, intervalMilliseconds.value, initial)
    {
      if intervalMilliseconds.None? || intervalMilliseconds.value <= 0.0 {
        return Err("intervalMilliseconds must be a positive finite number");
      }
      var controller := new PollingController(id, intervalMilliseconds.value, scheduler, initial);
      return Ok(controller);
    }

    ghost function View(): Controller
      reads this
    {
      Controller(id, intervalMilliseconds, started, subscribedToGate, timeoutHandle, activeAbortController, snapshot)
    }

    method Start(gate: Gate, now: int)
      modifies this, scheduler, scheduler.host
      ensures (View(), scheduler.View()) == PollingModel.Start(old(View()), old(scheduler.View()), gate, now)
    {
      if started {
        return;
      }
      started := true;
      subscribedToGate := true;
      HandleGateChange(gate, now);
    }

    method Stop()
      modifies this, scheduler, scheduler.host
      ensures (View(), scheduler.View()) == PollingModel.Stop(old(View()), old(scheduler.View()))
    {
      if !started {
        return;
      }
      started := false;
      subscribedToGate := false;
      ClearTimer();
      AbortActive();
      snapshot := snapshot.(nextAttemptAt := None, pauseReason := None, phase := Idle);
    }

    method Refresh(gate: Gate, now: int)
      modifies this, scheduler, scheduler.host
      ensures (View(), scheduler.View()) == PollingModel.Refresh(old(View()), old(scheduler.View()), gate, now)
    {
      if !started {
        return;
      }
      AbortActive();
      ClearTimer();
      HandleGateChange(gate, now);
    }

    method HandleGateChange(gate: Gate, now: int)
      modifies this, scheduler, scheduler.host
      ensures (View(), scheduler.View()) == PollingModel.HandleGateChange(old(View()), old(scheduler.View()), gate, now)
    {
      if !started {
        return;
      }
      var reason := GateReason(gate);
      if reason.Some? {
        ClearTimer();
        AbortActive();
        snapshot := snapshot.(freshness := AgedFreshness(snapshot.data), nextAttemptAt := None,
                              pauseReason := reason, phase := Paused);
        return;
      }
      if snapshot.phase == Polling && activeAbortController.Some? {
        return;
      }
      Arm(now, 0);
    }

    method Arm(now: int, delay: int)
      modifies this, scheduler, scheduler.host
      ensures (View(), scheduler.View()) == PollingModel.Arm(old(View()), old(scheduler.View()), now, delay)
    {
      if !started {
        return;
      }
      ClearTimer();
      snapshot := snapshot.(nextAttemptAt := Some(now + delay), pauseReason := None, phase := Waiting);
      var handle := scheduler.host.SetTimeout(id, now + delay);
      timeoutHandle := Some(handle);
    }

    method ClearTimer()
      modifies this, scheduler.host
      ensures (View(), scheduler.View()) == PollingModel.ClearTimer(old(View()), old(scheduler.View()))
    {
      if timeoutHandle.None? {
        return;
      }
      scheduler.host.ClearTimeout(timeoutHandle.value);
      timeoutHandle := None;
    }

    method AbortActive()
      modifies this, scheduler, scheduler.host
      ensures (View(), scheduler.View()) == PollingModel.AbortActive(old(View()), old(scheduler.View()))
    {
      if activeAbortController.Some? {
        scheduler.Abort(activeAbortController.value);
        activeAbortController := None;
      }
    }

    /** The timer callback: the host has removed the timer, the callback forgets it and polls. */
    method OnTimer(handle: nat, gate: Gate, now: int)
      modifies this, scheduler, scheduler.host
      ensures (View(), scheduler.View()) ==
              PollingModel.TimerFired(old(View()), old(scheduler.View()), handle, gate, now)
    {
      scheduler.host.ClearTimeout(handle);
      timeoutHandle := None;
      Poll(gate, now);
    }

    /** `#poll` up to its `await`. */
    method Poll(gate: Gate, now: int)
      modifies this, scheduler, scheduler.host
      ensures (View(), scheduler.View()) == PollingModel.Poll(old(View()), old(scheduler.View()), gate, now)
    {
      if !started {
        return;
      }
      var reason := GateReason(gate);
      if reason.Some? {
        HandleGateChange(gate, now);
        return;
      }
      var abortController := Token(id, scheduler.host.nextSerial);
      scheduler.host.nextSerial := scheduler.host.nextSerial + 1;
      activeAbortController := Some(abortController);
      snapshot := snapshot.(lastAttemptAt := Some(now), nextAttemptAt := None, pauseReason := None, phase := Polling);
      scheduler.Schedule(abortController);
    }

    /** `#poll` after its `await`: the continuation of a settled request runs. */
    method ContinuePoll(abortController: Token, now: int, random: Option<real>)
      modifies this, scheduler, scheduler.host
      ensures (View(), scheduler.View()) ==
              PollingModel.Delivered(old(View()), old(scheduler.View()), abortController, now, random)
    {
      var host := scheduler.host;
      if abortController !in host.settled {
        return;
      }
      var outcome := host.settled[abortController];
      host.settled := host.settled - {abortController};
      host.finished := host.finished + {abortController};
      if !started || activeAbortController != Some(abortController) {
        return;
      }
      activeAbortController := None;
      match outcome
      case Resolved(data) =>
        snapshot := Snapshot(data, None, 0, Fresh, snapshot.lastAttemptAt, Some(now), None, None, Waiting);
        Arm(now, JitteredIntervalMilliseconds(Some(intervalMilliseconds), random).value);
      case Rejected(reason) =>
        if abortController in host.aborted {
          return;
        }
        var failedAttempts := snapshot.failedAttempts + 1;
        snapshot := snapshot.(error := Some(ErrorMessage(reason)), failedAttempts := failedAttempts,
                              freshness := AgedFreshness(snapshot.data), phase := Waiting);
        Arm(now, FailureBackoffMilliseconds(failedAttempts));
    }
  }
}
