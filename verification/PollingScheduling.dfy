/** The scheduler on its own: the same promises for tasks of any caller, with or without an abort signal. */
module PollingScheduling {
  import opened PollingModel
  import opened PollingSystem
  import opened PollingInvariant
  import opened PollingMoves
  import opened PollingRuns

  /** What the scheduler's functions do for a call or event; a task without a signal is one that nobody aborts. */
  function Effect(w: World, m: Move): World {
    match m
    case Quiet => w
    case Aborts(t) => Abort(w, t)
    case Requests(t) => Schedule(w.(nextSerial := w.nextSerial + 1), t)
    case Settles(t, o) => RunSettled(w, t, o)
    case Frees(t) => SlotReleased(w, t)
    case Consumes(t) => Consumed(w, t)
  }

  /** The calls and events of a run, in any order, by any number of callers; those that cannot come change nothing. */
  ghost function AfterCalls(w: World, calls: seq<Move>): World
    decreases |calls|
  {
    if calls == [] then w
    else
      var before := AfterCalls(w, calls[..|calls| - 1]);
      if Enabled(before, calls[|calls| - 1]) then Effect(before, calls[|calls| - 1]) else before
  }

  lemma EffectIsMove(w: World, m: Move)
    requires WorldOk(w) && Enabled(w, m)
    ensures Effect(w, m) == Moved(w, m) && WorldOk(Effect(w, m))
  {
    hide Schedule, Abort, RunSettled, SlotReleased, SlotsOk;
    match m
    case Quiet =>
    case Aborts(t) => AbortDequeues(w, t);
    case Requests(t) =>
      NewSerialIsUnused(w, t.owner);
      ScheduleStartsOrQueues(w.(nextSerial := w.nextSerial + 1), t);
    case Settles(t, o) => SettleKeepsSlots(w, t, o);
    case Frees(t) => ReleaseStartsHead(w, t);
    case Consumes(t) => ConsumedKeepsWorld(w, t);
  }

  /** Whoever schedules, slots are never over-committed and never idle while a task waits. */
  lemma {:induction false} CallsKeepWorld(w: World, calls: seq<Move>)
    requires WorldOk(w)
    ensures WorldOk(AfterCalls(w, calls)) && AfterCalls(w, calls).nextSerial >= w.nextSerial
    decreases |calls|
  {
    hide WorldOk, Enabled, Effect, Moved;
    if calls != [] {
      var last := |calls| - 1;
      CallsKeepWorld(w, calls[..last]);
      var before := AfterCalls(w, calls[..last]);
      if Enabled(before, calls[last]) {
        EffectIsMove(before, calls[last]);
        MoveGrows(before, calls[last]);
      }
    }
  }

  lemma MoveGrows(w: World, m: Move)
    ensures Moved(w, m).nextSerial >= w.nextSerial
  {
  }

  lemma QueuedIsOld(w: World, calls: seq<Move>, t: Token)
    requires WorldOk(w) && t in w.queue
    ensures t.serial < AfterCalls(w, calls).nextSerial
  {
    CallsKeepWorld(w, calls);
    assert OnlyQueued(w, t);
  }

  /** Of two queued tasks of any callers, the earlier one leaves the queue first, unless the later one is aborted. */
  lemma {:induction false} CallersStartInOrder(w: World, calls: seq<Move>, a: Token, b: Token)
    requires WorldOk(w) && Before(w.queue, a, b)
    ensures var w1 := AfterCalls(w, calls); a !in w1.queue || b in w1.aborted || Before(w1.queue, a, b)
    decreases |calls|
  {
    hide WorldOk, Enabled, Effect, Moved;
    if calls != [] {
      var last := |calls| - 1;
      CallersStartInOrder(w, calls[..last], a, b);
      CallsKeepWorld(w, calls[..last]);
      var w0 := AfterCalls(w, calls[..last]);
      if Enabled(w0, calls[last]) {
        EffectIsMove(w0, calls[last]);
        if a !in w0.queue {
          QueuedIsOld(w, calls[..last], a);
          NeverQueuedAgain(w0, calls[last], a);
        } else if b in w0.aborted {
          StaysAborted(w0, calls[last], b);
        } else {
          MoveKeepsOrder(w0, calls[last], a, b);
        }
      }
    }
  }

  lemma StaysAborted(w: World, m: Move, t: Token)
    requires t in w.aborted
    ensures t in Moved(w, m).aborted
  {
  }

  ghost function ReleasesOf(w: World, calls: seq<Move>): nat
    decreases |calls|
  {
    if calls == [] then 0
    else
      var last := |calls| - 1;
      var before := AfterCalls(w, calls[..last]);
      ReleasesOf(w, calls[..last]) + (if calls[last].Frees? && Enabled(before, calls[last]) then 1 else 0)
  }

  /** The task runs, or its run has come to an end. */
  ghost predicate HasStarted(w: World, t: Token) {
    t in w.running || t in w.releasing || t in w.settled || t in w.finished
  }

  lemma StaysStarted(w: World, m: Move, t: Token)
    requires WorldOk(w) && Enabled(w, m) && HasStarted(w, t)
    ensures HasStarted(Moved(w, m), t)
  {
  }

  lemma {:induction false} CallersWaitAtMost(w: World, calls: seq<Move>, t: Token)
    requires WorldOk(w) && t in w.queue
    ensures var w1 := AfterCalls(w, calls);
            t in w1.aborted
            || (if t in w1.queue then IndexOf(w1.queue, t) + ReleasesOf(w, calls) <= IndexOf(w.queue, t)
                else HasStarted(w1, t))
    decreases |calls|
  {
    hide WorldOk, Enabled, Effect, Moved;
    if calls != [] {
      var last := |calls| - 1;
      CallersWaitAtMost(w, calls[..last], t);
      CallsKeepWorld(w, calls[..last]);
      var w0 := AfterCalls(w, calls[..last]);
      if Enabled(w0, calls[last]) {
        EffectIsMove(w0, calls[last]);
        if t in w0.aborted {
          StaysAborted(w0, calls[last], t);
        } else if t in w0.queue {
          MoveAdvances(w0, calls[last], t);
        } else {
          QueuedIsOld(w, calls[..last], t);
          NeverQueuedAgain(w0, calls[last], t);
          StaysStarted(w0, calls[last], t);
        }
      }
    }
  }

  /** A task of any caller with `k` tasks before it has started after `k + 1` slot releases, unless it was aborted. */
  lemma CallersStartAfterReleases(w: World, calls: seq<Move>, k: nat)
    requires WorldOk(w) && k < |w.queue| && ReleasesOf(w, calls) >= k + 1
    ensures var t, w1 := w.queue[k], AfterCalls(w, calls);
            t in w1.aborted || (t !in w1.queue && HasStarted(w1, t))
  {
    hide AfterCalls, ReleasesOf;
    assert w.queue[k] in w.queue;
    CallersWaitAtMost(w, calls, w.queue[k]);
    IndexOfMember(w.queue, k);
  }
}
