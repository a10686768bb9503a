/** Progress: events of the host that are due cannot go on for ever, and when none is due nobody is polling. */
module PollingProgress {
  import opened Wrappers
  import opened PollingModel
  import opened PollingSystem
  import opened PollingInvariant
  import opened PollingMoves

  // ---------- Every schedule ----------

  /** An event that the host owes: a fetch under way settles, a settled one frees its slot, a continuation runs. */
  predicate Due(s: System, step: Step) {
    match step
    case FetchSettles(t, _) => t in s.world.running
    case SlotFrees(t) => t in s.world.releasing
    case Continues(t, _, _) => t in s.world.settled && t.owner in s.controllers
    case _ => false
  }

  /** How many events the host owes at most: three for a task that has not settled, one for each half of a
      settled one. */
  function Work(w: World): nat {
    3 * |w.queue| + 3 * |w.running| + |w.releasing| + |w.settled|
  }

  lemma OneLess<T>(s: set<T>, x: T)
    requires x in s
    ensures |s - {x}| == |s| - 1
  {
  }

  lemma OneMore<T>(s: set<T>, x: T)
    requires x !in s
    ensures |s + {x}| == |s| + 1
  {
  }

  lemma SettlingIsWork(w: World, t: Token, o: Outcome)
    requires WorldOk(w) && t in w.running
    ensures Work(RunSettled(w, t, o)) == Work(w) - 1
  {
    hide RunSettled, WorldOk;
    RunningIsUnsettled(w, t);
    SettleKeepsSlots(w, t, o);
    OneLess(w.running, t);
    OneMore(w.releasing, t);
    OneMoreKey(w.settled, t, o);
  }

  lemma RunningIsUnsettled(w: World, t: Token)
    requires WorldOk(w) && t in w.running
    ensures t !in w.releasing && t !in w.settled
  {
  }

  lemma OneMoreKey<T, U>(m: map<T, U>, x: T, y: U)
    requires x !in m
    ensures |m[x := y]| == |m| + 1
  {
    assert m[x := y].Keys == m.Keys + {x};
  }

  lemma ReleasingIsWork(w: World, t: Token)
    requires WorldOk(w) && t in w.releasing
    ensures Work(SlotReleased(w, t)) == Work(w) - 1
  {
    hide SlotReleased, WorldOk;
    ReleaseStartsHead(w, t);
    OneLess(w.releasing, t);
    if w.queue != [] {
      HeadIsNotRunning(w);
      OneMore(w.running, w.queue[0]);
    }
  }

  lemma HeadIsNotRunning(w: World)
    requires WorldOk(w) && w.queue != []
    ensures w.queue[0] !in w.running
  {
    assert OnlyQueued(w, w.queue[0]);
  }

  lemma ContinuingIsWork(c: Controller, w: World, t: Token, now: int, random: Option<real>)
    requires t in w.settled
    ensures Work(Delivered(c, w, t, now, random).1) == Work(w) - 1
  {
    hide Delivered;
    DeliveredEffect(c, w, t, now, random);
    var w1 := Delivered(c, w, t, now, random).1;
    assert SansTimers(w1).settled == SansTimers(Consumed(w, t)).settled == w.settled - {t};
    assert w1.settled.Keys == w.settled.Keys - {t};
    OneLess(w.settled.Keys, t);
    assert SansTimers(w1).queue == w.queue && SansTimers(w1).running == w.running;
    assert SansTimers(w1).releasing == w.releasing;
  }

  /** Whatever event is due, and whatever its outcome, it does one piece of the work. */
  lemma DueIsWork(s: System, step: Step)
    requires Inv(s) && Due(s, step)
    ensures Work(Next(s, step).world) == Work(s.world) - 1
  {
    hide RunSettled, SlotReleased, Delivered, Work, WorldOk;
    match step
    case FetchSettles(t, o) => SettlingIsWork(s.world, t, o);
    case SlotFrees(t) => ReleasingIsWork(s.world, t);
    case Continues(t, now, random) => ContinuingIsWork(s.controllers[t.owner], s.world, t, now, random);
    case _ =>
  }

  /** Each step of the run is due when it comes. */
  predicate AllDue(s: System, steps: seq<Step>)
    decreases |steps|
  {
    steps == []
    || (var last := |steps| - 1; AllDue(s, steps[..last]) && Due(Run(s, steps[..last]), steps[last]))
  }

  /** Every run of due events, in any order and with any outcomes, takes as many events as it does work. */
  lemma {:induction false} DueRunIsWork(s: System, steps: seq<Step>)
    requires Inv(s) && AllDue(s, steps)
    ensures Inv(Run(s, steps)) && |steps| + Work(Run(s, steps).world) == Work(s.world)
    decreases |steps|
  {
    hide Inv, Next, Due, Work;
    if steps != [] {
      var last := |steps| - 1;
      DueRunIsWork(s, steps[..last]);
      DueIsWork(Run(s, steps[..last]), steps[last]);
      NextKeepsInv(Run(s, steps[..last]), steps[last]);
    }
  }

  /** While a controller polls, an event is due. */
  lemma PollingIsDue(s: System, id: nat) returns (step: Step)
    requires Inv(s) && id in s.controllers && s.controllers[id].snapshot.phase == Polling
    ensures Due(s, step)
  {
    hide WorldOk;
    assert PhaseOk(s.controllers[id]) && Linked(s.controllers[id], id, s.world);
    var t := s.controllers[id].active.value;
    if t in s.world.settled {
      step := Continues(t, 0, None);
    } else {
      if t !in s.world.running { BusyWhileQueued(s.world); }
      if s.world.running != {} {
        var u :| u in s.world.running;
        step := FetchSettles(u, Resolved(None));
      } else {
        var u :| u in s.world.releasing;
        step := SlotFrees(u);
      }
    }
  }

  /**
   From every reachable state, whatever order the due events come in and whatever the outcomes are: there are at most
   `Work` of them, and when no more is due, no controller is polling.
   */
  lemma PollingEnds(maximum: nat, past: seq<Step>, steps: seq<Step>)
    requires 1 <= maximum && AllDue(Run(InitialSystem(maximum), past), steps)
    ensures var s := Run(InitialSystem(maximum), past);
            var s1 := Run(s, steps);
            && |steps| <= Work(s.world)
            && ((forall step :: !Due(s1, step)) ==>
                  forall id :: id in s1.controllers ==> s1.controllers[id].snapshot.phase != Polling)
  {
    hide Inv, Run, Work, Due;
    ReachableInv(maximum, past);
    var s := Run(InitialSystem(maximum), past);
    DueRunIsWork(s, steps);
    var s1 := Run(s, steps);
    if id :| id in s1.controllers && s1.controllers[id].snapshot.phase == Polling {
      var step := PollingIsDue(s1, id);
    }
  }

  // ---------- A short schedule ----------

  /** A fetch settles, a slot is freed, or a continuation runs: nobody has to call anything. */
  predicate IsHostEvent(step: Step) {
    step.FetchSettles? || step.SlotFrees? || step.Continues?
  }

  lemma {:induction false} RunFirst(s: System, step: Step, rest: seq<Step>)
    ensures Run(s, [step] + rest) == Run(Next(s, step), rest)
    decreases |rest|
  {
    hide Next;
    if rest == [] {
      assert [step] + rest == [step] && [step][..0] == [];
    } else {
      var last := |rest| - 1;
      assert ([step] + rest)[..|rest|] == [step] + rest[..last];
      RunFirst(s, step, rest[..last]);
    }
  }

  /** The continuation of a settled request arms the timer of its controller. */
  lemma SettledArms(s: System, id: nat, now: int)
    requires Inv(s) && id in s.controllers && s.controllers[id].active.Some?
    requires s.controllers[id].active.value in s.world.settled
    ensures var s1 := Next(s, Continues(s.controllers[id].active.value, now, None));
            id in s1.controllers && s1.controllers[id].snapshot.phase == Waiting
  {
    hide JitteredIntervalMilliseconds, FailureBackoffMilliseconds, WorldOk;
    assert Linked(s.controllers[id], id, s.world);
  }

  /** A running fetch can settle, whatever its outcome; no controller changes. */
  lemma RunningSettles(s: System, t: Token, o: Outcome)
    requires Inv(s) && t in s.world.running
    ensures var s1 := Next(s, FetchSettles(t, o));
            && Inv(s1) && s1.controllers == s.controllers && s1.world.queue == s.world.queue
            && t in s1.world.releasing && t in s1.world.settled
  {
    hide Inv;
    NextKeepsInv(s, FetchSettles(t, o));
    InvKeepsWorld(s);
    SettleKeepsSlots(s.world, t, o);
  }

  /** A slot that is freed goes to the head of the queue. */
  lemma ReleaseStarts(s: System, u: Token)
    requires Inv(s) && u in s.world.releasing && s.world.queue != []
    ensures var s1 := Next(s, SlotFrees(u));
            && Inv(s1) && s1.controllers == s.controllers && s1.world.queue == s.world.queue[1..]
            && s.world.queue[0] in s1.world.running
  {
    hide Inv;
    NextKeepsInv(s, SlotFrees(u));
    InvKeepsWorld(s);
    ReleaseStartsHead(s.world, u);
  }

  lemma InvKeepsWorld(s: System)
    requires Inv(s)
    ensures WorldOk(s.world)
  {
  }

  lemma BusyWhileQueued(w: World)
    requires WorldOk(w) && w.queue != []
    ensures w.running != {} || w.releasing != {}
  {
  }

  /** Once a fetch of the request runs, it takes two events. */
  lemma RunningReturns(s: System, id: nat, now: int, o: Outcome) returns (steps: seq<Step>)
    requires Inv(s) && id in s.controllers && s.controllers[id].active.Some?
    requires s.controllers[id].active.value in s.world.running
    ensures |steps| == 2 && (forall step :: step in steps ==> IsHostEvent(step))
    ensures id in Run(s, steps).controllers && Run(s, steps).controllers[id].snapshot.phase == Waiting
  {
    hide Inv, Next;
    var t := s.controllers[id].active.value;
    RunningSettles(s, t, o);
    SettledArms(Next(s, FetchSettles(t, o)), id, now);
    steps := [FetchSettles(t, o)] + [Continues(t, now, None)];
    RunFirst(s, FetchSettles(t, o), [Continues(t, now, None)]);
    RunOne(Next(s, FetchSettles(t, o)), Continues(t, now, None));
  }

  lemma RunOne(s: System, step: Step)
    ensures Run(s, [step]) == Next(s, step)
  {
    hide Next;
    assert [step][..0] == [];
  }

  /** Behind `k` others in the queue, it takes at most two events for each of them, and four more. */
  lemma {:induction false} QueuedReturns(s: System, id: nat, k: nat, now: int, o: Outcome) returns (steps: seq<Step>)
    requires Inv(s) && id in s.controllers && k < |s.world.queue| && s.controllers[id].active == Some(s.world.queue[k])
    ensures |steps| <= 2 * k + 4 && (forall step :: step in steps ==> IsHostEvent(step))
    ensures id in Run(s, steps).controllers && Run(s, steps).controllers[id].snapshot.phase == Waiting
    decreases k, 1
  {
    hide Inv, Next, Run, WorldOk;
    InvKeepsWorld(s);
    BusyWhileQueued(s.world);
    if s.world.releasing == {} {
      var u :| u in s.world.running;
      RunningSettles(s, u, o);
      var rest := QueuedReturnsReleasing(Next(s, FetchSettles(u, o)), id, k, u, now, o);
      RunFirst(s, FetchSettles(u, o), rest);
      steps := [FetchSettles(u, o)] + rest;
    } else {
      var u :| u in s.world.releasing;
      steps := QueuedReturnsReleasing(s, id, k, u, now, o);
    }
  }

  lemma {:induction false} QueuedReturnsReleasing(s: System, id: nat, k: nat, u: Token, now: int, o: Outcome)
    returns (steps: seq<Step>)
    requires Inv(s) && id in s.controllers && k < |s.world.queue| && s.controllers[id].active == Some(s.world.queue[k])
    requires u in s.world.releasing
    ensures |steps| <= 2 * k + 3 && (forall step :: step in steps ==> IsHostEvent(step))
    ensures id in Run(s, steps).controllers && Run(s, steps).controllers[id].snapshot.phase == Waiting
    decreases k, 0
  {
    hide Inv, Next, Run;
    ReleaseStarts(s, u);
    var s1, rest := Next(s, SlotFrees(u)), [];
    if k == 0 {
      rest := RunningReturns(s1, id, now, o);
    } else {
      rest := QueuedReturns(s1, id, k - 1, now, o);
    }
    RunFirst(s, SlotFrees(u), rest);
    steps := [SlotFrees(u)] + rest;
  }

  /**
   From every state that the system can reach, some host events bring a controller that polls back to waiting, and
   the number of events that it takes at best depends on the length of the queue only.
   */
  lemma PollReturns(maximum: nat, past: seq<Step>, id: nat, now: int, o: Outcome) returns (steps: seq<Step>)
    requires 1 <= maximum
    requires var s := Run(InitialSystem(maximum), past);
             id in s.controllers && s.controllers[id].snapshot.phase == Polling
    ensures var s := Run(InitialSystem(maximum), past);
            && |steps| <= 2 * |s.world.queue| + 2 && (forall step :: step in steps ==> IsHostEvent(step))
            && id in Run(s, steps).controllers && Run(s, steps).controllers[id].snapshot.phase == Waiting
  {
    hide Next, Run, WorldOk;
    ReachableInv(maximum, past);
    var s := Run(InitialSystem(maximum), past);
    assert PhaseOk(s.controllers[id]) && Linked(s.controllers[id], id, s.world);
    var t := s.controllers[id].active.value;
    if t in s.world.settled {
      SettledArms(s, id, now);
      steps := [Continues(t, now, None)];
      RunOne(s, steps[0]);
    } else if t in s.world.running {
      steps := RunningReturns(s, id, now, o);
    } else {
      var k :| 0 <= k < |s.world.queue| && s.world.queue[k] == t;
      steps := QueuedReturns(s, id, k, now, o);
    }
  }
}
