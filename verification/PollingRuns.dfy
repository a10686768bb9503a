/** What holds over whole runs of the polling system, for any number of controllers. */
module PollingRuns {
  import opened Wrappers
  import opened PollingModel
  import opened PollingSystem
  import opened PollingInvariant
  import opened PollingMoves

  // ---------- States ----------

  /** A started controller that is not paused waits on a live timer or on a live request. */
  lemma NeverStuck(maximum: nat, steps: seq<Step>, id: nat)
    requires 1 <= maximum
    requires id in Run(InitialSystem(maximum), steps).controllers
    ensures var s := Run(InitialSystem(maximum), steps);
            var c := s.controllers[id];
            && (c.started && c.snapshot.phase != Paused ==>
                  if c.snapshot.phase == Waiting
                  then c.timer.Some? && c.timer.value in s.world.timers
                       && s.world.timers[c.timer.value].owner == id
                       && c.snapshot.nextAttemptAt == Some(s.world.timers[c.timer.value].dueAt)
                  else c.active.Some? && Live(s.world, c.active.value))
            && (c.active.Some? && c.active.value in s.world.queue ==>
                  s.world.running + s.world.releasing != {})
  {
    ReachableInv(maximum, steps);
    var s := Run(InitialSystem(maximum), steps);
    assert Linked(s.controllers[id], id, s.world);
    assert s.world.queue != [] ==> |s.world.running| + |s.world.releasing| >= 1;
  }

  /** The request a controller still waits for is never aborted, so a failed poll always re-arms. */
  lemma AcceptedRequestIsNotAborted(maximum: nat, steps: seq<Step>, id: nat, t: Token)
    requires 1 <= maximum
    requires id in Run(InitialSystem(maximum), steps).controllers
    requires Accepts(Run(InitialSystem(maximum), steps).controllers[id], t)
    ensures t !in Run(InitialSystem(maximum), steps).world.aborted
  {
    ReachableInv(maximum, steps);
    var s := Run(InitialSystem(maximum), steps);
    assert Linked(s.controllers[id], id, s.world);
  }

  lemma {:induction false} MaximumIsFixed(s: System, steps: seq<Step>)
    requires Inv(s)
    ensures Run(s, steps).world.maximum == s.world.maximum
    decreases |steps|
  {
    hide Next, Inv;
    if steps != [] {
      var last := |steps| - 1;
      MaximumIsFixed(s, steps[..last]);
      RunKeepsInv(s, steps[..last]);
      var m := NextIsMove(Run(s, steps[..last]), steps[last]);
    }
  }

  /** Slots are never over-committed, never idle while a task waits, and shared fairly: one queued task each. */
  lemma SlotsAreExclusive(maximum: nat, steps: seq<Step>)
    requires 1 <= maximum
    ensures var w := Run(InitialSystem(maximum), steps).world;
            && |w.running + w.releasing| == w.activeCount <= maximum
            && (w.queue != [] ==> w.activeCount == maximum)
            && (forall i, j :: 0 <= i < j < |w.queue| ==> w.queue[i].owner != w.queue[j].owner)
            && (forall t :: t in w.queue ==> t !in w.aborted)
  {
    ReachableInv(maximum, steps);
    var s := Run(InitialSystem(maximum), steps);
    var w := s.world;
    MaximumIsFixed(InitialSystem(maximum), steps);
    QueueNotAborted(w);
    forall i, j | 0 <= i < j < |w.queue|
      ensures w.queue[i].owner != w.queue[j].owner
    {
      assert w.queue[i] in w.queue && w.queue[j] in w.queue;
    }
  }

  // ---------- Requests over time ----------

  /** The request was issued and is no controller's current one. */
  ghost predicate Superseded(s: System, t: Token) {
    t.serial < s.world.nextSerial && (forall id :: id in s.controllers ==> s.controllers[id].active != Some(t))
  }

  /** No step can undo this. */
  lemma SupersededStays(s: System, step: Step, t: Token)
    requires Inv(s) && Superseded(s, t)
    ensures Superseded(Next(s, step), t)
  {
    hide Next, Inv;
    var m := NextIsMove(s, step);
    var s1 := Next(s, step);
    forall id | id in s1.controllers
      ensures s1.controllers[id].active != Some(t)
    {
      assert id in s.controllers ==> s.controllers[id].active != Some(t);
      assert id in s.controllers ==> FollowsMove(s.controllers[id].active, s1.controllers[id].active, id, s.world, m);
    }
  }

  lemma {:induction false} RunKeepsSuperseded(s: System, steps: seq<Step>, t: Token)
    requires Inv(s) && Superseded(s, t)
    ensures Superseded(Run(s, steps), t)
    decreases |steps|
  {
    if steps != [] {
      var last := |steps| - 1;
      RunKeepsSuperseded(s, steps[..last], t);
      RunKeepsInv(s, steps[..last]);
      SupersededStays(Run(s, steps[..last]), steps[last], t);
    }
  }

  /** The calls and events that take a controller's current request away from it. */
  predicate Interrupts(s: System, step: Step, id: nat) {
    match step
    case StopCalled(k) => k == id
    case RefreshCalled(k, gate, now) => k == id
    case GateChanged(k, gate, now) => k == id && GateReason(gate).Some?
    case _ => false
  }

  /**
   However a run goes on after a refresh, a pause or a stop, the completion of the interrupted
   request changes no controller: neither its own, restarted or not, nor another.
   */
  lemma StaleResultIsIgnored(s: System, id: nat, interruption: Step, steps: seq<Step>, now: int, random: Option<real>)
    requires Inv(s) && id in s.controllers && s.controllers[id].active.Some?
    requires Interrupts(s, interruption, id)
    ensures var t := s.controllers[id].active.value;
            var later := Run(Next(s, interruption), steps);
            Next(later, Continues(t, now, random)).controllers == later.controllers
  {
    hide Inv, Next, Interrupts, Superseded;
    var t := s.controllers[id].active.value;
    InterruptedIsSuperseded(s, id, interruption);
    NextKeepsInv(s, interruption);
    RunKeepsSuperseded(Next(s, interruption), steps, t);
    SupersededIsIgnored(Run(Next(s, interruption), steps), t, now, random);
  }

  lemma SupersededIsIgnored(s: System, t: Token, now: int, random: Option<real>)
    requires Superseded(s, t)
    ensures Next(s, Continues(t, now, random)).controllers == s.controllers
  {
    if t in s.world.settled && t.owner in s.controllers {
      assert s.controllers[t.owner := s.controllers[t.owner]] == s.controllers;
    }
  }

  lemma InterruptedIsSuperseded(s: System, id: nat, interruption: Step)
    requires Inv(s) && id in s.controllers && s.controllers[id].active.Some?
    requires Interrupts(s, interruption, id)
    ensures Superseded(Next(s, interruption), s.controllers[id].active.value)
    ensures s.controllers[id].active.value in Next(s, interruption).world.aborted
  {
    var t := s.controllers[id].active.value;
    assert Linked(s.controllers[id], id, s.world);
    var s1 := Next(s, interruption);
    assert s1.controllers[id].active.None?;
    var m := NextIsMove(s, interruption);
    assert FollowsMove(s.controllers[id].active, s1.controllers[id].active, id, s.world, m);
    forall k | k in s1.controllers
      ensures s1.controllers[k].active != Some(t)
    {
      assert k in s.controllers ==> Linked(s.controllers[k], k, s.world);
      assert k in s.controllers ==> FollowsMove(s.controllers[k].active, s1.controllers[k].active, k, s.world, m);
    }
  }

  // ---------- Tasks over time ----------

  /** The task left the queue without starting, so `run` has not been and will not be called. */
  ghost predicate NeverToRun(w: World, t: Token) {
    t.serial < w.nextSerial && t !in w.queue && t !in w.running
  }

  lemma NextKeepsNeverToRun(s: System, step: Step, t: Token)
    requires Inv(s) && NeverToRun(s.world, t)
    ensures NeverToRun(Next(s, step).world, t)
  {
    var m := NextIsMove(s, step);
    if m.Aborts? { WithoutIsRemoval(s.world.queue, m.t); }
  }

  lemma {:induction false} NeverToRunStays(s: System, steps: seq<Step>, t: Token)
    requires Inv(s) && NeverToRun(s.world, t)
    ensures NeverToRun(Run(s, steps).world, t)
    decreases |steps|
  {
    if steps != [] {
      var last := |steps| - 1;
      NeverToRunStays(s, steps[..last], t);
      RunKeepsInv(s, steps[..last]);
      NextKeepsNeverToRun(Run(s, steps[..last]), steps[last], t);
    }
  }

  /** A task aborted while it waits in the queue leaves it, is rejected at once, and never runs. */
  lemma AbortedWhileQueuedNeverRuns(s: System, step: Step, steps: seq<Step>, t: Token)
    requires Inv(s) && t in s.world.queue && t in Next(s, step).world.aborted
    ensures t in Next(s, step).world.settled && Next(s, step).world.settled[t] == ABORT_REJECTION
    ensures NeverToRun(Run(Next(s, step), steps).world, t)
  {
    hide Inv, Next, NeverToRun, Moved, Enabled, WorldOk;
    InvWorld(s);
    var m := NextIsMove(s, step);
    AbortOfQueued(s.world, m, t);
    NextKeepsInv(s, step);
    NeverToRunStays(Next(s, step), steps, t);
  }

  lemma InvWorld(s: System)
    requires Inv(s)
    ensures WorldOk(s.world)
  {
  }

  lemma AbortOfQueued(w: World, m: Move, t: Token)
    requires WorldOk(w) && Enabled(w, m) && t in w.queue && t in Moved(w, m).aborted
    ensures t in Moved(w, m).settled && Moved(w, m).settled[t] == ABORT_REJECTION && NeverToRun(Moved(w, m), t)
  {
    assert OnlyQueued(w, t);
    assert m == Aborts(t);
    WithoutIsRemoval(w.queue, t);
  }

  /** The promise keeps its outcome until its continuation runs, and is then done. */
  ghost predicate OutcomeStands(w: World, t: Token, w1: World) {
    if t in w.settled && t !in w1.finished then t in w1.settled && w1.settled[t] == w.settled[t]
    else t in w1.finished && t !in w1.settled
  }

  lemma NextKeepsOutcome(s: System, step: Step, t: Token)
    requires Inv(s) && (t in s.world.settled || t in s.world.finished)
    ensures OutcomeStands(s.world, t, Next(s, step).world)
  {
    var m := NextIsMove(s, step);
    MoveKeepsOutcome(s.world, m, t);
  }

  lemma MoveKeepsOutcome(w: World, m: Move, t: Token)
    requires WorldOk(w) && Enabled(w, m) && (t in w.settled || t in w.finished)
    ensures OutcomeStands(w, t, Moved(w, m))
  {
    match m
    case Aborts(u) => assert u in w.queue ==> OnlyQueued(w, u);
    case Settles(u, o) => assert u !in w.settled && u !in w.finished;
    case _ =>
  }

  /** Every promise settles at most once, with an outcome that stands, and continues at most once. */
  lemma {:induction false} SettlesOnce(s: System, steps: seq<Step>, t: Token)
    requires Inv(s) && (t in s.world.settled || t in s.world.finished)
    ensures OutcomeStands(s.world, t, Run(s, steps).world)
    decreases |steps|
  {
    if steps != [] {
      var last := |steps| - 1;
      SettlesOnce(s, steps[..last], t);
      RunKeepsInv(s, steps[..last]);
      NextKeepsOutcome(Run(s, steps[..last]), steps[last], t);
    } else {
      assert t in s.world.settled ==> t !in s.world.finished;
    }
  }

  ghost predicate Before(queue: seq<Token>, a: Token, b: Token) {
    exists i, j :: 0 <= i < j < |queue| && queue[i] == a && queue[j] == b
  }

  lemma WithoutKeepsOrder(queue: seq<Token>, t: Token, a: Token, b: Token)
    requires Distinct(queue) && Before(queue, a, b) && t != a && t != b
    ensures Before(Without(queue, t), a, b)
  {
    var k := IndexOf(queue, t);
    var i, j :| 0 <= i < j < |queue| && queue[i] == a && queue[j] == b;
    var rest := Without(queue, t);
    if k < |queue| {
      var i1, j1 := if i < k then i else i - 1, if j < k then j else j - 1;
      assert rest[i1] == a && rest[j1] == b;
    }
  }

  lemma MoveKeepsOrder(w: World, m: Move, a: Token, b: Token)
    requires WorldOk(w) && Enabled(w, m) && Before(w.queue, a, b)
    ensures var w1 := Moved(w, m);
            a !in w1.queue || b in w1.aborted || Before(w1.queue, a, b)
  {
    var i, j :| 0 <= i < j < |w.queue| && w.queue[i] == a && w.queue[j] == b;
    var w1 := Moved(w, m);
    match m
    case Aborts(t) =>
      WithoutIsRemoval(w.queue, t);
      if t != a && t != b { WithoutKeepsOrder(w.queue, t, a, b); }
    case Requests(t) => assert w1.queue[i] == a && w1.queue[j] == b;
    case Frees(t) =>
      if i > 0 { assert w1.queue[i - 1] == a && w1.queue[j - 1] == b; }
    case _ =>
  }

  /**
   Tasks start in the order in which they were queued: while the earlier of two waits, the later
   one waits behind it, unless the later one was aborted.
   */
  lemma {:induction false} StartsInOrder(s: System, steps: seq<Step>, a: Token, b: Token)
    requires Inv(s) && Before(s.world.queue, a, b)
    ensures var w1 := Run(s, steps).world;
            a !in w1.queue || b in w1.aborted || Before(w1.queue, a, b)
    decreases |steps|
  {
    if steps != [] {
      var last := |steps| - 1;
      StartsInOrder(s, steps[..last], a, b);
      RunKeepsInv(s, steps[..last]);
      var s0 := Run(s, steps[..last]);
      var m := NextIsMove(s0, steps[last]);
      if a !in s0.world.queue {
        OldTaskIsNotQueuedAgain(s, steps[..last], a, b);
        NeverQueuedAgain(s0.world, m, a);
      } else if Before(s0.world.queue, a, b) && b !in s0.world.aborted {
        MoveKeepsOrder(s0.world, m, a, b);
      }
    }
  }

  lemma NextGrows(s: System, step: Step)
    requires Inv(s)
    ensures s.world.nextSerial <= Next(s, step).world.nextSerial
  {
    hide Next, Inv;
    var m := NextIsMove(s, step);
  }

  lemma {:induction false} SerialsGrow(s: System, steps: seq<Step>)
    requires Inv(s)
    ensures s.world.nextSerial <= Run(s, steps).world.nextSerial
    decreases |steps|
  {
    if steps != [] {
      var last := |steps| - 1;
      SerialsGrow(s, steps[..last]);
      RunKeepsInv(s, steps[..last]);
      NextGrows(Run(s, steps[..last]), steps[last]);
    }
  }

  lemma OldTaskIsNotQueuedAgain(s: System, steps: seq<Step>, a: Token, b: Token)
    requires Inv(s) && Before(s.world.queue, a, b)
    ensures a.serial < Run(s, steps).world.nextSerial
  {
    SerialsGrow(s, steps);
    assert a in s.world.queue && OnlyQueued(s.world, a);
  }

  lemma NeverQueuedAgain(w: World, m: Move, t: Token)
    requires WorldOk(w) && Enabled(w, m) && t.serial < w.nextSerial && t !in w.queue
    ensures t !in Moved(w, m).queue
  {
    if m.Aborts? { WithoutIsRemoval(w.queue, m.t); }
  }

  /** The slot releases of a run: `finally` callbacks that really free a slot. */
  ghost function Releases(s: System, steps: seq<Step>): nat
    decreases |steps|
  {
    if steps == [] then 0
    else
      var last := |steps| - 1;
      var before := Run(s, steps[..last]);
      Releases(s, steps[..last])
      + (if steps[last].SlotFrees? && steps[last].token in before.world.releasing then 1 else 0)
  }

  lemma IndexOfMember(queue: seq<Token>, i: nat)
    requires Distinct(queue) && i < |queue|
    ensures IndexOf(queue, queue[i]) == i
  {
  }

  lemma WithoutAdvances(queue: seq<Token>, u: Token, t: Token)
    requires Distinct(queue) && t in queue
    ensures if u == t then t !in Without(queue, u)
            else t in Without(queue, u) && IndexOf(Without(queue, u), t) <= IndexOf(queue, t)
  {
    WithoutIsRemoval(queue, u);
    var i, k := IndexOf(queue, t), IndexOf(queue, u);
    if u != t && k < |queue| {
      var i1 := if i < k then i else i - 1;
      assert Without(queue, u)[i1] == t;
      IndexOfMember(Without(queue, u), i1);
    }
  }

  /** No move lets a waiting task fall back, and a release moves it up or starts it. */
  lemma MoveAdvances(w: World, m: Move, t: Token)
    requires WorldOk(w) && Enabled(w, m) && t in w.queue
    ensures var w1 := Moved(w, m);
            var gain := if m.Frees? then 1 else 0;
            if t in w1.queue then IndexOf(w1.queue, t) + gain <= IndexOf(w.queue, t)
            else t in w1.aborted || t in w1.running
  {
    var w1 := Moved(w, m);
    var i := IndexOf(w.queue, t);
    match m
    case Aborts(u) =>
      WithoutAdvances(w.queue, u, t);
    case Requests(u) =>
      if w.activeCount >= w.maximum { assert w1.queue[i] == t; FirstIndex(w1.queue, t, i); }
    case Frees(u) =>
      if i > 0 { assert w1.queue[i - 1] == t; FirstIndex(w1.queue, t, i - 1); }
    case _ =>
  }

  lemma FirstIndex(queue: seq<Token>, t: Token, i: nat)
    requires i < |queue| && queue[i] == t
    ensures IndexOf(queue, t) <= i
  {
  }

  lemma {:induction false} WaitsAtMost(s: System, steps: seq<Step>, t: Token)
    requires Inv(s) && t in s.world.queue
    ensures var w1 := Run(s, steps).world;
            t in w1.aborted
            || (if t in w1.queue then IndexOf(w1.queue, t) + Releases(s, steps) <= IndexOf(s.world.queue, t)
                else t in w1.running || t in w1.releasing || t in w1.settled || t in w1.finished)
    decreases |steps|
  {
    if steps != [] {
      var last := |steps| - 1;
      WaitsAtMost(s, steps[..last], t);
      RunKeepsInv(s, steps[..last]);
      var s0 := Run(s, steps[..last]);
      var m := NextIsMove(s0, steps[last]);
      assert t.serial < s0.world.nextSerial by {
        SerialsGrow(s, steps[..last]);
        assert OnlyQueued(s.world, t);
      }
      if t in s0.world.queue {
        MoveAdvances(s0.world, m, t);
      } else {
        NeverQueuedAgain(s0.world, m, t);
      }
    }
  }

  /** A task with `k` tasks ahead of it has started after `k + 1` slot releases, unless it was aborted. */
  lemma StartsAfterReleases(s: System, steps: seq<Step>, k: nat)
    requires Inv(s) && k < |s.world.queue| && Releases(s, steps) >= k + 1
    ensures var t, w1 := s.world.queue[k], Run(s, steps).world;
            t in w1.aborted
            || (t !in w1.queue && (t in w1.running || t in w1.settled || t in w1.finished))
  {
    var t := s.world.queue[k];
    assert t in s.world.queue;
    WaitsAtMost(s, steps, t);
    IndexOfMember(s.world.queue, k);
    RunKeepsInv(s, steps);
  }
}
