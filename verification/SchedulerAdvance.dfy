/**
 SchedulerAdvance on one core: the steps of the system that a call makes, and what it makes of
 the queues it found.
 */
module SchedulerAdvance {
  import opened Wrappers
  import opened Counting
  import opened SchedulerSpec
  import opened SchedulerSystem
  import opened SchedulerRuns

  // ---------------------------------------------------------------------- the steps

  /** A sleeper is woken and queued. */
  ghost function SweepSteps(s: System, c: nat, at: nat): seq<Step>
    requires c < |s.cores|
  {
    if at < |s.cores[c].sleep| then [Step.Wake(s.cores[c].sleep[at]), Step.Deliver(s.cores[c].sleep[at])] else []
  }

  /** The object that ran is given up, and sleeper number `at` is woken. */
  ghost function AwaySteps(s: System, c: nat, preemptive: bool, at: nat): seq<Step>
    requires c < |s.cores|
  {
    (if s.cores[c].current.Some? then [Step.Yield(c, preemptive), Step.FinishYield(c)] else [])
    + SweepSteps(s, c, at)
  }

  /** The steps that one call of SchedulerAdvance makes. */
  ghost function AdvanceSteps(s: System, c: nat, preemptive: bool, passed: nat, at: nat, boost: bool): seq<Step>
    requires c < |s.cores|
  {
    if Redeploys(s, c, preemptive, passed) then [Step.Redeploy(c, passed)] + SweepSteps(s, c, at)
    else
      var steps := AwaySteps(s, c, preemptive, at) + [Step.Dispatch(c)];
      if boost then steps + [Step.Boost(c)] else steps
  }

  /** What runs was interrupted before its time was up and goes on. */
  ghost predicate Redeploys(s: System, c: nat, preemptive: bool, passed: nat)
    requires c < |s.cores|
  {
    var current := s.cores[c].current;
    && current.Some? && current.value < |s.objects| && preemptive && passed < s.objects[current.value].left
    && s.objects[current.value].phase == Running
  }

  lemma RunNothing(s: System)
    ensures Run(s, []) == Next(s)
  {}

  lemma OneStep(s: System, a: Step)
    ensures Run(s, [a]) == Do(s, a)
  {
    hide Do;
    assert [a][1..] == [];
  }

  lemma TwoSteps(s: System, a: Step, b: Step)
    requires Do(s, a).Next?
    ensures Run(s, [a, b]) == Do(Do(s, a).s, b)
  {
    hide Do;
    assert [a, b][1..] == [b] && [b][1..] == [];
    assert Run(Do(s, a).s, [b]) == Do(Do(s, a).s, b);
  }

  /** Waking a sleeper and queueing it at once. */
  lemma WokenIs(s: System, c: nat, id: nat)
    requires Inv(s) && Settled(s, c) && id < |s.objects| && s.objects[id].core == c && s.objects[id].phase == Blocked
    ensures s.objects[id].level <= LEVEL_LOW
    ensures
      var k, o := s.cores[c], s.objects[id];
      Run(s, [Step.Wake(id), Step.Deliver(id)]) == Next(Put(s, c,
        k.(sleep := Removed(k.sleep, id), ready := Enqueue(k.ready, o.level, id)), id, o.(phase := Queued), s.pending))
  {
    hide Inv, Removed, Enqueue, Run, Do;
    WokenIsQueued(s, c, id);
    TwoSteps(s, Step.Wake(id), Step.Deliver(id));
  }

  // ------------------------------------------------------------- what becomes of the queues

  /** A time slice is ten milliseconds, and two more for every level. */
  function Relevelled(o: Object, level: nat): Object {
    if level == o.level then o
    else
      var slice := 10_000_000 + 2_000_000 * level;
      o.(level := level, slice := slice, left := slice)
  }

  /** Where an object that ran is queued again: one level down, up to 59, if it was interrupted. */
  function LevelAfter(level: nat, preemptive: bool): nat {
    if preemptive && level < 59 then level + 1 else level
  }

  /** What became of an object that ran. */
  function Surrendered(o: Object, preemptive: bool): Object {
    if o.phase == Running then Relevelled(o, LevelAfter(o.level, preemptive)).(phase := Queued)
    else o.(phase := Blocked)
  }

  /** Every object that the core knows exists, on a level below 60. */
  ghost predicate Sound(s: System, c: nat) {
    && HasCore(s, c)
    && (s.cores[c].current.Some? ==>
      s.cores[c].current.value < |s.objects| && s.objects[s.cores[c].current.value].level <= 59)
    && forall j :: 0 <= j < |s.cores[c].sleep| ==>
      s.cores[c].sleep[j] < |s.objects| && s.objects[s.cores[c].sleep[j]].level <= 59
  }

  /** The ready levels with the object that ran at the end of its level, if it was running. */
  ghost function WithRunning(s: System, c: nat, preemptive: bool): (q: Levels<nat>)
    requires Sound(s, c)
    ensures |q| == 61
  {
    var k := s.cores[c];
    if k.current.Some? && s.objects[k.current.value].phase == Running then
      var l := LevelAfter(s.objects[k.current.value].level, preemptive);
      k.ready[l := k.ready[l] + [k.current.value]]
    else k.ready
  }

  /** And sleeper number `at` at the end of its own. */
  ghost function WithSleeper(s: System, c: nat, q: Levels<nat>, at: nat): (r: Levels<nat>)
    requires Sound(s, c) && |q| == 61
    ensures |r| == 61
  {
    var sleep := s.cores[c].sleep;
    if at < |sleep| then
      var l := s.objects[sleep[at]].level;
      q[l := q[l] + [sleep[at]]]
    else q
  }

  /** The sleepers without number `at`. */
  function Awake(sleep: seq<nat>, at: nat): seq<nat> {
    if at < |sleep| then sleep[..at] + sleep[at + 1..] else sleep
  }

  /** What ran joins the sleepers if it blocks and has a deadline. */
  ghost function Parked(s: System, c: nat): seq<nat>
    requires Sound(s, c)
  {
    var k := s.cores[c];
    if k.current.Some? && s.objects[k.current.value].phase != Running && s.objects[k.current.value].deadline
    then [k.current.value] else []
  }

  ghost predicate Wakes(s: System, c: nat, at: nat, i: nat)
    requires c < |s.cores|
  {
    at < |s.cores[c].sleep| && s.cores[c].sleep[at] == i
  }

  /** An object before the next one is chosen. */
  ghost function Moved(s: System, c: nat, preemptive: bool, at: nat, i: nat): Object
    requires c < |s.cores| && i < |s.objects|
  {
    var o := s.objects[i];
    if s.cores[c].current == Some(i) then Surrendered(o, preemptive)
    else if Wakes(s, c, at, i) then o.(phase := Queued)
    else o
  }

  /** The next object is the head of the first level that has one. It leaves its queue and runs on that
      level; a boost then joins levels 0 to 59. */
  ghost predicate Switched(s: System, s': System, c: nat, preemptive: bool, at: nat, boost: bool, next: Option<nat>)
    requires Sound(s, c) && HasCore(s', c) && |s'.objects| == |s.objects|
  {
    var q := WithSleeper(s, c, WithRunning(s, c, preemptive), at);
    var l := FirstReady(q, 0);
    && next == (if l == 61 then None else Some(q[l][0]))
    && var rest := if l == 61 then q else q[l := q[l][1..]];
    && s'.cores[c].ready == (if boost then Boosted(rest, 60) else rest)
    && s'.cores[c].sleep == Awake(s.cores[c].sleep, at) + Parked(s, c)
    && forall i :: 0 <= i < |s.objects| ==>
      var o := Moved(s, c, preemptive, at, i);
      s'.objects[i] == if next == Some(i) then Relevelled(o, l).(phase := Running) else o
  }

  /** What runs goes on with less of its time left; the sleeper is queued. */
  ghost predicate Continued(s: System, s': System, c: nat, passed: nat, at: nat, next: Option<nat>)
    requires Sound(s, c) && HasCore(s', c) && |s'.objects| == |s.objects|
  {
    && next == s.cores[c].current
    && s'.cores[c].ready == WithSleeper(s, c, s.cores[c].ready, at)
    && s'.cores[c].sleep == Awake(s.cores[c].sleep, at)
    && forall i :: 0 <= i < |s.objects| ==>
      var o := s.objects[i];
      s'.objects[i] ==
        if next == Some(i) then o.(left := if passed < o.left then o.left - passed else 0)
        else if Wakes(s, c, at, i) then o.(phase := Queued)
        else o
  }

  /** The outcome of a call, from the queues it found. */
  ghost predicate Advanced(s: System, s': System, c: nat, preemptive: bool, passed: nat, at: nat, boost: bool,
                           next: Option<nat>) {
    && Sound(s, c) && HasCore(s', c) && |s'.objects| == |s.objects|
    && s'.cores[c].current == next && s'.cores[c].rest.None? && s'.pending == s.pending
    && var current := s.cores[c].current;
       if preemptive && current.Some? && s.objects[current.value].phase == Running
          && s.objects[current.value].left > passed
       then Continued(s, s', c, passed, at, next)
       else Switched(s, s', c, preemptive, at, boost, next)
  }

  // ------------------------------------------------------------------------------ proof

  lemma SoundIs(s: System, c: nat)
    requires Inv(s) && HasCore(s, c)
    ensures Sound(s, c)
    ensures forall j :: 0 <= j < |s.cores[c].sleep| ==> s.objects[s.cores[c].sleep[j]].core == c
    ensures s.cores[c].current.Some? ==>
      forall j :: 0 <= j < |s.cores[c].sleep| ==> s.cores[c].sleep[j] != s.cores[c].current.value
  {
    hide Count, Occurs, Load;
    assert CoreOk(s, c);
    if s.cores[c].current.Some? { CurrentFacts(s, c); }
    forall j | 0 <= j < |s.cores[c].sleep|
      ensures s.cores[c].sleep[j] < |s.objects| && s.objects[s.cores[c].sleep[j]].level <= 59
      ensures s.objects[s.cores[c].sleep[j]].core == c
      ensures s.cores[c].current.Some? ==> s.cores[c].sleep[j] != s.cores[c].current.value
    {
      OccursAt(s.cores[c].sleep, j);
      assert ObjectOk(s, s.cores[c].sleep[j]);
    }
  }

  lemma RelevelledIs(o: Object, level: nat)
    ensures Repriced(o, level) == Relevelled(o, level)
  {}

  /** The object that ran is given up, and sleeper number `at` is queued. */
  ghost predicate Away(s: System, s': System, c: nat, preemptive: bool, at: nat)
    requires Sound(s, c)
  {
    && Inv(s') && Settled(s', c) && |s'.objects| == |s.objects| && s'.pending == s.pending
    && s'.cores[c].current.None?
    && s'.cores[c].ready == WithSleeper(s, c, WithRunning(s, c, preemptive), at)
    && s'.cores[c].sleep == Awake(s.cores[c].sleep, at) + Parked(s, c)
    && forall i :: 0 <= i < |s.objects| ==> s'.objects[i] == Moved(s, c, preemptive, at, i)
  }

  lemma GiveUpIs(s: System, c: nat, preemptive: bool, s': System)
    requires Inv(s) && Settled(s, c) && Sound(s, c)
    requires
      var steps := if s.cores[c].current.Some? then [Step.Yield(c, preemptive), Step.FinishYield(c)] else [];
      Run(s, steps) == Next(s')
    ensures Away(s, s', c, preemptive, |s.cores[c].sleep|)
  {
    hide Inv, Do, Run, Repriced;
    assert s.cores[c].sleep + [] == s.cores[c].sleep;
    RunKeepsInv(s, if s.cores[c].current.Some? then [Step.Yield(c, preemptive), Step.FinishYield(c)] else []);
    if s.cores[c].current.Some? {
      CurrentFacts(s, c);
      var o := s.objects[s.cores[c].current.value];
      if o.phase == Running {
        RunningIsRequeued(s, c, preemptive);
        RelevelledIs(o, LevelAfter(o.level, preemptive));
      } else {
        BlockingIsParked(s, c, preemptive);
      }
      TwoSteps(s, Step.Yield(c, preemptive), Step.FinishYield(c));
    } else {
      RunNothing(s);
    }
  }

  lemma RemovedOnce(sleep: seq<nat>, at: nat)
    requires at < |sleep| && Occurs(sleep, sleep[at]) <= 1
    ensures Removed(sleep, sleep[at]) == sleep[..at] + sleep[at + 1..]
  {
    hide Occurs, Removed;
    var x, head, tail := sleep[at], sleep[..at], sleep[at..];
    assert sleep == head + tail && tail[0] == x;
    OccursConcat(head, tail, x);
    OccursAt(tail, 0);
    forall j | 0 <= j < at ensures head[j] != x {
      if head[j] == x { OccursAt(head, j); }
    }
    RemovedAt(sleep, x, at);
  }

  lemma SweepIs(s: System, s1: System, c: nat, preemptive: bool, at: nat, s': System)
    requires Inv(s) && Settled(s, c) && Sound(s, c) && Away(s, s1, c, preemptive, |s.cores[c].sleep|)
    requires at < |s.cores[c].sleep| && s.objects[s.cores[c].sleep[at]].phase == Blocked
    requires Run(s1, SweepSteps(s, c, at)) == Next(s')
    ensures Away(s, s', c, preemptive, at)
  {
    hide Inv, Do, Run, Removed, Occurs;
    var sleep, id := s.cores[c].sleep, s.cores[c].sleep[at];
    SoundIs(s, c);
    RunKeepsInv(s1, SweepSteps(s, c, at));
    WokenIs(s1, c, id);
    SleptOnce(s1, c, id);
    var slept := s1.cores[c].sleep;
    assert slept[at] == id;
    RemovedOnce(slept, at);
    assert slept[..at] + slept[at + 1..] == Awake(sleep, at) + Parked(s, c);
  }

  lemma SleptOnce(s: System, c: nat, id: nat)
    requires Inv(s) && c < |s.cores|
    ensures Occurs(s.cores[c].sleep, id) <= 1
  {
    hide Occurs, Count, Load;
    assert CoreOk(s, c);
  }

  /** The steps up to the choice of the next object. */
  lemma AwayIs(s: System, c: nat, preemptive: bool, at: nat, s': System)
    requires Inv(s) && Settled(s, c) && Sound(s, c) && at <= |s.cores[c].sleep|
    requires at < |s.cores[c].sleep| ==> s.objects[s.cores[c].sleep[at]].phase == Blocked
    requires Run(s, AwaySteps(s, c, preemptive, at)) == Next(s')
    ensures Away(s, s', c, preemptive, at)
  {
    hide Inv, Do, Run, Away;
    var first := if s.cores[c].current.Some? then [Step.Yield(c, preemptive), Step.FinishYield(c)] else [];
    RunConcat(s, first, SweepSteps(s, c, at));
    var s1 := Run(s, first).s;
    GiveUpIs(s, c, preemptive, s1);
    if at < |s.cores[c].sleep| {
      SweepIs(s, s1, c, preemptive, at, s');
    } else {
      RunNothing(s1);
    }
  }

  lemma SwitchIs(s: System, s1: System, c: nat, preemptive: bool, at: nat, s': System)
    requires Sound(s, c) && Away(s, s1, c, preemptive, at) && Do(s1, Step.Dispatch(c)) == Next(s')
    ensures HasCore(s', c) && |s'.objects| == |s.objects| && s'.pending == s.pending && s'.cores[c].rest.None?
    ensures Switched(s, s', c, preemptive, at, false, s'.cores[c].current)
  {
    hide Inv, Do, Repriced, FirstReady, WithSleeper, WithRunning, Moved, Parked;
    DispatchIs(s1, c);
    ReadyIsQueued(s1, c);
    var l := FirstReady(s1.cores[c].ready, 0);
    if l < LEVEL_COUNT { RelevelledIs(s1.objects[s1.cores[c].ready[l][0]], l); }
  }

  lemma ReadyIsQueued(s: System, c: nat)
    requires Inv(s) && HasCore(s, c)
    ensures
      var l := FirstReady(s.cores[c].ready, 0);
      l < LEVEL_COUNT ==> var id: nat := s.cores[c].ready[l][0]; id < |s.objects| && s.objects[id].phase == Queued
  {
    hide Inv;
    var l := FirstReady(s.cores[c].ready, 0);
    if l < LEVEL_COUNT { HeadIsQueued(s, c, l); }
  }

  lemma BoostAlso(s: System, s1: System, c: nat, preemptive: bool, at: nat, s': System)
    requires Sound(s, c) && HasCore(s1, c) && |s1.objects| == |s.objects|
    requires Switched(s, s1, c, preemptive, at, false, s1.cores[c].current) && Do(s1, Step.Boost(c)) == Next(s')
    ensures HasCore(s', c) && s'.objects == s1.objects && s'.pending == s1.pending
    ensures s'.cores[c].current == s1.cores[c].current && s'.cores[c].rest.None?
    ensures Switched(s, s', c, preemptive, at, true, s'.cores[c].current)
  {
    hide Do, FirstReady, WithSleeper, WithRunning, Moved, Parked, Boosted;
    BoostIs(s1, c);
  }

  lemma ContinueIs(s: System, c: nat, passed: nat, at: nat, s': System)
    requires Inv(s) && Settled(s, c) && Sound(s, c) && Redeploys(s, c, true, passed) && at <= |s.cores[c].sleep|
    requires at < |s.cores[c].sleep| ==> s.objects[s.cores[c].sleep[at]].phase == Blocked
    requires Run(s, [Step.Redeploy(c, passed)] + SweepSteps(s, c, at)) == Next(s')
    ensures HasCore(s', c) && |s'.objects| == |s.objects| && s'.pending == s.pending
    ensures s'.cores[c].current == s.cores[c].current && s'.cores[c].rest.None?
    ensures Continued(s, s', c, passed, at, s.cores[c].current)
  {
    hide Inv, Do, Run, Removed, Occurs;
    SoundIs(s, c);
    RunConcat(s, [Step.Redeploy(c, passed)], SweepSteps(s, c, at));
    OneStep(s, Step.Redeploy(c, passed));
    RedeployIs(s, c, passed);
    var s1, sleep := Do(s, Step.Redeploy(c, passed)).s, s.cores[c].sleep;
    if at < |sleep| {
      StepKeepsInv(s, Step.Redeploy(c, passed));
      WokenIs(s1, c, sleep[at]);
      SleptOnce(s, c, sleep[at]);
      RemovedOnce(sleep, at);
    } else {
      RunNothing(s1);
    }
  }

  /** A call of SchedulerAdvance, from the queues it found. */
  lemma AdvanceIs(s: System, c: nat, preemptive: bool, passed: nat, at: nat, boost: bool, s': System)
    requires Inv(s) && Settled(s, c) && at <= |s.cores[c].sleep|
    requires at < |s.cores[c].sleep| ==>
      s.cores[c].sleep[at] < |s.objects| && s.objects[s.cores[c].sleep[at]].phase == Blocked
    requires Run(s, AdvanceSteps(s, c, preemptive, passed, at, boost)) == Next(s') && c < |s'.cores|
    ensures Advanced(s, s', c, preemptive, passed, at, boost, s'.cores[c].current)
  {
    hide Inv, Do, Run, Switched, Away, Continued;
    SoundIs(s, c);
    if Redeploys(s, c, preemptive, passed) {
      ContinueIs(s, c, passed, at, s');
    } else {
      var away := AwaySteps(s, c, preemptive, at);
      if boost { RunConcat(s, away + [Step.Dispatch(c)], [Step.Boost(c)]); }
      RunConcat(s, away, [Step.Dispatch(c)]);
      var s1 := Run(s, away).s;
      AwayIs(s, c, preemptive, at, s1);
      OneStep(s1, Step.Dispatch(c));
      var s2 := Do(s1, Step.Dispatch(c)).s;
      SwitchIs(s, s1, c, preemptive, at, s2);
      if boost {
        OneStep(s2, Step.Boost(c));
        BoostAlso(s, s2, c, preemptive, at, s');
      }
    }
  }
}
