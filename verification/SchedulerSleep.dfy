/** How far one pass over the sleep queue gets (kernel/components/scheduler.c). */
module SchedulerSleep {
  import opened Wrappers
  import opened Sequences
  import opened SchedulerSpec
  import opened SchedulerSystem
  import opened SchedulerRuns
  import opened SchedulerAdvance
  import opened SchedulerQueues
  import opened SchedulerMachine

  /** Which of the sleepers are due. */
  ghost function Dues(s: seq<SchedulerObject>, seconds: nat, nanoseconds: nat, ignored: SchedulerObject?): seq<bool>
    reads s
  {
    seq(|s|, i requires 0 <= i < |s| reads s => Due(s[i], seconds, nanoseconds, ignored))
  }

  /** Nobody whose time had come is asleep any more. */
  ghost predicate AllWoken(was: seq<SchedulerObject>, due: seq<bool>, now: seq<SchedulerObject>)
    requires |due| == |was|
  {
    forall j :: 0 <= j < |was| && due[j] ==> was[j] !in now
  }

  /** At most one sleeper was due. */
  ghost predicate OneDue(due: seq<bool>) {
    forall j, k :: 0 <= j < |due| && 0 <= k < |due| && due[j] && due[k] ==> j == k
  }

  /** Waking the first wakes all exactly when there is no second. */
  lemma SweepWakes(was: seq<SchedulerObject>, due: seq<bool>, at: nat, now: seq<SchedulerObject>)
    requires Distinct(was) && |due| == |was| && at <= |was| && (forall j :: 0 <= j < at ==> !due[j])
    requires at < |was| ==> due[at] && now == Removed(was, was[at])
    requires at == |was| ==> now == was
    ensures AllWoken(was, due, now) <==> OneDue(due)
  {
    if at < |was| {
      forall j | 0 <= j < |was| ensures was[j] in now <==> j != at {
        if j != at { RemovedIn(was, was[at], was[j]); } else { RemovedOnce(was, at); }
      }
    }
  }

  lemma RemovedOnce(s: seq<SchedulerObject>, at: nat)
    requires Distinct(s) && at < |s|
    ensures s[at] !in Removed(s, s[at])
  {
    RemovedAt(s, s[at], at);
  }

  /** A pass wakes every sleeper that is due exactly when at most one is. */
  method Sweep(k: Scheduler, seconds: nat, nanoseconds: nat, ignored: SchedulerObject?) returns (ghost due: seq<bool>)
    requires k.Valid()
    requires forall o :: o in k.sleep.items ==> (o.phase == Blocked || o.phase == Queueing) && o.level < LEVEL_COUNT
    modifies k`ready, k.queues, k.sleep
    modifies k.nodes`link, k.nodes`owner, k.nodes`phase, k.nodes`wakeSeconds, k.nodes`wakeNanoseconds
    ensures k.Valid() && due == old(Dues(k.sleep.items, seconds, nanoseconds, ignored))
    ensures AllWoken(old(k.sleep.items), due, k.sleep.items) <==> OneDue(due)
  {
    hide Scheduler.Valid, Removed;
    k.SleepHead();
    ghost var was := k.sleep.items;
    due := Dues(was, seconds, nanoseconds, ignored);
    ghost var at := k.UpdateSleepQueue(seconds, nanoseconds, ignored);
    SweepWakes(was, due, at, k.sleep.items);
  }

  // ------------------------------------------------------------- two sleepers on one core

  /** Nothing is ready, running or on its way on the only core, and object `id` is new. */
  ghost predicate AllQuiet(s: System, id: nat) {
    && |s.cores| == 1 && s.cores[0].ready == seq(LEVEL_COUNT, _ => []) && s.pending == {}
    && s.cores[0].current.None? && s.cores[0].rest.None?
    && id < |s.objects| && s.objects[id] == Fresh(0, false) && id !in s.cores[0].sleep
  }

  /** What an object does to sleep: it is woken and queued, runs, blocks and is parked. */
  function StepTo(id: nat, n: nat): Step
    requires n < 6
  {
    match n
    case 0 => Step.Wake(id)
    case 1 => Step.Deliver(id)
    case 2 => Step.Dispatch(0)
    case 3 => Step.Block(0, true)
    case 4 => Step.Yield(0, false)
    case _ => Step.FinishYield(0)
  }

  /** The system after the first `n` of these steps. */
  ghost function Stage(s: System, id: nat, n: nat): System
    requires |s.cores| == 1 && |s.cores[0].ready| == LEVEL_COUNT && id < |s.objects| && n <= 6
  {
    var k := s.cores[0];
    var phase := match n
      case 0 => Initial
      case 1 => Queueing
      case 2 => Queued
      case 3 => Running
      case 4 => Blocking
      case _ => Blocked;
    System(
      s.objects[id := s.objects[id].(phase := phase, deadline := n >= 4)],
      [Core(if n == 2 then Enqueue(k.ready, 0, id) else k.ready, if n == 6 then k.sleep + [id] else k.sleep,
            if 3 <= n <= 4 then Some(id) else None, if n == 5 then Some(Park(id)) else None, k.bandwidth)],
      if n == 1 then {id} else {})
  }

  lemma StageFirst(s: System, id: nat)
    requires AllQuiet(s, id)
    ensures Stage(s, id, 0) == s
  {
    assert s.objects[id := s.objects[id]] == s.objects;
  }

  lemma StageNext(s: System, id: nat, n: nat)
    requires AllQuiet(s, id) && n < 6
    ensures Do(Stage(s, id, n), StepTo(id, n)) == Next(Stage(s, id, n + 1))
  {
    hide Slice, Removed;
    var a, b, k := Stage(s, id, n), Stage(s, id, n + 1), s.cores[0];
    assert a.objects[id := b.objects[id]] == b.objects;
    RemovedAt(k.sleep, id, |k.sleep|);
    assert k.sleep[..|k.sleep|] == k.sleep;
    assert {id} - {id} == {} && {} + {id} == {id};
    if n == 2 {
      assert FirstReady(a.cores[0].ready, 0) == 0;
      assert k.ready[0] == [] && ([] + [id])[1..] == [];
      assert Dequeue(Enqueue(k.ready, 0, id), 0) == k.ready;
    }
  }

  /** An object goes to sleep, with a deadline one second and a nanosecond from zero. */
  method FallAsleep(m: Machine, id: nat)
    requires m.Valid() && AllQuiet(m.sys, id)
    modifies m, m.repr
    ensures m.Valid() && fresh(m.repr - old(m.repr)) && m.sys == Stage(old(m.sys), id, 6)
    ensures m.Alarmed(id, 1, 1)
  {
    hide Machine.Valid, Do, Stage;
    ghost var s := m.sys;
    StageFirst(s, id);
    StageNext(s, id, 0);
    m.Wake(id);
    StageNext(s, id, 1);
    m.Deliver(id);
    StageNext(s, id, 2);
    var next := m.Dispatch(0);
    StageNext(s, id, 3);
    StageRuns(s, id);
    m.Block(0, 1, 1);
    StageNext(s, id, 4);
    m.Yield(0, false);
    StageNext(s, id, 5);
    m.FinishYield(0);
  }

  lemma StageRuns(s: System, id: nat)
    requires AllQuiet(s, id)
    ensures Stage(s, id, 3).cores[0].current == Some(id)
  {}

  /** Both objects sleep. */
  method BothAsleep() returns (m: Machine)
    ensures fresh(m) && m.Valid() && fresh(m.repr) && |m.sys.cores| == 1 && |m.objects| == |m.sys.objects| == 2
    ensures Settled(m.sys, 0) && m.sys.objects[0].core == 0
    ensures m.sys.cores[0].sleep == [0, 1] && m.sys.objects[0].phase == m.sys.objects[1].phase == Blocked
    ensures forall i :: 0 <= i < 2 ==> m.objects[i].wakeSeconds == m.objects[i].wakeNanoseconds == 1
  {
    hide Machine.Valid, Do, Slice;
    m := new Machine(1);
    Sizes(m);
    ghost var s := m.sys;
    Created(s);
    m.Create(0, false);
    m.Create(0, false);
    FallAsleep(m, 0);
    FallAsleep(m, 1);
    Sizes(m);
  }

  lemma Sizes(m: Machine)
    requires m.Valid()
    ensures |m.cores| == |m.sys.cores| && |m.objects| == |m.sys.objects|
  {
    hide Stands, Inv;
  }

  /** Two sleepers are due, and a pass over the sleep queue leaves one of them asleep. */
  method TwoSleepersDue() returns (m: Machine)
    ensures fresh(m) && m.Valid() && |m.sys.cores| == 1 && |m.objects| == |m.sys.objects| == 2
    ensures m.sys.cores[0].sleep == [1] && m.sys.objects[1].phase == Blocked && Due(m.objects[1], 2, 0, null)
  {
    hide Machine.Valid;
    m := BothAsleep();
    Pictures(m);
    PictureInv(m);
    assert Due(m.objects[0], 2, 0, null) && Due(m.objects[1], 2, 0, null);
    ghost var s := m.sys;
    HeadIsDue(s.cores[0].sleep, m.objects, 2, 0);
    label Before:
    ghost var at := m.Sweep(0, 2, 0, null);
    assert at == 0 && s.cores[0].sleep[1] == 1;
    assert Unmoved@Before(m.objects[s.cores[0].sleep[1]]);
    OneAwake(s);
    Pictures(m);
  }

  lemma HeadIsDue(ids: seq<nat>, objects: seq<SchedulerObject>, seconds: nat, nanoseconds: nat)
    requires ids != [] && ids[0] < |objects| && Due(objects[ids[0]], seconds, nanoseconds, null)
    ensures forall at: nat :: FirstDue(ids, objects, at, seconds, nanoseconds, null) ==> at == 0
  {}

  lemma OneAwake(s: System)
    requires |s.cores| == 1 && s.cores[0].sleep == [0, 1] && |s.objects| == 2 && s.objects[0].phase == Blocked
    requires Inv(s) && Settled(s, 0) && s.objects[0].core == 0
    ensures
      var s1 := Run(s, SweepSteps(s, 0, 0));
      && s1.Next? && |s1.s.cores| == 1 && s1.s.cores[0].sleep == [1]
      && |s1.s.objects| == 2 && s1.s.objects[1] == s.objects[1]
  {
    hide Inv, Run, Enqueue;
    WokenIs(s, 0, 0);
    RemovedAt(s.cores[0].sleep, 0, 0);
    assert [0, 1][..0] + [0, 1][1..] == [1];
  }

  /** The system with two new objects. */
  lemma Created(s: System)
    requires Start(s) && |s.cores| == 1
    ensures Do(s, Step.Create(0, false)).Next?
    ensures
      var s1 := Do(s, Step.Create(0, false)).s;
      Do(s1, Step.Create(0, false)).Next?
      && var s2 := Do(s1, Step.Create(0, false)).s;
      && |s2.objects| == 2 && AllQuiet(s2, 0) && s2.cores[0].sleep == [] && AllQuiet(Stage(s2, 0, 6), 1)
      && Stage(Stage(s2, 0, 6), 1, 6).cores[0].sleep == [0, 1]
  {
    hide Slice;
  }
}
