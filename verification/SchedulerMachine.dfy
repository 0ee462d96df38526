/**
 All the cores with their linked queues, and the step system of SchedulerSystem beside them:
 every step is carried out in memory, and memory says the same as the state of the system.
 */
module SchedulerMachine {
  import opened Wrappers
  import opened Counting
  import opened SchedulerSpec
  import opened SchedulerSystem
  import opened SchedulerQueues
  import opened SchedulerRuns
  import opened SchedulerAdvance

  // ------------------------------------------------------------- objects and their numbers

  ghost function Ids(s: seq<SchedulerObject>): (r: seq<nat>)
    ensures |r| == |s|
  {
    seq(|s|, i requires 0 <= i < |s| => s[i].id)
  }

  ghost function LevelIds(q: Levels<SchedulerObject>): (r: Levels<nat>)
    ensures |r| == |q|
  {
    seq(|q|, l requires 0 <= l < |q| => Ids(q[l]))
  }

  lemma IdsConcat(a: seq<SchedulerObject>, b: seq<SchedulerObject>)
    ensures Ids(a + b) == Ids(a) + Ids(b)
  {}

  lemma LevelsEnqueue(q: Levels<SchedulerObject>, l: nat, o: SchedulerObject)
    requires l < |q|
    ensures LevelIds(Enqueue(q, l, o)) == Enqueue(LevelIds(q), l, o.id)
  {
    IdsConcat(q[l], [o]);
    assert Ids([o]) == [o.id];
  }

  lemma LevelsDequeue(q: Levels<SchedulerObject>, l: nat)
    requires l < |q| && q[l] != []
    ensures LevelIds(q)[l] != [] && LevelIds(q)[l][0] == q[l][0].id
    ensures LevelIds(Dequeue(q, l)) == Dequeue(LevelIds(q), l)
  {
    assert Ids(q[l][1..]) == Ids(q[l])[1..];
  }

  lemma {:induction false} LevelsReady(q: Levels<SchedulerObject>, i: nat)
    requires i <= |q|
    ensures FirstReady(LevelIds(q), i) == FirstReady(q, i)
    decreases |q| - i
  {
    if i < |q| && q[i] == [] {
      assert LevelIds(q)[i] == [];
      LevelsReady(q, i + 1);
    } else if i < |q| {
      assert |LevelIds(q)[i]| == |q[i]|;
    }
  }

  lemma {:induction false} LevelsRow(q: Levels<SchedulerObject>, hi: nat)
    requires hi <= |q|
    ensures Row(LevelIds(q), 0, hi) == Ids(Row(q, 0, hi))
    decreases hi
  {
    if hi > 0 {
      LevelsRow(q, hi - 1);
      IdsConcat(Row(q, 0, hi - 1), q[hi - 1]);
    }
  }

  lemma LevelsBoosted(q: Levels<SchedulerObject>, upto: nat)
    requires 1 <= upto <= |q|
    ensures LevelIds(Boosted(q, upto)) == Boosted(LevelIds(q), upto)
  {
    LevelsRow(q, upto);
    var a, b := LevelIds(Boosted(q, upto)), Boosted(LevelIds(q), upto);
    forall l | 0 <= l < |q| ensures a[l] == b[l] {
      if 0 < l < upto { assert Ids([]) == []; }
    }
  }

  /** No two of these objects have the same number. */
  ghost predicate Numbered(s: seq<SchedulerObject>, o: SchedulerObject) {
    forall i :: 0 <= i < |s| && s[i].id == o.id ==> s[i] == o
  }

  lemma {:induction false} IdsRemoved(s: seq<SchedulerObject>, o: SchedulerObject)
    requires Numbered(s, o)
    ensures Ids(Removed(s, o)) == Removed(Ids(s), o.id)
    decreases s
  {
    if s != [] {
      assert Ids(s)[0] == s[0].id && Ids(s)[1..] == Ids(s[1..]);
      if s[0] != o {
        IdsRemoved(s[1..], o);
        IdsConcat([s[0]], Removed(s[1..], o));
        assert Ids([s[0]]) == [s[0].id];
      }
    }
  }

  // ------------------------------------------------------------- memory and system

  /** An object in memory and in the system; the deadline matters while it blocks. */
  ghost predicate Agrees(o: SchedulerObject, m: Object)
    reads o
  {
    && o.core == m.core && o.idle == m.idle
    && o.phase == m.phase && o.level == m.level && o.slice == m.slice && o.left == m.left
    && (o.phase == Blocking ==> HasDeadline(o) == m.deadline)
  }

  /** The objects of a core are found under their numbers. */
  ghost predicate Indexed(k: Scheduler, objects: seq<SchedulerObject>)
    reads k
  {
    forall o :: o in k.nodes ==> o.id < |objects| && objects[o.id] == o
  }

  /** The queues of a core in memory and in the system. */
  ghost predicate Mirrors(k: Scheduler, core: Core)
    reads k, k.sleep
  {
    core.bandwidth == k.bandwidth && core.ready == LevelIds(k.ready) && core.sleep == Ids(k.sleep.items)
  }

  /** A core in memory is `core` in the system, with all its objects. */
  ghost predicate Stands(k: Scheduler, core: Core, ms: seq<Object>, objects: seq<SchedulerObject>)
    reads k, k.queues, k.sleep, k.nodes
  {
    && k.Valid() && Indexed(k, objects) && |objects| == |ms| && Mirrors(k, core)
    && (forall o :: o in k.nodes ==> Agrees(o, ms[o.id]))
    && (forall o :: o in k.nodes && core.rest == Some(Park(o.id)) ==> HasDeadline(o) == ms[o.id].deadline)
  }

  /** Where an object can be linked, judged by the counts of the system. */
  lemma NotReady(k: Scheduler, core: Core, o: SchedulerObject)
    requires k.Valid() && Mirrors(k, core) && o in k.nodes && Count(core.ready, o.id) == 0
    ensures o.owner == null || o.owner == k.sleep
  {
    hide Count, Occurs;
    assert k.Housed(o);
    if o.owner != null && o.owner.place < LEVEL_COUNT {
      var l := o.owner.place;
      var i :| 0 <= i < |k.ready[l]| && k.ready[l][i] == o;
      assert core.ready[l][i] == o.id;
      OccursAt(core.ready[l], i);
      CountAt(core.ready, l, o.id);
    }
  }

  lemma NotSleeping(k: Scheduler, core: Core, o: SchedulerObject)
    requires k.Valid() && Mirrors(k, core) && o in k.nodes && Occurs(core.sleep, o.id) == 0
    ensures o.owner != k.sleep
  {
    hide Occurs;
    assert k.Housed(o);
    if o.owner == k.sleep {
      var i :| 0 <= i < |k.sleep.items| && k.sleep.items[i] == o;
      assert core.sleep[i] == o.id;
      OccursAt(core.sleep, i);
    }
  }

  /** A step on one core is not seen by the others. */
  lemma AllStand(cores: seq<Scheduler>, s: System, s': System, objects: seq<SchedulerObject>, c: nat, id: nat)
    requires c < |cores| == |s.cores| == |s'.cores| && id < |objects| == |s.objects| == |s'.objects|
    requires s' == Put(s, c, s'.cores[c], id, s'.objects[id], s'.pending) && objects[id].core == c
    requires Stands(cores[c], s'.cores[c], s'.objects, objects)
    requires forall d :: 0 <= d < |cores| && d != c ==>
      cores[d].core == d && Stands(cores[d], s.cores[d], s.objects, objects)
    ensures forall d :: 0 <= d < |cores| ==> Stands(cores[d], s'.cores[d], s'.objects, objects)
  {
    hide Stands;
    forall d | 0 <= d < |cores| && d != c ensures Stands(cores[d], s'.cores[d], s'.objects, objects) {
      OtherStands(cores[d], s.cores[d], s.objects, s'.objects, objects, id);
    }
  }

  lemma OtherStands(k: Scheduler, core: Core, ms: seq<Object>, ms': seq<Object>, objects: seq<SchedulerObject>, id: nat)
    requires Stands(k, core, ms, objects) && id < |objects| && objects[id].core != k.core
    requires |ms'| == |ms| && ms' == ms[id := ms'[id]]
    ensures Stands(k, core, ms', objects)
  {
    hide Mirrors;
    assert k.Owned();
  }

  // ------------------------------------------------------------- the steps on one core

  /** The object and the core that a step of a core starts from. */
  ghost predicate Here(k: Scheduler, o: SchedulerObject, core: Core, ms: seq<Object>, objects: seq<SchedulerObject>)
    reads k, k.queues, k.sleep, k.nodes
  {
    Stands(k, core, ms, objects) && o in k.nodes && o.id < |ms|
  }

  /** EVENT_QUEUE. */
  method WakeCore(k: Scheduler, o: SchedulerObject, ghost core: Core, ghost ms: seq<Object>,
                  ghost objects: seq<SchedulerObject>) returns (state: Phase)
    requires Here(k, o, core, ms, objects)
    modifies o`phase
    ensures state == Target(ms[o.id].phase, Event.Queue)
    ensures Stands(k, core, ms[o.id := ms[o.id].(phase := After(ms[o.id].phase, Event.Queue))], objects)
  {
    state := ExecuteEvent(o, Event.Queue);
  }

  /** SchedulerSleep and SchedulerBlock, up to the yield. */
  method BlockCore(k: Scheduler, o: SchedulerObject, seconds: nat, nanoseconds: nat,
                   ghost core: Core, ghost ms: seq<Object>, ghost objects: seq<SchedulerObject>)
    requires Here(k, o, core, ms, objects) && core.rest.None?
    modifies o`phase, o`wakeSeconds, o`wakeNanoseconds
    ensures o.wakeSeconds == seconds && o.wakeNanoseconds == nanoseconds
    ensures
      var timed := seconds != 0 && nanoseconds != 0;
      Stands(k, core, ms[o.id := ms[o.id].(deadline := timed, phase := After(ms[o.id].phase, Event.Block))], objects)
  {
    hide Scheduler.Valid, Mirrors;
    o.wakeSeconds, o.wakeNanoseconds := seconds, nanoseconds;
    var _ := ExecuteEvent(o, Event.Block);
  }

  /** EVENT_SCHEDULE. */
  method YieldCore(k: Scheduler, o: SchedulerObject, preemptive: bool,
                   ghost core: Core, ghost ms: seq<Object>, ghost objects: seq<SchedulerObject>) returns (r: Rest)
    requires Here(k, o, core, ms, objects) && Target(ms[o.id].phase, Schedule) != Invalid
    modifies o`phase
    ensures r == if Target(ms[o.id].phase, Schedule) == Queueing then Requeue(o.id, preemptive) else Park(o.id)
    ensures Stands(k, core.(current := None, rest := Some(r)),
      ms[o.id := ms[o.id].(phase := Target(ms[o.id].phase, Schedule))], objects)
  {
    var state := ExecuteEvent(o, Schedule);
    r := if state == Queueing then Requeue(o.id, preemptive) else Park(o.id);
  }

  /** The time slice is not used up. */
  method RedeployCore(k: Scheduler, o: SchedulerObject, passed: nat,
                      ghost core: Core, ghost ms: seq<Object>, ghost objects: seq<SchedulerObject>)
    requires Here(k, o, core, ms, objects) && passed < ms[o.id].left
    modifies o`left
    ensures Stands(k, core, ms[o.id := ms[o.id].(left := ms[o.id].left - passed)], objects)
  {
    o.left := o.left - passed;
  }

  /** __QueueForScheduler. */
  method QueueCore(k: Scheduler, o: SchedulerObject,
                   ghost core: Core, ghost ms: seq<Object>, ghost objects: seq<SchedulerObject>)
    requires Here(k, o, core, ms, objects) && ms[o.id].phase == Queueing && ms[o.id].level <= LEVEL_LOW
    requires Count(core.ready, o.id) == 0 && core.rest.None?
    modifies k`ready, k.queues, k.sleep, k.nodes`link, k.nodes`owner, o`phase
    ensures |core.ready| == LEVEL_COUNT
    ensures Stands(k, core.(sleep := Removed(core.sleep, o.id), ready := Enqueue(core.ready, ms[o.id].level, o.id)),
      ms[o.id := ms[o.id].(phase := Queued)], objects)
  {
    hide Scheduler.Valid, Ids, LevelIds, Removed, Enqueue, Count;
    ReadyFacts(k, o, objects);
    NotReady(k, core, o);
    IdsRemoved(k.sleep.items, o);
    LevelsEnqueue(k.ready, o.level, o);
    var fatal := k.QueueObject(o);
  }

  lemma ReadyFacts(k: Scheduler, o: SchedulerObject, objects: seq<SchedulerObject>)
    requires k.Valid() && Indexed(k, objects) && o in k.nodes
    ensures |k.ready| == LEVEL_COUNT && Numbered(k.sleep.items, o)
  {
    forall i | 0 <= i < |k.sleep.items| && k.sleep.items[i].id == o.id ensures k.sleep.items[i] == o {
      assert k.sleep.items[i] in k.nodes;
    }
  }

  /** The second half of __HandleObjectRequeue, towards a ready queue. */
  method RequeueCore(k: Scheduler, o: SchedulerObject, preemptive: bool,
                     ghost core: Core, ghost ms: seq<Object>, ghost objects: seq<SchedulerObject>)
    requires Here(k, o, core, ms, objects) && ms[o.id].phase == Queueing && ms[o.id].level <= LEVEL_LOW
    requires ms[o.id].slice == Slice(ms[o.id].level)
    requires Count(core.ready, o.id) == 0 && Occurs(core.sleep, o.id) == 0
      && core.rest == Some(Requeue(o.id, preemptive))
    modifies k`ready, k`bandwidth, k.queues, k.sleep, k.nodes`link, k.nodes`owner
    modifies o`phase, o`level, o`slice, o`left
    ensures |core.ready| == LEVEL_COUNT
    ensures
      var m := ms[o.id];
      var m' := Repriced(m, NextLevel(m.level, preemptive));
      Stands(k, core.(rest := None, bandwidth := core.bandwidth - m.slice + m'.slice,
               sleep := Removed(core.sleep, o.id), ready := Enqueue(core.ready, m'.level, o.id)),
             ms[o.id := m'.(phase := Queued)], objects)
  {
    hide Scheduler.Valid, Ids, LevelIds, Removed, Enqueue, Count, Occurs;
    ReadyFacts(k, o, objects);
    NotReady(k, core, o);
    NotSleeping(k, core, o);
    RemovedNone(core.sleep, o.id);
    LevelsEnqueue(k.ready, NextLevel(o.level, preemptive), o);
    var fatal := k.FinishRequeue(o, true, preemptive);
  }

  /** The second half of it, towards the sleepers. */
  method ParkCore(k: Scheduler, o: SchedulerObject,
                  ghost core: Core, ghost ms: seq<Object>, ghost objects: seq<SchedulerObject>)
    requires Here(k, o, core, ms, objects) && ms[o.id].level <= LEVEL_LOW
    requires Count(core.ready, o.id) == 0 && Occurs(core.sleep, o.id) == 0 && core.rest == Some(Park(o.id))
    modifies k`ready, k`bandwidth, k.queues, k.sleep, k.nodes`link, k.nodes`owner
    modifies o`phase, o`level, o`slice, o`left
    ensures
      Stands(k, core.(rest := None, sleep := core.sleep + (if ms[o.id].deadline then [o.id] else [])), ms, objects)
  {
    hide Scheduler.Valid, LevelIds, Count, Occurs;
    NotReady(k, core, o);
    NotSleeping(k, core, o);
    IdsConcat(k.sleep.items, [o]);
    assert Ids([o]) == [o.id];
    var fatal := k.FinishRequeue(o, false, false);
  }

  /** The choice of SchedulerAdvance. */
  method DispatchCore(k: Scheduler, ghost core: Core, ghost ms: seq<Object>, ghost objects: seq<SchedulerObject>)
    returns (next: SchedulerObject?)
    requires Stands(k, core, ms, objects) && core.rest.None?
    modifies k`ready, k`bandwidth, k.queues
    modifies k.nodes`link, k.nodes`owner, k.nodes`phase, k.nodes`level, k.nodes`slice, k.nodes`left
    ensures |core.ready| == LEVEL_COUNT
    ensures
      var l := FirstReady(core.ready, 0);
      if l == LEVEL_COUNT then next == null && Stands(k, core, ms, objects)
      else
        && next != null && next in k.nodes && Indexed(k, objects) && next.owner == null
        && next.id == core.ready[l][0] < |ms|
        && var m, m' := ms[next.id], Repriced(ms[next.id], l);
        Stands(k, core.(ready := Dequeue(core.ready, l), current := Some(next.id),
                 bandwidth := core.bandwidth - m.slice + m'.slice),
               ms[next.id := m'.(phase := After(m'.phase, Execute))], objects)
  {
    hide Scheduler.Valid, Ids, LevelIds, Dequeue, FirstReady;
    ReadyCount(k);
    LevelsReady(k.ready, 0);
    ghost var l := FirstReady(k.ready, 0);
    if l < LEVEL_COUNT { LevelsDequeue(k.ready, l); }
    next := k.Next();
  }

  lemma ReadyCount(k: Scheduler)
    requires k.Valid()
    ensures |k.ready| == LEVEL_COUNT
  {}

  method BoostCore(k: Scheduler, ghost core: Core, ghost ms: seq<Object>, ghost objects: seq<SchedulerObject>)
    requires Stands(k, core, ms, objects)
    modifies k`ready, k.queues, k.nodes`link, k.nodes`owner
    ensures |core.ready| == LEVEL_COUNT
    ensures Stands(k, core.(ready := Boosted(core.ready, LEVEL_CRITICAL)), ms, objects)
  {
    hide Scheduler.Valid, Ids, LevelIds, Boosted;
    ReadyCount(k);
    LevelsBoosted(k.ready, LEVEL_CRITICAL);
    k.Boost();
  }

  /** SchedulerDestroyObject: the share of the bandwidth goes. */
  method DestroyCore(k: Scheduler, o: SchedulerObject,
                     ghost core: Core, ghost ms: seq<Object>, ghost objects: seq<SchedulerObject>)
    requires Here(k, o, core, ms, objects)
    modifies k`bandwidth
    ensures
      var ms' := ms[o.id := ms[o.id].(destroyed := true)];
      Stands(k, core.(bandwidth := core.bandwidth - ms[o.id].slice), ms', objects)
  {
    k.bandwidth := k.bandwidth - o.slice;
  }

  /** SchedulerCreateObject on the core that was chosen. */
  method CreateCore(k: Scheduler, isIdle: bool, ghost core: Core, ghost ms: seq<Object>,
                    ghost objects: seq<SchedulerObject>, id: nat) returns (o: SchedulerObject)
    requires Stands(k, core, ms, objects) && id == |ms|
    modifies k`nodes, k`bandwidth
    ensures fresh(o) && o.id == id && o.core == k.core && k.nodes == old(k.nodes) + {o}
    ensures
      var m := Fresh(k.core, isIdle);
      Stands(k, if isIdle then core else core.(bandwidth := core.bandwidth + m.slice), ms + [m], objects + [o])
  {
    o := new SchedulerObject(id, k.core, isIdle);
    k.Adopt(o);
  }

  /** Ready objects are queued, sleepers are blocked or on their way to a queue, slices follow levels. */
  ghost predicate Orderly(k: Scheduler)
    reads k, k.sleep, k.nodes
  {
    && (forall l, o :: 0 <= l < |k.ready| && o in k.ready[l] && o in k.nodes ==> o.phase == Queued)
    && (forall o :: o in k.sleep.items && o in k.nodes ==> o.phase == Blocked || o.phase == Queueing)
    && (forall o :: o in k.nodes ==> o.level <= LEVEL_LOW && o.slice == Slice(o.level) && 0 < o.left <= o.slice)
  }

  lemma StandsOrderly(k: Scheduler, c: nat, s: System, objects: seq<SchedulerObject>)
    requires Inv(s) && c < |s.cores| && Stands(k, s.cores[c], s.objects, objects)
    ensures Orderly(k)
  {
    hide Scheduler.Valid, Count, Occurs, Load;
    assert CoreOk(s, c);
    forall l, o | 0 <= l < |k.ready| && o in k.ready[l] && o in k.nodes ensures o.phase == Queued {
      var i :| 0 <= i < |k.ready[l]| && k.ready[l][i] == o;
      var q, id: nat := s.cores[c].ready, o.id;
      assert q[l][i] == id;
      OccursAt(q[l], i);
      CountAt(q, l, id);
      assert ObjectOk(s, id);
    }
    forall o | o in k.sleep.items && o in k.nodes ensures o.phase == Blocked || o.phase == Queueing {
      var i :| 0 <= i < |k.sleep.items| && k.sleep.items[i] == o;
      assert s.cores[c].sleep[i] == o.id;
      OccursAt(s.cores[c].sleep, i);
    }
    forall o | o in k.nodes ensures o.level <= LEVEL_LOW && o.slice == Slice(o.level) && 0 < o.left <= o.slice {
      assert ObjectOk(s, o.id);
    }
  }

  /** Sleeper number `at` is the first whose time has come; with |ids| there is none. */
  ghost predicate FirstDue(ids: seq<nat>, objects: seq<SchedulerObject>, at: nat,
                           seconds: nat, nanoseconds: nat, ignored: SchedulerObject?)
    reads objects
  {
    && at <= |ids| && (forall j :: 0 <= j < |ids| ==> ids[j] < |objects|)
    && (forall j :: 0 <= j < at ==> !Due(objects[ids[j]], seconds, nanoseconds, ignored))
    && (at < |ids| ==> Due(objects[ids[at]], seconds, nanoseconds, ignored))
  }

  /** __UpdateSleepQueue: the first sleeper whose time has come goes to its ready queue. */
  method SweepCore(k: Scheduler, seconds: nat, nanoseconds: nat, ignored: SchedulerObject?,
                   ghost core: Core, ghost ms: seq<Object>, ghost objects: seq<SchedulerObject>)
    returns (ghost at: nat)
    requires Stands(k, core, ms, objects) && Orderly(k) && core.rest.None?
    modifies k`ready, k.queues, k.sleep
    modifies k.nodes`link, k.nodes`owner, k.nodes`phase, k.nodes`wakeSeconds, k.nodes`wakeNanoseconds
    ensures |core.ready| == LEVEL_COUNT && old(FirstDue(core.sleep, objects, at, seconds, nanoseconds, ignored))
    ensures forall j :: at < j < |core.sleep| ==> core.sleep[j] < |objects| && Unmoved(objects[core.sleep[j]])
    ensures at >= |core.sleep| ==> Stands(k, core, ms, objects)
    ensures at < |core.sleep| ==>
      && var id: nat := core.sleep[at];
      && id < |ms| && ms[id].phase == Blocked && ms[id].level <= LEVEL_LOW && ms[id].core == k.core
      && Stands(k, core.(sleep := Removed(core.sleep, id), ready := Enqueue(core.ready, ms[id].level, id)),
                ms[id := ms[id].(phase := Queued)], objects)
  {
    hide Scheduler.Valid, Queue.Valid, Ids, LevelIds, Removed, Enqueue, NotBefore;
    ReadyCount(k);
    SleepersFacts(k);
    ghost var was, ready := k.sleep.items, k.ready;
    SleepIds(k, objects);
    at := k.UpdateSleepQueue(seconds, nanoseconds, ignored);
    if at < |was| {
      ghost var o := was[at];
      assert o in was;
      IdsRemovedIn(was, o, k.nodes, objects);
      LevelsEnqueue(ready, o.level, o);
    }
  }

  lemma SleepersFacts(k: Scheduler)
    requires k.Valid()
    ensures forall o :: o in k.sleep.items ==> o in k.nodes
    ensures Owners(k)
  {}

  ghost predicate Owners(k: Scheduler)
    reads k
  {
    forall o :: o in k.nodes ==> o.core == k.core
  }

  lemma SleepIds(k: Scheduler, objects: seq<SchedulerObject>)
    requires k.Valid() && Indexed(k, objects)
    ensures
      var ids := Ids(k.sleep.items);
      forall j :: 0 <= j < |ids| ==>
        ids[j] == k.sleep.items[j].id && ids[j] < |objects| && objects[ids[j]] == k.sleep.items[j]
  {
    forall j | 0 <= j < |k.sleep.items| ensures k.sleep.items[j] in k.nodes {
      assert k.sleep.items[j] in k.sleep.items;
    }
  }

  lemma IdsRemovedIn(s: seq<SchedulerObject>, o: SchedulerObject, nodes: set<SchedulerObject>,
    objects: seq<SchedulerObject>)
    requires o in nodes && (forall x :: x in s ==> x in nodes)
    requires forall x :: x in nodes ==> x.id < |objects| && objects[x.id] == x
    ensures Ids(Removed(s, o)) == Removed(Ids(s), o.id)
  {
    IdsRemoved(s, o);
  }

  lemma PendingFacts(s: System, id: nat)
    requires Inv(s) && id in s.pending
    ensures id < |s.objects| && s.objects[id].core < |s.cores|
    ensures s.objects[id].phase == Queueing && s.objects[id].level <= LEVEL_LOW
    ensures Count(s.cores[s.objects[id].core].ready, id) == 0
  {
    hide Count, Occurs, Load;
    assert ObjectOk(s, id);
  }

  lemma RestFacts(s: System, c: nat)
    requires Inv(s) && c < |s.cores| && s.cores[c].rest.Some?
    ensures
      var id := s.cores[c].rest.value.id;
      && id < |s.objects| && s.objects[id].core == c && s.objects[id].level <= LEVEL_LOW
      && s.objects[id].slice == Slice(s.objects[id].level)
      && Occurs(s.cores[c].sleep, id) == 0 && Count(s.cores[c].ready, id) == 0
      && (s.cores[c].rest.value.Requeue? ==> s.objects[id].phase == Queueing)
  {
    hide Count, Occurs, Load;
    assert CoreOk(s, c) && ObjectOk(s, s.cores[c].rest.value.id);
  }

  lemma ReadyHeadFacts(s: System, c: nat)
    requires Inv(s) && Settled(s, c)
    ensures
      var l := FirstReady(s.cores[c].ready, 0);
      l < LEVEL_COUNT ==>
        var id: nat := s.cores[c].ready[l][0];
        id < |s.objects| && s.objects[id].core == c && s.objects[id].phase == Queued
  {
    hide Count, Occurs, Load;
    var l := FirstReady(s.cores[c].ready, 0);
    if l < LEVEL_COUNT { HeadIsQueued(s, c, l); }
  }

  /** Only core `c` and its objects have changed. */
  ghost predicate OnlyCore(s: System, s': System, c: nat) {
    && |s'.cores| == |s.cores| && |s'.objects| == |s.objects|
    && (forall d :: 0 <= d < |s.cores| && d != c ==> s'.cores[d] == s.cores[d])
    && (forall i :: 0 <= i < |s.objects| ==> s'.objects[i].core == s.objects[i].core)
    && (forall i :: 0 <= i < |s.objects| && s.objects[i].core != c ==> s'.objects[i] == s.objects[i])
  }

  lemma PutOnlyCore(s: System, c: nat, k: Core, id: nat, o: Object, pending: set<nat>)
    requires c < |s.cores| && id < |s.objects| && s.objects[id].core == o.core == c
    ensures OnlyCore(s, Put(s, c, k, id, o, pending), c)
  {}

  lemma OnlyCoreTwice(s: System, s': System, s'': System, c: nat)
    requires OnlyCore(s, s', c) && OnlyCore(s', s'', c)
    ensures OnlyCore(s, s'', c)
  {}

  lemma DispatchOnlyCore(s: System, c: nat)
    requires Inv(s) && Do(s, Step.Dispatch(c)).Next?
    ensures OnlyCore(s, Do(s, Step.Dispatch(c)).s, c)
  {
    hide Inv, Do, Dequeue, FirstReady, Repriced, OnlyCore;
    DispatchIs(s, c);
    ReadyHeadFacts(s, c);
    var l := FirstReady(s.cores[c].ready, 0);
    if l == LEVEL_COUNT {
      SameOnlyCore(s, c);
    } else {
      var id: nat := s.cores[c].ready[l][0];
      var o, s' := Repriced(s.objects[id], l), Do(s, Step.Dispatch(c)).s;
      RepricedPhase(s.objects[id], l);
      PutOnlyCore(s, c, s'.cores[c], id, o.(phase := After(o.phase, Event.Execute)), s.pending);
    }
  }

  lemma SameOnlyCore(s: System, c: nat)
    ensures OnlyCore(s, s, c)
  {}

  lemma BoostOnlyCore(s: System, c: nat)
    requires Do(s, Step.Boost(c)).Next?
    ensures OnlyCore(s, Do(s, Step.Boost(c)).s, c)
  {
    BoostIs(s, c);
  }

  class Machine {
    const cores: seq<Scheduler>
    var objects: seq<SchedulerObject>    // by number
    var current: seq<Option<nat>>        // what each core runs
    var rest: seq<Option<Rest>>          // the second half of a requeue, still to be done
    var pending: set<nat>                // queue operations on their way to another core
    ghost var sys: System
    ghost var repr: set<object>

    /** Who owns what: every core its queues and objects. */
    ghost predicate Arranged()
      reads this`objects, this`repr, cores`nodes
    {
      && this !in repr
      && (forall c :: 0 <= c < |cores| ==>
            && cores[c] in repr && cores[c].sleep in repr && (forall q :: q in cores[c].queues ==> q in repr)
            && cores[c].nodes <= repr && cores[c].core == c && cores[c].Owned())
      && (forall i :: 0 <= i < |objects| ==>
            && objects[i] in repr && objects[i].id == i && objects[i].core < |cores|
            && objects[i] in cores[objects[i].core].nodes)
    }

    lemma Outside()
      requires Arranged()
      ensures this !in repr && forall d :: 0 <= d < |cores| ==> cores[d].core == d
    {}

    lemma Housed(id: nat)
      requires Arranged() && id < |objects|
      ensures this !in repr && objects[id].core < |cores| && objects[id].id == id
      ensures forall d :: 0 <= d < |cores| ==> cores[d].core == d
    {}

    ghost predicate Registered()
      reads this
    {
      && |cores| == |current| == |rest| == |sys.cores| && |objects| == |sys.objects| && pending == sys.pending
      && (forall c :: 0 <= c < |cores| ==> current[c] == sys.cores[c].current && rest[c] == sys.cores[c].rest)
      && (forall i :: 0 <= i < |objects| ==> objects[i].core == sys.objects[i].core)
    }

    /** Memory is a picture of the system, and the system is in order. */
    ghost predicate Valid()
      reads this, cores, repr
    {
      && Arranged() && Registered() && Inv(sys)
      && (forall c :: 0 <= c < |cores| ==> Stands(cores[c], sys.cores[c], sys.objects, objects))
    }

    /** `n` cores without objects. */
    constructor (n: nat)
      ensures Valid() && Start(sys) && |cores| == n && fresh(repr)
    {
      var all, owned := NewCores(n);
      cores, objects, current, rest, pending := all, [], seq(n, _ => None), seq(n, _ => None), {};
      sys, repr := StartSystem(n), owned;
      new;
      hide Inv, Stands, Blank, Start, StartSystem;
      StartSystemIs(n);
      forall c | 0 <= c < n
        ensures Stands(cores[c], sys.cores[c], sys.objects, objects)
        ensures cores[c] in repr && cores[c].sleep in repr && (forall q :: q in cores[c].queues ==> q in repr)
        ensures cores[c].nodes == {} && cores[c].core == c && cores[c].Owned()
      {
        assert Blank(cores[c], c, owned);
        BlankStands(cores[c], c, owned);
        BlankFacts(cores[c], c, owned);
      }
    }

    /** Every core but `c` is as the system says. */
    ghost predicate Others(c: nat)
      requires |cores| == |sys.cores|
      reads this, cores, repr
    {
      && Arranged()
      && (forall d :: 0 <= d < |cores| && d != c ==> Stands(cores[d], sys.cores[d], sys.objects, objects))
    }

    /** Before core `c` works on object `id`. */
    ghost predicate Ready(c: nat, id: nat)
      reads this, cores, repr
    {
      && c < |cores| == |sys.cores| && id < |objects| == |sys.objects| && objects[id].core == c
      && Others(c) && Stands(cores[c], sys.cores[c], sys.objects, objects)
    }

    /** No deadline has changed. */
    twostate predicate SameClocks()
      reads this`objects, objects
    {
      objects == old(objects) && forall i :: 0 <= i < |objects| ==>
        objects[i].wakeSeconds == old(objects[i].wakeSeconds)
        && objects[i].wakeNanoseconds == old(objects[i].wakeNanoseconds)
    }

    /** The object has this deadline, and no other deadline has changed. */
    twostate predicate Alarmed(id: nat, seconds: nat, nanoseconds: nat)
      reads this`objects, objects
    {
      && objects == old(objects) && id < |objects|
      && objects[id].wakeSeconds == seconds && objects[id].wakeNanoseconds == nanoseconds
      && forall i :: 0 <= i < |objects| && i != id ==>
           objects[i].wakeSeconds == old(objects[i].wakeSeconds)
           && objects[i].wakeNanoseconds == old(objects[i].wakeNanoseconds)
    }

    /** The sleepers of a core are due when they were; what it runs is not among them. */
    twostate predicate SleepersKept(c: nat)
      requires c < old(|sys.cores|)
      reads this, objects
    {
      objects == old(objects) && forall j :: 0 <= j < |old(sys.cores[c].sleep)| ==>
        && old(sys.cores[c].sleep)[j] < |objects| && Unmoved(objects[old(sys.cores[c].sleep)[j]])
        && old(sys.cores[c].current) != Some(old(sys.cores[c].sleep)[j])
    }

    method QueueHere(c: nat, id: nat)
      requires Ready(c, id) && sys.objects[id].phase == Queueing && sys.objects[id].level <= LEVEL_LOW
      requires Count(sys.cores[c].ready, id) == 0 && sys.cores[c].rest.None?
      modifies repr
      ensures Others(c) && |sys.cores[c].ready| == LEVEL_COUNT
      ensures
        var k, o := sys.cores[c], sys.objects[id];
        Stands(cores[c], k.(sleep := Removed(k.sleep, id), ready := Enqueue(k.ready, o.level, id)),
               sys.objects[id := o.(phase := Queued)], objects)
      ensures SameClocks()
    {
      hide Stands, Count, Removed, Enqueue;
      QueueCore(cores[c], objects[id], sys.cores[c], sys.objects, objects);
    }

    method RequeueHere(c: nat, id: nat, preemptive: bool)
      requires Ready(c, id) && sys.objects[id].phase == Queueing && sys.objects[id].level <= LEVEL_LOW
      requires sys.objects[id].slice == Slice(sys.objects[id].level) && Count(sys.cores[c].ready, id) == 0
      requires Occurs(sys.cores[c].sleep, id) == 0 && sys.cores[c].rest == Some(Requeue(id, preemptive))
      modifies repr
      ensures Others(c) && |sys.cores[c].ready| == LEVEL_COUNT
      ensures
        var k, o := sys.cores[c], sys.objects[id];
        var o' := Repriced(o, NextLevel(o.level, preemptive));
        Stands(cores[c], k.(rest := None, bandwidth := k.bandwidth - o.slice + o'.slice,
                 sleep := Removed(k.sleep, id), ready := Enqueue(k.ready, o'.level, id)),
               sys.objects[id := o'.(phase := Queued)], objects)
      ensures SameClocks()
    {
      hide Stands, Count, Occurs, Removed, Enqueue;
      RequeueCore(cores[c], objects[id], preemptive, sys.cores[c], sys.objects, objects);
    }

    method ParkHere(c: nat, id: nat)
      requires Ready(c, id) && sys.objects[id].level <= LEVEL_LOW && Count(sys.cores[c].ready, id) == 0
      requires Occurs(sys.cores[c].sleep, id) == 0 && sys.cores[c].rest == Some(Park(id))
      modifies repr
      ensures Others(c)
      ensures
        var k := sys.cores[c];
        Stands(cores[c], k.(rest := None, sleep := k.sleep + (if sys.objects[id].deadline then [id] else [])),
               sys.objects, objects)
      ensures SameClocks()
    {
      hide Stands, Count, Occurs;
      ParkCore(cores[c], objects[id], sys.cores[c], sys.objects, objects);
    }

    method DispatchHere(c: nat) returns (next: SchedulerObject?)
      requires c < |cores| == |sys.cores| && |objects| == |sys.objects| && sys.cores[c].rest.None?
      requires Others(c) && Stands(cores[c], sys.cores[c], sys.objects, objects)
      modifies repr
      ensures Others(c) && |sys.cores[c].ready| == LEVEL_COUNT
      ensures
        var k := sys.cores[c];
        var l := FirstReady(k.ready, 0);
        if l == LEVEL_COUNT then next == null && Stands(cores[c], k, sys.objects, objects)
        else
          && next != null && next.owner == null && next.id == k.ready[l][0] < |objects| && objects[next.id] == next
          && var o, o' := sys.objects[next.id], Repriced(sys.objects[next.id], l);
          Stands(cores[c], k.(ready := Dequeue(k.ready, l), current := Some(next.id),
                   bandwidth := k.bandwidth - o.slice + o'.slice),
                 sys.objects[next.id := o'.(phase := After(o'.phase, Event.Execute))], objects)
      ensures SameClocks()
    {
      hide Stands, FirstReady, Dequeue, Repriced, After;
      next := DispatchCore(cores[c], sys.cores[c], sys.objects, objects);
      if next != null { FoundIn(cores[c], next, objects); }
    }

    method BoostHere(c: nat)
      requires c < |cores| == |sys.cores| && |objects| == |sys.objects|
      requires Others(c) && Stands(cores[c], sys.cores[c], sys.objects, objects)
      modifies repr
      ensures Others(c) && |sys.cores[c].ready| == LEVEL_COUNT
      ensures
        var boosted := sys.cores[c].(ready := Boosted(sys.cores[c].ready, LEVEL_CRITICAL));
        Stands(cores[c], boosted, sys.objects, objects)
    {
      hide Stands, Boosted;
      BoostCore(cores[c], sys.cores[c], sys.objects, objects);
    }

    method WakeHere(c: nat, id: nat) returns (state: Phase)
      requires Ready(c, id)
      modifies repr
      ensures Others(c) && state == Target(sys.objects[id].phase, Event.Queue)
      ensures
        var o := sys.objects[id];
        Stands(cores[c], sys.cores[c], sys.objects[id := o.(phase := After(o.phase, Event.Queue))], objects)
      ensures SameClocks()
    {
      hide Stands, After;
      state := WakeCore(cores[c], objects[id], sys.cores[c], sys.objects, objects);
    }

    /** EVENT_QUEUE on any object, from any core. */
    method Wake(id: nat)
      requires Valid() && Do(sys, Step.Wake(id)).Next?
      modifies this`pending, this`sys, repr
      ensures Valid() && repr == old(repr) && Do(old(sys), Step.Wake(id)) == Next(sys)
      ensures SameClocks()
    {
      hide Inv, Stands, Do, Arranged, After;
      WakeIs(sys, id);
      Housed(id);
      StepKeepsInv(sys, Step.Wake(id));
      var c := objects[id].core;
      ghost var was := sys;
      var state := WakeHere(c, id);
      if state == Queueing { pending := pending + {id}; }
      sys := Do(sys, Step.Wake(id)).s;
      AllStand(cores, was, sys, objects, c, id);
    }

    /** __QueueForScheduler on the core of the object. */
    method Deliver(id: nat)
      requires Valid() && Do(sys, Step.Deliver(id)).Next?
      modifies this`pending, this`sys, repr
      ensures Valid() && repr == old(repr) && Do(old(sys), Step.Deliver(id)) == Next(sys)
      ensures SameClocks()
    {
      hide Inv, Stands, Do, Arranged, Removed, Enqueue;
      DeliverIs(sys, id);
      PendingFacts(sys, id);
      Housed(id);
      StepKeepsInv(sys, Step.Deliver(id));
      var c := objects[id].core;
      ghost var was := sys;
      QueueHere(c, id);
      pending := pending - {id};
      sys := Do(sys, Step.Deliver(id)).s;
      AllStand(cores, was, sys, objects, c, id);
    }

    method BlockHere(c: nat, id: nat, seconds: nat, nanoseconds: nat)
      requires Ready(c, id) && sys.cores[c].rest.None?
      modifies repr
      ensures Others(c) && Alarmed(id, seconds, nanoseconds)
      ensures
        var o, timed := sys.objects[id], seconds != 0 && nanoseconds != 0;
        Stands(cores[c], sys.cores[c],
               sys.objects[id := o.(deadline := timed, phase := After(o.phase, Event.Block))], objects)
    {
      hide Stands, After;
      BlockCore(cores[c], objects[id], seconds, nanoseconds, sys.cores[c], sys.objects, objects);
    }

    /** SchedulerSleep and SchedulerBlock on the object that runs. */
    method Block(c: nat, seconds: nat, nanoseconds: nat)
      requires Valid() && Do(sys, Step.Block(c, seconds != 0 && nanoseconds != 0)).Next?
      modifies this`sys, repr
      ensures Valid() && repr == old(repr) && Do(old(sys), Step.Block(c, seconds != 0 && nanoseconds != 0)) == Next(sys)
      ensures c < |old(sys.cores)| && old(sys.cores[c].current).Some?
      ensures Alarmed(old(sys.cores[c].current).value, seconds, nanoseconds)
    {
      hide Inv, Stands, Do, Arranged, After;
      ghost var step := Step.Block(c, seconds != 0 && nanoseconds != 0);
      BlockIs(sys, c, step.timed);
      CurrentFacts(sys, c);
      StepKeepsInv(sys, step);
      var id := current[c].value;
      Housed(id);
      ghost var was := sys;
      BlockHere(c, id, seconds, nanoseconds);
      sys := Do(sys, step).s;
      AllStand(cores, was, sys, objects, c, id);
    }

    method YieldHere(c: nat, id: nat, preemptive: bool) returns (r: Rest)
      requires Ready(c, id) && Target(sys.objects[id].phase, Schedule) != Invalid
      modifies repr
      ensures Others(c) && SameClocks()
      ensures r == if Target(sys.objects[id].phase, Schedule) == Queueing then Requeue(id, preemptive) else Park(id)
      ensures
        var o := sys.objects[id];
        Stands(cores[c], sys.cores[c].(current := None, rest := Some(r)),
               sys.objects[id := o.(phase := Target(o.phase, Schedule))], objects)
    {
      hide Stands;
      r := YieldCore(cores[c], objects[id], preemptive, sys.cores[c], sys.objects, objects);
    }

    /** The first half of __HandleObjectRequeue. */
    method Yield(c: nat, preemptive: bool)
      requires Valid() && Do(sys, Step.Yield(c, preemptive)).Next?
      modifies this`current, this`rest, this`sys, repr
      ensures Valid() && repr == old(repr) && Do(old(sys), Step.Yield(c, preemptive)) == Next(sys)
      ensures SameClocks()
    {
      hide Inv, Stands, Do, Arranged;
      YieldIs(sys, c, preemptive);
      CurrentFacts(sys, c);
      StepKeepsInv(sys, Step.Yield(c, preemptive));
      var id := current[c].value;
      Housed(id);
      ghost var was := sys;
      var r := YieldHere(c, id, preemptive);
      current, rest := current[c := None], rest[c := Some(r)];
      sys := Do(sys, Step.Yield(c, preemptive)).s;
      AllStand(cores, was, sys, objects, c, id);
    }

    /** The second half of it. */
    method FinishYield(c: nat)
      requires Valid() && Do(sys, Step.FinishYield(c)).Next?
      modifies this`rest, this`sys, repr
      ensures Valid() && repr == old(repr) && Do(old(sys), Step.FinishYield(c)) == Next(sys)
      ensures SameClocks()
    {
      hide Valid, Do;
      FinishGuard(this, c);
      if rest[c].value.Requeue? { FinishRequeue(c); } else { FinishPark(c); }
    }

    method FinishRequeue(c: nat)
      requires Valid() && Do(sys, Step.FinishYield(c)).Next?
      requires HasCore(sys, c) && sys.cores[c].rest.Some? && sys.cores[c].rest.value.Requeue?
      modifies this`rest, this`sys, repr
      ensures Valid() && repr == old(repr) && Do(old(sys), Step.FinishYield(c)) == Next(sys)
      ensures SameClocks()
    {
      hide Inv, Stands, Do, Arranged, Removed, Enqueue, Repriced;
      RestFacts(sys, c);
      StepKeepsInv(sys, Step.FinishYield(c));
      var r := rest[c].value;
      Housed(r.id);
      ghost var was := sys;
      RequeueIs(sys, c);
      RepricedPhase(sys.objects[r.id], NextLevel(sys.objects[r.id].level, r.preemptive));
      RequeueHere(c, r.id, r.preemptive);
      rest := rest[c := None];
      sys := Do(sys, Step.FinishYield(c)).s;
      AllStand(cores, was, sys, objects, c, r.id);
    }

    method FinishPark(c: nat)
      requires Valid() && Do(sys, Step.FinishYield(c)).Next?
      requires HasCore(sys, c) && sys.cores[c].rest.Some? && sys.cores[c].rest.value.Park?
      modifies this`rest, this`sys, repr
      ensures Valid() && repr == old(repr) && Do(old(sys), Step.FinishYield(c)) == Next(sys)
      ensures SameClocks()
    {
      hide Inv, Stands, Do, Removed, Enqueue, After;
      RestFacts(sys, c);
      StepKeepsInv(sys, Step.FinishYield(c));
      var r := rest[c].value;
      ghost var was := sys;
      ParkIs(sys, c);
      ParkHere(c, r.id);
      rest := rest[c := None];
      sys := Do(sys, Step.FinishYield(c)).s;
      AllStand(cores, was, sys, objects, c, r.id);
    }

    /** The object goes on with what is left of its time slice. */
    method Redeploy(c: nat, passed: nat)
      requires Valid() && Do(sys, Step.Redeploy(c, passed)).Next?
      modifies this`sys, repr
      ensures Valid() && repr == old(repr) && Do(old(sys), Step.Redeploy(c, passed)) == Next(sys)
      ensures SameClocks()
    {
      hide Inv, Stands, Do, Removed, Enqueue, After;
      RedeployIs(sys, c, passed);
      CurrentFacts(sys, c);
      StepKeepsInv(sys, Step.Redeploy(c, passed));
      var id := current[c].value;
      ghost var was := sys;
      RedeployCore(cores[c], objects[id], passed, sys.cores[c], sys.objects, objects);
      sys := Do(sys, Step.Redeploy(c, passed)).s;
      AllStand(cores, was, sys, objects, c, id);
    }

    /** The next object of a core. */
    method Dispatch(c: nat) returns (next: SchedulerObject?)
      requires Valid() && Do(sys, Step.Dispatch(c)).Next?
      modifies this`current, this`sys, repr
      ensures Valid() && repr == old(repr) && Do(old(sys), Step.Dispatch(c)) == Next(sys)
      ensures c < |sys.cores| && sys.cores[c].current == (if next == null then None else Some(next.id))
      ensures next != null ==>
        next.id < |objects| == |sys.objects| && objects[next.id] == next && sys.objects[next.id].phase == Running
      ensures Settled(sys, c)
      ensures SameClocks()
    {
      hide Inv, Stands, Do, Arranged, FirstReady, Dequeue, Repriced;
      Outside();
      DispatchIs(sys, c);
      ReadyHeadFacts(sys, c);
      StepKeepsInv(sys, Step.Dispatch(c));
      ghost var was := sys;
      next := DispatchHere(c);
      if next != null { RepricedPhase(sys.objects[next.id], FirstReady(sys.cores[c].ready, 0)); }
      sys := Do(sys, Step.Dispatch(c)).s;
      if next != null {
        current := current[c := Some(next.id)];
        AllStand(cores, was, sys, objects, c, next.id);
      }
    }

    /** __Boost on one core. */
    method Boost(c: nat)
      requires Valid() && Do(sys, Step.Boost(c)).Next?
      modifies this`sys, repr
      ensures Valid() && repr == old(repr) && Do(old(sys), Step.Boost(c)) == Next(sys)
    {
      hide Inv, Stands, Do, Removed, Enqueue, After;
      assert Settled(sys, c) && Do(sys, Step.Boost(c)).s == WithCore(sys, c,
        sys.cores[c].(ready := Boosted(sys.cores[c].ready, LEVEL_CRITICAL))) by { BoostIs(sys, c); }
      StepKeepsInv(sys, Step.Boost(c));
      BoostHere(c);
      sys := Do(sys, Step.Boost(c)).s;
    }

    /** The thread is finished. */
    method Exit(c: nat)
      requires Valid() && Do(sys, Step.Exit(c)).Next?
      modifies this`current, this`sys
      ensures Valid() && repr == old(repr) && Do(old(sys), Step.Exit(c)) == Next(sys)
    {
      hide Inv, Stands, Do, Removed, Enqueue, After;
      ExitIs(sys, c);
      CurrentFacts(sys, c);
      StepKeepsInv(sys, Step.Exit(c));
      ghost var was, id := sys, sys.cores[c].current.value;
      current := current[c := None];
      sys := Do(sys, Step.Exit(c)).s;
      ExitStands(cores[c], was.cores[c], was.objects, objects, id);
      AllStand(cores, was, sys, objects, c, id);
    }

    /** SchedulerDestroyObject. */
    method Destroy(id: nat)
      requires Valid() && Do(sys, Step.Destroy(id)).Next?
      modifies this`sys, repr
      ensures Valid() && repr == old(repr) && Do(old(sys), Step.Destroy(id)) == Next(sys)
    {
      hide Inv, Stands, Do, Removed, Enqueue, After;
      DestroyIs(sys, id);
      StepKeepsInv(sys, Step.Destroy(id));
      var o := objects[id];
      var c := o.core;
      ghost var was := sys;
      DestroyCore(cores[c], o, sys.cores[c], sys.objects, objects);
      sys := Do(sys, Step.Destroy(id)).s;
      AllStand(cores, was, sys, objects, c, id);
    }

    method CreateHere(c: nat, isIdle: bool) returns (o: SchedulerObject)
      requires Valid() && c < |cores|
      modifies repr
      ensures fresh(o) && o.id == |objects| && o.core == c && cores[c].nodes == old(cores[c].nodes) + {o}
      ensures forall d :: 0 <= d < |cores| && d != c ==>
        Stands(cores[d], sys.cores[d], sys.objects, objects) && cores[d].nodes == old(cores[d].nodes)
      ensures
        var m, k := Fresh(c, isIdle), sys.cores[c];
        Stands(cores[c], if isIdle then k else k.(bandwidth := k.bandwidth + m.slice), sys.objects + [m], objects + [o])
    {
      hide Inv, Stands;
      o := CreateCore(cores[c], isIdle, sys.cores[c], sys.objects, objects, |objects|);
    }

    /** SchedulerCreateObject, on the core that was chosen. */
    method Create(c: nat, isIdle: bool)
      requires Valid() && Do(sys, Step.Create(c, isIdle)).Next?
      modifies this`objects, this`sys, this`repr, repr
      ensures Valid() && fresh(repr - old(repr)) && Do(old(sys), Step.Create(c, isIdle)) == Next(sys)
    {
      hide Inv, Stands, Do, Arranged;
      CreateIs(sys, c, isIdle);
      StepKeepsInv(sys, Step.Create(c, isIdle));
      Enroll(c, isIdle);
      sys := Do(sys, Step.Create(c, isIdle)).s;
    }

    /** The new object is registered. */
    method Enroll(c: nat, isIdle: bool)
      requires Valid() && c < |cores|
      modifies this`objects, this`repr, repr
      ensures Arranged() && this !in repr && fresh(repr - old(repr)) && sys == old(sys)
      ensures current == old(current) && rest == old(rest) && pending == old(pending)
      ensures |objects| == old(|objects|) + 1 && objects[..old(|objects|)] == old(objects)
      ensures objects[old(|objects|)].core == c
      ensures
        var m, k := Fresh(c, isIdle), sys.cores[c];
        Stands(cores[c], if isIdle then k else k.(bandwidth := k.bandwidth + m.slice), sys.objects + [m], objects)
      ensures forall d :: 0 <= d < |cores| && d != c ==>
        Stands(cores[d], sys.cores[d], sys.objects + [Fresh(c, isIdle)], objects)
    {
      hide Inv, Stands, Fresh;
      ghost var before := objects;
      var o := CreateHere(c, isIdle);
      objects := objects + [o];
      repr := repr + {o};
      forall d | 0 <= d < |cores| && d != c
        ensures Stands(cores[d], sys.cores[d], sys.objects + [Fresh(c, isIdle)], objects)
      {
        GrownStands(cores[d], sys.cores[d], sys.objects, before, Fresh(c, isIdle), o);
      }
    }

    /** The sleepers behind number `at` sleep on. */
    twostate predicate LaterSleep(c: nat, at: nat)
      requires c < old(|sys.cores|)
      reads this`objects, objects
    {
      objects == old(objects) && forall j :: at < j < |old(sys.cores[c].sleep)| ==>
        old(sys.cores[c].sleep)[j] < |objects| && Unmoved(objects[old(sys.cores[c].sleep)[j]])
    }

    method SweepHere(c: nat, seconds: nat, nanoseconds: nat, ignored: SchedulerObject?)
      returns (ghost at: nat)
      requires c < |cores| == |sys.cores| && |objects| == |sys.objects| && sys.cores[c].rest.None? && Orderly(cores[c])
      requires Others(c) && Stands(cores[c], sys.cores[c], sys.objects, objects)
      modifies repr
      ensures Others(c) && |sys.cores[c].ready| == LEVEL_COUNT
      ensures old(FirstDue(sys.cores[c].sleep, objects, at, seconds, nanoseconds, ignored))
      ensures LaterSleep(c, at)
      ensures at >= |sys.cores[c].sleep| ==> Stands(cores[c], sys.cores[c], sys.objects, objects)
      ensures at < |sys.cores[c].sleep| ==>
        && var k := sys.cores[c];
        && var id: nat := k.sleep[at];
        && id < |objects| && var o := sys.objects[id];
        && o.phase == Blocked && o.level <= LEVEL_LOW && o.core == c
        && Stands(cores[c], k.(sleep := Removed(k.sleep, id), ready := Enqueue(k.ready, o.level, id)),
                  sys.objects[id := o.(phase := Queued)], objects)
    {
      hide Stands, Orderly, Removed, Enqueue, FirstDue;
      at := SweepCore(cores[c], seconds, nanoseconds, ignored, sys.cores[c], sys.objects, objects);
    }

    /** Any step that the system can make. */
    method Perform(step: Step)
      requires Valid() && Do(sys, step).Next?
      modifies this, repr
      ensures Valid() && fresh(repr - old(repr)) && Do(old(sys), step) == Next(sys)
    {
      hide Valid, Do;
      match step
      case Create(c, isIdle) => Create(c, isIdle);
      case Wake(id) => Wake(id);
      case Deliver(id) => Deliver(id);
      case Block(c, timed) => if timed { Block(c, 1, 1); } else { Block(c, 0, 0); }
      case Yield(c, preemptive) => Yield(c, preemptive);
      case FinishYield(c) => FinishYield(c);
      case Redeploy(c, passed) => Redeploy(c, passed);
      case Dispatch(c) => var _ := Dispatch(c);
      case Boost(c) => Boost(c);
      case Exit(c) => Exit(c);
      case Destroy(id) => Destroy(id);
    }

    /**
     Every run of the system, over any number of cores and with any interleaving, is carried
     out on the linked queues; before and after every step they are acyclic and disjoint, with
     right tails, and hold exactly what the system says.
     */
    method Execute(steps: seq<Step>)
      requires Valid() && Run(sys, steps).Next?
      modifies this, repr
      ensures Valid() && fresh(repr - old(repr)) && Run(old(sys), steps) == Next(sys)
    {
      hide Valid, Do;
      var i := 0;
      while i < |steps|
        invariant i <= |steps| && Valid() && fresh(repr - old(repr))
        invariant Run(sys, steps[i..]) == Run(old(sys), steps)
      {
        assert steps[i..][0] == steps[i] && steps[i..][1..] == steps[i + 1..];
        Perform(steps[i]);
        i := i + 1;
      }
    }

    /** __UpdateSleepQueue on one core: the first sleeper whose time has come is woken and queued. */
    method Sweep(c: nat, seconds: nat, nanoseconds: nat, ignored: SchedulerObject?) returns (ghost at: nat)
      requires Valid() && Settled(sys, c)
      modifies this`sys, repr
      ensures Valid() && repr == old(repr) && Run(old(sys), SweepSteps(old(sys), c, at)) == Next(sys) && Settled(sys, c)
      ensures old(FirstDue(sys.cores[c].sleep, objects, at, seconds, nanoseconds, ignored)) && LaterSleep(c, at)
      ensures sys.cores[c].current == old(sys.cores[c].current) && |sys.objects| == |old(sys.objects)|
      ensures forall i :: 0 <= i < |sys.objects| && old(sys.objects)[i].phase != Blocked ==>
        sys.objects[i] == old(sys.objects)[i]
      ensures OnlyCore(old(sys), sys, c)
    {
      hide Inv, Stands, Run, Removed, Enqueue, FirstDue, OnlyCore;
      StandsOrderly(cores[c], c, sys, objects);
      ghost var was := sys;
      at := SweepHere(c, seconds, nanoseconds, ignored);
      ghost var steps := SweepSteps(sys, c, at);
      RunNothing(sys);
      SameOnlyCore(sys, c);
      if at < |sys.cores[c].sleep| {
        ghost var id: nat := sys.cores[c].sleep[at];
        WokenIs(sys, c, id);
        RunKeepsInv(sys, steps);
        sys := Run(sys, steps).s;
        PutOnlyCore(was, c, sys.cores[c], id, sys.objects[id], was.pending);
        AllStand(cores, was, sys, objects, c, id);
      }
    }

    /** The object that ran is requeued or parked. */
    method GiveUp(c: nat, preemptive: bool)
      requires Valid() && Settled(sys, c) && sys.cores[c].current.Some?
      modifies this`current, this`rest, this`sys, repr
      ensures Valid() && repr == old(repr) && Settled(sys, c) && sys.cores[c].current.None?
      ensures Run(old(sys), [Step.Yield(c, preemptive), Step.FinishYield(c)]) == Next(sys)
      ensures SleepersKept(c) && |sys.cores[c].sleep| >= |old(sys.cores[c].sleep)|
      ensures forall j :: 0 <= j < |sys.cores[c].sleep| ==>
        sys.cores[c].sleep[j] ==
          if j < |old(sys.cores[c].sleep)| then old(sys.cores[c].sleep)[j] else old(sys.cores[c].current).value
      ensures OnlyCore(old(sys), sys, c)
    {
      hide Valid, Do, Run, OnlyCore;
      PictureInv(this);
      ghost var was := sys;
      GivenUp(sys, c, preemptive);
      TwoSteps(was, Step.Yield(c, preemptive), Step.FinishYield(c));
      Pictures(this);
      Yield(c, preemptive);
      FinishYield(c);
      Pictures(this);
    }

    /** The object that runs goes on with what is left of its time slice. */
    method GoOn(c: nat, passed: nat)
      requires Valid() && Settled(sys, c) && sys.cores[c].current.Some? && sys.cores[c].current.value < |sys.objects|
      requires var o := sys.objects[sys.cores[c].current.value]; passed < o.left && o.phase == Running
      modifies this`sys, repr
      ensures Valid() && repr == old(repr) && Settled(sys, c) && sys.cores[c] == old(sys.cores[c])
      ensures Run(old(sys), [Step.Redeploy(c, passed)]) == Next(sys) && SleepersKept(c)
      ensures |sys.objects| == |old(sys.objects)| && sys.objects[sys.cores[c].current.value].phase == Running
      ensures OnlyCore(old(sys), sys, c)
    {
      hide Valid, Do, Run, OnlyCore;
      PictureInv(this);
      RedeployRuns(sys, c, passed);
      RedeployIs(sys, c, passed);
      CurrentFacts(sys, c);
      ghost var id := sys.cores[c].current.value;
      ghost var o := sys.objects[id];
      PutOnlyCore(sys, c, sys.cores[c], id, o.(left := o.left - passed), sys.pending);
      SleepersElsewhere(sys, c);
      Pictures(this);
      Redeploy(c, passed);
      Pictures(this);
    }

    /**
     SchedulerAdvance on core `c`: its effect on the linked queues is that of a run of steps of
     the system, in which no FATAL call is met, and no other core or its objects change. Among
     them is the wake-up of the first sleeper whose time has come, number `at`; `boostDue` is
     the outcome of the boost timer.
     */
    method Advance(c: nat, preemptive: bool, passed: nat, seconds: nat, nanoseconds: nat, boostDue: bool)
      returns (next: SchedulerObject?, ghost at: nat)
      requires Valid() && Settled(sys, c)
      modifies this`current, this`rest, this`sys, repr
      ensures Valid() && repr == old(repr) && Settled(sys, c)
      ensures old(FirstDue(sys.cores[c].sleep, objects, at, seconds, nanoseconds, null))
      ensures Run(old(sys), AdvanceSteps(old(sys), c, preemptive, passed, at, next != null && boostDue)) == Next(sys)
      ensures sys.cores[c].current == (if next == null then None else Some(next.id))
      ensures Advanced(old(sys), sys, c, preemptive, passed, at, next != null && boostDue, sys.cores[c].current)
      ensures next != null ==> next.phase == Running && next.owner == null && next.link == null
      ensures c < |cores| && cores[c] in repr && Orderly(cores[c])
      ensures OnlyCore(old(sys), sys, c)
    {
      hide Valid, Do, Run, Orderly, FirstDue, OnlyCore, Advanced;
      CurrentPicture(this, c);
      PictureInv(this);
      DueIsBlocked(this, c, seconds, nanoseconds);
      ghost var was := sys;
      var running: SchedulerObject? := if current[c].Some? then objects[current[c].value] else null;
      if running != null && preemptive && passed < running.left && running.phase == Running {
        at := AdvanceOn(c, passed, seconds, nanoseconds);
        CurrentPicture(this, c);
        AdvanceIs(was, c, preemptive, passed, at, boostDue, sys);
        return running, at;
      }
      ghost var first: seq<Step>;
      first, at := AdvanceAway(c, preemptive, seconds, nanoseconds);
      PictureInv(this);
      DispatchRuns(sys, c);
      RunConcat(was, first, [Step.Dispatch(c)]);
      DispatchOnlyCore(sys, c);
      OnlyCoreTwice(was, sys, Do(sys, Step.Dispatch(c)).s, c);
      next := Dispatch(c);
      if next != null && boostDue {
        BoostRuns(sys, c);
        RunConcat(was, first + [Step.Dispatch(c)], [Step.Boost(c)]);
        BoostOnlyCore(sys, c);
        OnlyCoreTwice(was, sys, Do(sys, Step.Boost(c)).s, c);
        Boost(c);
      }
      AdvanceIs(was, c, preemptive, passed, at, next != null && boostDue, sys);
      CurrentPicture(this, c);
      assert next != null ==> objects[next.id] == next && current[c] == Some(next.id);
    }

    /** The running object goes on, and the sleep queue is looked at. */
    method AdvanceOn(c: nat, passed: nat, seconds: nat, nanoseconds: nat) returns (ghost at: nat)
      requires Valid() && Settled(sys, c) && sys.cores[c].current.Some? && sys.cores[c].current.value < |sys.objects|
      requires var o := sys.objects[sys.cores[c].current.value]; passed < o.left && o.phase == Running
      modifies this`sys, repr
      ensures Valid() && repr == old(repr) && Settled(sys, c) && sys.cores[c].current == old(sys.cores[c].current)
      ensures old(FirstDue(sys.cores[c].sleep, objects, at, seconds, nanoseconds, null))
      ensures Run(old(sys), [Step.Redeploy(c, passed)] + SweepSteps(old(sys), c, at)) == Next(sys)
      ensures |sys.objects| == |old(sys.objects)| && sys.objects[sys.cores[c].current.value].phase == Running
      ensures OnlyCore(old(sys), sys, c)
    {
      hide Valid, Do, Run, OnlyCore;
      ghost var was := sys;
      GoOn(c, passed);
      ghost var now := sys;
      at := Sweep(c, seconds, nanoseconds, null);
      OnlyCoreTwice(was, now, sys, c);
      RunConcat(was, [Step.Redeploy(c, passed)], SweepSteps(was, c, at));
    }

    /** The object that ran is given up, and the sleep queue is looked at. */
    method AdvanceAway(c: nat, preemptive: bool, seconds: nat, nanoseconds: nat)
      returns (ghost steps: seq<Step>, ghost at: nat)
      requires Valid() && Settled(sys, c)
      modifies this`current, this`rest, this`sys, repr
      ensures Valid() && repr == old(repr) && Settled(sys, c) && sys.cores[c].current.None?
      ensures old(FirstDue(sys.cores[c].sleep, objects, at, seconds, nanoseconds, null))
      ensures steps == AwaySteps(old(sys), c, preemptive, at) && Run(old(sys), steps) == Next(sys)
      ensures OnlyCore(old(sys), sys, c)
    {
      hide Valid, Do, Run, OnlyCore;
      CurrentPicture(this, c);
      ghost var was := sys;
      if current[c].Some? {
        var running := objects[current[c].value];
        GiveUp(c, preemptive);
        ghost var now := sys;
        at := Sweep(c, seconds, nanoseconds, running);
        OnlyCoreTwice(was, now, sys, c);
        steps := [Step.Yield(c, preemptive), Step.FinishYield(c)];
        RunConcat(was, steps, SweepSteps(now, c, at));
        if at > |was.cores[c].sleep| { at := |was.cores[c].sleep|; }
        steps := steps + SweepSteps(was, c, at);
      } else {
        at := Sweep(c, seconds, nanoseconds, null);
        steps := SweepSteps(was, c, at);
        assert [] + steps == steps;
      }
    }
  }

  method NewCores(n: nat) returns (all: seq<Scheduler>, ghost owned: set<object>)
    ensures |all| == n && fresh(owned) && forall c :: 0 <= c < n ==> Blank(all[c], c, owned)
  {
    hide Scheduler.Valid;
    all, owned := [], {};
    while |all| < n
      invariant |all| <= n && fresh(owned)
      invariant forall c :: 0 <= c < |all| ==> Blank(all[c], c, owned)
    {
      var k := new Scheduler(|all|);
      assert k.Owned() by { BelongsTo(k); }
      owned := owned + {k, k.sleep} + (set q | q in k.queues);
      all := all + [k];
    }
  }

  lemma BelongsTo(k: Scheduler)
    requires k.Valid()
    ensures k.Owned()
  {}

  /** A system of `n` cores without objects. */
  ghost function StartSystem(n: nat): System {
    System([], seq(n, _ => Core(seq(LEVEL_COUNT, _ => []), [], None, None, 0)), {})
  }

  lemma StartSystemIs(n: nat)
    ensures
      var s := StartSystem(n);
      && Start(s) && Inv(s) && |s.cores| == n && s.objects == [] && s.pending == {}
      && forall c :: 0 <= c < n ==> s.cores[c] == Core(seq(LEVEL_COUNT, _ => []), [], None, None, 0)
  {
    hide Inv;
    StartInv(StartSystem(n));
  }

  lemma BlankFacts(k: Scheduler, c: nat, owned: set<object>)
    requires Blank(k, c, owned)
    ensures k in owned && k.sleep in owned && (forall q :: q in k.queues ==> q in owned)
    ensures k.nodes == {} && k.core == c && k.Owned()
  {
    hide Scheduler.Valid;
  }

  lemma BlankStands(k: Scheduler, c: nat, owned: set<object>)
    requires Blank(k, c, owned)
    ensures Stands(k, Core(seq(LEVEL_COUNT, _ => []), [], None, None, 0), [], [])
  {
    hide Scheduler.Valid;
    assert Ids([]) == [] && LevelIds(k.ready) == seq(LEVEL_COUNT, _ => []);
  }

  /** A scheduler that has just been made. */
  ghost predicate Blank(k: Scheduler, c: nat, owned: set<object>)
    reads k, k.queues, k.sleep
  {
    && k.core == c && k.nodes == {} && k.bandwidth == 0 && k.sleep.items == [] && k.ready == seq(LEVEL_COUNT, _ => [])
    && k.Valid() && k.Owned() && k in owned && k.sleep in owned && (forall q :: q in k.queues ==> q in owned)
  }

  lemma GrownStands(k: Scheduler, core: Core, ms: seq<Object>, objects: seq<SchedulerObject>, m: Object,
    o: SchedulerObject)
    requires Stands(k, core, ms, objects)
    ensures Stands(k, core, ms + [m], objects + [o])
  {
    hide Scheduler.Valid, Mirrors;
  }

  lemma FinishGuard(m: Machine, c: nat)
    requires m.Valid() && Do(m.sys, Step.FinishYield(c)).Next?
    ensures HasCore(m.sys, c) && |m.rest| == |m.sys.cores| && m.rest[c] == m.sys.cores[c].rest && m.rest[c].Some?
  {
    hide Inv, Stands;
  }

  lemma ExitStands(k: Scheduler, core: Core, ms: seq<Object>, objects: seq<SchedulerObject>, id: nat)
    requires Stands(k, core, ms, objects) && id < |ms|
    ensures Stands(k, core.(current := None), ms[id := ms[id].(gone := true)], objects)
  {
    hide Scheduler.Valid;
  }

  lemma FoundIn(k: Scheduler, o: SchedulerObject, objects: seq<SchedulerObject>)
    requires Indexed(k, objects) && o in k.nodes
    ensures o.id < |objects| && objects[o.id] == o
  {}

  /** No object is on two queues, of one core or of two. */
  lemma OneQueue(m: Machine, c: nat, k: nat, d: nat, l: nat, o: SchedulerObject)
    requires m.Valid() && c < |m.cores| && d < |m.cores| && k < LEVEL_COUNT && l < LEVEL_COUNT
    requires |m.cores[c].ready| == |m.cores[d].ready| == LEVEL_COUNT
    requires o in m.cores[c].ready[k] && (o in m.cores[d].ready[l] || o in m.cores[d].sleep.items)
    ensures c == d && k == l && o !in m.cores[d].sleep.items
  {
    hide Inv;
    var a, b := m.cores[c], m.cores[d];
    assert a.LevelAt(k) && b.LevelAt(l);
  }

  lemma Pictures(m: Machine)
    requires m.Valid()
    ensures |m.objects| == |m.sys.objects|
    ensures forall i :: 0 <= i < |m.objects| ==>
      m.objects[i].phase == m.sys.objects[i].phase && m.objects[i].level == m.sys.objects[i].level
  {
    hide Inv;
    forall i | 0 <= i < |m.objects|
      ensures m.objects[i].phase == m.sys.objects[i].phase && m.objects[i].level == m.sys.objects[i].level
    {
      assert Stands(m.cores[m.objects[i].core], m.sys.cores[m.objects[i].core], m.sys.objects, m.objects);
    }
  }

  /** The first sleeper whose time has come is blocked. */
  lemma DueIsBlocked(m: Machine, c: nat, seconds: nat, nanoseconds: nat)
    requires m.Valid() && c < |m.sys.cores|
    ensures forall at: nat :: FirstDue(m.sys.cores[c].sleep, m.objects, at, seconds, nanoseconds, null) ==>
      && at <= |m.sys.cores[c].sleep|
      && (at < |m.sys.cores[c].sleep| ==> var id: nat := m.sys.cores[c].sleep[at];
                                          id < |m.sys.objects| && m.sys.objects[id].phase == Blocked)
  {
    hide Machine.Valid;
    Pictures(m);
  }

  lemma PictureInv(m: Machine)
    requires m.Valid()
    ensures Inv(m.sys)
  {
    hide Inv, Stands;
  }

  /** What a core runs is unlinked and is in memory as it is in the system. */
  lemma CurrentPicture(m: Machine, c: nat)
    requires m.Valid() && Settled(m.sys, c)
    ensures |m.current| == |m.cores| == |m.sys.cores| && |m.objects| == |m.sys.objects|
    ensures m !in m.repr && m.cores[c] in m.repr && Orderly(m.cores[c]) && m.current[c] == m.sys.cores[c].current
    ensures m.current[c].Some? ==>
      && m.current[c].value < |m.objects|
      && var o, s := m.objects[m.current[c].value], m.sys.objects[m.current[c].value];
      && o.id == m.current[c].value && o.owner == null && o.link == null
      && o.phase == s.phase && o.left == s.left && (s.phase == Running || s.phase == Blocking)
  {
    hide Inv, Count, Occurs, Orderly;
    StandsOrderly(m.cores[c], c, m.sys, m.objects);
    if m.current[c].Some? {
      CurrentFacts(m.sys, c);
      var o := m.objects[m.current[c].value];
      NotReady(m.cores[c], m.sys.cores[c], o);
      NotSleeping(m.cores[c], m.sys.cores[c], o);
      assert m.cores[c].Housed(o);
    }
  }

  lemma GivenUp(s: System, c: nat, preemptive: bool)
    requires Inv(s) && Settled(s, c) && s.cores[c].current.Some?
    ensures Do(s, Step.Yield(c, preemptive)).Next?
    ensures
      var s1 := Do(s, Step.Yield(c, preemptive)).s;
      Do(s1, Step.FinishYield(c)).Next? && Settled(Do(s1, Step.FinishYield(c)).s, c)
      && Do(s1, Step.FinishYield(c)).s.cores[c].current.None?
    ensures
      var s2, id := Do(Do(s, Step.Yield(c, preemptive)).s, Step.FinishYield(c)).s, s.cores[c].current.value;
      && |s2.objects| == |s.objects| && (forall i :: 0 <= i < |s.objects| && i != id ==> s2.objects[i] == s.objects[i])
      && (s2.cores[c].sleep == s.cores[c].sleep || s2.cores[c].sleep == s.cores[c].sleep + [id])
      && (forall j :: 0 <= j < |s.cores[c].sleep| ==> s.cores[c].sleep[j] < |s.objects| && s.cores[c].sleep[j] != id)
      && OnlyCore(s, s2, c)
  {
    hide Inv, Do, Enqueue, Removed, Repriced;
    SleepersElsewhere(s, c);
    CurrentFacts(s, c);
    YieldEnabled(s, c, preemptive);
    YieldIs(s, c, preemptive);
    StepKeepsInv(s, Step.Yield(c, preemptive));
    var s1 := Do(s, Step.Yield(c, preemptive)).s;
    RestFacts(s1, c);
    FinishEnabled(s1, c);
    if s1.cores[c].rest.value.Requeue? {
      RequeueIs(s1, c);
      var o := s1.objects[s.cores[c].current.value];
      RepricedPhase(o, NextLevel(o.level, preemptive));
      RemovedNone(s1.cores[c].sleep, s.cores[c].current.value);
    } else {
      ParkIs(s1, c);
    }
  }

  /** What a core runs is not among its sleepers. */
  lemma SleepersElsewhere(s: System, c: nat)
    requires Inv(s) && Settled(s, c) && s.cores[c].current.Some?
    ensures forall j :: 0 <= j < |s.cores[c].sleep| ==>
      s.cores[c].sleep[j] < |s.objects| && s.cores[c].sleep[j] != s.cores[c].current.value
  {
    hide Occurs, Count, Load;
    CurrentFacts(s, c);
    assert CoreOk(s, c);
    forall j | 0 <= j < |s.cores[c].sleep|
      ensures s.cores[c].sleep[j] < |s.objects| && s.cores[c].sleep[j] != s.cores[c].current.value
    {
      OccursAt(s.cores[c].sleep, j);
    }
  }

  lemma YieldEnabled(s: System, c: nat, preemptive: bool)
    requires Settled(s, c) && s.cores[c].current.Some? && s.cores[c].current.value < |s.objects|
    requires Target(s.objects[s.cores[c].current.value].phase, Schedule) != Invalid
    ensures Do(s, Step.Yield(c, preemptive)).Next?
  {}

  lemma FinishEnabled(s: System, c: nat)
    requires Inv(s) && HasCore(s, c) && s.cores[c].rest.Some? && HasObject(s, s.cores[c].rest.value.id)
    ensures Do(s, Step.FinishYield(c)).Next?
  {
    hide Inv;
    if s.cores[c].rest.value.Requeue? { SchedulerSystem.FinishRequeue(s, c); }
  }

  lemma RedeployRuns(s: System, c: nat, passed: nat)
    requires Inv(s) && Settled(s, c) && s.cores[c].current.Some? && s.cores[c].current.value < |s.objects|
    requires
      var o := s.objects[s.cores[c].current.value];
      passed < o.left && o.phase == Running
    ensures Do(s, Step.Redeploy(c, passed)).Next?
      && Run(s, [Step.Redeploy(c, passed)]) == Do(s, Step.Redeploy(c, passed))
    ensures
      var s' := Do(s, Step.Redeploy(c, passed)).s;
      Settled(s', c) && s'.cores[c] == s.cores[c] && |s'.objects| == |s.objects|
      && s'.objects[s.cores[c].current.value].phase == Running
  {
    hide Inv;
    OneStep(s, Step.Redeploy(c, passed));
  }

  lemma DispatchRuns(s: System, c: nat)
    requires Inv(s) && Settled(s, c) && s.cores[c].current.None?
    ensures Do(s, Step.Dispatch(c)).Next? && Run(s, [Step.Dispatch(c)]) == Do(s, Step.Dispatch(c))
  {
    DispatchKeepsInv(s, c);
    OneStep(s, Step.Dispatch(c));
  }

  lemma BoostRuns(s: System, c: nat)
    requires Settled(s, c)
    ensures Do(s, Step.Boost(c)).Next? && Run(s, [Step.Boost(c)]) == Do(s, Step.Boost(c))
    ensures
      var s' := Do(s, Step.Boost(c)).s;
      Settled(s', c) && s'.objects == s.objects && s'.cores[c].current == s.cores[c].current
  {
    OneStep(s, Step.Boost(c));
  }
}
