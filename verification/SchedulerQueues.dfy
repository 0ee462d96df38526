/**
 The queues of one core as they are in memory: objects linked through their own link
 field, queues that are a head and a tail. Every operation is proved against the value
 it stands for in SchedulerSpec.
 */
module SchedulerQueues {
  import opened Sequences
  import opened SchedulerSpec

  class SchedulerObject {
    const id: nat             // its number among all objects
    const core: nat           // CoreId
    const idle: bool
    var phase: Phase
    var level: nat
    var slice: nat
    var left: nat
    var wakeSeconds: nat
    var wakeNanoseconds: nat
    var link: SchedulerObject?
    ghost var owner: Queue?   // the queue this object is linked into

    /** SchedulerCreateObject, with the core it has chosen. */
    constructor (id: nat, core: nat, idle: bool)
      ensures this.id == id && this.core == core && this.idle == idle && phase == Initial
      ensures level == (if idle then LEVEL_LOW else 0) && slice == left == Slice(level)
      ensures !HasDeadline(this) && link == null && owner == null
    {
      this.id, this.core, this.idle := id, core, idle;
      phase, wakeSeconds, wakeNanoseconds, link, owner := Initial, 0, 0, null, null;
      if idle {
        level, slice := LEVEL_LOW, TIMESLICE_INITIAL + LEVEL_LOW * TIMESLICE_STEP;
        left := TIMESLICE_INITIAL + LEVEL_LOW * TIMESLICE_STEP;
      } else {
        level, slice, left := 0, TIMESLICE_INITIAL, TIMESLICE_INITIAL;
      }
    }
  }

  class Queue {
    ghost const core: nat     // the core it belongs to
    ghost const place: nat    // its level; LEVEL_COUNT for the sleep queue
    var head: SchedulerObject?
    var tail: SchedulerObject?
    ghost var items: seq<SchedulerObject>

    ghost predicate LinkedAt(i: int)
      requires 0 <= i < |items|
      reads this, items`link
    {
      items[i].link == (if i + 1 < |items| then items[i + 1] else null)
    }

    /** A finite list without cycles: no object comes twice. */
    ghost predicate Valid()
      reads this, items`link, items`owner
    {
      && Distinct(items) && (forall o :: o in items ==> o.owner == this)
      && (forall i {:trigger LinkedAt(i)} :: 0 <= i < |items| ==> LinkedAt(i))
      && head == (if items == [] then null else items[0])
      && tail == (if items == [] then null else items[|items| - 1])
    }

    constructor (ghost core: nat, ghost place: nat)
      ensures Valid() && items == [] && this.core == core && this.place == place
    {
      this.core, this.place := core, place;
      head, tail, items := null, null, [];
    }

    /** __AppendToQueue: the objects from `start` to `end`, which are linked already. */
    method Append(start: SchedulerObject, end: SchedulerObject, ghost chain: seq<SchedulerObject>)
      requires Valid()
      requires chain != [] && start == chain[0] && end == chain[|chain| - 1]
      requires Chain(chain) && forall o :: o in chain ==> o.owner != this
      modifies this, items`link, chain`link, chain`owner
      ensures Valid() && items == old(items) + chain
    {
      ghost var was, n := items, |items|;
      assert forall o :: o in was ==> o !in chain;
      end.link := null;
      if head == null {
        head, tail := start, end;
      } else {
        tail.link := start;
        tail := end;
      }
      forall o | o in chain {
        o.owner := this;
      }
      items := was + chain;
      forall i | 0 <= i < n ensures LinkedAt(i) {
        assert items[i] == was[i] && was[i] in was;
        assert old(LinkedAt(i));
      }
      forall i | n <= i < |items| ensures LinkedAt(i) {
        assert items[i] == chain[i - n] && chain[i - n] in chain;
        if i + 1 < |items| { assert old(Joined(chain, i - n)); }
      }
      JoinDistinct(was, chain);
    }

    /** __RemoveFromQueue. */
    method Remove(target: SchedulerObject) returns (found: bool)
      requires Valid()
      modifies this, items`link, items`owner
      ensures Valid() && items == Removed(old(items), target)
      ensures found <==> target in old(items)
      ensures found ==> target.link == null && target.owner == null
      ensures !found ==> unchanged(this) && unchanged(set o | o in old(items))
    {
      var current, previous: SchedulerObject? := head, null;
      ghost var k := 0;
      while current != null
        invariant 0 <= k <= |items| && target !in items[..k]
        invariant current == (if k < |items| then items[k] else null)
        invariant previous == (if k == 0 then null else items[k - 1])
        decreases |items| - k
      {
        assert LinkedAt(k);
        if current == target {
          Unlink(target, previous, k);
          found := true;
          RemovedAt(old(items), target, k);
          return;
        }
        previous := current;
        current := current.link;
        k := k + 1;
      }
      found := false;
      RemovedAt(items, target, k);
      assert items[..k] == items;
    }

    method Unlink(target: SchedulerObject, previous: SchedulerObject?, ghost k: nat)
      requires Valid() && k < |items| && target == items[k]
      requires previous == (if k == 0 then null else items[k - 1])
      modifies this, items`link, items`owner
      ensures Valid() && items == old(items[..k] + items[k + 1..])
      ensures target.link == null && target.owner == null
    {
      ghost var was := items;
      ghost var n := |items| - 1;
      assert LinkedAt(k) && LinkedAt(n) && (k > 0 ==> LinkedAt(k - 1));
      if previous == null { head := target.link; } else { previous.link := target.link; }
      if tail == target { tail := if previous == null then target.link else previous; }
      target.link := null;
      target.owner := null;
      items := was[..k] + was[k + 1..];
      forall i | 0 <= i < n ensures LinkedAt(i) {
        assert items[i] == was[if i < k then i else i + 1];
        assert old(LinkedAt(if i < k then i else i + 1));
      }
    }
  }

  lemma JoinDistinct(a: seq<SchedulerObject>, b: seq<SchedulerObject>)
    requires Distinct(a) && Distinct(b) && forall o :: o in a ==> o !in b
    ensures Distinct(a + b)
  {
    assert forall i :: 0 <= i < |a| ==> a[i] in a;
    assert forall i :: 0 <= i < |b| ==> b[i] in b;
  }

  twostate predicate Same(q: Queue)
    reads q
  {
    q.head == old(q.head) && q.tail == old(q.tail) && q.items == old(q.items)
  }

  twostate lemma StaysValid(q: Queue)
    requires old(q.Valid()) && Same(q)
    requires forall o :: o in q.items ==> o.link == old(o.link) && o.owner == old(o.owner)
    ensures q.Valid()
  {
    forall i | 0 <= i < |q.items| ensures q.LinkedAt(i) {
      assert old(q.LinkedAt(i));
    }
  }

  /** Distinct objects, each linked to the next. */
  ghost predicate Chain(s: seq<SchedulerObject>)
    reads s
  {
    && Distinct(s)
    && (forall i {:trigger Joined(s, i)} :: 0 <= i < |s| - 1 ==> Joined(s, i))
  }

  lemma QueueOwners(q: Queue)
    requires q.Valid()
    ensures Distinct(q.items) && forall o :: o in q.items ==> o.owner == q
  {}

  lemma QueueEnds(q: Queue)
    requires q.Valid()
    ensures if q.items == [] then q.head == q.tail == null
            else q.head == q.items[0] && q.tail == q.items[|q.items| - 1]
  {}

  lemma EmptyValid(q: Queue)
    requires q.head == q.tail == null && q.items == []
    ensures q.Valid()
  {}

  /** Without its head a list has all the others. */
  lemma HeadGone<T>(s: seq<T>, o: T)
    requires s != [] && s[0] == o && Distinct(s)
    ensures Removed(s, o) == s[1..]
    ensures forall x :: x in s[1..] <==> x in s && x != o
  {
    assert s == [s[0]] + s[1..];
  }

  lemma QueueIsChain(q: Queue)
    requires q.Valid()
    ensures Chain(q.items)
  {
    forall k | 0 <= k < |q.items| - 1 ensures Joined(q.items, k) { assert q.LinkedAt(k); }
  }

  ghost predicate Joined(s: seq<SchedulerObject>, i: int)
    requires 0 <= i < |s| - 1
    reads s
  {
    s[i].link == s[i + 1]
  }

  // ------------------------------------------------------------------ the state table

  datatype Transition = Transition(source: Phase, event: Event, target: Phase)

  const TRANSITIONS := [
    Transition(Initial, Event.Queue, Queueing),
    Transition(Queueing, QueueFinish, Queued),
    Transition(Queued, Execute, Running),
    Transition(Running, Schedule, Queueing),
    Transition(Running, Event.Block, Blocking),
    Transition(Blocking, Event.Queue, Running),
    Transition(Blocking, Schedule, Blocked),
    Transition(Blocked, Event.Queue, Queueing)]

  /** GetAvailableTransition. */
  method GetAvailableTransition(state: Phase, event: Event) returns (r: Phase)
    ensures r == Target(state, event)
  {
    var i := 0;
    while i < |TRANSITIONS|
      invariant 0 <= i <= |TRANSITIONS|
      invariant forall k :: 0 <= k < i ==> TRANSITIONS[k].source != state || TRANSITIONS[k].event != event
    {
      var t := TRANSITIONS[i];
      if t.source == state && t.event == event {
        assert TRANSITIONS[i].target == Target(TRANSITIONS[i].source, TRANSITIONS[i].event);
        return t.target;
      }
      i := i + 1;
    }
    r := Invalid;
    assert TRANSITIONS[0].source == Initial && TRANSITIONS[1].source == Queueing && TRANSITIONS[2].source == Queued;
    assert TRANSITIONS[3].source == Running && TRANSITIONS[4].source == Running && TRANSITIONS[5].source == Blocking;
    assert TRANSITIONS[6].source == Blocking && TRANSITIONS[7].source == Blocked;
  }

  /** ExecuteEvent, as one atomic step. */
  method ExecuteEvent(o: SchedulerObject, event: Event) returns (r: Phase)
    modifies o`phase
    ensures r == Target(old(o.phase), event)
    ensures o.phase == if r == Invalid then old(o.phase) else r
  {
    r := GetAvailableTransition(o.phase, event);
    if r != Invalid { o.phase := r; }
  }

  /**
   ExecuteEvent with its retry: whenever the exchange is about to happen, another core may
   already have set the state to the next of `meanwhile`. The event takes effect at once, on
   the state number `k` that the last exchange, or the lookup that found no transition, has met.
   */
  method ExecuteContended(o: SchedulerObject, event: Event, meanwhile: seq<Phase>)
    returns (r: Phase, ghost k: nat)
    modifies o`phase
    ensures
      var states := [old(o.phase)] + meanwhile;
      && k <= |meanwhile| && r == Target(states[k], event)
      && o.phase == (if r == Invalid then states[k] else r)
      && forall j :: 0 <= j < k ==> Target(states[j], event) != Invalid
  {
    var i, state := 0, o.phase;
    ghost var states := [o.phase] + meanwhile;
    r := GetAvailableTransition(state, event);
    while r != Invalid
      invariant i <= |meanwhile| && o.phase == state == states[i] && r == Target(state, event)
      invariant forall j :: 0 <= j < i ==> Target(states[j], event) != Invalid
      decreases |meanwhile| - i
    {
      if i < |meanwhile| {
        o.phase := meanwhile[i];
        i := i + 1;
      }
      if o.phase == state {
        o.phase := r;
        return r, i;
      }
      state := o.phase;
      r := GetAvailableTransition(state, event);
    }
    k := i;
  }

  // ------------------------------------------------------------------- one core

  class Scheduler {
    const core: nat
    const queues: seq<Queue>
    const sleep: Queue
    var bandwidth: int
    ghost var nodes: set<SchedulerObject>
    ghost var ready: Levels<SchedulerObject>

    ghost predicate LevelAt(l: int)
      requires 0 <= l < |queues| == |ready|
      reads this`nodes, this`ready, queues, nodes`link, nodes`owner
    {
      && (forall o :: o in queues[l].items ==> o in nodes)
      && queues[l].items == ready[l] && queues[l].Valid()
    }

    /** Queues and objects belong to this core. */
    ghost predicate Owned()
      reads this`nodes
    {
      && sleep.core == core && sleep.place == LEVEL_COUNT
      && (forall l :: 0 <= l < |queues| ==> queues[l].core == core && queues[l].place == l)
      && (forall o :: o in nodes ==> o.core == core)
    }

    ghost predicate Valid()
      reads this`nodes, this`ready, queues, sleep, nodes`link, nodes`owner
    {
      && |queues| == LEVEL_COUNT == |ready|
      && Owned()
      && (forall l {:trigger LevelAt(l)} :: 0 <= l < |queues| ==> LevelAt(l))
      && (forall o :: o in sleep.items ==> o in nodes) && sleep.Valid()
      && (forall o :: o in nodes ==> Housed(o))
    }

    /** An object is linked nowhere, or it is on the queue that it says it is on. */
    ghost predicate Housed(o: SchedulerObject)
      requires |queues| == |ready| == LEVEL_COUNT
      reads this`ready, sleep, o`link, o`owner
    {
      if o.owner == null then o.link == null
      else if o.owner.place < LEVEL_COUNT then o.owner == queues[o.owner.place] && o in ready[o.owner.place]
      else o.owner == sleep && o in sleep.items
    }

    constructor (core: nat)
      ensures Valid() && fresh(queues) && fresh(sleep) && this.core == core
      ensures ready == seq(LEVEL_COUNT, _ => []) && sleep.items == [] && nodes == {} && bandwidth == 0
    {
      var all: seq<Queue> := [];
      while |all| < LEVEL_COUNT
        invariant |all| <= LEVEL_COUNT
        invariant forall k :: 0 <= k < |all| ==>
          fresh(all[k]) && all[k].items == [] && all[k].Valid() && all[k].core == core && all[k].place == k
      {
        var q := new Queue(core, |all|);
        all := all + [q];
      }
      var rest := new Queue(core, LEVEL_COUNT);
      this.core := core;
      queues, sleep, bandwidth, nodes, ready := all, rest, 0, {}, seq(LEVEL_COUNT, _ => []);
      new;
      assert forall l :: 0 <= l < |queues| ==> LevelAt(l);
    }

    /** A new object of this core; what is not idle adds to the bandwidth. */
    method Adopt(o: SchedulerObject)
      requires Valid() && o.core == core && o.owner == null && o.link == null
      modifies this`nodes, this`bandwidth
      ensures Valid() && nodes == old(nodes) + {o}
      ensures bandwidth == old(bandwidth) + (if o.idle then 0 else o.slice)
    {
      nodes := nodes + {o};
      if !o.idle { bandwidth := bandwidth + o.slice; }
      forall l | 0 <= l < |queues| ensures LevelAt(l) { assert old(LevelAt(l)); }
    }

    lemma HeadOf(l: nat)
      requires Valid() && l < LEVEL_COUNT
      ensures |queues| == |ready| == LEVEL_COUNT
      ensures queues[l].head == if ready[l] == [] then null else ready[l][0]
    {
      assert LevelAt(l);
    }

    lemma LevelFacts(l: nat)
      requires Valid() && l < LEVEL_COUNT
      ensures |queues| == |ready| == LEVEL_COUNT && sleep != queues[l] && queues[l].place == l
      ensures forall k :: 0 <= k < LEVEL_COUNT && k != l ==> queues[k] != queues[l]
      ensures queues[l].Valid() && queues[l].items == ready[l] && forall o :: o in queues[l].items ==> o in nodes
    {
      assert LevelAt(l);
    }

    /** The contents of one level are joined to those of level 0. */
    method MoveLevel(i: nat)
      requires Valid() && 1 <= i < LEVEL_CRITICAL && queues[i].head != null
      modifies this`ready, queues, nodes`link, nodes`owner
      ensures Valid() && ready == old(ready)[0 := old(ready[0] + ready[i])][i := []]
      ensures sleep.items == old(sleep.items)
    {
      hide Valid, Queue.Valid, Distinct;
      LevelFacts(i);
      LevelFacts(0);
      var from, to := queues[i], queues[0];
      ghost var moved, there := from.items, to.items;
      QueueIsChain(from);
      QueueOwners(from);
      QueueOwners(to);
      QueueEnds(from);
      to.Append(from.head, from.tail, from.items);
      QueueOwners(to);
      from.head, from.tail, from.items := null, null, [];
      ready := ready[0 := ready[0] + ready[i]][i := []];
      EmptyValid(from);
      assert LevelAt(0) && LevelAt(i);
      forall x | x in nodes && Touched(x) ensures old(x.owner) in {from, to} && Housed(x) {
        assert x in there + moved;
      }
      ValidAgain(this);
    }

    /** __Boost. */
    method Boost()
      requires Valid()
      modifies this`ready, queues, nodes`link, nodes`owner
      ensures Valid() && ready == Boosted(old(ready), LEVEL_CRITICAL)
      ensures sleep.items == old(sleep.items)
    {
      hide Valid, Boosted, Row;
      ghost var was := ready;
      HeadOf(0);
      var i := 1;
      BoostNone(was);
      while i < LEVEL_CRITICAL
        invariant 1 <= i <= LEVEL_CRITICAL
        invariant Valid() && ready == Boosted(was, i)
        invariant sleep.items == old(sleep.items)
      {
        HeadOf(i);
        BoostOneMore(was, i);
        if queues[i].head != null { MoveLevel(i); }
        i := i + 1;
      }
    }

    /** __QueueForScheduler; `fatal` stands for its FATAL call. */
    method QueueObject(o: SchedulerObject) returns (fatal: bool)
      requires Valid() && o in nodes && (o.owner == null || o.owner == sleep) && o.level < LEVEL_COUNT
      modifies this`ready, queues, sleep, nodes`link, nodes`owner, o`phase
      ensures Valid() && sleep.items == Removed(old(sleep.items), o)
      ensures fatal <==> Target(old(o.phase), QueueFinish) == Invalid
      ensures fatal ==> ready == old(ready)
      ensures !fatal ==> ready == Enqueue(old(ready), o.level, o) && o.phase == Queued && o.link == null
    {
      hide Valid;
      if o.link != null || sleep.tail == o || sleep.head == o {
        TakeFromSleep(o);
      } else {
        NotAsleep(o);
      }
      var state := ExecuteEvent(o, QueueFinish);
      if state == Invalid { return true; }
      AddToLevel(o);
      fatal := false;
    }

    lemma NotAsleep(o: SchedulerObject)
      requires Valid() && o in nodes && o.link == null && sleep.tail != o
      ensures o.owner != sleep && o !in sleep.items && Removed(sleep.items, o) == sleep.items
    {
      forall i | 0 <= i < |sleep.items| ensures sleep.items[i] != o { assert sleep.LinkedAt(i); }
      RemovedAt(sleep.items, o, |sleep.items|);
    }

    /** __UpdatePressureForObject. */
    method UpdatePressure(o: SchedulerObject, rank: nat)
      modifies this`bandwidth, o`level, o`slice, o`left
      ensures o.level == rank
      ensures rank == old(o.level) ==> o.slice == old(o.slice) && o.left == old(o.left)
      ensures rank != old(o.level) ==> o.slice == o.left == Slice(rank)
      ensures bandwidth == old(bandwidth) - old(o.slice) + o.slice
    {
      if rank != o.level {
        bandwidth := bandwidth - o.slice;
        o.level := rank;
        o.slice := rank * TIMESLICE_STEP + TIMESLICE_INITIAL;
        o.left := o.slice;
        bandwidth := bandwidth + o.slice;
      }
    }

    /** The choice that SchedulerAdvance makes. */
    method Next() returns (next: SchedulerObject?)
      requires Valid()
      modifies this`ready, this`bandwidth, queues
      modifies nodes`link, nodes`owner, nodes`phase, nodes`level, nodes`slice, nodes`left
      ensures Valid() && sleep.items == old(sleep.items)
      ensures next == null || next in nodes
      ensures forall o :: o in nodes && o != next ==> Steady(o)
      ensures
        var l := FirstReady(old(ready), 0);
        if l == LEVEL_COUNT then next == null && ready == old(ready) && bandwidth == old(bandwidth)
        else
          && next == old(ready)[l][0] && ready == Dequeue(old(ready), l) && next.owner == null
          && next.level == l && (l != old(next.level) ==> next.slice == next.left == Slice(l))
          && (l == old(next.level) ==> next.slice == old(next.slice) && next.left == old(next.left))
          && bandwidth == old(bandwidth) - old(next.slice) + next.slice
          && next.phase == (if old(next.phase) == Queued then Running else old(next.phase))
    {
      hide Valid;
      var l := FindReady();
      HeadOf(0);
      if l == LEVEL_COUNT { return null; }
      HeadOf(l);
      next := queues[l].head;
      TakeHead(l, next);
      UpdatePressure(next, l);
      var _ := ExecuteEvent(next, Execute);
    }

    /** The loop over the levels. */
    method FindReady() returns (l: nat)
      requires Valid()
      ensures |ready| == LEVEL_COUNT && l == FirstReady(ready, 0)
    {
      hide Valid;
      HeadOf(0);
      l := 0;
      while l < LEVEL_COUNT
        invariant l <= LEVEL_COUNT && FirstReady(ready, 0) == FirstReady(ready, l)
      {
        HeadOf(l);
        if queues[l].head != null { return; }
        l := l + 1;
      }
    }

    method TakeHead(l: nat, o: SchedulerObject)
      requires Valid() && l < LEVEL_COUNT && ready[l] != [] && o == ready[l][0]
      modifies this`ready, queues, nodes`link, nodes`owner
      ensures Valid() && ready == Dequeue(old(ready), l) && o in nodes && o.owner == null
      ensures sleep.items == old(sleep.items)
    {
      hide Valid, Queue.Valid, Removed, Distinct;
      LevelFacts(l);
      ghost var was := ready[l];
      QueueOwners(queues[l]);
      HeadGone(was, o);
      var found := queues[l].Remove(o);
      QueueOwners(queues[l]);
      ready := Dequeue(ready, l);
      assert LevelAt(l);
      forall x | x in nodes && Touched(x) ensures old(x.owner) == queues[l] && Housed(x) {
        assert x in was;
      }
      ValidAgain(this);
    }

    method TakeFromSleep(o: SchedulerObject)
      requires Valid() && o in nodes && (o.owner == null || o.owner == sleep)
      modifies sleep, nodes`link, nodes`owner
      ensures Valid() && sleep.items == Removed(old(sleep.items), o)
      ensures o.owner == null && o !in sleep.items
    {
      var found := sleep.Remove(o);
      forall l | 0 <= l < |queues| ensures LevelAt(l) {
        assert old(LevelAt(l));
        StaysValid(queues[l]);
      }
      forall x | x != o ensures x in sleep.items <==> x in old(sleep.items) {
        RemovedIn(old(sleep.items), o, x);
      }
    }

    method AddToLevel(o: SchedulerObject)
      requires Valid() && o in nodes && o.owner == null && o.level < LEVEL_COUNT
      modifies this`ready, queues, nodes`link, nodes`owner
      ensures Valid() && ready == Enqueue(old(ready), o.level, o) && o.link == null
      ensures sleep.items == old(sleep.items)
    {
      hide Valid;
      LevelFacts(o.level);
      var q := queues[o.level];
      q.Append(o, o, [o]);
      ready := Enqueue(ready, o.level, o);
      assert q.LinkedAt(|q.items| - 1);
      ValidAgain(this);
    }

    /** __HandleObjectRequeue: what becomes of the object that was running. */
    method Requeue(o: SchedulerObject, preemptive: bool) returns (fatal: bool)
      requires Valid() && o in nodes && o.owner == null && o.level <= LEVEL_LOW
      modifies this`ready, this`bandwidth, queues, sleep, nodes`link, nodes`owner, o
      ensures Valid() && fatal == (old(o.phase) != Running && old(o.phase) != Blocking)
      ensures fatal ==> ready == old(ready) && sleep.items == old(sleep.items)
      ensures old(o.phase) == Running ==>
        && o.phase == Queued && sleep.items == old(sleep.items)
        && o.level == (if preemptive && old(o.level) < LEVEL_LOW then old(o.level) + 1 else old(o.level))
        && (o.level != old(o.level) ==> o.slice == o.left == Slice(o.level))
        && ready == Enqueue(old(ready), o.level, o)
      ensures old(o.phase) == Blocking ==>
        && o.phase == Blocked && o.level == old(o.level) && ready == old(ready)
        && sleep.items == old(sleep.items) + (if old(HasDeadline(o)) then [o] else [])
      ensures bandwidth == old(bandwidth) - old(o.slice) + o.slice
    {
      hide Valid, Removed;
      var state := ExecuteEvent(o, Schedule);
      if state == Invalid { return true; }
      fatal := FinishRequeue(o, state == Queueing, preemptive);
    }

    /** The rest of it, once EVENT_SCHEDULE has had its effect. */
    method FinishRequeue(o: SchedulerObject, queueing: bool, preemptive: bool) returns (fatal: bool)
      requires Valid() && o in nodes && o.owner == null && o.level <= LEVEL_LOW
      modifies this`ready, this`bandwidth, queues, sleep, nodes`link, nodes`owner
      modifies o`phase, o`level, o`slice, o`left
      ensures Valid() && fatal == (queueing && old(o.phase) != Queueing)
      ensures fatal ==> ready == old(ready) && sleep.items == old(sleep.items)
      ensures queueing && !fatal ==>
        && o.phase == Queued && sleep.items == old(sleep.items)
        && o.level == (if preemptive && old(o.level) < LEVEL_LOW then old(o.level) + 1 else old(o.level))
        && (o.level != old(o.level) ==> o.slice == o.left == Slice(o.level))
        && (o.level == old(o.level) ==> o.slice == old(o.slice) && o.left == old(o.left))
        && ready == Enqueue(old(ready), o.level, o)
      ensures !queueing ==>
        && Steady(o) && ready == old(ready)
        && sleep.items == old(sleep.items) + (if old(HasDeadline(o)) then [o] else [])
      ensures bandwidth == old(bandwidth) - old(o.slice) + o.slice
    {
      hide Valid, Removed;
      NoOwner(o);
      fatal := false;
      if queueing {
        if preemptive && o.level < LEVEL_LOW { UpdatePressure(o, o.level + 1); }
        fatal := QueueObject(o);
      } else if HasDeadline(o) {
        AddToSleep(o);
      }
    }

    /**
     __UpdateSleepQueue, without the deadline it computes. The walk goes on through the
     link of the object it has just moved, and that object is now the last of a ready
     queue: so a call wakes the first sleeper whose time has come, and no other.
     */
    method UpdateSleepQueue(seconds: nat, nanoseconds: nat, ignored: SchedulerObject?) returns (ghost at: nat)
      requires Valid()
      requires forall o :: o in sleep.items ==> (o.phase == Blocked || o.phase == Queueing) && o.level < LEVEL_COUNT
      modifies this`ready, queues, sleep
      modifies nodes`link, nodes`owner, nodes`phase, nodes`wakeSeconds, nodes`wakeNanoseconds
      ensures Valid() && at <= |old(sleep.items)|
      ensures forall o :: o in nodes && (at < |old(sleep.items)| ==> o != old(sleep.items)[at]) ==>
        o.phase == old(o.phase)
      ensures forall o :: o in nodes && o !in old(sleep.items) ==> HasDeadline(o) == old(HasDeadline(o))
      ensures forall j :: at < j < |old(sleep.items)| ==> Unmoved(old(sleep.items)[j])
      ensures forall j :: 0 <= j < at ==> !old(Due(sleep.items[j], seconds, nanoseconds, ignored))
      ensures at == |old(sleep.items)| ==> ready == old(ready) && sleep.items == old(sleep.items)
      ensures at < |old(sleep.items)| ==>
        var o := old(sleep.items)[at];
        && old(Due(sleep.items[at], seconds, nanoseconds, ignored)) && o.phase == Queued
        && o.level == old(sleep.items[at].level)
        && sleep.items == Removed(old(sleep.items), o) && ready == Enqueue(old(ready), o.level, o)
    {
      hide Valid, Queue.Valid, Removed, Enqueue, NotBefore, HasDeadline;
      ghost var was := sleep.items;
      ghost var woken := false;
      at := 0;
      SleepHead();
      var i := sleep.head;
      while i != null
        invariant Valid() && nodes == old(nodes) && |old(ready)| == LEVEL_COUNT
        invariant at <= |was| && forall j :: 0 <= j < at ==> !old(Due(was[j], seconds, nanoseconds, ignored))
        invariant forall o :: o in nodes && (woken ==> at < |was| && o != was[at]) ==> o.phase == old(o.phase)
        invariant forall o :: o in nodes && o !in was ==> HasDeadline(o) == old(HasDeadline(o))
        invariant forall j :: at <= j < |was| && (woken ==> j != at) ==> Unmoved(was[j])
        invariant !woken ==>
          && ready == old(ready) && sleep.items == was && i == (if at < |was| then was[at] else null)
        invariant woken ==>
          && i == null && at < |was| && old(Due(was[at], seconds, nanoseconds, ignored)) && was[at].phase == Queued
          && sleep.items == Removed(was, was[at])
          && was[at].level == old(was[at].level) && ready == Enqueue(old(ready), was[at].level, was[at])
        decreases |was| - at + (if woken then 0 else 1)
      {
        SleepFact(at);
        var moved := Visit(i, at, seconds, nanoseconds, ignored);
        woken := moved;
        if !woken { at := at + 1; }
        i := i.link;
      }
    }

    /** One round of the walk, at sleeper number `k`. */
    method Visit(o: SchedulerObject, ghost k: nat, seconds: nat, nanoseconds: nat, ignored: SchedulerObject?)
      returns (moved: bool)
      requires Valid() && k < |sleep.items| && o == sleep.items[k] && o in nodes && o.level < LEVEL_COUNT
      requires o.phase == Blocked || o.phase == Queueing
      modifies this`ready, queues, sleep, nodes`link, nodes`owner, o`phase, o`wakeSeconds, o`wakeNanoseconds
      ensures Valid() && moved == old(Due(o, seconds, nanoseconds, ignored))
      ensures !moved ==>
        && ready == old(ready) && sleep.items == old(sleep.items) && o.phase == old(o.phase)
        && o.link == (if k + 1 < |sleep.items| then sleep.items[k + 1] else null)
      ensures moved ==>
        && ready == Enqueue(old(ready), o.level, o) && sleep.items == Removed(old(sleep.items), o)
        && o.phase == Queued && o.link == null
    {
      hide Valid, Queue.Valid, Removed, Enqueue;
      moved := false;
      if o != ignored && HasDeadline(o) && NotBefore(seconds, nanoseconds, o) { moved := Timeout(o); }
      if !moved { SleepFact(k); }
    }

    /** __PerformObjectTimeout, without the wait queue. */
    method Timeout(o: SchedulerObject) returns (moved: bool)
      requires Valid() && o in sleep.items && o in nodes && o.level < LEVEL_COUNT
      requires o.phase == Blocked || o.phase == Queueing
      modifies this`ready, queues, sleep, nodes`link, nodes`owner, o`phase, o`wakeSeconds, o`wakeNanoseconds
      ensures Valid() && moved == (old(o.phase) == Blocked)
      ensures !moved ==> ready == old(ready) && sleep.items == old(sleep.items) && o.phase == old(o.phase)
      ensures moved ==>
        && ready == Enqueue(old(ready), o.level, o) && sleep.items == Removed(old(sleep.items), o)
        && o.phase == Queued && o.link == null
    {
      hide Valid, Removed;
      SleepOwner(o);
      o.wakeSeconds, o.wakeNanoseconds := 0, 0;
      var state := ExecuteEvent(o, Event.Queue);
      moved := state != Invalid;
      if moved {
        var _ := QueueObject(o);
      }
    }

    lemma SleepHead()
      requires Valid()
      ensures sleep.head == (if sleep.items == [] then null else sleep.items[0])
      ensures |ready| == LEVEL_COUNT && Distinct(sleep.items)
    {}

    lemma SleepOwner(o: SchedulerObject)
      requires Valid() && o in sleep.items
      ensures o.owner == sleep
      ensures |ready| == LEVEL_COUNT
    {}

    lemma SleepFact(k: nat)
      requires Valid() && k < |sleep.items|
      ensures
        var o := sleep.items[k];
        o in nodes && o in sleep.items && o.link == (if k + 1 < |sleep.items| then sleep.items[k + 1] else null)
      ensures Distinct(sleep.items)
    {
      assert sleep.LinkedAt(k);
    }

    lemma NoOwner(o: SchedulerObject)
      requires Valid() && o.owner == null
      ensures o !in sleep.items && Removed(sleep.items, o) == sleep.items
    {
      RemovedAt(sleep.items, o, |sleep.items|);
    }

    method AddToSleep(o: SchedulerObject)
      requires Valid() && o in nodes && o.owner == null
      modifies sleep, nodes`link, nodes`owner
      ensures Valid() && sleep.items == old(sleep.items) + [o]
    {
      sleep.Append(o, o, [o]);
      forall l | 0 <= l < |queues| ensures LevelAt(l) {
        assert old(LevelAt(l));
        StaysValid(queues[l]);
      }
    }
  }

  /** OSTimestampNormalize: whole seconds are carried over. */
  function Normalized(seconds: nat, nanoseconds: nat): (nat, nat) {
    (seconds + nanoseconds / 1_000_000_000, nanoseconds % 1_000_000_000)
  }

  /** OSTimestampCompare: normalized times are compared seconds first. */
  predicate NotBefore(seconds: nat, nanoseconds: nat, o: SchedulerObject)
    reads o`wakeSeconds, o`wakeNanoseconds
  {
    var a, b := Normalized(seconds, nanoseconds), Normalized(o.wakeSeconds, o.wakeNanoseconds);
    a.0 > b.0 || (a.0 == b.0 && a.1 >= b.1)
  }

  /** That is the order of time, also for nanoseconds of a second and more. */
  lemma NotBeforeIsTime(seconds: nat, nanoseconds: nat, o: SchedulerObject)
    ensures NotBefore(seconds, nanoseconds, o) <==>
      1_000_000_000 * seconds + nanoseconds >= 1_000_000_000 * o.wakeSeconds + o.wakeNanoseconds
  {}

  /** __HasDeadlineSet: both parts have to be set. */
  predicate HasDeadline(o: SchedulerObject)
    reads o`wakeSeconds, o`wakeNanoseconds
  {
    o.wakeSeconds != 0 && o.wakeNanoseconds != 0
  }

  /** A sleeper whose time has come and who can still be woken. */
  predicate Due(o: SchedulerObject, seconds: nat, nanoseconds: nat, ignored: SchedulerObject?)
    reads o`phase, o`wakeSeconds, o`wakeNanoseconds
  {
    o != ignored && HasDeadline(o) && NotBefore(seconds, nanoseconds, o) && o.phase == Blocked
  }

  /** State, level and slice of an object are as before. */
  twostate predicate Steady(o: SchedulerObject)
    reads o
  {
    o.phase == old(o.phase) && o.level == old(o.level) && o.slice == old(o.slice) && o.left == old(o.left)
  }

  twostate predicate Unmoved(o: SchedulerObject)
    reads o
  {
    && o.phase == old(o.phase) && o.level == old(o.level)
    && o.wakeSeconds == old(o.wakeSeconds) && o.wakeNanoseconds == old(o.wakeNanoseconds)
  }

  lemma {:induction false} RemovedIn<T>(s: seq<T>, x: T, y: T)
    requires y != x
    ensures y in Removed(s, x) <==> y in s
    decreases s
  {
    if s != [] && s[0] != x && y != s[0] { RemovedIn(s[1..], x, y); }
  }

  twostate predicate Touched(o: SchedulerObject)
    reads o
  {
    o.link != old(o.link) || o.owner != old(o.owner)
  }

  /** What has to be looked at after a change of some levels and objects. */
  twostate lemma ValidAgain(s: Scheduler)
    requires old(s.Valid()) && s.nodes == old(s.nodes) && |s.ready| == LEVEL_COUNT && Same(s.sleep)
    requires forall l :: 0 <= l < LEVEL_COUNT ==> s.LevelAt(l) || (Same(s.queues[l]) && s.ready[l] == old(s.ready[l]))
    requires forall o, l :: o in s.nodes && Touched(o) && 0 <= l < LEVEL_COUNT && Same(s.queues[l]) ==>
      old(o.owner) != s.queues[l]
    requires forall o :: o in s.nodes && Touched(o) ==> old(o.owner) != s.sleep && s.Housed(o)
    requires forall l, o :: 0 <= l < LEVEL_COUNT && o in old(s.ready[l]) && !Touched(o) ==> o in s.ready[l]
    ensures s.Valid()
  {
    forall l | 0 <= l < |s.queues| ensures s.LevelAt(l) {
      assert old(s.LevelAt(l));
      if !s.LevelAt(l) { StaysValid(s.queues[l]); }
    }
    StaysValid(s.sleep);
    forall o | o in s.nodes ensures s.Housed(o) {
      assert old(s.Housed(o));
    }
  }

  lemma BoostNone<T>(q: Levels<T>)
    requires |q| > 0
    ensures Boosted(q, 1) == q
  {
    assert Row(q, 0, 1) == Row(q, 0, 0) + q[0] == q[0];
  }

  /** Joining one more level to level 0. */
  lemma BoostOneMore<T>(q: Levels<T>, i: nat)
    requires 1 <= i < |q|
    ensures
      var b := Boosted(q, i);
      Boosted(q, i + 1) == b[0 := b[0] + b[i]][i := []]
    ensures q[i] == [] ==> Boosted(q, i + 1) == Boosted(q, i)
    ensures Boosted(q, i)[i] == q[i]
  {
    var b := Boosted(q, i);
    assert b[0 := b[0] + b[i]][i := []][0] == Row(q, 0, i + 1);
    if q[i] == [] { assert b[0] + b[i] == b[0]; }
  }
}
