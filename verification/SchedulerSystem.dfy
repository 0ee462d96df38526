/**
 Every core and every scheduler object together, as a step system. An event on an
 object's state is one atomic step (the compare-and-exchange loop of ExecuteEvent
 takes effect at its last exchange), queue messages to other cores may be in flight
 for any time, and what a core does to its own queues is not interrupted on that
 core.
 */
module SchedulerSystem {
  import opened Wrappers
  import opened Counting
  import opened SchedulerSpec

  datatype Object = Object(
    phase: Phase, core: nat, level: nat, slice: nat, left: nat,
    idle: bool, deadline: bool,
    gone: bool,       // its thread has exited
    destroyed: bool)

  /** The second half of __HandleObjectRequeue, still to be done. */
  datatype Rest = Requeue(id: nat, preemptive: bool) | Park(id: nat)

  datatype Core = Core(
    ready: Levels<nat>, sleep: seq<nat>, current: Option<nat>, rest: Option<Rest>, bandwidth: int)

  /** `pending` holds the objects with a queue operation on its way. */
  datatype System = System(objects: seq<Object>, cores: seq<Core>, pending: set<nat>)

  datatype Step =
    | Create(core: nat, isIdle: bool)        // SchedulerCreateObject, with the core it chose
    | Wake(id: nat)                          // EVENT_QUEUE: queue, expedite or time out an object
    | Deliver(id: nat)                       // __QueueForScheduler on the object's core
    | Block(core: nat, timed: bool)          // EVENT_BLOCK on the running object
    | Yield(core: nat, preemptive: bool)     // EVENT_SCHEDULE on the running object
    | FinishYield(core: nat)
    | Redeploy(core: nat, passed: nat)       // the time slice is not used up
    | Dispatch(core: nat)
    | Boost(core: nat)
    | Exit(core: nat)                        // the thread is finished: advance without it
    | Destroy(id: nat)                       // SchedulerDestroyObject

  datatype Outcome = Next(s: System) | Fatal | Disabled

  function Fresh(core: nat, isIdle: bool): Object {
    var level := if isIdle then LEVEL_LOW else 0;
    Object(Initial, core, level, Slice(level), Slice(level), isIdle, false, false, false)
  }

  /** An ordinary object starts on the first level with ten milliseconds, an idle one on the last but one. */
  lemma FreshStart(core: nat)
    ensures var o := Fresh(core, false); o.level == 0 && o.slice == o.left == 10_000_000 && o.phase == Initial
    ensures var o := Fresh(core, true); o.level == 59 && o.slice == o.left == 128_000_000 && o.phase == Initial
  {}

  /** __UpdatePressureForObject. */
  function Repriced(o: Object, level: nat): Object {
    if level == o.level then o else o.(level := level, slice := Slice(level), left := Slice(level))
  }

  function WithObject(s: System, id: nat, o: Object): System
    requires id < |s.objects|
  {
    s.(objects := s.objects[id := o])
  }

  function WithCore(s: System, c: nat, k: Core): System
    requires c < |s.cores|
  {
    s.(cores := s.cores[c := k])
  }

  predicate HasCore(s: System, c: nat) {
    c < |s.cores| && |s.cores[c].ready| == LEVEL_COUNT
  }

  predicate HasObject(s: System, id: nat) {
    id < |s.objects| && HasCore(s, s.objects[id].core) && s.objects[id].level < LEVEL_COUNT
  }

  /** The core is not in the middle of __HandleObjectRequeue. */
  predicate Settled(s: System, c: nat) {
    HasCore(s, c) && s.cores[c].rest.None?
  }

  function Do(s: System, step: Step): Outcome {
    match step
    case Create(c, isIdle) => if HasCore(s, c) then Next(DoCreate(s, c, isIdle)) else Disabled
    case Wake(id) =>
      if HasObject(s, id) && !s.objects[id].idle && !s.objects[id].destroyed then Next(DoWake(s, id)) else Disabled
    case Deliver(id) =>
      if HasObject(s, id) && id in s.pending && Settled(s, s.objects[id].core) then DoDeliver(s, id) else Disabled
    case Block(c, timed) =>
      if Settled(s, c) && s.cores[c].current.Some? && s.cores[c].current.value < |s.objects|
      then Next(DoBlock(s, s.cores[c].current.value, timed)) else Disabled
    case Yield(c, preemptive) =>
      if Settled(s, c) && s.cores[c].current.Some? && s.cores[c].current.value < |s.objects|
      then DoYield(s, c, s.cores[c].current.value, preemptive) else Disabled
    case FinishYield(c) =>
      if HasCore(s, c) && s.cores[c].rest.Some? && HasObject(s, s.cores[c].rest.value.id)
      then DoFinishYield(s, c, s.cores[c].rest.value) else Disabled
    case Redeploy(c, passed) =>
      if Settled(s, c) && s.cores[c].current.Some? && s.cores[c].current.value < |s.objects|
         && passed < s.objects[s.cores[c].current.value].left && s.objects[s.cores[c].current.value].phase == Running
      then Next(DoRedeploy(s, s.cores[c].current.value, passed)) else Disabled
    case Dispatch(c) =>
      if Settled(s, c) && s.cores[c].current.None? then DoDispatch(s, c) else Disabled
    case Boost(c) =>
      if Settled(s, c)
      then Next(WithCore(s, c, s.cores[c].(ready := Boosted(s.cores[c].ready, LEVEL_CRITICAL)))) else Disabled
    case Exit(c) =>
      if Settled(s, c) && s.cores[c].current.Some? && s.cores[c].current.value < |s.objects|
      then Next(DoExit(s, c, s.cores[c].current.value)) else Disabled
    case Destroy(id) =>
      if HasObject(s, id) && s.objects[id].gone && !s.objects[id].destroyed then Next(DoDestroy(s, id)) else Disabled
  }

  function DoCreate(s: System, c: nat, isIdle: bool): System
    requires HasCore(s, c)
  {
    var o := Fresh(c, isIdle);
    var k := s.cores[c];
    var s1 := s.(objects := s.objects + [o]);
    if isIdle then s1 else WithCore(s1, c, k.(bandwidth := k.bandwidth + o.slice))
  }

  /** ExecuteEvent(EVENT_QUEUE); an object that becomes Queueing has a queue operation on its way. */
  function DoWake(s: System, id: nat): System
    requires id < |s.objects|
  {
    var o := s.objects[id];
    var p := Target(o.phase, Event.Queue);
    if p == Invalid then s
    else
      var s1 := WithObject(s, id, o.(phase := p));
      if p == Queueing then s1.(pending := s.pending + {id}) else s1
  }

  /** __QueueForScheduler. */
  function QueueOn(s: System, id: nat): Outcome
    requires HasObject(s, id)
  {
    var o := s.objects[id];
    var k := s.cores[o.core];
    var p := Target(o.phase, QueueFinish);
    if p == Invalid then Fatal
    else
      var k1 := k.(sleep := Removed(k.sleep, id), ready := Enqueue(k.ready, o.level, id));
      Next(WithObject(WithCore(s, o.core, k1), id, o.(phase := p)))
  }

  function DoDeliver(s: System, id: nat): Outcome
    requires HasObject(s, id)
  {
    match QueueOn(s, id)
    case Next(s1) => Next(s1.(pending := s1.pending - {id}))
    case other => other
  }

  function DoBlock(s: System, id: nat, timed: bool): System
    requires id < |s.objects|
  {
    var o := s.objects[id];
    var p := Target(o.phase, Event.Block);
    WithObject(s, id, o.(deadline := timed, phase := if p == Invalid then o.phase else p))
  }

  function DoYield(s: System, c: nat, id: nat, preemptive: bool): Outcome
    requires HasCore(s, c) && id < |s.objects|
  {
    var o := s.objects[id];
    var p := Target(o.phase, Schedule);
    if p == Invalid then Fatal
    else
      var rest := if p == Queueing then Requeue(id, preemptive) else Park(id);
      Next(WithObject(WithCore(s, c, s.cores[c].(current := None, rest := Some(rest))), id, o.(phase := p)))
  }

  function DoFinishYield(s: System, c: nat, rest: Rest): Outcome
    requires HasCore(s, c) && HasObject(s, rest.id)
  {
    var id, o, k := rest.id, s.objects[rest.id], s.cores[c].(rest := None);
    match rest
    case Requeue(_, preemptive) =>
      if preemptive && o.level < LEVEL_LOW then
        var o1 := Repriced(o, o.level + 1);
        QueueOn(WithObject(WithCore(s, c, k.(bandwidth := k.bandwidth - o.slice + o1.slice)), id, o1), id)
      else
        QueueOn(WithCore(s, c, k), id)
    case Park(_) =>
      Next(WithCore(s, c, if o.deadline then k.(sleep := k.sleep + [id]) else k))
  }

  function DoRedeploy(s: System, id: nat, passed: nat): System
    requires id < |s.objects| && passed < s.objects[id].left
  {
    WithObject(s, id, s.objects[id].(left := s.objects[id].left - passed))
  }

  /** The head of the first level that has one; nothing happens when all are empty. */
  function DoDispatch(s: System, c: nat): Outcome
    requires HasCore(s, c)
  {
    var k := s.cores[c];
    var l := FirstReady(k.ready, 0);
    if l == LEVEL_COUNT then Next(s)
    else
      var id := k.ready[l][0];
      if id >= |s.objects| then Disabled
      else
        var o := Repriced(s.objects[id], l);
        var p := Target(o.phase, Execute);
        var k1 := k.(ready := Dequeue(k.ready, l), current := Some(id),
                     bandwidth := k.bandwidth - s.objects[id].slice + o.slice);
        Next(WithObject(WithCore(s, c, k1), id, o.(phase := if p == Invalid then o.phase else p)))
  }

  function DoExit(s: System, c: nat, id: nat): System
    requires HasCore(s, c) && id < |s.objects|
  {
    WithObject(WithCore(s, c, s.cores[c].(current := None)), id, s.objects[id].(gone := true))
  }

  function DoDestroy(s: System, id: nat): System
    requires HasObject(s, id)
  {
    var o := s.objects[id];
    var k := s.cores[o.core];
    WithObject(WithCore(s, o.core, k.(bandwidth := k.bandwidth - o.slice)), id, o.(destroyed := true))
  }

  // ------------------------------------------------------------- what the steps change

  /** The system with one object and its core replaced. */
  function Put(s: System, c: nat, k: Core, id: nat, o: Object, pending: set<nat>): (r: System)
    requires c < |s.cores| && id < |s.objects|
    ensures |r.objects| == |s.objects| && |r.cores| == |s.cores|
  {
    System(s.objects[id := o], s.cores[c := k], pending)
  }

  /** The state after an event; an unexpected event changes nothing. */
  function After(p: Phase, e: Event): Phase {
    if Target(p, e) == Invalid then p else Target(p, e)
  }

  lemma WakeIs(s: System, id: nat)
    requires Do(s, Wake(id)).Next?
    ensures
      && HasObject(s, id)
      && var o := s.objects[id];
      Do(s, Wake(id)).s == Put(s, o.core, s.cores[o.core], id, o.(phase := After(o.phase, Event.Queue)),
        if Target(o.phase, Event.Queue) == Queueing then s.pending + {id} else s.pending)
  {
    var o := s.objects[id];
    assert s.cores[o.core := s.cores[o.core]] == s.cores && s.objects[id := o] == s.objects;
  }

  lemma DeliverIs(s: System, id: nat)
    requires Do(s, Deliver(id)).Next?
    ensures
      && HasObject(s, id) && id in s.pending && Settled(s, s.objects[id].core)
      && var o := s.objects[id];
      var k := s.cores[o.core];
      && o.phase == Queueing
      && Do(s, Deliver(id)).s ==
        Put(s, o.core, k.(sleep := Removed(k.sleep, id), ready := Enqueue(k.ready, o.level, id)),
           id, o.(phase := Queued), s.pending - {id})
  {}

  lemma BlockIs(s: System, c: nat, timed: bool)
    requires Do(s, Step.Block(c, timed)).Next?
    ensures
      && Settled(s, c) && s.cores[c].current.Some? && s.cores[c].current.value < |s.objects|
      && var id := s.cores[c].current.value;
      var o := s.objects[id];
      Do(s, Step.Block(c, timed)).s == Put(s, c, s.cores[c], id,
        o.(deadline := timed, phase := After(o.phase, Event.Block)), s.pending)
  {
    assert s.cores[c := s.cores[c]] == s.cores;
  }

  lemma YieldIs(s: System, c: nat, preemptive: bool)
    requires Do(s, Yield(c, preemptive)).Next?
    ensures
      && Settled(s, c) && s.cores[c].current.Some? && s.cores[c].current.value < |s.objects|
      && var id := s.cores[c].current.value;
      var o := s.objects[id];
      var p := Target(o.phase, Schedule);
      && p != Invalid
      && Do(s, Yield(c, preemptive)).s == Put(s, c,
           s.cores[c].(current := None, rest := Some(if p == Queueing then Requeue(id, preemptive) else Park(id))),
           id, o.(phase := p), s.pending)
  {}

  /** The level at which an object is queued again. */
  function NextLevel(level: nat, preemptive: bool): nat {
    if preemptive && level < LEVEL_LOW then level + 1 else level
  }

  /** The object on its way back to a queue, demoted if it was interrupted. */
  function Demoted(s: System, c: nat, rest: Rest): System
    requires HasCore(s, c) && HasObject(s, rest.id) && rest.Requeue?
  {
    var o, k := s.objects[rest.id], s.cores[c].(rest := None);
    var o1 := Repriced(o, NextLevel(o.level, rest.preemptive));
    WithObject(WithCore(s, c, k.(bandwidth := k.bandwidth - o.slice + o1.slice)), rest.id, o1)
  }

  lemma RequeueIsQueue(s: System, c: nat, rest: Rest)
    requires HasCore(s, c) && HasObject(s, rest.id) && rest.Requeue? && s.objects[rest.id].core == c
    ensures var s1 := Demoted(s, c, rest); HasObject(s1, rest.id) && DoFinishYield(s, c, rest) == QueueOn(s1, rest.id)
  {
    hide QueueOn, Slice;
    assert s.objects[rest.id := s.objects[rest.id]] == s.objects;
    var k := s.cores[c].(rest := None);
    assert k.(bandwidth := k.bandwidth - 0) == k;
  }

  lemma RequeueIs(s: System, c: nat)
    requires Do(s, FinishYield(c)).Next? && HasCore(s, c) && s.cores[c].rest.Some? && s.cores[c].rest.value.Requeue?
    requires
      var id := s.cores[c].rest.value.id;
      id < |s.objects| && s.objects[id].core == c && s.objects[id].level <= LEVEL_LOW
    ensures
      var id, preemptive := s.cores[c].rest.value.id, s.cores[c].rest.value.preemptive;
      var o, k := s.objects[id], s.cores[c];
      var o' := Repriced(o, NextLevel(o.level, preemptive));
      && o.phase == Queueing
      && Do(s, FinishYield(c)).s == Put(s, c, k.(rest := None, bandwidth := k.bandwidth - o.slice + o'.slice,
           sleep := Removed(k.sleep, id), ready := Enqueue(k.ready, o'.level, id)), id, o'.(phase := Queued), s.pending)
  {
    hide DoFinishYield, Enqueue, Removed, Repriced;
    var rest := s.cores[c].rest.value;
    RequeueIsQueue(s, c, rest);
    var o, s1 := s.objects[rest.id], Demoted(s, c, rest);
    var o', k := s1.objects[rest.id], s.cores[c];
    RepricedPhase(o, NextLevel(o.level, rest.preemptive));
    assert s1.cores[c] == k.(rest := None, bandwidth := k.bandwidth - o.slice + o'.slice);
    assert s1.objects[rest.id := o'.(phase := Queued)] == s.objects[rest.id := o'.(phase := Queued)];
  }

  lemma RepricedPhase(o: Object, level: nat)
    ensures var r := Repriced(o, level); r.phase == o.phase && r.core == o.core && r.level == level
  {}

  lemma ParkIs(s: System, c: nat)
    requires Do(s, FinishYield(c)).Next? && HasCore(s, c) && s.cores[c].rest.Some? && s.cores[c].rest.value.Park?
    ensures
      && s.cores[c].rest.value.id < |s.objects|
      && var id, k := s.cores[c].rest.value.id, s.cores[c];
      var o := s.objects[id];
      && Do(s, FinishYield(c)).s == Put(s, c,
           k.(rest := None, sleep := k.sleep + (if o.deadline then [id] else [])), id, o, s.pending)
      && Do(s, FinishYield(c)).s.objects == s.objects
  {
    var id, k := s.cores[c].rest.value.id, s.cores[c];
    assert s.objects[id := s.objects[id]] == s.objects && k.sleep + [] == k.sleep;
  }

  lemma RedeployIs(s: System, c: nat, passed: nat)
    requires Do(s, Redeploy(c, passed)).Next?
    ensures
      && Settled(s, c) && s.cores[c].current.Some? && s.cores[c].current.value < |s.objects|
      && var id := s.cores[c].current.value;
      var o := s.objects[id];
      && passed < o.left
      && Do(s, Redeploy(c, passed)).s == Put(s, c, s.cores[c], id, o.(left := o.left - passed), s.pending)
  {
    assert s.cores[c := s.cores[c]] == s.cores;
  }

  lemma DispatchIs(s: System, c: nat)
    requires Do(s, Dispatch(c)).Next?
    ensures
      && Settled(s, c) && s.cores[c].current.None?
      && var k := s.cores[c];
      var l := FirstReady(k.ready, 0);
      if l == LEVEL_COUNT then Do(s, Dispatch(c)).s == s
      else
        var id: nat := k.ready[l][0];
        && id < |s.objects|
        && var o, o' := s.objects[id], Repriced(s.objects[id], l);
        Do(s, Dispatch(c)).s == Put(s, c, k.(ready := Dequeue(k.ready, l), current := Some(id),
          bandwidth := k.bandwidth - o.slice + o'.slice), id, o'.(phase := After(o'.phase, Execute)), s.pending)
  {}

  lemma ExitIs(s: System, c: nat)
    requires Do(s, Exit(c)).Next?
    ensures
      && Settled(s, c) && s.cores[c].current.Some? && s.cores[c].current.value < |s.objects|
      && var id := s.cores[c].current.value;
      Do(s, Exit(c)).s == Put(s, c, s.cores[c].(current := None), id, s.objects[id].(gone := true), s.pending)
  {}

  lemma CreateIs(s: System, c: nat, isIdle: bool)
    requires Do(s, Create(c, isIdle)).Next?
    ensures
      && HasCore(s, c)
      && var o, k := Fresh(c, isIdle), s.cores[c];
      Do(s, Create(c, isIdle)).s == System(s.objects + [o],
        s.cores[c := if isIdle then k else k.(bandwidth := k.bandwidth + o.slice)], s.pending)
  {
    assert s.cores[c := s.cores[c]] == s.cores;
  }

  lemma BoostIs(s: System, c: nat)
    requires Do(s, Boost(c)).Next?
    ensures Settled(s, c)
    ensures Do(s, Boost(c)).s == WithCore(s, c, s.cores[c].(ready := Boosted(s.cores[c].ready, LEVEL_CRITICAL)))
  {}

  lemma DestroyIs(s: System, id: nat)
    requires Do(s, Destroy(id)).Next?
    ensures
      && HasObject(s, id)
      && var o := s.objects[id];
      var k := s.cores[o.core];
      Do(s, Destroy(id)).s ==
        Put(s, o.core, k.(bandwidth := k.bandwidth - o.slice), id, o.(destroyed := true), s.pending)
  {}

  // ------------------------------------------------------------------ invariant

  /** Bandwidth of the non-idle objects of a core. */
  function Load(objects: seq<Object>, c: nat): int {
    if objects == [] then 0
    else Load(objects[..|objects| - 1], c) + Share(objects[|objects| - 1], c)
  }

  function Share(o: Object, c: nat): int {
    if o.core == c && !o.idle && !o.destroyed then o.slice else 0
  }

  ghost predicate ObjectOk(s: System, id: nat)
    requires id < |s.objects|
  {
    var o := s.objects[id];
    && HasCore(s, o.core) && o.level <= LEVEL_LOW
    && o.slice == Slice(o.level) && 0 < o.left <= o.slice
    && (o.idle ==> o.phase == Initial && !o.gone)
    && (o.destroyed ==> o.gone)
    && (o.gone ==> o.phase == Running || o.phase == Blocking)
    && var k := s.cores[o.core];
    && Count(k.ready, id) == (if o.phase == Queued then 1 else 0)
    && (o.phase == Running || o.phase == Blocking ==> o.gone || k.current == Some(id))
    && (o.phase == Queueing ==> (id in s.pending <==> !IsRequeue(k.rest, id)))
    && o.phase != Invalid
  }

  ghost predicate IsRequeue(rest: Option<Rest>, id: nat) {
    rest.Some? && rest.value.Requeue? && rest.value.id == id
  }

  ghost predicate Asleep(p: Phase) {
    p == Blocked || p == Queueing
  }

  ghost predicate CoreOk(s: System, c: nat)
    requires c < |s.cores|
  {
    var k := s.cores[c];
    && |k.ready| == LEVEL_COUNT && k.ready[LEVEL_CRITICAL] == []
    && (forall x: nat :: Count(k.ready, x) > 0 ==> x < |s.objects| && s.objects[x].core == c)
    && (forall x: nat :: Occurs(k.sleep, x) <= 1)
    && (forall x: nat :: Occurs(k.sleep, x) > 0 ==>
      x < |s.objects| && s.objects[x].core == c && Asleep(s.objects[x].phase))
    && (k.current.Some? ==>
          var id := k.current.value;
          && id < |s.objects| && s.objects[id].core == c && !s.objects[id].gone && !s.objects[id].idle
          && (s.objects[id].phase == Running || s.objects[id].phase == Blocking))
    && (k.rest.Some? ==>
          var id := k.rest.value.id;
          && k.current.None? && id < |s.objects| && s.objects[id].core == c && !s.objects[id].idle
          && Occurs(k.sleep, id) == 0
          && (if k.rest.value.Requeue? then s.objects[id].phase == Queueing else Asleep(s.objects[id].phase)))
    && k.bandwidth == Load(s.objects, c)
  }

  ghost predicate Inv(s: System) {
    && (forall id :: 0 <= id < |s.objects| ==> ObjectOk(s, id))
    && (forall c :: 0 <= c < |s.cores| ==> CoreOk(s, c))
    && (forall id :: id in s.pending ==> id < |s.objects| && s.objects[id].phase == Queueing && !s.objects[id].idle)
  }

  // --------------------------------------------------------- what a step changes

  lemma {:induction false} LoadUpdate(objects: seq<Object>, id: nat, o: Object, c: nat)
    requires id < |objects|
    ensures Load(objects[id := o], c) == Load(objects, c) - Share(objects[id], c) + Share(o, c)
    decreases |objects|
  {
    var n := |objects| - 1;
    if id == n {
      assert objects[id := o][..n] == objects[..n];
    } else {
      LoadUpdate(objects[..n], id, o, c);
      assert objects[id := o][..n] == objects[..n][id := o];
    }
  }

  /** The rest of a core concerns object `x`. */
  ghost predicate Concerns(rest: Option<Rest>, x: nat) {
    rest.Some? && rest.value.id == x
  }

  /** Apart from object `id`, core `k'` is as core `k`. */
  ghost predicate SameForOthers(k: Core, k': Core, id: nat) {
    && |k'.ready| == |k.ready|
    && (forall x: nat :: x != id ==> Count(k'.ready, x) == Count(k.ready, x))
    && (forall x: nat :: x != id ==> Occurs(k'.sleep, x) == Occurs(k.sleep, x))
    && (forall x: nat :: x != id ==> (k'.current == Some(x) <==> k.current == Some(x)))
    && (k'.rest == k.rest || ((k.rest.None? || Concerns(k.rest, id)) && (k'.rest.None? || Concerns(k'.rest, id))))
  }

  /** What core `k` needs to know about its object `id`. */
  ghost predicate CoreKnows(k: Core, id: nat, o: Object) {
    && |k.ready| == LEVEL_COUNT && k.ready[LEVEL_CRITICAL] == []
    && Occurs(k.sleep, id) <= 1
    && (Occurs(k.sleep, id) > 0 ==> Asleep(o.phase))
    && (k.current == Some(id) ==> !o.gone && !o.idle && (o.phase == Running || o.phase == Blocking))
    && (k.rest.Some? ==> k.current.None?)
    && (Concerns(k.rest, id) ==>
          && Occurs(k.sleep, id) == 0 && !o.idle
          && (if k.rest.value.Requeue? then o.phase == Queueing else Asleep(o.phase)))
  }

  /** One object of one core has changed. */
  ghost predicate Changed(s: System, s': System, id: nat) {
    && id < |s.objects| && s.objects[id].core < |s.cores|
    && |s'.objects| == |s.objects| && |s'.cores| == |s.cores|
    && s'.objects[id].core == s.objects[id].core && s'.objects[id].idle == s.objects[id].idle
    && s'.objects == s.objects[id := s'.objects[id]]
    && var c := s.objects[id].core;
    && s'.cores == s.cores[c := s'.cores[c]]
    && SameForOthers(s.cores[c], s'.cores[c], id)
    && (forall x: nat :: x != id ==> (x in s'.pending <==> x in s.pending))
  }

  /** If only one object has changed, the invariant has to be checked for it alone. */
  lemma ChangeKeepsInv(s: System, s': System, id: nat)
    requires Inv(s) && Changed(s, s', id) && ObjectOk(s', id)
    requires
      var c, o, o' := s.objects[id].core, s.objects[id], s'.objects[id];
      && CoreKnows(s'.cores[c], id, o')
      && s'.cores[c].bandwidth == s.cores[c].bandwidth - Share(o, c) + Share(o', c)
    requires id in s'.pending ==> s'.objects[id].phase == Queueing && !s'.objects[id].idle
    ensures Inv(s')
  {
    forall x: nat | x < |s'.objects| ensures ObjectOk(s', x) {
      if x != id { OtherObject(s, s', id, x); }
    }
    forall c: nat | c < |s'.cores| ensures CoreOk(s', c) {
      assert CoreOk(s, c);
      LoadUpdate(s.objects, id, s'.objects[id], c);
      if c == s.objects[id].core { OwnCore(s, s', id); } else { OtherCore(s, s', id, c); }
    }
  }

  lemma OtherObject(s: System, s': System, id: nat, x: nat)
    requires Inv(s) && Changed(s, s', id) && x < |s.objects| && x != id
    ensures ObjectOk(s', x)
  {
    hide Count, Occurs, Load;
    assert ObjectOk(s, x);
    assert s'.objects[x] == s.objects[x];
  }

  lemma OwnCore(s: System, s': System, id: nat)
    requires Inv(s) && Changed(s, s', id) && ObjectOk(s', id)
    requires
      var c := s.objects[id].core;
      && CoreKnows(s'.cores[c], id, s'.objects[id])
      && s'.cores[c].bandwidth == Load(s'.objects, c)
    ensures CoreOk(s', s.objects[id].core)
  {
    hide Count, Occurs, Load;
    assert CoreOk(s, s.objects[id].core);
  }

  lemma OtherCore(s: System, s': System, id: nat, c: nat)
    requires Inv(s) && Changed(s, s', id) && c < |s.cores| && c != s.objects[id].core
    requires Load(s'.objects, c) == Load(s.objects, c)
    ensures CoreOk(s', c)
  {
    hide Count, Occurs, Load;
    assert CoreOk(s, c);
    assert s'.cores[c] == s.cores[c];
  }

  // ----------------------------------------------------------------- every step

  lemma WakeKeepsInv(s: System, id: nat)
    requires Inv(s) && HasObject(s, id) && !s.objects[id].idle && !s.objects[id].destroyed
    ensures Inv(DoWake(s, id))
  {
    hide Count, Occurs, Load;
    assert ObjectOk(s, id) && CoreOk(s, s.objects[id].core);
    var s' := DoWake(s, id);
    if s' != s {
      assert s'.cores == s.cores[s.objects[id].core := s.cores[s.objects[id].core]];
      ChangeKeepsInv(s, s', id);
    }
  }

  /** Queueing an object that is ready for it; there is no fatal outcome. */
  lemma QueueOnKeepsInv(s: System, s1: System, id: nat, s': System)
    requires Inv(s) && HasObject(s, id) && s.objects[id].phase == Queueing && !s.objects[id].idle
    requires HasObject(s1, id) && QueueOn(s1, id) == Next(s')
    requires Changed(s, s1, id)
    ensures Changed(s, s', id)
  {
    hide Count, Occurs, Load;
    var c := s.objects[id].core;
    var o, k1 := s1.objects[id], s1.cores[c];
    forall x: nat | x != id
      ensures Count(Enqueue(k1.ready, o.level, id), x) == Count(k1.ready, x)
      ensures Occurs(Removed(k1.sleep, id), x) == Occurs(k1.sleep, x)
    {
      CountEnqueue(k1.ready, o.level, id, x);
      RemovedOccurs(k1.sleep, id, x);
    }
  }

  lemma QueuedFacts(k: Core, level: nat, id: nat)
    requires |k.ready| == LEVEL_COUNT && level <= LEVEL_LOW && Occurs(k.sleep, id) <= 1
    ensures Count(Enqueue(k.ready, level, id), id) == Count(k.ready, id) + 1
    ensures Occurs(Removed(k.sleep, id), id) == 0
    ensures Enqueue(k.ready, level, id)[LEVEL_CRITICAL] == k.ready[LEVEL_CRITICAL]
  {
    CountEnqueue(k.ready, level, id, id);
    RemovedOccurs(k.sleep, id, id);
  }

  lemma ChangedSelf(s: System, id: nat)
    requires id < |s.objects| && s.objects[id].core < |s.cores|
    ensures Changed(s, s, id)
  {
    assert s.objects == s.objects[id := s.objects[id]];
  }

  /** A delivered queue operation finds its object in the state it needs. */
  lemma DeliverKeepsInv(s: System, id: nat)
    requires Inv(s) && HasObject(s, id) && id in s.pending && Settled(s, s.objects[id].core)
    ensures DoDeliver(s, id).Next? && Inv(DoDeliver(s, id).s)
  {
    hide Count, Occurs, Load;
    var c := s.objects[id].core;
    assert ObjectOk(s, id) && CoreOk(s, c);
    ChangedSelf(s, id);
    var s1 := QueueOn(s, id).s;
    QueueOnKeepsInv(s, s, id, s1);
    QueuedFacts(s.cores[c], s.objects[id].level, id);
    var s' := DoDeliver(s, id).s;
    ChangeKeepsInv(s, s', id);
  }

  lemma BlockKeepsInv(s: System, c: nat, timed: bool)
    requires Inv(s) && Settled(s, c) && s.cores[c].current.Some?
    ensures s.cores[c].current.value < |s.objects| && Inv(DoBlock(s, s.cores[c].current.value, timed))
  {
    hide Count, Occurs, Load;
    assert CoreOk(s, c);
    var id := s.cores[c].current.value;
    assert ObjectOk(s, id);
    var s' := DoBlock(s, id, timed);
    assert s'.cores == s.cores[c := s.cores[c]];
    ChangeKeepsInv(s, s', id);
  }

  /** The object that a core gives up is running or blocking. */
  lemma YieldKeepsInv(s: System, c: nat, preemptive: bool)
    requires Inv(s) && Settled(s, c) && s.cores[c].current.Some?
    ensures s.cores[c].current.value < |s.objects|
    ensures
      var o := DoYield(s, c, s.cores[c].current.value, preemptive);
      o.Next? && Inv(o.s)
  {
    hide Count, Occurs, Load;
    assert CoreOk(s, c);
    var id := s.cores[c].current.value;
    assert ObjectOk(s, id);
    ChangeKeepsInv(s, DoYield(s, c, id, preemptive).s, id);
  }

  lemma FinishRequeue(s: System, c: nat)
    requires Inv(s) && HasCore(s, c) && s.cores[c].rest.Some? && s.cores[c].rest.value.Requeue?
    requires HasObject(s, s.cores[c].rest.value.id)
    ensures
      var o := DoFinishYield(s, c, s.cores[c].rest.value);
      o.Next? && Inv(o.s)
  {
    hide Count, Occurs, Load, DoFinishYield;
    assert CoreOk(s, c);
    var rest := s.cores[c].rest.value;
    var id := rest.id;
    assert ObjectOk(s, id);
    var s1 := Demoted(s, c, rest);
    RequeueIsQueue(s, c, rest);
    assert Changed(s, s1, id);
    var s' := QueueOn(s1, id).s;
    QueueOnKeepsInv(s, s1, id, s');
    QueuedFacts(s1.cores[c], s1.objects[id].level, id);
    ChangeKeepsInv(s, s', id);
  }

  lemma FinishPark(s: System, c: nat)
    requires Inv(s) && HasCore(s, c) && s.cores[c].rest.Some? && s.cores[c].rest.value.Park?
    requires HasObject(s, s.cores[c].rest.value.id)
    ensures
      var o := DoFinishYield(s, c, s.cores[c].rest.value);
      o.Next? && Inv(o.s)
  {
    hide Count, Occurs, Load;
    assert CoreOk(s, c);
    var id := s.cores[c].rest.value.id;
    assert ObjectOk(s, id);
    var s' := DoFinishYield(s, c, s.cores[c].rest.value).s;
    assert s'.objects == s.objects[id := s.objects[id]];
    forall x: nat
      ensures Occurs(s.cores[c].sleep + [id], x) == Occurs(s.cores[c].sleep, x) + (if x == id then 1 else 0)
    {
      OccursConcat(s.cores[c].sleep, [id], x);
      OccursOne(id, x);
    }
    ChangeKeepsInv(s, s', id);
  }

  lemma RedeployKeepsInv(s: System, c: nat, passed: nat)
    requires Inv(s) && Settled(s, c) && s.cores[c].current.Some? && s.cores[c].current.value < |s.objects|
    requires passed < s.objects[s.cores[c].current.value].left
    ensures Inv(DoRedeploy(s, s.cores[c].current.value, passed))
  {
    hide Count, Occurs, Load;
    assert CoreOk(s, c);
    var id := s.cores[c].current.value;
    assert ObjectOk(s, id);
    var s' := DoRedeploy(s, id, passed);
    assert s'.cores == s.cores[c := s.cores[c]];
    ChangeKeepsInv(s, s', id);
  }

  /** The head of a level is a queued object of that core. */
  lemma HeadIsQueued(s: System, c: nat, l: nat)
    requires Inv(s) && c < |s.cores| && l < |s.cores[c].ready| && s.cores[c].ready[l] != []
    ensures
      var id: nat := s.cores[c].ready[l][0];
      && id < |s.objects| && s.objects[id].phase == Queued && s.objects[id].core == c
      && Count(s.cores[c].ready, id) == 1 && l <= LEVEL_LOW
  {
    hide Count, Occurs, Load;
    assert CoreOk(s, c);
    var q := s.cores[c].ready;
    var id: nat := q[l][0];
    OccursAt(q[l], 0);
    CountAt(q, l, id);
    assert Count(q, id) > 0;
    assert ObjectOk(s, id);
  }

  lemma DispatchKeepsInv(s: System, c: nat)
    requires Inv(s) && Settled(s, c) && s.cores[c].current.None?
    ensures DoDispatch(s, c).Next? && Inv(DoDispatch(s, c).s)
  {
    hide Count, Occurs, Load;
    assert CoreOk(s, c);
    var k := s.cores[c];
    var l := FirstReady(k.ready, 0);
    if l < LEVEL_COUNT {
      HeadIsQueued(s, c, l);
      var id := k.ready[l][0];
      assert ObjectOk(s, id);
      forall x: nat ensures Count(Dequeue(k.ready, l), x) == Count(k.ready, x) - (if id == x then 1 else 0) {
        CountDequeue(k.ready, l, x);
      }
      ChangeKeepsInv(s, DoDispatch(s, c).s, id);
    }
  }

  lemma ExitKeepsInv(s: System, c: nat)
    requires Inv(s) && Settled(s, c) && s.cores[c].current.Some?
    ensures s.cores[c].current.value < |s.objects| && Inv(DoExit(s, c, s.cores[c].current.value))
  {
    hide Count, Occurs, Load;
    assert CoreOk(s, c);
    var id := s.cores[c].current.value;
    assert ObjectOk(s, id);
    ChangeKeepsInv(s, DoExit(s, c, id), id);
  }

  lemma DestroyKeepsInv(s: System, id: nat)
    requires Inv(s) && HasObject(s, id) && s.objects[id].gone && !s.objects[id].destroyed
    ensures Inv(DoDestroy(s, id))
  {
    hide Count, Occurs, Load;
    assert ObjectOk(s, id) && CoreOk(s, s.objects[id].core);
    ChangeKeepsInv(s, DoDestroy(s, id), id);
  }

  // ---------------------------------------------------------- two steps one after the other

  /** What the invariant of the system says about the object that a core runs. */
  lemma CurrentFacts(s: System, c: nat)
    requires Inv(s) && c < |s.cores| && s.cores[c].current.Some?
    ensures
      var id := s.cores[c].current.value;
      && id < |s.objects| && s.objects[id].core == c && s.objects[id].level <= LEVEL_LOW
      && (s.objects[id].phase == Running || s.objects[id].phase == Blocking)
      && Occurs(s.cores[c].sleep, id) == 0 && Count(s.cores[c].ready, id) == 0
      && !s.objects[id].idle && !s.objects[id].destroyed
  {
    hide Count, Occurs, Load;
    assert CoreOk(s, c) && ObjectOk(s, s.cores[c].current.value);
  }

  lemma RemovedNone(sleep: seq<nat>, id: nat)
    requires Occurs(sleep, id) == 0
    ensures Removed(sleep, id) == sleep
  {
    forall i | 0 <= i < |sleep| ensures sleep[i] != id { OccursAt(sleep, i); }
    RemovedAt(sleep, id, |sleep|);
  }

  /** Giving up a running object puts it behind its level, or one level down if it was
      interrupted, with the slice of that level. */
  lemma RunningIsRequeued(s: System, c: nat, preemptive: bool)
    requires Inv(s) && Settled(s, c) && s.cores[c].current.Some? && s.cores[c].current.value < |s.objects|
    requires s.objects[s.cores[c].current.value].phase == Running
    ensures
      var id, k := s.cores[c].current.value, s.cores[c];
      var o := s.objects[id];
      var o', s1 := Repriced(o, NextLevel(o.level, preemptive)), Do(s, Yield(c, preemptive));
      && o'.level <= LEVEL_LOW && s1.Next?
      && Do(s1.s, FinishYield(c)) == Next(Put(s, c, k.(current := None, bandwidth := k.bandwidth - o.slice + o'.slice,
           ready := Enqueue(k.ready, o'.level, id)), id, o'.(phase := Queued), s.pending))
  {
    hide Inv, Count, Occurs, Removed, Enqueue, Repriced, DoFinishYield;
    var id := s.cores[c].current.value;
    CurrentFacts(s, c);
    YieldIs(s, c, preemptive);
    YieldKeepsInv(s, c, preemptive);
    var s1 := Do(s, Yield(c, preemptive)).s;
    FinishRequeue(s1, c);
    RequeueIs(s1, c);
    RemovedNone(s.cores[c].sleep, id);
    RepricedPhased(s.objects[id], NextLevel(s.objects[id].level, preemptive));
  }

  lemma RepricedPhased(o: Object, level: nat)
    ensures
      var r := Repriced(o, level);
      r.level == level && Repriced(o.(phase := Queueing), level).(phase := Queued) == r.(phase := Queued)
  {}

  /** A blocking object leaves the ready queues alone; it is parked among the sleepers if it has
      a deadline. */
  lemma BlockingIsParked(s: System, c: nat, preemptive: bool)
    requires Settled(s, c) && s.cores[c].current.Some? && s.cores[c].current.value < |s.objects|
    requires var o := s.objects[s.cores[c].current.value]; o.phase == Blocking && o.core == c && o.level <= LEVEL_LOW
    ensures
      var id, k := s.cores[c].current.value, s.cores[c];
      var o, s1 := s.objects[id], Do(s, Yield(c, preemptive));
      && s1.Next?
      && Do(s1.s, FinishYield(c)) == Next(Put(s, c,
           k.(current := None, sleep := k.sleep + (if o.deadline then [id] else [])),
           id, o.(phase := Blocked), s.pending))
  {
    hide DoFinishYield;
    YieldIs(s, c, preemptive);
    var s1 := Do(s, Yield(c, preemptive)).s;
    assert DoFinishYield(s1, c, Park(s.cores[c].current.value)).Next? by { ParkSucceeds(s1, c); }
    ParkIs(s1, c);
  }

  lemma ParkSucceeds(s: System, c: nat)
    requires HasCore(s, c) && s.cores[c].rest.Some? && s.cores[c].rest.value.Park?
      && HasObject(s, s.cores[c].rest.value.id)
    ensures DoFinishYield(s, c, s.cores[c].rest.value).Next?
  {}

  /** A blocked object that is woken ends up behind its level and leaves the sleepers. */
  lemma WokenIsQueued(s: System, c: nat, id: nat)
    requires Inv(s) && Settled(s, c) && id < |s.objects| && s.objects[id].core == c && s.objects[id].phase == Blocked
    ensures
      var k, o, s1 := s.cores[c], s.objects[id], Do(s, Wake(id));
      && o.level <= LEVEL_LOW && s1.Next?
      && Do(s1.s, Deliver(id)) == Next(Put(s, c,
           k.(sleep := Removed(k.sleep, id), ready := Enqueue(k.ready, o.level, id)),
           id, o.(phase := Queued), s.pending))
  {
    hide Count, Occurs, Load, Removed, Enqueue;
    assert ObjectOk(s, id);
    var s1 := Do(s, Wake(id)).s;
    WakeIs(s, id);
    DeliverIs(s1, id);
    assert s1.pending - {id} == s.pending;
  }

  /** A wake-up that comes while its object is still blocking makes it runnable again: the core
      then requeues it and does not park it. */
  lemma WakeBeatsBlock(s: System, c: nat)
    requires Inv(s) && Settled(s, c) && s.cores[c].current.Some? && s.cores[c].current.value < |s.objects|
    requires s.objects[s.cores[c].current.value].phase == Blocking
    ensures
      var id, s1 := s.cores[c].current.value, Do(s, Wake(s.cores[c].current.value));
      && s1.Next? && Inv(s1.s) && Settled(s1.s, c) && s1.s.cores[c] == s.cores[c] && |s1.s.objects| == |s.objects|
      && s1.s.objects[id].phase == Running
  {
    hide Inv;
    CurrentFacts(s, c);
    WakeIs(s, s.cores[c].current.value);
    WakeKeepsInv(s, s.cores[c].current.value);
  }
}
