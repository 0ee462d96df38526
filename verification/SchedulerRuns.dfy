/**
 Whole runs of the scheduler: what holds in every reachable state, whatever the cores
 do and however long a message between them takes, and how long an object waits.
 */
module SchedulerRuns {
  import opened Wrappers
  import opened Counting
  import opened SchedulerSpec
  import opened SchedulerSystem

  // ------------------------------------------------- the steps that are left: create, boost

  lemma CreateKeepsInv(s: System, c: nat, isIdle: bool)
    requires Inv(s) && HasCore(s, c)
    ensures Inv(DoCreate(s, c, isIdle))
  {
    hide Count, Occurs, Load;
    var s' := DoCreate(s, c, isIdle);
    var n := |s.objects|;
    assert s'.objects[..n] == s.objects;
    forall x: nat | x <= n ensures ObjectOk(s', x) {
      if x < n { assert ObjectOk(s, x); } else { assert CoreOk(s, c); }
    }
    forall d: nat | d < |s'.cores| ensures CoreOk(s', d) {
      assert CoreOk(s, d);
      LoadAppend(s.objects, s'.objects[n], d);
    }
  }

  lemma LoadAppend(objects: seq<Object>, o: Object, c: nat)
    ensures Load(objects + [o], c) == Load(objects, c) + Share(o, c)
  {
    assert (objects + [o])[..|objects|] == objects;
  }

  lemma BoostKeepsInv(s: System, c: nat)
    requires Inv(s) && Settled(s, c)
    ensures Inv(WithCore(s, c, s.cores[c].(ready := Boosted(s.cores[c].ready, LEVEL_CRITICAL))))
  {
    hide Count, Occurs, Load, Row;
    var k := s.cores[c];
    var s' := WithCore(s, c, k.(ready := Boosted(k.ready, LEVEL_CRITICAL)));
    forall x: nat ensures Count(s'.cores[c].ready, x) == Count(k.ready, x) {
      BoostKeepsAll(k.ready, LEVEL_CRITICAL, x);
    }
    forall x: nat | x < |s'.objects| ensures ObjectOk(s', x) { assert ObjectOk(s, x); }
    forall d: nat | d < |s'.cores| ensures CoreOk(s', d) { assert CoreOk(s, d); }
  }

  /** No step leads out of the invariant, and none ends in either FATAL call. */
  lemma StepKeepsInv(s: System, step: Step)
    requires Inv(s)
    ensures !Do(s, step).Fatal?
    ensures Do(s, step).Next? ==> Inv(Do(s, step).s)
  {
    hide ObjectOk, CoreOk, Inv;
    match step
    case Create(c, isIdle) => if HasCore(s, c) { CreateKeepsInv(s, c, isIdle); }
    case Wake(id) => if !Do(s, step).Disabled? { WakeKeepsInv(s, id); }
    case Deliver(id) =>
      if id in s.pending && HasObject(s, id) && Settled(s, s.objects[id].core) { DeliverKeepsInv(s, id); }
    case Block(c, timed) => if Settled(s, c) && s.cores[c].current.Some? { BlockKeepsInv(s, c, timed); }
    case Yield(c, preemptive) => if Settled(s, c) && s.cores[c].current.Some? { YieldKeepsInv(s, c, preemptive); }
    case FinishYield(c) =>
      if HasCore(s, c) && s.cores[c].rest.Some? && HasObject(s, s.cores[c].rest.value.id) {
        if s.cores[c].rest.value.Requeue? { FinishRequeue(s, c); } else { FinishPark(s, c); }
      }
    case Redeploy(c, passed) => if !Do(s, step).Disabled? { RedeployKeepsInv(s, c, passed); }
    case Dispatch(c) => if Settled(s, c) && s.cores[c].current.None? { DispatchKeepsInv(s, c); }
    case Boost(c) => if Settled(s, c) { BoostKeepsInv(s, c); }
    case Exit(c) => if Settled(s, c) && s.cores[c].current.Some? { ExitKeepsInv(s, c); }
    case Destroy(id) => if !Do(s, step).Disabled? { DestroyKeepsInv(s, id); }
  }

  // ------------------------------------------------------------------------ runs

  function Run(s: System, steps: seq<Step>): Outcome
    decreases steps
  {
    if steps == [] then Next(s)
    else
      match Do(s, steps[0])
      case Next(s1) => Run(s1, steps[1..])
      case other => other
  }

  lemma {:induction false} RunConcat(s: System, a: seq<Step>, b: seq<Step>)
    ensures Run(s, a + b) == if Run(s, a).Next? then Run(Run(s, a).s, b) else Run(s, a)
    decreases a
  {
    hide Do;
    if a == [] {
      assert a + b == b;
    } else {
      assert (a + b)[0] == a[0] && (a + b)[1..] == a[1..] + b;
      if Do(s, a[0]).Next? { RunConcat(Do(s, a[0]).s, a[1..], b); }
    }
  }

  /** Nothing created yet. */
  ghost predicate Start(s: System) {
    && s.objects == [] && s.pending == {}
    && forall c :: 0 <= c < |s.cores| ==>
         s.cores[c] == Core(seq(LEVEL_COUNT, _ => []), [], None, None, 0)
  }

  lemma StartInv(s: System)
    requires Start(s)
    ensures Inv(s)
  {
    forall c: nat | c < |s.cores| ensures CoreOk(s, c) {
      forall x: nat ensures Count(s.cores[c].ready, x) == 0 { CountEmpty(s.cores[c].ready, x); }
    }
  }

  lemma {:induction false} RunKeepsInv(s: System, steps: seq<Step>)
    requires Inv(s)
    ensures !Run(s, steps).Fatal?
    ensures Run(s, steps).Next? ==> Inv(Run(s, steps).s)
    decreases steps
  {
    hide Inv, Do;
    if steps != [] {
      StepKeepsInv(s, steps[0]);
      if Do(s, steps[0]).Next? { RunKeepsInv(Do(s, steps[0]).s, steps[1..]); }
    }
  }

  /** An object is queued on core `c`. */
  ghost predicate QueuedOn(s: System, c: nat, id: nat) {
    c < |s.cores| && Count(s.cores[c].ready, id) > 0
  }

  /** QUEUED is what a queue says: an object is on a ready queue exactly when it is in that
      state, and then once, on the core it belongs to. */
  ghost predicate QueuesAgree(s: System) {
    && (forall id: nat, c: nat :: QueuedOn(s, c, id) ==>
          id < |s.objects| && s.objects[id].phase == Queued && s.objects[id].core == c)
    && (forall id: nat :: id < |s.objects| && s.objects[id].phase == Queued ==>
          s.objects[id].core < |s.cores| && Count(s.cores[s.objects[id].core].ready, id) == 1)
  }

  /** What a core has been given is running or blocking there. */
  ghost predicate CurrentAgrees(s: System) {
    forall c: nat :: c < |s.cores| && s.cores[c].current.Some? ==>
      var id := s.cores[c].current.value;
      && id < |s.objects| && s.objects[id].core == c
      && (s.objects[id].phase == Running || s.objects[id].phase == Blocking)
  }

  /** No wake-up is lost: an object that is being queued has exactly one queue operation to come. */
  ghost predicate WakeUpsArrive(s: System) {
    forall id: nat :: id < |s.objects| && s.objects[id].phase == Queueing ==>
      s.objects[id].core < |s.cores| && (id in s.pending <==> !IsRequeue(s.cores[s.objects[id].core].rest, id))
  }

  ghost predicate SleepersAgree(s: System) {
    forall c: nat, id: nat :: c < |s.cores| && Occurs(s.cores[c].sleep, id) > 0 ==>
      && Occurs(s.cores[c].sleep, id) == 1
      && id < |s.objects| && (s.objects[id].phase == Blocked || s.objects[id].phase == Queueing)
  }

  /** A core's bandwidth is the sum of the time slices of its objects, and these follow their levels. */
  ghost predicate AccountsAgree(s: System) {
    && (forall c: nat :: c < |s.cores| ==> s.cores[c].bandwidth == Load(s.objects, c))
    && (forall id: nat :: id < |s.objects| ==>
          var o := s.objects[id];
          o.level <= LEVEL_LOW && o.slice == Slice(o.level) && 0 < o.left <= o.slice)
  }

  lemma InvMeans(s: System)
    requires Inv(s)
    ensures QueuesAgree(s) && CurrentAgrees(s) && WakeUpsArrive(s) && SleepersAgree(s) && AccountsAgree(s)
  {
    hide Count, Occurs, Load;
    forall id: nat, c: nat | QueuedOn(s, c, id)
      ensures id < |s.objects| && s.objects[id].phase == Queued && s.objects[id].core == c
    {
      assert CoreOk(s, c);
      assert ObjectOk(s, id);
    }
    forall id: nat | id < |s.objects|
      ensures ObjectOk(s, id) && HasCore(s, s.objects[id].core)
      ensures s.objects[id].phase == Queued ==> Count(s.cores[s.objects[id].core].ready, id) == 1
      ensures s.objects[id].phase == Queueing ==>
                (id in s.pending <==> !IsRequeue(s.cores[s.objects[id].core].rest, id))
      ensures
        var o := s.objects[id];
        o.level <= LEVEL_LOW && o.slice == Slice(o.level) && 0 < o.left <= o.slice
    {
      assert ObjectOk(s, id);
    }
    forall c: nat | c < |s.cores|
      ensures CoreOk(s, c) && s.cores[c].bandwidth == Load(s.objects, c)
      ensures s.cores[c].current.Some? ==>
        var id := s.cores[c].current.value;
        && id < |s.objects| && s.objects[id].core == c
        && (s.objects[id].phase == Running || s.objects[id].phase == Blocking)
    {
      assert CoreOk(s, c);
    }
    forall c: nat, id: nat | c < |s.cores| && Occurs(s.cores[c].sleep, id) > 0
      ensures Occurs(s.cores[c].sleep, id) == 1 && id < |s.objects| && Asleep(s.objects[id].phase)
    {
      assert CoreOk(s, c);
    }
  }

  /** Every reachable state is in order, and no run meets either FATAL call. */
  lemma RunSafe(start: System, steps: seq<Step>)
    requires Start(start)
    ensures !Run(start, steps).Fatal?
    ensures Run(start, steps).Next? ==>
      var s := Run(start, steps).s;
      QueuesAgree(s) && CurrentAgrees(s) && WakeUpsArrive(s) && SleepersAgree(s) && AccountsAgree(s)
  {
    StartInv(start);
    RunKeepsInv(start, steps);
    if Run(start, steps).Next? { InvMeans(Run(start, steps).s); }
  }

  // ---------------------------------------------------------------- bounded waiting

  /** Object `x` is number `p` on the first level of core `c`. */
  ghost predicate InLine(s: System, c: nat, p: nat, x: nat) {
    HasCore(s, c) && p < |s.cores[c].ready[0]| && s.cores[c].ready[0][p] == x
  }

  /** A dispatch moves the line up by one; nothing else moves it. */
  lemma StepKeepsLine(s: System, step: Step, c: nat, p: nat, x: nat)
    requires InLine(s, c, p, x) && Do(s, step).Next?
    ensures
      var s' := Do(s, step).s;
      && c < |s'.cores|
      && if step == Dispatch(c) then if p == 0 then s'.cores[c].current == Some(x) else InLine(s', c, p - 1, x)
         else InLine(s', c, p, x)
  {
    hide DoCreate, DoWake, QueueOn, DoBlock, DoYield, DoFinishYield, DoRedeploy, DoDispatch, DoExit, DoDestroy, Boosted;
    match step
    case Boost(d) => BoostKeepsLine(s, d, c, p, x);
    case Deliver(id) => QueueKeepsLine(s, id, c, p, x);
    case FinishYield(d) => FinishKeepsLine(s, d, c, p, x);
    case Dispatch(d) => DispatchMovesLine(s, d, c, p, x);
    case _ => OthersKeepLine(s, step, c, p, x);
  }

  lemma BoostKeepsLine(s: System, d: nat, c: nat, p: nat, x: nat)
    requires InLine(s, c, p, x) && Settled(s, d)
    ensures InLine(WithCore(s, d, s.cores[d].(ready := Boosted(s.cores[d].ready, LEVEL_CRITICAL))), c, p, x)
  {
    if d == c { BoostPlace(s.cores[c].ready, LEVEL_CRITICAL, 0, p); }
  }

  lemma DispatchMovesLine(s: System, d: nat, c: nat, p: nat, x: nat)
    requires InLine(s, c, p, x) && HasCore(s, d) && DoDispatch(s, d).Next?
    ensures
      var s' := DoDispatch(s, d).s;
      && c < |s'.cores|
      && if d == c then if p == 0 then s'.cores[c].current == Some(x) else InLine(s', c, p - 1, x)
         else InLine(s', c, p, x)
  {}

  lemma OthersKeepLine(s: System, step: Step, c: nat, p: nat, x: nat)
    requires InLine(s, c, p, x) && Do(s, step).Next?
    requires !step.Boost? && !step.Deliver? && !step.FinishYield? && !step.Dispatch?
    ensures InLine(Do(s, step).s, c, p, x)
  {}

  lemma QueueKeepsLine(s: System, id: nat, c: nat, p: nat, x: nat)
    requires InLine(s, c, p, x) && HasObject(s, id)
    ensures QueueOn(s, id).Next? ==> InLine(QueueOn(s, id).s, c, p, x)
  {}

  lemma FinishKeepsLine(s: System, d: nat, c: nat, p: nat, x: nat)
    requires InLine(s, c, p, x) && HasCore(s, d) && s.cores[d].rest.Some?
    requires HasObject(s, s.cores[d].rest.value.id)
    requires DoFinishYield(s, d, s.cores[d].rest.value).Next?
    ensures InLine(DoFinishYield(s, d, s.cores[d].rest.value).s, c, p, x)
  {
    hide QueueOn;
    var rest := s.cores[d].rest.value;
    var o, k := s.objects[rest.id], s.cores[d].(rest := None);
    if rest.Requeue? {
      if rest.preemptive && o.level < LEVEL_LOW {
        var o1 := Repriced(o, o.level + 1);
        QueueKeepsLine(WithObject(WithCore(s, d, k.(bandwidth := k.bandwidth - o.slice + o1.slice)), rest.id, o1),
          rest.id, c, p, x);
      } else {
        QueueKeepsLine(WithCore(s, d, k), rest.id, c, p, x);
      }
    }
  }

  function Dispatches(steps: seq<Step>, c: nat): nat {
    if steps == [] then 0 else (if steps[0] == Dispatch(c) then 1 else 0) + Dispatches(steps[1..], c)
  }

  /**
   Number `p` of the first level is what the core's dispatch number `p + 1` from now on
   starts, whatever happens in between on this core or any other.
   */
  lemma {:induction false} DispatchedInTurn(s: System, steps: seq<Step>, c: nat, p: nat, x: nat)
    requires InLine(s, c, p, x)
    requires Dispatches(steps, c) == p
    requires Run(s, steps + [Dispatch(c)]).Next?
    ensures var s' := Run(s, steps + [Dispatch(c)]).s; c < |s'.cores| && s'.cores[c].current == Some(x)
    decreases steps
  {
    hide Do;
    var all := steps + [Dispatch(c)];
    StepKeepsLine(s, all[0], c, p, x);
    if steps == [] {
      assert all[1..] == [];
    } else {
      var s1 := Do(s, all[0]).s;
      assert all[1..] == steps[1..] + [Dispatch(c)];
      DispatchedInTurn(s1, steps[1..], c, if all[0] == Dispatch(c) then p - 1 else p, x);
    }
  }

  /** After a boost every queued object has its turn, at a dispatch that is known in advance:
      the objects of lower levels and those before it on its own level go first. */
  lemma BoostedInTurn(s: System, steps: seq<Step>, c: nat, l: nat, p: nat)
    requires Settled(s, c) && l < LEVEL_CRITICAL && p < |s.cores[c].ready[l]|
    requires Dispatches(steps, c) == |Row(s.cores[c].ready, 0, l)| + p
    requires Run(s, [Boost(c)] + steps + [Dispatch(c)]).Next?
    ensures
      var s' := Run(s, [Boost(c)] + steps + [Dispatch(c)]).s;
      c < |s'.cores| && s'.cores[c].current == Some(s.cores[c].ready[l][p])
  {
    hide Row;
    var q := s.cores[c].ready;
    BoostPlace(q, LEVEL_CRITICAL, l, p);
    var all := [Boost(c)] + steps + [Dispatch(c)];
    assert all[1..] == steps + [Dispatch(c)];
    DispatchedInTurn(Do(s, Boost(c)).s, steps, c, |Row(q, 0, l)| + p, q[l][p]);
  }
}
