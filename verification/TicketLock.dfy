/**
 The ticket spinlock (kernel/sync/spinlock.c) as a step system: any number of threads, each
 atomic operation one step, and a lock that is released only by its holder.
 */
module TicketLock {

  const WORD: nat := 0x1_0000_0000

  datatype Place =
    | Idle
    | Masked                // interrupts are off, no ticket yet
    | Waiting | Stale       // spinning; about to take a new ticket
    | Won | Holding         // before and after the interrupt state is stored
    | Loaded                // the interrupt state is read back
    | Leaving(seen: nat)    // Current has been advanced, the assert is still to come
    | Restoring

  datatype Thread = Thread(
    place: Place, ticket: nat, withIrq: bool,
    enabled: bool,          // interrupts are on
    saved: bool,            // as they were when the thread turned them off
    restore: bool)          // as the thread will set them again

  /** `owners` and `won` are history: who drew which ticket, and which tickets got the lock. */
  datatype State = State(
    current: nat, next: nat, irqState: bool, threads: seq<Thread>, owners: seq<nat>, won: seq<nat>)

  datatype Action = Disable | Draw | Look | Redraw | Store | Load | Release | Check | Restore

  datatype Step = Step(id: nat, action: Action)

  datatype Outcome = Next(s: State) | AssertFailed | Disabled

  function With(s: State, id: nat, t: Thread): State
    requires id < |s.threads|
  {
    s.(threads := s.threads[id := t])
  }

  /** atomic_fetch_add on Next. */
  function Drawn(s: State, id: nat): State
    requires id < |s.threads|
  {
    var s1 := With(s, id, s.threads[id].(place := Waiting, ticket := s.next));
    s1.(next := (s.next + 1) % WORD, owners := s.owners + [id])
  }

  function Do(s: State, step: Step): Outcome {
    if step.id >= |s.threads| then Disabled
    else
      var id, t := step.id, s.threads[step.id];
      match step.action
      case Disable =>
        if t.place.Idle? then
          Next(With(s, id, t.(place := Masked, withIrq := true, saved := t.enabled, enabled := false)))
        else Disabled
      case Draw => if t.place.Idle? || t.place.Masked? then Next(Drawn(s, id)) else Disabled
      case Look =>
        if !t.place.Waiting? then Disabled
        else if s.current == t.ticket then Next(With(s, id, t.(place := Won)).(won := s.won + [t.ticket]))
        else if s.current > t.ticket then Next(With(s, id, t.(place := Stale)))
        else Next(s)
      case Redraw => if t.place.Stale? then Next(Drawn(s, id)) else Disabled
      case Store =>
        if !t.place.Won? then Disabled
        else Next(With(s, id, t.(place := Holding)).(irqState := if t.withIrq then t.saved else s.irqState))
      case Load =>
        if t.place.Holding? && t.withIrq then Next(With(s, id, t.(place := Loaded, restore := s.irqState)))
        else Disabled
      case Release =>
        if t.place.Loaded? || (t.place.Holding? && !t.withIrq)
        then Next(With(s, id, t.(place := Leaving(s.current))).(current := (s.current + 1) % WORD)) else Disabled
      case Check =>
        if !t.place.Leaving? then Disabled
        else if t.place.seen < s.next then Next(With(s, id, t.(place := if t.withIrq then Restoring else Idle)))
        else AssertFailed
      case Restore =>
        if t.place.Restoring? then Next(With(s, id, t.(place := Idle, withIrq := false, enabled := t.restore)))
        else Disabled
  }

  function Run(s: State, steps: seq<Step>): Outcome
    decreases steps
  {
    if steps == [] then Next(s)
    else
      match Do(s, steps[0])
      case Next(s1) => Run(s1, steps[1..])
      case other => other
  }

  /** SpinlockConstruct, and threads that have not begun. */
  ghost predicate Start(s: State) {
    && s.current == s.next == 0 && s.owners == [] && s.won == []
    && forall i :: 0 <= i < |s.threads| ==> s.threads[i].place.Idle? && !s.threads[i].withIrq
  }

  // ------------------------------------------------------------------- invariant

  /** Inside the lock. */
  predicate Inside(t: Thread) {
    t.place.Won? || t.place.Holding? || t.place.Loaded?
  }

  predicate Active(t: Thread) {
    t.place.Waiting? || Inside(t)
  }

  ghost predicate ThreadOk(s: State, i: nat)
    requires i < |s.threads|
  {
    var t := s.threads[i];
    && !t.place.Stale?
    && (Active(t) ==> s.current <= t.ticket < |s.owners| && s.owners[t.ticket] == i)
    && (Inside(t) ==> t.ticket == s.current && |s.won| == s.current + 1)
    && (t.place.Leaving? ==> t.place.seen < s.current)
    && (t.place.Holding? && t.withIrq ==> s.irqState == t.saved)
    && (t.place.Masked? || t.place.Loaded? || t.place.Restoring? ==> t.withIrq)
    && (t.withIrq && (t.place.Loaded? || t.place.Leaving? || t.place.Restoring?) ==> t.restore == t.saved)
    && (t.place.Idle? ==> !t.withIrq)
  }

  /** The owner of a ticket that has not been served yet still has it. */
  ghost predicate TicketOk(s: State, k: nat)
    requires k < |s.owners|
  {
    && s.owners[k] < |s.threads| && Active(s.threads[s.owners[k]]) && s.threads[s.owners[k]].ticket == k
    && (k == s.current && |s.won| == s.current + 1 ==> Inside(s.threads[s.owners[k]]))
  }

  ghost predicate InOrder(won: seq<nat>) {
    forall i :: 0 <= i < |won| ==> won[i] == i
  }

  ghost predicate Inv(s: State) {
    && s.next == |s.owners| < WORD && s.current <= s.next
    && (forall i :: 0 <= i < |s.threads| ==> ThreadOk(s, i))
    && (forall k :: s.current <= k < |s.owners| ==> TicketOk(s, k))
    && InOrder(s.won) && s.current <= |s.won| <= s.current + 1
    && (|s.won| == s.current + 1 ==> s.current < |s.owners|)
  }

  /** Where one thread changes, its own state and its own ticket have to be looked at. */
  lemma OthersOk(s: State, s': State, id: nat, i: nat)
    requires Inv(s) && id < |s.threads| && i < |s.threads| && i != id
    requires |s'.threads| == |s.threads| && s'.threads[i] == s.threads[i]
    requires s.owners <= s'.owners && s'.current == s.current && s'.won == s.won && s'.irqState == s.irqState
    ensures ThreadOk(s', i)
  {
    assert ThreadOk(s, i);
  }

  /** Steps that change nothing but the thread. */
  lemma LocalKeepsInv(s: State, id: nat, t': Thread)
    requires Inv(s) && id < |s.threads| && ThreadOk(With(s, id, t'), id)
    requires var t := s.threads[id]; Active(t) == Active(t') && Inside(t) == Inside(t') && t.ticket == t'.ticket
    ensures Inv(With(s, id, t'))
  {
    var s' := With(s, id, t');
    forall i | 0 <= i < |s'.threads| ensures ThreadOk(s', i) {
      if i != id { OthersOk(s, s', id, i); }
    }
    forall k | s'.current <= k < |s'.owners| ensures TicketOk(s', k) {
      assert TicketOk(s, k);
    }
  }

  lemma DrawKeepsInv(s: State, id: nat)
    requires Inv(s) && id < |s.threads| && |s.owners| + 1 < WORD && !Active(s.threads[id])
    ensures Inv(Drawn(s, id))
  {
    var s' := Drawn(s, id);
    forall i | 0 <= i < |s'.threads| ensures ThreadOk(s', i) {
      if i != id { OthersOk(s, s', id, i); }
    }
    forall k | s'.current <= k < |s'.owners| ensures TicketOk(s', k) {
      if k < |s.owners| { assert TicketOk(s, k); }
    }
  }

  /** Nobody is inside when a thread finds that it is its turn. */
  lemma WinKeepsInv(s: State, id: nat)
    requires Inv(s) && id < |s.threads| && s.threads[id].place.Waiting? && s.threads[id].ticket == s.current
    ensures Inv(Do(s, Step(id, Look)).s)
  {
    var s' := Do(s, Step(id, Look)).s;
    assert ThreadOk(s, id) && TicketOk(s, s.current);
    forall i | 0 <= i < |s'.threads| ensures ThreadOk(s', i) {
      assert ThreadOk(s, i);
    }
    forall k | s'.current <= k < |s'.owners| ensures TicketOk(s', k) {
      assert TicketOk(s, k);
    }
  }

  lemma StoreKeepsInv(s: State, id: nat)
    requires Inv(s) && id < |s.threads| && s.threads[id].place.Won?
    ensures Inv(Do(s, Step(id, Store)).s)
  {
    var s' := Do(s, Step(id, Store)).s;
    assert ThreadOk(s, id);
    forall i | 0 <= i < |s'.threads| ensures ThreadOk(s', i) {
      assert ThreadOk(s, i);
    }
    forall k | s'.current <= k < |s'.owners| ensures TicketOk(s', k) {
      assert TicketOk(s, k);
    }
  }

  lemma ReleaseKeepsInv(s: State, id: nat)
    requires Inv(s) && id < |s.threads| && Inside(s.threads[id])
    ensures Do(s, Step(id, Release)).Next? ==> Inv(Do(s, Step(id, Release)).s)
  {
    assert ThreadOk(s, id);
    if Do(s, Step(id, Release)).Next? {
      var s' := Do(s, Step(id, Release)).s;
      forall i | 0 <= i < |s'.threads| ensures ThreadOk(s', i) {
        assert ThreadOk(s, i);
      }
      forall k | s'.current <= k < |s'.owners| ensures TicketOk(s', k) {
        assert TicketOk(s, k);
      }
    }
  }

  /** No step leads out of the invariant as long as the tickets do not run out, and no assert fails. */
  lemma StepKeepsInv(s: State, step: Step)
    requires Inv(s) && (step.action.Draw? || step.action.Redraw? ==> |s.owners| + 1 < WORD)
    ensures !Do(s, step).AssertFailed?
    ensures Do(s, step).Next? ==> Inv(Do(s, step).s)
  {
    if step.id < |s.threads| {
      var id, t := step.id, s.threads[step.id];
      assert ThreadOk(s, id);
      if Do(s, step).Next? {
        hide Inv;
        match step.action
        case Draw => DrawKeepsInv(s, id);
        case Look => if s.current == t.ticket { WinKeepsInv(s, id); }
        case Redraw =>
        case Store => StoreKeepsInv(s, id);
        case Release => ReleaseKeepsInv(s, id);
        case _ => LocalKeepsInv(s, id, Do(s, step).s.threads[id]);
      }
    }
  }

  function Draws(steps: seq<Step>): nat {
    if steps == [] then 0 else Draws(steps[1..]) + (if steps[0].action.Draw? || steps[0].action.Redraw? then 1 else 0)
  }

  lemma {:induction false} RunKeepsInv(s: State, steps: seq<Step>)
    requires Inv(s) && |s.owners| + Draws(steps) < WORD
    ensures !Run(s, steps).AssertFailed?
    ensures Run(s, steps).Next? ==> Inv(Run(s, steps).s)
    decreases steps
  {
    hide Inv;
    if steps != [] {
      StepKeepsInv(s, steps[0]);
      DrawsCounted(s, steps[0]);
      if Do(s, steps[0]).Next? { RunKeepsInv(Do(s, steps[0]).s, steps[1..]); }
    }
  }

  lemma DrawsCounted(s: State, step: Step)
    ensures Do(s, step).Next? ==> |Do(s, step).s.owners| == |s.owners| + Draws([step])
  {}

  // ---------------------------------------------------------------------- interrupts

  /** Has thread `id` turned its interrupts off and not yet set them again, `steps` later? */
  ghost predicate Off(steps: seq<Step>, id: nat, off: bool)
    decreases steps
  {
    if steps == [] then off
    else Off(steps[1..], id, if steps[0].id != id then off else StillOff(steps[0].action, off))
  }

  predicate StillOff(action: Action, off: bool) {
    action.Disable? || (off && !action.Restore?)
  }

  /** A thread that came with its interrupts as in `home`. */
  ghost predicate IrqOk(t: Thread, home: bool, off: bool) {
    && t.withIrq == off
    && t.enabled == (home && !off)
    && (off ==> t.saved == home)
  }

  lemma StepKeepsIrq(s: State, step: Step, id: nat, home: bool, off: bool)
    requires Inv(s) && id < |s.threads| && IrqOk(s.threads[id], home, off)
    ensures Do(s, step).Next? ==>
      && |Do(s, step).s.threads| == |s.threads|
      && IrqOk(Do(s, step).s.threads[id], home, if step.id != id then off else StillOff(step.action, off))
  {
    assert ThreadOk(s, id);
  }

  lemma {:induction false} RunKeepsIrq(s: State, steps: seq<Step>, id: nat, home: bool, off: bool)
    requires Inv(s) && |s.owners| + Draws(steps) < WORD
    requires id < |s.threads| && IrqOk(s.threads[id], home, off)
    ensures Run(s, steps).Next? ==>
      id < |Run(s, steps).s.threads| && IrqOk(Run(s, steps).s.threads[id], home, Off(steps, id, off))
    decreases steps
  {
    hide Inv, IrqOk;
    if steps != [] {
      StepKeepsInv(s, steps[0]);
      StepKeepsIrq(s, steps[0], id, home, off);
      DrawsCounted(s, steps[0]);
      if Do(s, steps[0]).Next? {
        var off' := if steps[0].id != id then off else StillOff(steps[0].action, off);
        RunKeepsIrq(Do(s, steps[0]).s, steps[1..], id, home, off');
      }
    }
  }

  lemma {:induction false} RunKeepsThreads(s: State, steps: seq<Step>)
    ensures Run(s, steps).Next? ==> |Run(s, steps).s.threads| == |s.threads|
    decreases steps
  {
    if steps != [] && Do(s, steps[0]).Next? { RunKeepsThreads(Do(s, steps[0]).s, steps[1..]); }
  }

  // ------------------------------------------------------------------------ theorems

  /** At most one thread is inside. */
  ghost predicate Exclusive(s: State) {
    forall i, j :: 0 <= i < j < |s.threads| ==> !(Inside(s.threads[i]) && Inside(s.threads[j]))
  }

  /** No thread is told that the lock has passed it by. */
  ghost predicate NoneStale(s: State) {
    forall i :: 0 <= i < |s.threads| ==> !s.threads[i].place.Stale?
  }

  /** While tickets are out, the next one to be served is in the hands of a thread. */
  ghost predicate TurnIsTaken(s: State) {
    s.current < |s.owners| ==>
      && s.owners[s.current] < |s.threads|
      && Active(s.threads[s.owners[s.current]]) && s.threads[s.owners[s.current]].ticket == s.current
  }

  /** Every thread has interrupts on exactly if it came with them on and is not between turning them
      off and setting them again; one that is done has them as it came. */
  ghost predicate IrqKept(start: State, steps: seq<Step>, s: State) {
    && |s.threads| == |start.threads|
    && forall i :: 0 <= i < |s.threads| ==>
      var t, home := s.threads[i], start.threads[i].enabled;
      && (t.enabled <==> home && !Off(steps, i, false))
      && (t.place.Idle? ==> t.enabled == home)
      && (t.place.Restoring? ==> t.restore == home)
  }

  /**
   Every run with fewer than 2^32 tickets: no assert fails, the recovery branch is never
   entered, at most one thread is inside, the lock is given in the order of the tickets and
   does not get lost, and every thread gets its own interrupt state back.
   */
  lemma RunSafe(start: State, steps: seq<Step>)
    requires Start(start) && Draws(steps) < WORD
    ensures !Run(start, steps).AssertFailed?
    ensures Run(start, steps).Next? ==>
      var s := Run(start, steps).s;
      Exclusive(s) && NoneStale(s) && TurnIsTaken(s) && IrqKept(start, steps, s) && InOrder(s.won)
  {
    hide Run, Draws;
    assert Inv(start);
    RunKeepsInv(start, steps);
    RunKeepsThreads(start, steps);
    if Run(start, steps).Next? {
      var s := Run(start, steps).s;
      forall i | 0 <= i < |s.threads|
        ensures !s.threads[i].place.Stale?
        ensures
          var t, home := s.threads[i], start.threads[i].enabled;
          && (t.enabled <==> home && !Off(steps, i, false))
          && (t.place.Idle? ==> t.enabled == home)
          && (t.place.Restoring? ==> t.restore == home)
      {
        assert ThreadOk(s, i);
        RunKeepsIrq(start, steps, i, start.threads[i].enabled, false);
      }
      forall i, j | 0 <= i < j < |s.threads| ensures !(Inside(s.threads[i]) && Inside(s.threads[j])) {
        assert ThreadOk(s, i) && ThreadOk(s, j);
      }
      if s.current < |s.owners| { assert TicketOk(s, s.current); }
    }
  }

  // -------------------------------------------------------------------- the bound is sharp

  /** One thread takes the lock and gives it back `n` times. */
  function Rounds(n: nat): seq<Step> {
    if n == 0 then [] else Rounds(n - 1) + Round()
  }

  function Round(): seq<Step> {
    [Step(0, Draw), Step(0, Look), Step(0, Store), Step(0, Release), Step(0, Check)]
  }

  lemma {:induction false} RunConcat(s: State, a: seq<Step>, b: seq<Step>)
    ensures Run(s, a + b) == match Run(s, a) { case Next(s1) => Run(s1, b) case other => other }
    decreases a
  {
    hide Do;
    if a == [] {
      assert a + b == b;
    } else {
      assert (a + b)[0] == a[0] && (a + b)[1..] == a[1..] + b;
      if Do(s, a[0]).Next? { RunConcat(Do(s, a[0]).s, a[1..], b); }
    }
  }

  lemma RunOne(s: State, step: Step)
    ensures Run(s, [step]) == Do(s, step)
  {
    hide Do;
    assert [step][1..] == [];
  }

  ghost predicate AtRest(s: State, n: nat) {
    s.current == s.next == n && |s.threads| == 1 && s.threads[0].place.Idle? && !s.threads[0].withIrq
  }

  /** A round from rest: it ends at rest, unless the tickets have run out. */
  lemma OneRound(s: State, n: nat)
    requires AtRest(s, n) && n < WORD
    ensures
      var r := Run(s, Round());
      if n + 1 < WORD then r.Next? && AtRest(r.s, n + 1) else r == AssertFailed
  {
    var r := Round();
    assert r[1..] == [Step(0, Look), Step(0, Store), Step(0, Release), Step(0, Check)];
    assert r[1..][1..] == [Step(0, Store), Step(0, Release), Step(0, Check)];
    assert r[1..][1..][1..] == [Step(0, Release), Step(0, Check)];
    assert r[1..][1..][1..][1..] == [Step(0, Check)];
    var s1 := Do(s, r[0]).s;
    var s2 := Do(s1, r[1]).s;
    var s3 := Do(s2, r[2]).s;
    var s4 := Do(s3, r[3]).s;
    RunOne(s4, Step(0, Check));
  }

  lemma {:induction false} RoundsRest(s: State, n: nat)
    requires AtRest(s, 0) && n < WORD
    ensures Run(s, Rounds(n)).Next? && AtRest(Run(s, Rounds(n)).s, n)
    decreases n
  {
    if n > 0 {
      RoundsRest(s, n - 1);
      RunConcat(s, Rounds(n - 1), Round());
      OneRound(Run(s, Rounds(n - 1)).s, n - 1);
    }
  }

  lemma {:induction false} DrawsConcat(a: seq<Step>, b: seq<Step>)
    ensures Draws(a + b) == Draws(a) + Draws(b)
    decreases a
  {
    if a == [] {
      assert a + b == b;
    } else {
      DrawsConcat(a[1..], b);
      assert (a + b)[1..] == a[1..] + b;
    }
  }

  lemma {:induction false} DrawsRounds(n: nat)
    ensures Draws(Rounds(n)) == n
  {
    if n > 0 {
      DrawsRounds(n - 1);
      DrawsConcat(Rounds(n - 1), Round());
      DrawsRound();
    }
  }

  lemma DrawsRound()
    ensures Draws(Round()) == 1
  {
    var r := Round();
    assert r[1..][1..][1..][1..] == [Step(0, Check)] && [Step(0, Check)][1..] == [];
  }

  /** After 2^32 tickets a single thread that uses the lock properly fails the assert in its
      release: the bound of RunSafe cannot be raised. */
  lemma TicketsRunOut(s: State, n: nat)
    requires Start(s) && |s.threads| == 1 && n == WORD
    ensures Run(s, Rounds(n)) == AssertFailed && Draws(Rounds(n)) == n
  {
    DrawsRounds(n);
    RoundsRest(s, n - 1);
    RunConcat(s, Rounds(n - 1), Round());
    OneRound(Run(s, Rounds(n - 1)).s, n - 1);
  }
}
