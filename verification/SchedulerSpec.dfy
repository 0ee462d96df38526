/**
 The states of a scheduler object and the level queues of a core, as values: what
 kernel/components/scheduler.c computes, without its links.
 */
module SchedulerSpec {
  import opened Counting

  const LEVEL_LOW: nat := 59
  const LEVEL_CRITICAL: nat := 60
  const LEVEL_COUNT: nat := 61
  const NSEC_PER_MSEC: nat := 1_000_000
  const TIMESLICE_INITIAL: nat := 10 * NSEC_PER_MSEC
  const TIMESLICE_STEP: nat := 2 * NSEC_PER_MSEC

  datatype Phase = Invalid | Initial | Queueing | Queued | Blocking | Blocked | Running

  datatype Event = Execute | Queue | QueueFinish | Block | Schedule

  /** Where an event takes an object; Invalid when it is not expected there. */
  function Target(p: Phase, e: Event): Phase {
    match (p, e)
    case (Initial, Queue) => Queueing
    case (Queueing, QueueFinish) => Queued
    case (Queued, Execute) => Running
    case (Running, Schedule) => Queueing
    case (Running, Block) => Blocking
    case (Blocking, Queue) => Running
    case (Blocking, Schedule) => Blocked
    case (Blocked, Queue) => Queueing
    case _ => Invalid
  }

  /** The time slice of a level. */
  function Slice(level: nat): nat {
    TIMESLICE_INITIAL + level * TIMESLICE_STEP
  }

  // -------------------------------------------------------------- level queues

  /** One sequence for each level, in dispatch order. */
  type Levels<T> = seq<seq<T>>

  /** The first level from `i` on that has something queued; |q| if none has. */
  function FirstReady<T>(q: Levels<T>, i: nat): (l: nat)
    requires i <= |q|
    ensures i <= l <= |q| && (l < |q| ==> q[l] != [])
    ensures forall k :: i <= k < l ==> q[k] == []
    decreases |q| - i
  {
    if i == |q| || q[i] != [] then i else FirstReady(q, i + 1)
  }

  /** Levels `lo` to `hi - 1` one after the other. */
  function Row<T>(q: Levels<T>, lo: nat, hi: nat): seq<T>
    requires lo <= hi <= |q|
    decreases hi
  {
    if lo == hi then [] else Row(q, lo, hi - 1) + q[hi - 1]
  }

  /** Every level but the critical one, joined to level 0 in order. */
  function Boosted<T>(q: Levels<T>, upto: nat): (r: Levels<T>)
    requires 1 <= upto <= |q|
    ensures |r| == |q|
  {
    seq(|q|, l requires 0 <= l < |q| => if l == 0 then Row(q, 0, upto) else if l < upto then [] else q[l])
  }

  function Enqueue<T>(q: Levels<T>, level: nat, x: T): (r: Levels<T>)
    requires level < |q|
    ensures |r| == |q|
  {
    q[level := q[level] + [x]]
  }

  /** Level `l` without its first entry. */
  function Dequeue<T>(q: Levels<T>, l: nat): (r: Levels<T>)
    requires l < |q| && q[l] != []
    ensures |r| == |q|
  {
    q[l := q[l][1..]]
  }

  /** Without the first occurrence of `x`. */
  function Removed<T(==)>(s: seq<T>, x: T): seq<T> {
    if s == [] then [] else if s[0] == x then s[1..] else [s[0]] + Removed(s[1..], x)
  }

  lemma {:induction false} RemovedAt<T>(s: seq<T>, x: T, k: nat)
    requires k <= |s| && (k < |s| ==> s[k] == x) && x !in s[..k]
    ensures Removed(s, x) == if k < |s| then s[..k] + s[k + 1..] else s
    decreases s
  {
    if k == 0 {
      assert s[..0] + s == s;
      if s != [] { assert s[..0] + s[1..] == s[1..]; }
    } else {
      var rest := s[1..];
      assert s[0] == s[..k][0] && rest[..k - 1] == s[..k][1..];
      RemovedAt(rest, x, k - 1);
      assert s == [s[0]] + rest;
      if k < |s| { assert [s[0]] + (rest[..k - 1] + rest[k..]) == s[..k] + s[k + 1..]; }
    }
  }

  /** How often `x` is queued, on whatever level. */
  function Count<T(==)>(q: Levels<T>, x: T): nat {
    if q == [] then 0 else Count(q[..|q| - 1], x) + Occurs(q[|q| - 1], x)
  }

  lemma {:induction false} RemovedOccurs<T>(s: seq<T>, x: T, y: T)
    ensures Occurs(Removed(s, x), y) == Occurs(s, y) - (if y == x && Occurs(s, x) > 0 then 1 else 0)
    decreases s
  {
    if s != [] {
      assert s == [s[0]] + s[1..];
      OccursConcat([s[0]], s[1..], y);
      OccursConcat([s[0]], s[1..], x);
      OccursOne(s[0], y);
      OccursOne(s[0], x);
      if s[0] != x {
        RemovedOccurs(s[1..], x, y);
        OccursConcat([s[0]], Removed(s[1..], x), y);
      }
    }
  }

  lemma {:induction false} CountUpdate<T>(q: Levels<T>, l: nat, s: seq<T>, x: T)
    requires l < |q|
    ensures Count(q[l := s], x) == Count(q, x) - Occurs(q[l], x) + Occurs(s, x)
    decreases |q|
  {
    var n := |q| - 1;
    if l == n {
      assert q[l := s][..n] == q[..n];
    } else {
      CountUpdate(q[..n], l, s, x);
      assert q[l := s][..n] == q[..n][l := s];
    }
  }

  lemma {:induction false} CountAt<T>(q: Levels<T>, l: nat, x: T)
    requires l < |q|
    ensures Occurs(q[l], x) <= Count(q, x)
    decreases |q|
  {
    if l < |q| - 1 { CountAt(q[..|q| - 1], l, x); }
  }

  lemma CountEnqueue<T>(q: Levels<T>, level: nat, y: T, x: T)
    requires level < |q|
    ensures Count(Enqueue(q, level, y), x) == Count(q, x) + if y == x then 1 else 0
  {
    hide Count, Occurs;
    CountUpdate(q, level, q[level] + [y], x);
    OccursConcat(q[level], [y], x);
    OccursOne(y, x);
  }

  lemma CountDequeue<T>(q: Levels<T>, l: nat, x: T)
    requires l < |q| && q[l] != []
    ensures Count(Dequeue(q, l), x) == Count(q, x) - if q[l][0] == x then 1 else 0
  {
    hide Count, Occurs;
    CountUpdate(q, l, q[l][1..], x);
    assert q[l] == [q[l][0]] + q[l][1..];
    OccursConcat([q[l][0]], q[l][1..], x);
    OccursOne(q[l][0], x);
  }

  lemma {:induction false} CountRow<T>(q: Levels<T>, hi: nat, x: T)
    requires hi <= |q|
    ensures Occurs(Row(q, 0, hi), x) == Count(q[..hi], x)
    decreases hi
  {
    if hi > 0 {
      CountRow(q, hi - 1, x);
      OccursConcat(Row(q, 0, hi - 1), q[hi - 1], x);
      assert q[..hi][..hi - 1] == q[..hi - 1];
    }
  }

  lemma {:induction false} CountSplit<T>(q: Levels<T>, hi: nat, x: T)
    requires hi <= |q|
    ensures Count(q, x) == Count(q[..hi], x) + Count(q[hi..], x)
    decreases |q|
  {
    var n := |q| - 1;
    if hi == |q| {
      assert q[..hi] == q;
    } else {
      CountSplit(q[..n], hi, x);
      assert q[..n][..hi] == q[..hi] && q[..n][hi..] == q[hi..][..n - hi];
    }
  }

  lemma {:induction false} CountEmpty<T>(q: Levels<T>, x: T)
    requires forall l :: 0 <= l < |q| ==> q[l] == []
    ensures Count(q, x) == 0
  {
    if q != [] { CountEmpty(q[..|q| - 1], x); }
  }

  /** A boost loses nothing and adds nothing. */
  lemma BoostKeepsAll<T>(q: Levels<T>, upto: nat, x: T)
    requires 1 <= upto <= |q|
    ensures Count(Boosted(q, upto), x) == Count(q, x)
  {
    hide Count, Occurs, Row;
    var r := Boosted(q, upto);
    CountSplit(q, upto, x);
    CountSplit(r, upto, x);
    assert r[upto..] == q[upto..];
    CountRow(q, upto, x);
    CountSplit(r[..upto], 1, x);
    CountEmpty(r[..upto][1..], x);
    assert r[..upto][..1] == [Row(q, 0, upto)];
    CountOne(Row(q, 0, upto), x);
  }

  lemma CountOne<T>(s: seq<T>, x: T)
    ensures Count([s], x) == Occurs(s, x)
  {
    assert [s][..0] == [];
  }

  /** Where a boosted entry ends up on level 0: behind everything of the lower levels,
      in the order it was queued. */
  lemma {:induction false} BoostPlace<T>(q: Levels<T>, hi: nat, l: nat, p: nat)
    requires l < hi <= |q| && p < |q[l]|
    ensures |Row(q, 0, l)| + p < |Row(q, 0, hi)| && Row(q, 0, hi)[|Row(q, 0, l)| + p] == q[l][p]
    decreases hi
  {
    if l < hi - 1 { BoostPlace(q, hi - 1, l, p); }
  }
}
