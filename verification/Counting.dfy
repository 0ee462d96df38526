/** How often a value occurs in a sequence. */
module Counting {

  /** How often `x` occurs. */
  function Occurs<T(==)>(s: seq<T>, x: T): nat {
    if s == [] then 0 else Occurs(s[..|s| - 1], x) + (if s[|s| - 1] == x then 1 else 0)
  }

  lemma {:induction false} OccursConcat<T>(a: seq<T>, b: seq<T>, x: T)
    ensures Occurs(a + b, x) == Occurs(a, x) + Occurs(b, x)
    decreases b
  {
    if b == [] {
      assert a + b == a;
    } else {
      OccursConcat(a, b[..|b| - 1], x);
      assert (a + b)[..|a + b| - 1] == a + b[..|b| - 1];
    }
  }

  lemma OccursOne<T>(y: T, x: T)
    ensures Occurs([y], x) == if y == x then 1 else 0
  {
    assert [y][..0] == [];
  }

  lemma {:induction false} OccursAt<T>(s: seq<T>, i: nat)
    requires i < |s|
    ensures Occurs(s, s[i]) >= 1
    decreases |s|
  {
    if i < |s| - 1 { OccursAt(s[..|s| - 1], i); }
  }
}
