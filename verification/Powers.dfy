/** Powers of two, the arithmetic that the buddy trees share. */
module Powers {

  function Pow2(n: nat): (r: nat)
    ensures r > 0
  {
    if n == 0 then 1 else 2 * Pow2(n - 1)
  }

  lemma Pow2Monotone(a: nat, b: nat)
    requires a <= b
    ensures Pow2(a) <= Pow2(b)
    decreases b - a
  {
    if a < b { Pow2Monotone(a + 1, b); }
  }

  lemma Distribute(a: nat, b: nat, unit: nat)
    ensures (a + b) * unit == a * unit + b * unit
  {
  }

  lemma Exchange(a: nat, b: nat, c: nat)
    ensures a * (b * c) == b * (a * c)
  {
    assert a * (b * c) == (a * b) * c && b * (a * c) == (b * a) * c;
  }

  /** Multiples of a unit are in the order of their factors, and at least a unit apart. */
  lemma GridOrder(n: nat, m: nat, unit: nat)
    requires unit > 0
    ensures n < m ==> n * unit + unit <= m * unit
    ensures n >= m ==> n * unit >= m * unit
  {
    if n < m {
      Distribute(n, 1, unit);
      Distribute(n + 1, m - n - 1, unit);
    } else {
      Distribute(m, n - m, unit);
    }
  }

  /** `x >> n` on an unsigned value. */
  function ShiftRight(x: nat, n: nat): nat {
    if n == 0 then x else ShiftRight(x, n - 1) / 2
  }

  /** A right shift of `unit * 2^k` by `d <= k` is exact. */
  lemma {:induction false} ShiftIsExact(unit: nat, k: nat, d: nat)
    requires d <= k
    ensures ShiftRight(unit * Pow2(k), d) == unit * Pow2(k - d)
  {
    if d > 0 {
      ShiftIsExact(unit, k, d - 1);
      Exchange(unit, 2, Pow2(k - d));
    }
  }

  lemma {:induction false} Pow2Sum(a: nat, b: nat)
    ensures Pow2(a + b) == Pow2(a) * Pow2(b)
  {
    if a > 0 { Pow2Sum(a - 1, b); }
  }
}
