/** Flat byte memory holding signed 64-bit words, least significant byte first. */
module Memory {

  type byte = x: int | 0 <= x < 256

  type Bytes = seq<byte>

  const WORD: nat := 8
  const TWO64: nat := 0x1_0000_0000_0000_0000
  const LONG_MAX: int := 0x7FFF_FFFF_FFFF_FFFF
  const LONG_MIN: int := -0x8000_0000_0000_0000

  predicate FitsLong(v: int) {
    LONG_MIN <= v <= LONG_MAX
  }

  function Digits(x: nat, n: nat): (s: Bytes)
    ensures |s| == n
  {
    if n == 0 then [] else [x % 256] + Digits(x / 256, n - 1)
  }

  function Value(s: Bytes): nat {
    if s == [] then 0 else s[0] + 256 * Value(s[1..])
  }

  function Pow256(n: nat): nat {
    if n == 0 then 1 else 256 * Pow256(n - 1)
  }

  lemma {:induction false} ValueOfDigits(x: nat, n: nat)
    requires x < Pow256(n)
    ensures Value(Digits(x, n)) == x
  {
    if n > 0 { ValueOfDigits(x / 256, n - 1); }
  }

  function Encode(v: int): (s: Bytes)
    requires FitsLong(v)
    ensures |s| == WORD
  {
    Digits(if v < 0 then v + TWO64 else v, WORD)
  }

  function Decode(s: Bytes): int
    requires |s| == WORD
  {
    var x := Value(s);
    if x > LONG_MAX then x - TWO64 else x
  }

  lemma DecodeEncode(v: int)
    requires FitsLong(v)
    ensures Decode(Encode(v)) == v
  {
    assert Pow256(8) == TWO64 by {
      assert Pow256(2) == 0x1_0000;
      assert Pow256(4) == 0x1_0000_0000;
      assert Pow256(6) == 0x1_0000_0000_0000;
    }
    ValueOfDigits(if v < 0 then v + TWO64 else v, WORD);
  }

  /** The word at address `a`. */
  function Long(m: Bytes, a: int): int
    requires 0 <= a && a + WORD <= |m|
  {
    Decode(m[a..a + WORD])
  }

  /** Memory after storing a word at address `a`. */
  function Store(m: Bytes, a: int, v: int): (m': Bytes)
    requires 0 <= a && a + WORD <= |m| && FitsLong(v)
    ensures |m'| == |m|
  {
    m[..a] + Encode(v) + m[a + WORD..]
  }

  /** A store is read back. */
  lemma StoreReads(m: Bytes, a: int, v: int)
    requires 0 <= a && a + WORD <= |m| && FitsLong(v)
    ensures Long(Store(m, a, v), a) == v
  {
    hide Encode, Decode;
    assert Store(m, a, v)[a..a + WORD] == Encode(v);
    DecodeEncode(v);
  }

  /** A store changes no other word. */
  lemma StoreOther(m: Bytes, a: int, v: int, b: int)
    requires 0 <= a && a + WORD <= |m| && FitsLong(v)
    requires 0 <= b && b + WORD <= |m| && (b + WORD <= a || a + WORD <= b)
    ensures Long(Store(m, a, v), b) == Long(m, b)
  {
    hide Encode, Decode;
    assert Store(m, a, v)[b..b + WORD] == m[b..b + WORD];
  }

  /** A store changes no other byte. */
  lemma StoreBytes(m: Bytes, a: int, v: int)
    requires 0 <= a && a + WORD <= |m| && FitsLong(v)
    ensures forall x :: 0 <= x < |m| && (x < a || a + WORD <= x) ==> Store(m, a, v)[x] == m[x]
  {
  }

  /** Memory that agrees on a word's bytes agrees on the word. */
  lemma LongAgrees(m: Bytes, m': Bytes, a: int)
    requires 0 <= a && a + WORD <= |m| == |m'|
    requires forall x :: a <= x < a + WORD ==> m'[x] == m[x]
    ensures Long(m', a) == Long(m, a)
  {
    assert m'[a..a + WORD] == m[a..a + WORD];
  }
}
