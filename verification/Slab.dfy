/** One slab: a bitmap with a bit for every object that is in use (kernel/memory/heap.c). */
module Slabs {

  // ------------------------------------------------------------------------- bits

  function Mask(k: nat): bv8
    requires k < 8
  {
    match k
    case 0 => 1
    case 1 => 2
    case 2 => 4
    case 3 => 8
    case 4 => 16
    case 5 => 32
    case 6 => 64
    case _ => 128
  }

  predicate Has(b: bv8, k: nat)
    requires k < 8
  {
    b & Mask(k) != 0
  }

  function Put(b: bv8, k: nat, v: bool): bv8
    requires k < 8
  {
    if v then b | Mask(k) else b & !Mask(k)
  }

  lemma HasPut(b: bv8, k: nat, v: bool, j: nat)
    requires k < 8 && j < 8
    ensures Has(Put(b, k, v), j) <==> if j == k then v else Has(b, j)
  {
    assert Mask(k) & Mask(j) == if j == k then Mask(j) else 0;
    var m, n := Mask(k), Mask(j);
    assert (b | m) & n == (b & n) | (m & n);
    assert (b & !m) & n == (b & n) & !(m & n);
    assert n != 0;
  }

  predicate Bit(bits: seq<bv8>, i: nat)
    requires i < 8 * |bits|
  {
    Has(bits[i / 8], i % 8)
  }

  /** The bitmap with one bit set or cleared. */
  function WithBit(bits: seq<bv8>, i: nat, v: bool): (r: seq<bv8>)
    requires i < 8 * |bits|
    ensures |r| == |bits|
  {
    bits[i / 8 := Put(bits[i / 8], i % 8, v)]
  }

  lemma BitUpdate(bits: seq<bv8>, i: nat, v: bool, j: nat)
    requires i < 8 * |bits| && j < 8 * |bits|
    ensures Bit(WithBit(bits, i, v), j) <==> if j == i then v else Bit(bits, j)
  {
    hide Has, Put;
    if i / 8 == j / 8 { HasPut(bits[i / 8], i % 8, v, j % 8); }
  }

  // ------------------------------------------------------------------------- counts

  /** How many objects are not in use. */
  function Clear(used: seq<bool>): (n: nat)
    ensures n <= |used|
  {
    if used == [] then 0 else Clear(used[..|used| - 1]) + (if used[|used| - 1] then 0 else 1)
  }

  lemma {:induction false} ClearUpdate(used: seq<bool>, i: nat, v: bool)
    requires i < |used|
    ensures Clear(used[i := v]) == Clear(used) + (if used[i] then 1 else 0) - (if v then 1 else 0)
    decreases |used|
  {
    var n := |used| - 1;
    if i == n {
      assert used[i := v][..n] == used[..n];
    } else {
      ClearUpdate(used[..n], i, v);
      assert used[i := v][..n] == used[..n][i := v];
    }
  }

  lemma {:induction false} ClearNone(used: seq<bool>)
    ensures Clear(used) == 0 <==> forall i :: 0 <= i < |used| ==> used[i]
    decreases |used|
  {
    if used != [] { ClearNone(used[..|used| - 1]); }
  }

  lemma {:induction false} ClearAll(used: seq<bool>)
    ensures Clear(used) == |used| <==> forall i :: 0 <= i < |used| ==> !used[i]
    decreases |used|
  {
    if used != [] { ClearAll(used[..|used| - 1]); }
  }

  class Slab {
    var free: nat
    const bitmap: array<bv8>
    const address: nat         // the first object
    ghost const base: nat      // the pages
    ghost var used: seq<bool>

    ghost predicate Valid(count: nat)
      reads this, bitmap
    {
      && |used| == count <= 8 * bitmap.Length && free == Clear(used)
      && forall i :: 0 <= i < count ==> (used[i] <==> Bit(bitmap[..], i))
    }

    /** The second half of __SlabCreate: everything is zeroed and no object is in use. */
    constructor (base: nat, address: nat, count: nat, bytes: nat)
      requires count <= 8 * bytes
      ensures Valid(count) && used == seq(count, _ => false) && free == count
      ensures this.base == base && this.address == address && fresh(bitmap)
    {
      bitmap := new bv8[bytes](_ => 0);
      this.address := address;
      this.base := base;
      free := count;
      used := seq(count, _ => false);
      new;
      ClearAll(used);
    }

    /** __SlabAllocateIndex: the first object that is not in use. */
    method AllocateIndex(count: nat) returns (index: int)
      requires Valid(count)
      modifies this, bitmap
      ensures Valid(count)
      ensures index == -1 <==> old(free) == 0
      ensures index == -1 ==> used == old(used) && free == 0
      ensures index != -1 ==>
        && 0 <= index < count && !old(used)[index] && (forall j :: 0 <= j < index ==> old(used)[j])
        && used == old(used)[index := true] && free == old(free) - 1
    {
      hide Has;
      var i := 0;
      while i < count
        invariant i <= count && Valid(count) && used == old(used) && free == old(free)
        invariant forall j :: 0 <= j < i ==> used[j]
      {
        assert used[i] <==> Bit(bitmap[..], i);
        if !Has(bitmap[i / 8], i % 8) {
          SetUsed(i, count, true);
          return i;
        }
        i := i + 1;
      }
      ClearNone(used);
      index := -1;
    }

    /** __SlabFreeIndex, of an object that is in use. */
    method FreeIndex(index: nat, count: nat)
      requires Valid(count) && index < count && used[index]
      modifies this, bitmap
      ensures Valid(count) && used == old(used)[index := false] && free == old(free) + 1
    {
      SetUsed(index, count, false);
    }

    /** One bit and the counter. */
    method SetUsed(i: nat, count: nat, v: bool)
      requires Valid(count) && i < count && used[i] != v
      modifies this, bitmap
      ensures Valid(count) && used == old(used)[i := v] && free == old(free) + (if v then -1 else 1)
    {
      hide Has, Put, Bit, Clear;
      ghost var was := bitmap[..];
      forall j: nat | j < count ensures Bit(WithBit(was, i, v), j) <==> if j == i then v else Bit(was, j) {
        BitUpdate(was, i, v, j);
      }
      ClearUpdate(used, i, v);
      bitmap[i / 8] := Put(bitmap[i / 8], i % 8, v);
      free := if v then free - 1 else free + 1;
      used := used[i := v];
      assert bitmap[..] == WithBit(was, i, v);
    }
  }
}
