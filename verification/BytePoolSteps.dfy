/** What each store of the byte pool's operations does to the representation. */
module BytePoolSteps {
  import opened Wrappers
  import opened Sequences
  import opened Memory
  import opened BytePoolTiling
  import opened BytePoolLayout

  lemma TagFits(m: Bytes, blocks: Blocks, i: nat)
    requires Room(m, blocks) && i < |blocks|
    ensures FitsLong(Tag(blocks, i)) && FitsLong(SizeField(blocks[i]))
    ensures 0 <= blocks[i].addr && blocks[i].addr + HEADER <= |m|
  {
    assert BlockOk(blocks[i]);
    if FreeBefore(blocks, i) { assert BlockOk(blocks[i - 1]); }
  }

  /** Writing the right tag into block `i`. */
  lemma TagStored(m: Bytes, ends: Ends, blocks: Blocks, free: seq<nat>, i: nat, w: int)
    requires Rep(m, ends, blocks, free, i, w) && i < |blocks|
    ensures FitsLong(Tag(blocks, i)) && blocks[i].addr + WORD <= |m|
    ensures Rep(Store(m, blocks[i].addr, Tag(blocks, i)), ends, blocks, free, -1, w)
  {
    hide Long, Store;
    TagFits(m, blocks, i);
    var p, v := blocks[i].addr, Tag(blocks, i);
    HeaderStoreLinks(m, ends, blocks, free, i, p, v);
    StoreWipes(m, blocks, i, p, v, w);
    var m' := Store(m, p, v);
    forall j | 0 <= j < |blocks| ensures HeaderAt(m', blocks, j, -1) {
      assert HeaderAt(m, blocks, j, i);
      if j == i {
        StoreReads(m, p, v);
        StoreOther(m, p, v, p + 8);
      } else {
        HeaderStoreOther(m, blocks, i, p, v, j);
      }
    }
  }

  /** Writing a new size into block `j`, whose kind changes with it. */
  lemma RekindStored(m: Bytes, ends: Ends, blocks: Blocks, free: seq<nat>, j: nat, kind: Kind)
    requires Rep(m, ends, blocks, free, -1, -1) && j + 1 < |blocks|
    requires !blocks[j].kind.End? && !kind.End?
    ensures
      var c := Rekind(blocks, j, kind);
      && FitsLong(SizeField(c[j])) && blocks[j].addr + HEADER <= |m|
      && Rep(Store(m, blocks[j].addr + 8, SizeField(c[j])), ends, c, free, j + 1, j)
  {
    hide Long, Store, Links, Anchored;
    var c := Rekind(blocks, j, kind);
    RekindGeometry(blocks, j, kind);
    TagFits(m, c, j);
    var p, v := blocks[j].addr + 8, SizeField(c[j]);
    RekindAnchored(blocks, free, j, kind);
    HeaderStoreLinks(m, ends, blocks, free, j, p, v);
    StoreWipes(m, blocks, j, p, v, -1);
    var m' := Store(m, p, v);
    var e := j + 1;
    forall i | 0 <= i < |c| ensures HeaderAt(m', c, i, e) {
      assert HeaderAt(m, blocks, i, -1);
      if i == j {
        StoreReads(m, p, v);
        StoreOther(m, p, v, blocks[j].addr);
      } else {
        HeaderStoreOther(m, blocks, j, p, v, i);
      }
    }
  }

  lemma RekindAnchored(blocks: Blocks, free: seq<nat>, j: nat, kind: Kind)
    requires Anchored(blocks, free) && j < |blocks| && !kind.End?
    ensures Anchored(Rekind(blocks, j, kind), free)
  {
    var c := Rekind(blocks, j, kind);
    forall k | 0 <= k < |free| ensures HasBody(c, free[k]) {
      assert HasBody(blocks, free[k]);
      var i :| 0 <= i < |blocks| && blocks[i].addr == free[k] && !blocks[i].kind.End?;
      assert c[i].addr == free[k] && !c[i].kind.End?;
    }
  }

  /** Writing the joint size into block `j`, which swallows the block after it. */
  lemma JoinStored(m: Bytes, ends: Ends, blocks: Blocks, free: seq<nat>, j: nat, e: int)
    requires Rep(m, ends, blocks, free, e, j) && (e == -1 || e == j + 1)
    requires j + 1 < |blocks| && blocks[j].kind.Free? && !blocks[j + 1].kind.End?
    requires blocks[j + 1].addr !in free
    ensures
      var c := Join(blocks, j);
      && FitsLong(SizeField(c[j])) && blocks[j].addr + HEADER <= |m|
      && Rep(Store(m, blocks[j].addr + 8, SizeField(c[j])), ends, c, free, j + 1, j)
  {
    hide Long, Store, Geometry, Links, Wipes, Anchored;
    var c := Join(blocks, j);
    JoinGeometry(blocks, j);
    JoinWithin(blocks, j, |m|);
    TagFits(m, c, j);
    var p, v := blocks[j].addr + 8, SizeField(c[j]);
    JoinAnchored(blocks, free, j);
    HeaderStoreLinks(m, ends, blocks, free, j, p, v);
    StoreWipes(m, blocks, j, p, v, j);
    var m' := Store(m, p, v);
    JoinWipes(m', blocks, j);
    var e' := j + 1;
    forall i | 0 <= i < |c| ensures HeaderAt(m', c, i, e') {
      JoinHeader(m, blocks, j, e, i);
    }
  }

  lemma JoinHeader(m: Bytes, blocks: Blocks, j: nat, e: int, i: nat)
    requires Room(m, blocks) && Headers(m, blocks, e) && (e == -1 || e == j + 1)
    requires j + 1 < |blocks| && blocks[j].kind.Free? && !blocks[j + 1].kind.End? && i < |blocks| - 1
    requires Room(m, Join(blocks, j)) && FitsLong(SizeField(Join(blocks, j)[j])) && blocks[j].addr + HEADER <= |m|
    ensures HeaderAt(Store(m, blocks[j].addr + 8, SizeField(Join(blocks, j)[j])), Join(blocks, j), i, j + 1)
  {
    hide Long, Store, Geometry;
    var c := Join(blocks, j);
    var p, v := blocks[j].addr + 8, SizeField(c[j]);
    var i' := if i <= j then i else i + 1;
    assert HeaderAt(m, blocks, i', e);
    if i == j {
      StoreReads(m, p, v);
      StoreOther(m, p, v, blocks[j].addr);
    } else {
      HeaderStoreOther(m, blocks, j, p, v, i');
    }
  }

  lemma JoinWithin(blocks: Blocks, j: nat, limit: nat)
    requires Geometry(blocks) && Within(blocks, limit) && j + 1 < |blocks| && !blocks[j].kind.End?
    ensures Within(Join(blocks, j), limit)
  {
  }

  lemma JoinWipes(m: Bytes, blocks: Blocks, j: nat)
    requires Within(blocks, |m|) && j + 1 < |blocks| && Within(Join(blocks, j), |m|) && Wipes(m, blocks, j)
    ensures Wipes(m, Join(blocks, j), j)
  {
    var c := Join(blocks, j);
    forall i | 0 <= i < |c| && i != j && c[i].kind.Free? ensures Wiped(m, c[i]) {
      assert c[i] == blocks[if i < j then i else i + 1];
    }
  }

  lemma JoinAnchored(blocks: Blocks, free: seq<nat>, j: nat)
    requires Anchored(blocks, free) && j + 1 < |blocks| && blocks[j + 1].addr !in free
    ensures Anchored(Join(blocks, j), free)
  {
    var c := Join(blocks, j);
    forall k | 0 <= k < |free| ensures HasBody(c, free[k]) {
      assert HasBody(blocks, free[k]) && free[k] in free;
      var i :| 0 <= i < |blocks| && blocks[i].addr == free[k] && !blocks[i].kind.End?;
      assert c[if i <= j then i else i - 1].addr == free[k];
    }
  }

  /** Dechaining a listed block. */
  lemma UnlinkStored(m: Bytes, ends: Ends, blocks: Blocks, free: seq<nat>, k: nat, e: int, w: int)
    requires Rep(m, ends, blocks, free, e, w) && k < |free|
    ensures
      var (m', ends') := Unlinked(m, ends, free, k);
      Rep(m', ends', blocks, Without(free, k), e, w)
  {
    hide Long, Store, Without, Headers, Wipes, Anchored;
    UnlinkLinks(m, ends, free, k);
    WithoutAnchored(blocks, free, k);
    SpacedAddress(free, |m|, k - 1);
    SpacedAddress(free, |m|, k + 1);
    var before, after := At(free, k - 1), At(free, k + 1);
    var (m1, ends1) := SetForward(m, ends, before, after);
    if k > 0 { LinkStoreRest(m, blocks, free, k - 1, before + 16, after, e, w); }
    if k + 1 < |free| { LinkStoreRest(m1, blocks, free, k + 1, after + 24, before, e, w); }
  }

  lemma WithoutAnchored(blocks: Blocks, free: seq<nat>, k: nat)
    requires Anchored(blocks, free) && k < |free|
    ensures Anchored(blocks, Without(free, k))
  {
  }

  /** A store to a link of a listed block leaves headers and wiped bytes alone. */
  lemma LinkStoreRest(m: Bytes, blocks: Blocks, free: seq<nat>, k: nat, p: int, v: int, e: int, w: int)
    requires Room(m, blocks) && Anchored(blocks, free) && k < |free| && FitsLong(v)
    requires p == free[k] + 16 || p == free[k] + 24
    requires Headers(m, blocks, e) && Wipes(m, blocks, w)
    ensures 0 <= p && p + WORD <= |m|
    ensures Room(Store(m, p, v), blocks) && Headers(Store(m, p, v), blocks, e) && Wipes(Store(m, p, v), blocks, w)
  {
    assert HasBody(blocks, free[k]);
    var j :| 0 <= j < |blocks| && blocks[j].addr == free[k] && !blocks[j].kind.End?;
    LinkStoreHeaders(m, blocks, j, p, v, e);
    StoreWipes(m, blocks, j, p, v, w);
  }

  /** Chaining block `i` at the end of the list. */
  lemma AppendStored(m: Bytes, ends: Ends, blocks: Blocks, free: seq<nat>, i: nat, e: int, w: int)
    requires Rep(m, ends, blocks, free, e, w) && i < |blocks| && !blocks[i].kind.End?
    requires blocks[i].addr !in free
    ensures blocks[i].addr + FREE_HEADER <= |m|
    ensures
      var (m', ends') := Appended(m, ends, free, blocks[i].addr);
      Rep(m', ends', blocks, free + [blocks[i].addr], e, w)
  {
    hide Long, Store, Geometry, Links, Wipes, Headers;
    var a := blocks[i].addr;
    var all := free + [a];
    BodyInside(m, blocks, i);
    forall k | 0 <= k < |all| ensures HasBody(blocks, all[k]) {
      if k < |free| { assert HasBody(blocks, free[k]); } else { assert HasBody(blocks, a); }
    }
    assert Anchored(blocks, all);
    AnchoredSpaced(blocks, all, |m|);
    AppendLinks(m, ends, free, a);
    SpacedAddress(free, |m|, |free| - 1);
    var last := At(free, |free| - 1);
    var m0 := Store(m, a + 16, LIST);
    var m1 := Store(m0, a + 24, last);
    LinkStoreRest(m, blocks, all, |free|, a + 16, LIST, e, w);
    LinkStoreRest(m0, blocks, all, |free|, a + 24, last, e, w);
    if |free| > 0 { LinkStoreRest(m1, blocks, all, |free| - 1, last + 16, a, e, w); }
  }

  lemma BodyInside(m: Bytes, blocks: Blocks, i: nat)
    requires Room(m, blocks) && i < |blocks| && !blocks[i].kind.End?
    ensures blocks[i].addr + FREE_HEADER <= blocks[i].Limit() <= |m|
  {
    assert BlockOk(blocks[i]);
  }

  /** Memory with the wipe pattern in [lo, hi). */
  function Filled(m: Bytes, lo: nat, hi: nat): (m': Bytes)
    requires lo <= hi <= |m|
    ensures |m'| == |m|
    ensures forall x :: 0 <= x < |m| ==> m'[x] == if lo <= x < hi then WIPE else m[x]
  {
    m[..lo] + seq(hi - lo, _ => WIPE) + m[hi..]
  }

  /** Wiping what follows the links of free block `j`. */
  lemma WipeStored(m: Bytes, ends: Ends, blocks: Blocks, free: seq<nat>, j: nat, e: int)
    requires Rep(m, ends, blocks, free, e, j) && j < |blocks| && blocks[j].kind.Free?
    ensures blocks[j].addr + FREE_HEADER <= blocks[j].Limit() <= |m|
    ensures Rep(Filled(m, blocks[j].addr + FREE_HEADER, blocks[j].Limit()), ends, blocks, free, e, -1)
  {
    hide Long, Filled, Spaced, Geometry, Links, Headers;
    BodyInside(m, blocks, j);
    WipeHeaders(m, blocks, j, e);
    WipeLinks(m, ends, blocks, free, j);
    WipeWipes(m, blocks, j);
  }

  lemma WipeHeaders(m: Bytes, blocks: Blocks, j: nat, e: int)
    requires Room(m, blocks) && Headers(m, blocks, e) && j < |blocks| && !blocks[j].kind.End?
    ensures blocks[j].addr + FREE_HEADER <= blocks[j].Limit() <= |m|
    ensures Headers(Filled(m, blocks[j].addr + FREE_HEADER, blocks[j].Limit()), blocks, e)
  {
    hide Long, Filled;
    BodyInside(m, blocks, j);
    var m' := Filled(m, blocks[j].addr + FREE_HEADER, blocks[j].Limit());
    forall i | 0 <= i < |blocks| ensures HeaderAt(m', blocks, i, e) {
      assert HeaderAt(m, blocks, i, e);
      assert BlockOk(blocks[i]);
      FillKeepsWord(m, blocks, j, i, blocks[i].addr);
      FillKeepsWord(m, blocks, j, i, blocks[i].addr + 8);
    }
  }

  lemma WipeLinks(m: Bytes, ends: Ends, blocks: Blocks, free: seq<nat>, j: nat)
    requires Room(m, blocks) && Anchored(blocks, free) && Spaced(free, |m|) && Links(m, ends, free)
    requires j < |blocks| && !blocks[j].kind.End?
    ensures blocks[j].addr + FREE_HEADER <= blocks[j].Limit() <= |m|
    ensures Links(Filled(m, blocks[j].addr + FREE_HEADER, blocks[j].Limit()), ends, free)
  {
    hide Long, Filled, Geometry;
    BodyInside(m, blocks, j);
    var m' := Filled(m, blocks[j].addr + FREE_HEADER, blocks[j].Limit());
    forall k | 0 <= k < |free| ensures LinkedAt(m', free, k) {
      assert HasBody(blocks, free[k]);
      var i :| 0 <= i < |blocks| && blocks[i].addr == free[k] && !blocks[i].kind.End?;
      BodyInside(m, blocks, i);
      assert LinkedAt(m, free, k);
      FillKeepsWord(m, blocks, j, i, free[k] + 16);
      FillKeepsWord(m, blocks, j, i, free[k] + 24);
    }
  }

  lemma WipeWipes(m: Bytes, blocks: Blocks, j: nat)
    requires Within(blocks, |m|) && Wipes(m, blocks, j) && j < |blocks|
    requires blocks[j].addr + FREE_HEADER <= blocks[j].Limit()
    ensures Wipes(Filled(m, blocks[j].addr + FREE_HEADER, blocks[j].Limit()), blocks, -1)
  {
  }

  lemma FillKeepsWord(m: Bytes, blocks: Blocks, j: nat, i: nat, p: int)
    requires Room(m, blocks) && j < |blocks| && i < |blocks| && !blocks[j].kind.End?
    requires blocks[i].addr <= p && p + WORD <= blocks[i].Limit() && p + WORD <= blocks[i].addr + FREE_HEADER
    ensures blocks[j].addr + FREE_HEADER <= blocks[j].Limit() <= |m| && p + WORD <= |m|
    ensures Long(Filled(m, blocks[j].addr + FREE_HEADER, blocks[j].Limit()), p) == Long(m, p)
  {
    hide Long;
    BodyInside(m, blocks, j);
    assert BlockOk(blocks[i]);
    if i < j { assert Apart(blocks[i], blocks[j]); } else if j < i { assert Apart(blocks[j], blocks[i]); }
    LongAgrees(m, Filled(m, blocks[j].addr + FREE_HEADER, blocks[j].Limit()), p);
  }

  /** The three stores that cut `size` bytes off the upper end of the block at `a`. */
  function CutMemory(m: Bytes, a: nat, low: nat, size: int): (m': Bytes)
    requires FREE_HEADER <= low && HEADER <= size && a + low + size <= |m| <= LONG_MAX
    ensures |m'| == |m|
  {
    Store(Store(Store(m, a + 8, low), a + low, low), a + low + 8, -size)
  }

  lemma CutMemoryOther(m: Bytes, a: nat, low: nat, size: int, q: int)
    requires FREE_HEADER <= low && HEADER <= size && a + low + size <= |m| <= LONG_MAX
    requires 0 <= q && q + WORD <= |m|
    requires q + WORD <= a + 8 || (a + HEADER <= q && q + WORD <= a + low) || a + low + HEADER <= q
    ensures Long(CutMemory(m, a, low, size), q) == Long(m, q)
  {
    hide Long, Store;
    var m1 := Store(m, a + 8, low);
    var m2 := Store(m1, a + low, low);
    StoreOther(m, a + 8, low, q);
    StoreOther(m1, a + low, low, q);
    StoreOther(m2, a + low + 8, -size, q);
  }

  lemma CutMemoryOwn(m: Bytes, a: nat, low: nat, size: int)
    requires FREE_HEADER <= low && HEADER <= size && a + low + size <= |m| <= LONG_MAX
    ensures
      var m' := CutMemory(m, a, low, size);
      Long(m', a + 8) == low && Long(m', a + low) == low && Long(m', a + low + 8) == -size
  {
    hide Long, Store;
    var m1 := Store(m, a + 8, low);
    var m2 := Store(m1, a + low, low);
    StoreReads(m, a + 8, low);
    StoreReads(m1, a + low, low);
    StoreReads(m2, a + low + 8, -size);
    StoreOther(m1, a + low, low, a + 8);
    StoreOther(m2, a + low + 8, -size, a + 8);
    StoreOther(m2, a + low + 8, -size, a + low);
  }

  lemma CutMemoryBytes(m: Bytes, a: nat, low: nat, size: int)
    requires FREE_HEADER <= low && HEADER <= size && a + low + size <= |m| <= LONG_MAX
    ensures
      var m' := CutMemory(m, a, low, size);
      forall x :: 0 <= x < |m| && (x < a || a + HEADER <= x < a + low || a + low + HEADER <= x) ==> m'[x] == m[x]
  {
    hide Long, Store;
    var m1 := Store(m, a + 8, low);
    var m2 := Store(m1, a + low, low);
    StoreBytes(m, a + 8, low);
    StoreBytes(m1, a + low, low);
    StoreBytes(m2, a + low + 8, -size);
  }

  ghost predicate CanCut(m: Bytes, blocks: Blocks, i: nat, low: nat) {
    && Room(m, blocks) && i < |blocks| && blocks[i].kind.Free? && low <= blocks[i].size
    && low % QUANTUM == 0 && low >= FREE_HEADER && blocks[i].size - low >= FREE_HEADER
  }

  /** Cutting a used block off the upper end of free block `i`. */
  lemma CutStored(m: Bytes, ends: Ends, blocks: Blocks, free: seq<nat>, i: nat, low: nat)
    requires Rep(m, ends, blocks, free, -1, -1) && CanCut(m, blocks, i, low)
    ensures
      var m' := CutMemory(m, blocks[i].addr, low, blocks[i].size - low);
      Rep(m', ends, Cut(blocks, i, low, Used), free, i + 2, -1)
  {
    hide Long, CutMemory, Spaced, Geometry;
    var a, size := blocks[i].addr, blocks[i].size - low;
    var c := Cut(blocks, i, low, Used);
    CutGeometry(blocks, i, low, Used);
    var m' := CutMemory(m, a, low, size);
    CutMemoryBytes(m, a, low, size);
    var e := i + 2;
    forall x | 0 <= x < |c| ensures HeaderAt(m', c, x, e) { CutHeader(m, blocks, i, low, x); }
    forall k | 0 <= k < |free|
      ensures HasBody(c, free[k]) && free[k] + FREE_HEADER <= |m| && LinkedAt(m', free, k)
    {
      assert HasBody(blocks, free[k]);
      CutLink(m, blocks, i, low, free[k]);
      assert LinkedAt(m, free, k);
    }
    CutWipes(m, blocks, i, low);
  }

  lemma CutHeader(m: Bytes, blocks: Blocks, i: nat, low: nat, x: nat)
    requires CanCut(m, blocks, i, low) && Headers(m, blocks, -1) && Room(m, Cut(blocks, i, low, Used))
    requires x <= |blocks|
    ensures HeaderAt(CutMemory(m, blocks[i].addr, low, blocks[i].size - low), Cut(blocks, i, low, Used), x, i + 2)
  {
    hide Long, CutMemory, Geometry;
    var a, size := blocks[i].addr, blocks[i].size - low;
    var c := Cut(blocks, i, low, Used);
    CutMemoryOwn(m, a, low, size);
    if x == i {
      assert HeaderAt(m, blocks, i, -1);
      CutMemoryOther(m, a, low, size, a);
    } else if x != i + 1 {
      CutHeaderOther(m, blocks, i, low, if x < i then x else x - 1);
      assert HeaderAt(m, blocks, if x < i then x else x - 1, -1);
    }
  }

  lemma CutHeaderOther(m: Bytes, blocks: Blocks, i: nat, low: nat, y: nat)
    requires CanCut(m, blocks, i, low) && y < |blocks| && y != i
    ensures blocks[y].addr + HEADER <= |m|
    ensures
      var m' := CutMemory(m, blocks[i].addr, low, blocks[i].size - low);
      Long(m', blocks[y].addr) == Long(m, blocks[y].addr) && Long(m', blocks[y].addr + 8) == Long(m, blocks[y].addr + 8)
  {
    hide Long, CutMemory;
    var a, size := blocks[i].addr, blocks[i].size - low;
    assert BlockOk(blocks[y]);
    assert y < i ==> Apart(blocks[y], blocks[i]);
    assert i < y ==> Apart(blocks[i], blocks[y]);
    CutMemoryOther(m, a, low, size, blocks[y].addr);
    CutMemoryOther(m, a, low, size, blocks[y].addr + 8);
  }

  lemma CutLink(m: Bytes, blocks: Blocks, i: nat, low: nat, b: nat)
    requires CanCut(m, blocks, i, low) && HasBody(blocks, b)
    ensures HasBody(Cut(blocks, i, low, Used), b) && b + FREE_HEADER <= |m|
    ensures
      var m' := CutMemory(m, blocks[i].addr, low, blocks[i].size - low);
      Long(m', b + 16) == Long(m, b + 16) && Long(m', b + 24) == Long(m, b + 24)
  {
    hide Long, CutMemory;
    var a, size := blocks[i].addr, blocks[i].size - low;
    var c := Cut(blocks, i, low, Used);
    var y :| 0 <= y < |blocks| && blocks[y].addr == b && !blocks[y].kind.End?;
    assert c[if y <= i then y else y + 1].addr == b;
    BodyInside(m, blocks, y);
    assert y < i ==> Apart(blocks[y], blocks[i]);
    assert i < y ==> Apart(blocks[i], blocks[y]);
    CutMemoryOther(m, a, low, size, b + 16);
    CutMemoryOther(m, a, low, size, b + 24);
  }

  lemma CutWipes(m: Bytes, blocks: Blocks, i: nat, low: nat)
    requires CanCut(m, blocks, i, low) && Wipes(m, blocks, -1) && Room(m, Cut(blocks, i, low, Used))
    ensures Wipes(CutMemory(m, blocks[i].addr, low, blocks[i].size - low), Cut(blocks, i, low, Used), -1)
  {
    hide CutMemory;
    var a, size := blocks[i].addr, blocks[i].size - low;
    var c := Cut(blocks, i, low, Used);
    var m' := CutMemory(m, a, low, size);
    CutMemoryBytes(m, a, low, size);
    forall x | 0 <= x < |c| && c[x].kind.Free? ensures Wiped(m', c[x]) {
      var y := if x <= i then x else x - 1;
      assert Wiped(m, blocks[y]);
      assert BlockOk(blocks[y]);
      assert y < i ==> Apart(blocks[y], blocks[i]);
      assert i < y ==> Apart(blocks[i], blocks[y]);
    }
  }

  // ------------------------------------------------------------------- payloads

  ghost predicate SameBytes(m: Bytes, m': Bytes, lo: nat, hi: nat) {
    |m| == |m'| && forall x :: lo <= x < hi && x < |m| ==> m'[x] == m[x]
  }

  /** The payload of every used block is what it was. */
  ghost predicate Kept(m: Bytes, m': Bytes, blocks: Blocks) {
    |m| == |m'| &&
    forall i :: 0 <= i < |blocks| && blocks[i].kind.Used? ==>
      SameBytes(m, m', blocks[i].addr + HEADER, blocks[i].Limit())
  }

  lemma StoreKept(m0: Bytes, m: Bytes, blocks: Blocks, j: nat, p: int, v: int)
    requires Room(m, blocks) && Kept(m0, m, blocks) && FitsLong(v)
    requires HeaderWord(blocks, j, p) || (LinkWord(blocks, j, p) && blocks[j].kind.Free?)
    ensures 0 <= p && p + WORD <= |m| && Kept(m0, Store(m, p, v), blocks)
  {
    hide Store;
    WordInside(m, blocks, j, p);
    StoreBytes(m, p, v);
    assert BlockOk(blocks[j]);
    forall i | 0 <= i < |blocks| && blocks[i].kind.Used?
      ensures SameBytes(m0, Store(m, p, v), blocks[i].addr + HEADER, blocks[i].Limit())
    {
      assert SameBytes(m0, m, blocks[i].addr + HEADER, blocks[i].Limit());
      assert i < j ==> Apart(blocks[i], blocks[j]);
      assert j < i ==> Apart(blocks[j], blocks[i]);
    }
  }

  lemma FillKept(m0: Bytes, m: Bytes, blocks: Blocks, j: nat)
    requires Room(m, blocks) && Kept(m0, m, blocks) && j < |blocks| && blocks[j].kind.Free?
    ensures blocks[j].addr + FREE_HEADER <= blocks[j].Limit() <= |m|
    ensures Kept(m0, Filled(m, blocks[j].addr + FREE_HEADER, blocks[j].Limit()), blocks)
  {
    hide Filled;
    BodyInside(m, blocks, j);
    var m' := Filled(m, blocks[j].addr + FREE_HEADER, blocks[j].Limit());
    forall i | 0 <= i < |blocks| && blocks[i].kind.Used?
      ensures SameBytes(m0, m', blocks[i].addr + HEADER, blocks[i].Limit())
    {
      assert SameBytes(m0, m, blocks[i].addr + HEADER, blocks[i].Limit());
      assert i < j ==> Apart(blocks[i], blocks[j]);
      assert j < i ==> Apart(blocks[j], blocks[i]);
    }
  }

  /** Listed addresses are free blocks. */
  ghost predicate OnFree(blocks: Blocks, free: seq<nat>) {
    forall k :: 0 <= k < |free| ==> IsFreeAt(blocks, free[k])
  }

  lemma LinkKept(m0: Bytes, m: Bytes, blocks: Blocks, free: seq<nat>, k: nat, p: int, v: int)
    requires Room(m, blocks) && Kept(m0, m, blocks) && FitsLong(v) && OnFree(blocks, free) && k < |free|
    requires p == free[k] + 16 || p == free[k] + 24
    ensures 0 <= p && p + WORD <= |m| && Kept(m0, Store(m, p, v), blocks)
  {
    assert IsFreeAt(blocks, free[k]);
    var j :| 0 <= j < |blocks| && blocks[j].addr == free[k] && blocks[j].kind.Free?;
    StoreKept(m0, m, blocks, j, p, v);
  }

  lemma UnlinkKept(m0: Bytes, m: Bytes, ends: Ends, blocks: Blocks, free: seq<nat>, k: nat)
    requires Room(m, blocks) && Kept(m0, m, blocks) && OnFree(blocks, free) && Spaced(free, |m|) && k < |free|
    ensures Kept(m0, Unlinked(m, ends, free, k).0, blocks)
  {
    hide Store, Kept, Geometry;
    SpacedAddress(free, |m|, k - 1);
    SpacedAddress(free, |m|, k + 1);
    var before, after := At(free, k - 1), At(free, k + 1);
    var (m1, ends1) := SetForward(m, ends, before, after);
    if k > 0 { LinkKept(m0, m, blocks, free, k - 1, before + 16, after); }
    if k + 1 < |free| { LinkKept(m0, m1, blocks, free, k + 1, after + 24, before); }
  }

  lemma AppendKept(m0: Bytes, m: Bytes, ends: Ends, blocks: Blocks, free: seq<nat>, i: nat)
    requires Room(m, blocks) && Kept(m0, m, blocks) && OnFree(blocks, free) && Spaced(free, |m|)
    requires i < |blocks| && blocks[i].kind.Free?
    ensures blocks[i].addr + FREE_HEADER <= |m|
    ensures Kept(m0, Appended(m, ends, free, blocks[i].addr).0, blocks)
  {
    hide Store, Kept, Geometry;
    BodyInside(m, blocks, i);
    var a := blocks[i].addr;
    SpacedAddress(free, |m|, |free| - 1);
    var last := At(free, |free| - 1);
    StoreKept(m0, m, blocks, i, a + 16, LIST);
    var m1 := Store(m, a + 16, LIST);
    StoreKept(m0, m1, blocks, i, a + 24, last);
    var m2 := Store(m1, a + 24, last);
    if |free| > 0 { LinkKept(m0, m2, blocks, free, |free| - 1, last + 16, a); }
  }

  lemma CutKept(m: Bytes, blocks: Blocks, i: nat, low: nat)
    requires CanCut(m, blocks, i, low)
    ensures Kept(m, CutMemory(m, blocks[i].addr, low, blocks[i].size - low), blocks)
  {
    hide CutMemory;
    CutMemoryBytes(m, blocks[i].addr, low, blocks[i].size - low);
    forall y | 0 <= y < |blocks| && blocks[y].kind.Used?
      ensures
        var m' := CutMemory(m, blocks[i].addr, low, blocks[i].size - low);
        SameBytes(m, m', blocks[y].addr + HEADER, blocks[y].Limit())
    {
      assert y < i ==> Apart(blocks[y], blocks[i]);
      assert i < y ==> Apart(blocks[i], blocks[y]);
    }
  }

  // ----------------------------------------------------------- whole operations

  /** Memory holds the tiling `st`. */
  ghost predicate Holds(m: Bytes, ends: Ends, st: State) {
    Tiled(st) && Rep(m, ends, st.blocks, st.free, -1, -1)
  }

  lemma HeaderRead(m: Bytes, ends: Ends, st: State, i: nat)
    requires Holds(m, ends, st) && i < |st.blocks|
    ensures st.blocks[i].addr + HEADER <= st.blocks[i].Limit() <= |m| <= LONG_MAX
    ensures Long(m, st.blocks[i].addr + 8) == SizeField(st.blocks[i])
    ensures Long(m, st.blocks[i].addr) == Tag(st.blocks, i)
  {
    assert BlockOk(st.blocks[i]);
    assert HeaderAt(m, st.blocks, i, -1);
  }

  /** The block at place `k` of the list, its header and its links. */
  lemma ListedBlock(m: Bytes, ends: Ends, st: State, k: nat) returns (i: nat)
    requires Holds(m, ends, st) && k < |st.free|
    ensures i + 1 < |st.blocks| && st.blocks[i].addr == st.free[k] && st.blocks[i].kind.Free?
    ensures IndexOf(st.blocks, st.free[k]) == i && FreeSizes(st)[k] == st.blocks[i].size
    ensures st.free[k] + FREE_HEADER <= st.blocks[i].Limit() <= |m|
    ensures st.blocks[i + 1].addr == st.blocks[i].Limit() && !st.blocks[i + 1].kind.Free?
    ensures Long(m, st.free[k] + 8) == st.blocks[i].size
    ensures LinkedAt(m, st.free, k)
  {
    hide Long, Headers, Wipes, Listed, Coalesced;
    i := FreePlaces(st, k);
    BodyInside(m, st.blocks, i);
    HeaderRead(m, ends, st, i);
    FreeStandsAlone(st, i);
  }

  /** The block after block `i` is in memory too. */
  lemma NextInside(m: Bytes, blocks: Blocks, i: nat)
    requires Room(m, blocks) && i + 1 < |blocks|
    ensures blocks[i + 1].addr + HEADER <= |m|
  {
    assert BlockOk(blocks[i + 1]);
  }

  ghost predicate CanTake(m: Bytes, ends: Ends, st: State, k: nat, size: nat, i: nat) {
    && Holds(m, ends, st)
    && size % QUANTUM == 0 && size >= HEADER + LINKS
    && k < |st.free| && FreeSizes(st)[k] >= size
    && i + 1 < |st.blocks| && st.blocks[i].kind.Free? && st.blocks[i].addr == st.free[k]
    && IndexOf(st.blocks, st.free[k]) == i && FreeSizes(st)[k] == st.blocks[i].size
    && st.blocks[i + 1].addr == st.blocks[i].Limit() && st.blocks[i + 1].addr + HEADER <= |m|
  }

  /** Memory after the whole free block `i` has been handed out. */
  ghost function AllTaken(m: Bytes, ends: Ends, st: State, k: nat, size: nat, i: nat): (r: (Bytes, Ends))
    requires CanTake(m, ends, st, k, size, i)
  {
    var b := st.blocks[i];
    var (m1, ends1) := Unlinked(m, ends, st.free, k);
    (Store(Store(m1, b.addr + 8, SizeField(b.(kind := Used))), b.Limit(), 0), ends1)
  }

  lemma AllTakenHolds(m: Bytes, ends: Ends, st: State, k: nat, size: nat, i: nat)
    requires CanTake(m, ends, st, k, size, i) && st.blocks[i].size - size <= LINKS + HEADER
    ensures
      var (m', ends') := AllTaken(m, ends, st, k, size, i);
      Holds(m', ends', Take(st, k, size).0) && Kept(m, m', st.blocks)
  {
    hide Long, Store, Geometry, Wipes, Spaced, Listed, Kept, Coalesced, BytePoolLayout.Links, Headers;
    var blocks, free := st.blocks, st.free;
    var c, rest := Rekind(blocks, i, Used), Without(free, k);
    TakeKeepsTiled(st, k, size);
    var (m1, ends1) := Unlinked(m, ends, free, k);
    UnlinkStored(m, ends, blocks, free, k, -1, -1);
    OnFreeList(st);
    KeptSelf(m, blocks);
    UnlinkKept(m, m, ends, blocks, free, k);
    RekindStored(m1, ends1, blocks, rest, i, Used);
    StoreKept(m, m1, blocks, i, blocks[i].addr + 8, SizeField(c[i]));
    var m2 := Store(m1, blocks[i].addr + 8, SizeField(c[i]));
    TagStored(m2, ends1, c, rest, i + 1, i);
    StoreKept(m, m2, blocks, i + 1, blocks[i].Limit(), 0);
    UsedNeedsNoWipe(Store(m2, blocks[i].Limit(), 0), c, i);
  }

  lemma KeptSelf(m: Bytes, blocks: Blocks)
    ensures Kept(m, m, blocks)
  {
  }

  lemma OnFreeList(st: State)
    requires Listed(st.blocks, st.free)
    ensures OnFree(st.blocks, st.free)
  {
    forall k | 0 <= k < |st.free| ensures IsFreeAt(st.blocks, st.free[k]) { assert st.free[k] in st.free; }
  }

  lemma UsedNeedsNoWipe(m: Bytes, blocks: Blocks, i: nat)
    requires Within(blocks, |m|) && Wipes(m, blocks, i) && i < |blocks| && !blocks[i].kind.Free?
    ensures Wipes(m, blocks, -1)
  {
  }

  /** Memory after the upper end of free block `i` has been handed out. */
  ghost function UpperTaken(m: Bytes, ends: Ends, st: State, k: nat, size: nat, i: nat): (m': Bytes)
    requires CanTake(m, ends, st, k, size, i) && st.blocks[i].size - size > LINKS + HEADER
  {
    var b := st.blocks[i];
    Store(CutMemory(m, b.addr, b.size - size, size), b.Limit(), 0)
  }

  lemma UpperTakenHolds(m: Bytes, ends: Ends, st: State, k: nat, size: nat, i: nat)
    requires CanTake(m, ends, st, k, size, i) && st.blocks[i].size - size > LINKS + HEADER
    ensures
      var m' := UpperTaken(m, ends, st, k, size, i);
      Holds(m', ends, Take(st, k, size).0) && Kept(m, m', st.blocks)
  {
    hide Long, Store, Geometry, Wipes, Spaced, Listed, Kept, Coalesced, BytePoolLayout.Links, Headers, CutMemory;
    var blocks, free := st.blocks, st.free;
    var low := blocks[i].size - size;
    var c := Cut(blocks, i, low, Used);
    TakeKeepsTiled(st, k, size);
    CutReady(m, blocks, i, low);
    CutStored(m, ends, blocks, free, i, low);
    CutKept(m, blocks, i, low);
    CutParts(blocks, i, low, Used);
    var m3 := CutMemory(m, blocks[i].addr, low, size);
    TagStored(m3, ends, c, free, i + 2, -1);
    StoreKept(m, m3, blocks, i + 1, blocks[i].Limit(), 0);
  }

  lemma CutReady(m: Bytes, blocks: Blocks, i: nat, low: nat)
    requires Room(m, blocks) && i + 1 < |blocks| && blocks[i].kind.Free? && low <= blocks[i].size
    requires low >= FREE_HEADER && blocks[i].size - low >= FREE_HEADER && (blocks[i].size - low) % QUANTUM == 0
    ensures CanCut(m, blocks, i, low)
  {
    assert BlockOk(blocks[i]);
  }

  /** Memory and tiling in the middle of a release: free block `j` is not wiped yet,
      and the tag after it not set. */
  ghost predicate Merging(m0: Bytes, m: Bytes, ends: Ends, st: State, j: nat) {
    TiledExcept(st, j) && Rep(m, ends, st.blocks, st.free, j + 1, j) && Kept(m0, m, st.blocks)
  }

  lemma WeakenWipes(m: Bytes, ends: Ends, blocks: Blocks, free: seq<nat>, e: int, j: nat)
    requires Rep(m, ends, blocks, free, e, -1)
    ensures Rep(m, ends, blocks, free, e, j)
  {
  }

  /** The block before the released one is free: it grows over it. */
  lemma GrownOverMerging(m: Bytes, ends: Ends, st: State, i: nat)
    requires Holds(m, ends, st) && i < |st.blocks| && st.blocks[i].kind.Used? && FreeBefore(st.blocks, i)
    ensures
      var c := Join(st.blocks, i - 1);
      && FitsLong(c[i - 1].size) && st.blocks[i - 1].addr + HEADER <= |m|
      && Merging(m, Store(m, st.blocks[i - 1].addr + 8, c[i - 1].size), ends, GiveBack(st, i).0, i - 1)
  {
    hide Long, Store, Geometry, Wipes, Spaced, Kept, Coalesced, BytePoolLayout.Links, Headers;
    var j, c := i - 1, Join(st.blocks, i - 1);
    GiveBackTiled(st, i);
    UsedIsNotFree(st.blocks, i);
    WeakenWipes(m, ends, st.blocks, st.free, -1, j);
    JoinStored(m, ends, st.blocks, st.free, j, -1);
    JoinWithin(st.blocks, j, |m|);
    KeptSelf(m, c);
    StoreKept(m, m, c, j, c[j].addr + 8, c[j].size);
  }

  /** The block before is not free: the released one is chained and marked free. */
  ghost function Relisted(m: Bytes, ends: Ends, free: seq<nat>, b: Block): (Bytes, Ends)
    requires |m| <= LONG_MAX && Spaced(free, |m|) && b.addr + FREE_HEADER <= |m| && FitsLong(b.size)
  {
    var (m1, ends1) := Appended(m, ends, free, b.addr);
    (Store(m1, b.addr + 8, b.size), ends1)
  }

  lemma RelistedMerging(m: Bytes, ends: Ends, st: State, i: nat)
    requires Holds(m, ends, st) && i < |st.blocks| && st.blocks[i].kind.Used? && !FreeBefore(st.blocks, i)
    ensures
      var b := st.blocks[i];
      && |m| <= LONG_MAX && Spaced(st.free, |m|) && b.addr + FREE_HEADER <= |m| && FitsLong(b.size)
      && var (m', ends') := Relisted(m, ends, st.free, b);
         Merging(m, m', ends', GiveBack(st, i).0, i)
  {
    hide Long, Store, Geometry, Wipes, Spaced, Kept, Coalesced, BytePoolLayout.Links, Headers, Appended;
    var blocks, free, a := st.blocks, st.free, st.blocks[i].addr;
    var c := Rekind(blocks, i, Free);
    BodyInside(m, blocks, i);
    GiveBackTiled(st, i);
    UsedIsNotFree(blocks, i);
    AppendStored(m, ends, blocks, free, i, -1, -1);
    var (m1, ends1) := Appended(m, ends, free, a);
    RekindStored(m1, ends1, blocks, free + [a], i, Free);
    RekindWithin(blocks, i, Free, |m|);
    RekindOnFree(st, i);
    KeptSelf(m, c);
    AppendKept(m, m, ends, c, free, i);
    StoreKept(m, m1, c, i, a + 8, blocks[i].size);
  }

  lemma RekindWithin(blocks: Blocks, i: nat, kind: Kind, limit: nat)
    requires i < |blocks| && Within(blocks, limit)
    ensures Within(Rekind(blocks, i, kind), limit)
  {
  }

  lemma RekindOnFree(st: State, i: nat)
    requires Tiled(st) && i < |st.blocks|
    ensures OnFree(Rekind(st.blocks, i, Free), st.free)
  {
    OnFreeList(st);
    forall k | 0 <= k < |st.free| ensures IsFreeAt(Rekind(st.blocks, i, Free), st.free[k]) {
      assert IsFreeAt(st.blocks, st.free[k]);
      RekindFree(st.blocks, i, st.free[k]);
    }
  }

  /** The block after the merged one is free too: it is dechained and swallowed. */
  ghost function Swallowed(m: Bytes, ends: Ends, st: State, j: nat, k: nat): (Bytes, Ends)
    requires |m| <= LONG_MAX && Spaced(st.free, |m|) && k < |st.free| && j + 1 < |st.blocks|
    requires st.blocks[j].addr + HEADER <= |m| && FitsLong(st.blocks[j].size + st.blocks[j + 1].size)
  {
    var (m1, ends1) := Unlinked(m, ends, st.free, k);
    (Store(m1, st.blocks[j].addr + 8, st.blocks[j].size + st.blocks[j + 1].size), ends1)
  }

  lemma SwallowedMerging(m0: Bytes, m: Bytes, ends: Ends, st: State, j: nat)
    requires Merging(m0, m, ends, st, j) && st.blocks[j + 1].kind.Free?
    ensures
      var next := st.blocks[j + 1];
      && next.addr in st.free && var k := PlaceOf(st.free, next.addr);
      && |m| <= LONG_MAX && Spaced(st.free, |m|)
      && st.blocks[j].addr + HEADER <= |m| && FitsLong(st.blocks[j].size + next.size)
      && var (m', ends') := Swallowed(m, ends, st, j, k);
         Merging(m0, m', ends', State(Join(st.blocks, j), Without(st.free, k)), j)
  {
    hide Long, Store, Geometry, Wipes, Spaced, Kept, BytePoolLayout.Links, Headers, Unlinked;
    var blocks, next := st.blocks, st.blocks[j + 1];
    assert IsFreeAt(blocks, next.addr);
    var k := PlaceOf(st.free, next.addr);
    var c, rest := Join(blocks, j), Without(st.free, k);
    UnlinkStored(m, ends, blocks, st.free, k, j + 1, j);
    OnFreeList(st);
    UnlinkKept(m0, m, ends, blocks, st.free, k);
    var (m1, ends1) := Unlinked(m, ends, st.free, k);
    WithoutGone(st.free, k);
    JoinStored(m1, ends1, blocks, rest, j, j + 1);
    StoreKept(m0, m1, blocks, j, blocks[j].addr + 8, c[j].size);
    AbsorbTiled(st, j);
    JoinKept(m0, Store(m1, blocks[j].addr + 8, c[j].size), blocks, j);
    TiledIsExcept(State(c, rest), j);
  }

  lemma TiledIsExcept(st: State, j: nat)
    requires Tiled(st) && j < |st.blocks| && st.blocks[j].kind.Free?
    ensures TiledExcept(st, j)
  {
  }

  lemma WithoutGone(free: seq<nat>, k: nat)
    requires Distinct(free) && k < |free|
    ensures free[k] !in Without(free, k)
  {
  }

  lemma JoinKept(m: Bytes, m': Bytes, blocks: Blocks, j: nat)
    requires Kept(m, m', blocks) && j + 1 < |blocks| && blocks[j].kind.Free?
    ensures Kept(m, m', Join(blocks, j))
  {
    var c := Join(blocks, j);
    forall i | 0 <= i < |c| && c[i].kind.Used? ensures SameBytes(m, m', c[i].addr + HEADER, c[i].Limit()) {
      assert c[i] == blocks[if i < j then i else i + 1];
    }
  }

  /** Wiping the merged block and tagging the one after it completes the release. */
  ghost function Sealed(m: Bytes, blocks: Blocks, j: nat): Bytes
    requires j + 1 < |blocks| && blocks[j].addr + FREE_HEADER <= blocks[j].Limit() && FitsLong(blocks[j].size)
    requires blocks[j].Limit() + HEADER <= |m|
  {
    Store(Filled(m, blocks[j].addr + FREE_HEADER, blocks[j].Limit()), blocks[j].Limit(), blocks[j].size)
  }

  lemma SealedHolds(m0: Bytes, m: Bytes, ends: Ends, st: State, j: nat)
    requires Merging(m0, m, ends, st, j) && !st.blocks[j + 1].kind.Free?
    ensures st.blocks[j].addr + FREE_HEADER <= st.blocks[j].Limit() && FitsLong(st.blocks[j].size)
    ensures st.blocks[j + 1].addr == st.blocks[j].Limit() && st.blocks[j].Limit() + HEADER <= |m|
    ensures Holds(Sealed(m, st.blocks, j), ends, st) && Kept(m0, Sealed(m, st.blocks, j), st.blocks)
  {
    hide Long, Store, Wipes, Spaced, Kept, Listed, BytePoolLayout.Links, Headers, Filled, Apart;
    var blocks := st.blocks;
    BodyInside(m, blocks, j);
    NextInside(m, blocks, j);
    WipeStored(m, ends, blocks, st.free, j, j + 1);
    FillKept(m0, m, blocks, j);
    var m1 := Filled(m, blocks[j].addr + FREE_HEADER, blocks[j].Limit());
    TagStored(m1, ends, blocks, st.free, j + 1, -1);
    StoreKept(m0, m1, blocks, j + 1, blocks[j].Limit(), blocks[j].size);
  }

  lemma MergingRead(m0: Bytes, m: Bytes, ends: Ends, st: State, j: nat, i: nat)
    requires Merging(m0, m, ends, st, j) && i < |st.blocks|
    ensures st.blocks[i].addr + HEADER <= st.blocks[i].Limit() <= |m| <= LONG_MAX
    ensures Long(m, st.blocks[i].addr + 8) == SizeField(st.blocks[i])
    ensures i != j + 1 ==> Long(m, st.blocks[i].addr) == Tag(st.blocks, i)
    ensures !st.blocks[i].kind.End? ==> i + 1 < |st.blocks| && st.blocks[i + 1].addr == st.blocks[i].Limit()
  {
    assert BlockOk(st.blocks[i]);
    assert HeaderAt(m, st.blocks, i, j + 1);
  }

  lemma UsedFound(st: State, a: nat) returns (i: nat)
    requires Tiled(st) && IsUsedAt(st.blocks, a)
    ensures HasBlock(st.blocks, a) && i == IndexOf(st.blocks, a) && st.blocks[i].kind.Used?
    ensures i + 1 < |st.blocks| && st.blocks[i + 1].addr == st.blocks[i].Limit()
    ensures i > 0 && !st.blocks[i - 1].kind.End? ==> st.blocks[i - 1].Limit() == a
  {
    i :| 0 <= i < |st.blocks| && st.blocks[i].addr == a && st.blocks[i].kind.Used?;
    FoundAt(st.blocks, i);
  }

  /** Writing only inside the payload of used block `i` keeps the representation. */
  lemma PayloadStored(m: Bytes, m': Bytes, ends: Ends, st: State, i: nat)
    requires Holds(m, ends, st) && i < |st.blocks| && st.blocks[i].kind.Used? && |m'| == |m|
    requires forall x :: 0 <= x < |m| && !(st.blocks[i].addr + HEADER <= x < st.blocks[i].Limit()) ==> m'[x] == m[x]
    ensures Holds(m', ends, st)
  {
    hide Long, Coalesced;
    var blocks, free := st.blocks, st.free;
    assert BlockOk(blocks[i]);
    forall j | 0 <= j < |blocks| ensures HeaderAt(m', blocks, j, -1) {
      assert HeaderAt(m, blocks, j, -1);
      PayloadWord(m, m', blocks, i, j, blocks[j].addr);
      PayloadWord(m, m', blocks, i, j, blocks[j].addr + 8);
    }
    PayloadLinks(m, m', ends, st, i);
    forall j | 0 <= j < |blocks| && blocks[j].kind.Free? ensures Wiped(m', blocks[j]) {
      assert Wiped(m, blocks[j]);
      BlocksApart(blocks, i, j);
    }
  }

  lemma PayloadWord(m: Bytes, m': Bytes, blocks: Blocks, i: nat, j: nat, p: int)
    requires Room(m, blocks) && i < |blocks| && j < |blocks| && |m'| == |m|
    requires forall x :: 0 <= x < |m| && !(blocks[i].addr + HEADER <= x < blocks[i].Limit()) ==> m'[x] == m[x]
    requires blocks[j].addr <= p && p + WORD <= blocks[j].addr + (if i == j then HEADER else blocks[j].size)
    requires p + WORD <= blocks[j].Limit()
    ensures p + WORD <= |m| && Long(m', p) == Long(m, p)
  {
    hide Long;
    if i != j { BlocksApart(blocks, i, j); }
    LongAgrees(m, m', p);
  }

  lemma PayloadLinks(m: Bytes, m': Bytes, ends: Ends, st: State, i: nat)
    requires Holds(m, ends, st) && i < |st.blocks| && st.blocks[i].kind.Used? && |m'| == |m|
    requires forall x :: 0 <= x < |m| && !(st.blocks[i].addr + HEADER <= x < st.blocks[i].Limit()) ==> m'[x] == m[x]
    ensures Spaced(st.free, |m'|) && BytePoolLayout.Links(m', ends, st.free)
  {
    hide Long, Coalesced, Geometry, Wipes, Headers;
    forall k | 0 <= k < |st.free| ensures LinkedAt(m', st.free, k) {
      var j := FreePlaces(st, k);
      BodyInside(m, st.blocks, j);
      assert LinkedAt(m, st.free, k);
      PayloadWord(m, m', st.blocks, i, j, st.free[k] + 16);
      PayloadWord(m, m', st.blocks, i, j, st.free[k] + 24);
    }
  }

  lemma KeptBlock(m: Bytes, m': Bytes, blocks: Blocks, b: Block)
    requires Kept(m, m', blocks) && b in blocks && b.kind.Used?
    ensures SameBytes(m, m', b.addr + HEADER, b.Limit())
  {
  }

  // --------------------------------------------------------------- reallocation

  /** The first `n` bytes at `to` are those that were at `from`. */
  ghost predicate Moved(m0: Bytes, m: Bytes, from: nat, to: nat, n: int) {
    && |m| == |m0| && 0 <= n && from + n <= |m0| && to + n <= |m|
    && m[to..to + n] == m0[from..from + n]
  }

  /** Used block `b` is still there, with the same payload. */
  ghost predicate Untouched(m0: Bytes, m: Bytes, blocks: Blocks, b: Block) {
    b in blocks && SameBytes(m0, m, b.addr + HEADER, b.Limit())
  }

  ghost predicate UntouchedExcept(m0: Bytes, m: Bytes, blocks0: Blocks, blocks: Blocks, buf: nat) {
    forall b :: b in blocks0 && b.kind.Used? && b.addr + HEADER != buf ==> Untouched(m0, m, blocks, b)
  }

  /** A used block for `size` bytes whose buffer starts at `buf`. */
  ghost predicate HasBuffer(blocks: Blocks, buf: nat, size: nat) {
    exists b :: b in blocks && b.kind.Used? && b.addr + HEADER == buf && b.size >= HEADER + size
  }

  lemma GotTiled(m: Bytes, ends: Ends, st: State)
    requires Holds(m, ends, st)
    ensures Tiled(st)
  {
  }

  /** After getting a buffer: where it is, and that the old ones are untouched. */
  lemma GotBuffer(m0: Bytes, m1: Bytes, st0: State, st1: State, size: nat, nbuf: nat) returns (n: nat)
    requires Tiled(st0) && Tiled(st1) && nbuf >= HEADER
    requires Get(st0, Rounded(size)) == Some((st1, nbuf - HEADER)) && Kept(m0, m1, st0.blocks)
    ensures n < |st1.blocks| && st1.blocks[n].kind.Used? && st1.blocks[n].addr + HEADER == nbuf
    ensures st1.blocks[n].size >= HEADER + size && HasBuffer(st1.blocks, nbuf, size)
    ensures UntouchedExcept(m0, m1, st0.blocks, st1.blocks, 0)
    ensures forall b :: b in st0.blocks && b.kind.Used? ==> b.addr + HEADER != nbuf
  {
    hide Tiled, Get, Take, Rounded, Kept, SameBytes;
    var k, b := GetFound(st0, Rounded(size));
    n :| 0 <= n < |st1.blocks| && st1.blocks[n] == b;
    forall x | x in st0.blocks && x.kind.Used?
      ensures Untouched(m0, m1, st1.blocks, x) && x.addr + HEADER != nbuf
    {
      TakeKeepsUsed(st0, k, Rounded(size), x);
      KeptBlock(m0, m1, st0.blocks, x);
    }
  }

  lemma OldBuffer(m0: Bytes, m1: Bytes, ends: Ends, st0: State, st1: State, i: nat) returns (o: nat)
    requires Holds(m1, ends, st1) && i < |st0.blocks| && st0.blocks[i].kind.Used?
    requires UntouchedExcept(m0, m1, st0.blocks, st1.blocks, 0)
    ensures o < |st1.blocks| && st1.blocks[o] == st0.blocks[i] && IsUsedAt(st1.blocks, st1.blocks[o].addr)
    ensures Untouched(m0, m1, st1.blocks, st0.blocks[i]) && IndexOf(st1.blocks, st1.blocks[o].addr) == o
  {
    hide Rep, SameBytes;
    assert Untouched(m0, m1, st1.blocks, st0.blocks[i]);
    o :| 0 <= o < |st1.blocks| && st1.blocks[o] == st0.blocks[i];
    FoundAt(st1.blocks, o);
  }

  /** The whole reallocation: get, copy, release. */
  lemma ReallocatedOk(m0: Bytes, m1: Bytes, m2: Bytes, m3: Bytes, st0: State, st1: State,
                      i: nat, n: nat, o: nat, buf: nat, nbuf: nat, length: nat)
    requires Tiled(st1) && i < |st0.blocks| && n < |st1.blocks| && o < |st1.blocks| && n != o
    requires st1.blocks[o] == st0.blocks[i] && st1.blocks[o].kind.Used? && st1.blocks[n].kind.Used?
    requires st1.blocks[o].addr + HEADER == buf && st1.blocks[n].addr + HEADER == nbuf
    requires buf + length <= st1.blocks[o].Limit() <= |m0| && nbuf + length <= st1.blocks[n].Limit() <= |m0|
    requires UntouchedExcept(m0, m1, st0.blocks, st1.blocks, 0) && Untouched(m0, m1, st1.blocks, st0.blocks[i])
    requires forall b :: b in st0.blocks && b.kind.Used? ==> b.addr + HEADER != nbuf
    requires |m1| == |m2| && m2[nbuf..nbuf + length] == m1[buf..buf + length]
    requires forall x :: 0 <= x < |m1| && !(nbuf <= x < nbuf + length) ==> m2[x] == m1[x]
    requires Kept(m2, m3, Release(st1, o).blocks)
    ensures Moved(m0, m3, buf, nbuf, length)
    ensures UntouchedExcept(m0, m3, st0.blocks, Release(st1, o).blocks, buf)
    ensures st1.blocks[n] in Release(st1, o).blocks
  {
    hide Tiled, Release, Kept;
    var blocks3 := Release(st1, o).blocks;
    var nb := st1.blocks[n];
    TiledApart(st1, n, o);
    ReleaseKeepsUsed(st1, o, nb);
    KeptBlock(m2, m3, blocks3, nb);
    assert m3[nbuf..nbuf + length] == m2[nbuf..nbuf + length];
    assert m1[buf..buf + length] == m0[buf..buf + length];
    forall b | b in st0.blocks && b.kind.Used? && b.addr + HEADER != buf ensures Untouched(m0, m3, blocks3, b) {
      assert Untouched(m0, m1, st1.blocks, b);
      ReleaseKeepsUsed(st1, o, b);
      KeptBlock(m2, m3, blocks3, b);
      var x :| 0 <= x < |st1.blocks| && st1.blocks[x] == b;
      TiledApart(st1, n, x);
    }
  }

  lemma TiledApart(st: State, n: nat, x: nat)
    requires Tiled(st) && n < |st.blocks| && x < |st.blocks| && n != x
    ensures Apart(st.blocks[n], st.blocks[x]) && st.blocks[n] != st.blocks[x]
  {
    BlocksApart(st.blocks, n, x);
  }

  // ----------------------------------------------------------------- new regions

  /** Headers and wiped blocks are right, and payloads are kept. */
  ghost predicate Steady(m0: Bytes, m: Bytes, blocks: Blocks) {
    Room(m, blocks) && Headers(m, blocks, -1) && Wipes(m, blocks, -1) && Kept(m0, m, blocks)
  }

  /** Changing bytes outside every block disturbs none of them. */
  lemma OutsideSteady(m0: Bytes, m: Bytes, m': Bytes, blocks: Blocks, lo: nat, hi: nat)
    requires Steady(m0, m, blocks) && Clear(blocks, lo, hi) && |m'| == |m|
    requires forall x :: 0 <= x < |m| && !(lo <= x < hi) ==> m'[x] == m[x]
    ensures Steady(m0, m', blocks)
  {
    hide Long;
    forall i | 0 <= i < |blocks| ensures HeaderAt(m', blocks, i, -1) {
      assert HeaderAt(m, blocks, i, -1);
      assert BlockOk(blocks[i]);
      LongAgrees(m, m', blocks[i].addr);
      LongAgrees(m, m', blocks[i].addr + 8);
    }
    forall i | 0 <= i < |blocks| && blocks[i].kind.Free? ensures Wiped(m', blocks[i]) {
      assert Wiped(m, blocks[i]);
    }
    forall i | 0 <= i < |blocks| && blocks[i].kind.Used?
      ensures SameBytes(m0, m', blocks[i].addr + HEADER, blocks[i].Limit())
    {
      assert SameBytes(m0, m, blocks[i].addr + HEADER, blocks[i].Limit());
    }
  }

  lemma OutsideStore(m0: Bytes, m: Bytes, blocks: Blocks, lo: nat, hi: nat, p: int, v: int)
    requires Steady(m0, m, blocks) && Clear(blocks, lo, hi) && FitsLong(v)
    requires lo <= p && p + WORD <= hi <= |m|
    ensures Steady(m0, Store(m, p, v), blocks)
  {
    StoreBytes(m, p, v);
    OutsideSteady(m0, m, Store(m, p, v), blocks, lo, hi);
  }

  /** A store to a link of a listed block disturbs no block. */
  lemma LinkSteady(m0: Bytes, m: Bytes, blocks: Blocks, free: seq<nat>, k: nat, p: int, v: int)
    requires Steady(m0, m, blocks) && Anchored(blocks, free) && OnFree(blocks, free) && k < |free| && FitsLong(v)
    requires p == free[k] + 16 || p == free[k] + 24
    ensures 0 <= p && p + WORD <= |m| && Steady(m0, Store(m, p, v), blocks)
  {
    LinkStoreRest(m, blocks, free, k, p, v, -1, -1);
    LinkKept(m0, m, blocks, free, k, p, v);
  }

  ghost predicate CanExtend(m: Bytes, ends: Ends, st: State, buf: nat, size: nat) {
    && Holds(m, ends, st)
    && size % QUANTUM == 0 && size >= FREE_HEADER && buf + size + HEADER <= |m|
    && Clear(st.blocks, buf, buf + size + HEADER)
  }

  /** Memory after chaining the new block: its tag, then the links. */
  ghost function RegionChained(m: Bytes, ends: Ends, st: State, buf: nat, size: nat): (r: (Bytes, Ends))
    requires CanExtend(m, ends, st, buf, size)
    ensures |r.0| == |m| <= LONG_MAX
  {
    Appended(Store(m, buf, 0), ends, st.free, buf)
  }

  /** Memory after the rest of the new region has been set up. */
  ghost function RegionFilled(m: Bytes, buf: nat, size: nat): (m': Bytes)
    requires FREE_HEADER <= size && buf + size + HEADER <= |m| <= LONG_MAX
    ensures |m'| == |m|
  {
    var m1 := Filled(Store(m, buf + 8, size), buf + FREE_HEADER, buf + size);
    Store(Store(m1, buf + size, size), buf + size + 8, LONG_MIN)
  }

  lemma RegionChainedOk(m: Bytes, ends: Ends, st: State, buf: nat, size: nat)
    requires CanExtend(m, ends, st, buf, size)
    ensures
      var (m', ends') := RegionChained(m, ends, st, buf, size);
      var st1 := Extended(st, buf, size);
      && Steady(m, m', st.blocks) && Room(m', st1.blocks) && Anchored(st1.blocks, st1.free)
      && Spaced(st1.free, |m'|) && BytePoolLayout.Links(m', ends', st1.free)
      && Long(m', buf) == 0
  {
    hide Long, Store, Geometry, Wipes, Spaced, Listed, Kept, Coalesced, BytePoolLayout.Links, Headers;
    var st1, hi := Extended(st, buf, size), buf + size + HEADER;
    ExtendedTiled(st, buf, size);
    ListedAnchored(st1.blocks, st1.free);
    ExtendedWithin(st, buf, size, |m|);
    AnchoredSpaced(st1.blocks, st1.free, |m|);
    KeptSelf(m, st.blocks);
    OnFreeList(st);
    var m0 := Store(m, buf, 0);
    OutsideStore(m, m, st.blocks, buf, hi, buf, 0);
    OutsideLinks(m, ends, st, buf, hi, buf, 0);
    AppendLinks(m0, ends, st.free, buf);
    SpacedAddress(st.free, |m|, |st.free| - 1);
    var last := At(st.free, |st.free| - 1);
    var m1 := Store(m0, buf + 16, LIST);
    var m2 := Store(m1, buf + 24, last);
    OutsideStore(m, m0, st.blocks, buf, hi, buf + 16, LIST);
    OutsideStore(m, m1, st.blocks, buf, hi, buf + 24, last);
    StoreReads(m, buf, 0);
    StoreOther(m0, buf + 16, LIST, buf);
    StoreOther(m1, buf + 24, last, buf);
    if |st.free| > 0 {
      LinkSteady(m, m2, st.blocks, st.free, |st.free| - 1, last + 16, buf);
      LastApart(st, buf, hi);
      StoreOther(m2, last + 16, buf, buf);
    }
  }

  lemma ExtendedWithin(st: State, buf: nat, size: nat, limit: nat)
    requires Within(st.blocks, limit) && buf + size + HEADER <= limit
    ensures Within(Extended(st, buf, size).blocks, limit)
  {
  }

  lemma LastApart(st: State, lo: nat, hi: nat)
    requires Tiled(st) && Clear(st.blocks, lo, hi) && st.free != [] && lo < hi
    ensures var a := st.free[|st.free| - 1]; a + FREE_HEADER <= lo || hi <= a
  {
    hide Coalesced, Listed;
    var i := FreePlaces(st, |st.free| - 1);
    assert BlockOk(st.blocks[i]);
  }

  lemma OutsideLinks(m: Bytes, ends: Ends, st: State, lo: nat, hi: nat, p: int, v: int)
    requires Holds(m, ends, st) && Clear(st.blocks, lo, hi) && FitsLong(v)
    requires lo <= p && p + WORD <= hi <= |m|
    ensures BytePoolLayout.Links(Store(m, p, v), ends, st.free)
  {
    hide Long, Store, Tiled, Wipes, Headers, Room, Anchored;
    forall k | 0 <= k < |st.free| ensures LinkedAt(Store(m, p, v), st.free, k) {
      assert LinkedAt(m, st.free, k);
      OutsideLink(m, ends, st, lo, hi, p, v, k);
    }
  }

  lemma OutsideLink(m: Bytes, ends: Ends, st: State, lo: nat, hi: nat, p: int, v: int, k: nat)
    requires Holds(m, ends, st) && Clear(st.blocks, lo, hi) && FitsLong(v) && k < |st.free|
    requires lo <= p && p + WORD <= hi <= |m|
    ensures st.free[k] + FREE_HEADER <= |m|
    ensures Long(Store(m, p, v), st.free[k] + 16) == Long(m, st.free[k] + 16)
    ensures Long(Store(m, p, v), st.free[k] + 24) == Long(m, st.free[k] + 24)
  {
    hide Long, Store, Coalesced, Listed, Wipes, Headers, Anchored, BytePoolLayout.Links;
    var i := FreePlaces(st, k);
    BodyInside(m, st.blocks, i);
    StoreOther(m, p, v, st.free[k] + 16);
    StoreOther(m, p, v, st.free[k] + 24);
  }

  lemma RegionFilledOwn(m: Bytes, buf: nat, size: nat)
    requires FREE_HEADER <= size && buf + size + HEADER <= |m| <= LONG_MAX
    ensures
      var m' := RegionFilled(m, buf, size);
      && Long(m', buf) == Long(m, buf) && Long(m', buf + 8) == size
      && Long(m', buf + size) == size && Long(m', buf + size + 8) == LONG_MIN
      && (forall x :: buf + FREE_HEADER <= x < buf + size ==> m'[x] == WIPE)
      && (forall x :: 0 <= x < |m| && !(buf <= x < buf + size + HEADER) ==> m'[x] == m[x])
  {
    hide Long, Store, Filled;
    var m0 := Store(m, buf + 8, size);
    var m1 := Filled(m0, buf + FREE_HEADER, buf + size);
    var m2 := Store(m1, buf + size, size);
    StoreReads(m, buf + 8, size);
    StoreOther(m, buf + 8, size, buf);
    StoreBytes(m, buf + 8, size);
    LongAgrees(m0, m1, buf);
    LongAgrees(m0, m1, buf + 8);
    StoreReads(m1, buf + size, size);
    StoreOther(m1, buf + size, size, buf);
    StoreOther(m1, buf + size, size, buf + 8);
    StoreBytes(m1, buf + size, size);
    StoreReads(m2, buf + size + 8, LONG_MIN);
    StoreOther(m2, buf + size + 8, LONG_MIN, buf);
    StoreOther(m2, buf + size + 8, LONG_MIN, buf + 8);
    StoreOther(m2, buf + size + 8, LONG_MIN, buf + size);
    StoreBytes(m2, buf + size + 8, LONG_MIN);
  }

  lemma RegionFilledLinks(m: Bytes, ends: Ends, st: State, buf: nat, size: nat)
    requires FREE_HEADER <= size && buf + size + HEADER <= |m| <= LONG_MAX
    requires
      var st1 := Extended(st, buf, size);
      && Room(m, st1.blocks) && Anchored(st1.blocks, st1.free) && Spaced(st1.free, |m|)
      && BytePoolLayout.Links(m, ends, st1.free)
    ensures BytePoolLayout.Links(RegionFilled(m, buf, size), ends, st.free + [buf])
  {
    hide Long, Store, Filled, Geometry, Anchored, Spaced, BytePoolLayout.Links;
    var st1, n := Extended(st, buf, size), |st.blocks|;
    var m0 := Store(m, buf + 8, size);
    var m1 := Filled(m0, buf + FREE_HEADER, buf + size);
    var m2 := Store(m1, buf + size, size);
    HeaderStoreLinks(m, ends, st1.blocks, st1.free, n, buf + 8, size);
    WipeLinks(m0, ends, st1.blocks, st1.free, n);
    HeaderStoreLinks(m1, ends, st1.blocks, st1.free, n + 1, buf + size, size);
    HeaderStoreLinks(m2, ends, st1.blocks, st1.free, n + 1, buf + size + 8, LONG_MIN);
  }

  lemma RegionHolds(m: Bytes, ends: Ends, st: State, buf: nat, size: nat)
    requires CanExtend(m, ends, st, buf, size)
    ensures
      var (m1, ends1) := RegionChained(m, ends, st, buf, size);
      var m2 := RegionFilled(m1, buf, size);
      Holds(m2, ends1, Extended(st, buf, size)) && Kept(m, m2, st.blocks)
  {
    hide Long, Store, RegionFilled, RegionChained, Geometry, Spaced, Anchored, BytePoolLayout.Links, Listed, Coalesced;
    var (m1, ends1) := RegionChained(m, ends, st, buf, size);
    var m2 := RegionFilled(m1, buf, size);
    RegionChainedOk(m, ends, st, buf, size);
    RegionFilledOwn(m1, buf, size);
    RegionFilledLinks(m1, ends1, st, buf, size);
    OutsideSteady(m, m1, m2, st.blocks, buf, buf + size + HEADER);
    ExtendedTiled(st, buf, size);
    ExtendedHeaders(m2, st, buf, size);
  }

  lemma ExtendedHeaders(m: Bytes, st: State, buf: nat, size: nat)
    requires Tiled(st) && Room(m, st.blocks) && Headers(m, st.blocks, -1) && Wipes(m, st.blocks, -1)
    requires Room(m, Extended(st, buf, size).blocks) && size >= FREE_HEADER && buf + size + HEADER <= |m|
    requires Long(m, buf) == 0 && Long(m, buf + 8) == size
    requires Long(m, buf + size) == size && Long(m, buf + size + 8) == LONG_MIN
    requires forall x :: buf + FREE_HEADER <= x < buf + size ==> m[x] == WIPE
    ensures Headers(m, Extended(st, buf, size).blocks, -1) && Wipes(m, Extended(st, buf, size).blocks, -1)
  {
    hide Long, Listed, Coalesced;
    var c, n := Extended(st, buf, size).blocks, |st.blocks|;
    assert Chained(st.blocks);
    forall i | 0 <= i < |c| ensures HeaderAt(m, c, i, -1) {
      if i < n { assert HeaderAt(m, st.blocks, i, -1); }
    }
    forall i | 0 <= i < |c| && c[i].kind.Free? ensures Wiped(m, c[i]) {
      if i < n { assert Wiped(m, st.blocks[i]); }
    }
  }
}
