/**
 Which block bget takes and how much of it, in terms of the bytes asked for.
 */
module BytePoolFit {
  import opened BytePoolTiling
  import opened Sequences
  import opened Wrappers

  /** Header and payload: a buffer has room for at least 16 bytes, the queue links of a free block. */
  function Need(requested: nat): nat {
    16 + if requested < 16 then 16 else requested
  }

  /** Free block `i` is too small for the request. */
  ghost predicate TooSmall(st: State, requested: nat, i: nat)
    requires i < |st.blocks|
  {
    st.blocks[i].kind.Free? ==> st.blocks[i].size < Need(requested)
  }

  ghost predicate AllTooSmall(st: State, requested: nat) {
    forall i :: 0 <= i < |st.blocks| ==> TooSmall(st, requested, i)
  }

  /** Of the free blocks that are large enough, block `i`, the `k`-th of the list, is the first of the
      smallest. */
  ghost predicate Best(st: State, requested: nat, i: nat, k: nat) {
    && i < |st.blocks| && st.blocks[i].kind.Free? && st.blocks[i].size >= Need(requested)
    && k < |st.free| && st.free[k] == st.blocks[i].addr
    && forall j, m :: 0 <= j < |st.blocks| && 0 <= m < |st.free| ==> NoBetter(st, requested, i, k, j, m)
  }

  /** Block `j`, if it is the `m`-th of the list, is too small, larger, or as large and not before. */
  ghost predicate NoBetter(st: State, requested: nat, i: nat, k: nat, j: nat, m: nat)
    requires i < |st.blocks| && j < |st.blocks| && k < |st.free| && m < |st.free|
  {
    var best, other := st.blocks[i].size, st.blocks[j].size;
    st.free[m] != st.blocks[j].addr || other < Need(requested) || best < other || (best == other && k <= m)
  }

  /** The upper `size` bytes of block `i` become a used block; what is left below stays where it is in
      the list. */
  ghost predicate Carved(st: State, st': State, i: nat, k: nat, size: nat)
    requires i < |st.blocks| && k < |st.free| && size <= st.blocks[i].size
  {
    var b := st.blocks[i];
    var taken := Block(b.Limit() - size, size, Used);
    if size < b.size then
      && st'.blocks == st.blocks[..i] + [Block(b.addr, b.size - size, Free), taken] + st.blocks[i + 1..]
      && st'.free == st.free
    else
      && st'.blocks == st.blocks[..i] + [taken] + st.blocks[i + 1..]
      && st'.free == st.free[..k] + st.free[k + 1..]
  }

  /** The request is met from block `i` with the `size` bytes at `a`: less than four more than needed, or
      all of a block that would not leave more than a free block's header. */
  ghost predicate Met(st: State, st': State, a: nat, requested: nat, i: nat, k: nat, size: nat) {
    && Best(st, requested, i, k)
    && Need(requested) <= size <= st.blocks[i].size && a == st.blocks[i].Limit() - size
    && (size == st.blocks[i].size || (size < Need(requested) + 4 && st.blocks[i].size - size > 32))
    && (size == st.blocks[i].size ==> size < Need(requested) + 4 + 32)
    && Carved(st, st', i, k, size)
  }

  ghost predicate Served(st: State, st': State, a: nat, requested: nat) {
    exists i, k, size :: Met(st, st', a, requested, i, k, size)
  }

  lemma RoundedIsNeed(requested: nat, size: nat)
    requires size % 4 == 0
    ensures size >= Rounded(requested) <==> size >= Need(requested)
    ensures Need(requested) <= Rounded(requested) < Need(requested) + 4
  {
  }

  /** A request is turned down exactly when every free block is too small for it. */
  lemma RefusedIffTooSmall(st: State, requested: nat)
    requires Tiled(st)
    ensures Get(st, Rounded(requested)).None? <==> AllTooSmall(st, requested)
  {
    hide Rounded, BestFit, Take;
    var sizes, size, n := FreeSizes(st), Rounded(requested), |st.free|;
    BestFitIsSmallest(sizes, size, n);
    if BestFit(sizes, size, n).None? {
      forall i | 0 <= i < |st.blocks| ensures TooSmall(st, requested, i) {
        if st.blocks[i].kind.Free? {
          assert IsFreeAt(st.blocks, st.blocks[i].addr);
          FoundAt(st.blocks, i);
          assert sizes[PlaceOf(st.free, st.blocks[i].addr)] == st.blocks[i].size;
          RoundedIsNeed(requested, st.blocks[i].size);
        }
      }
    } else {
      var i := FreePlaces(st, BestFit(sizes, size, n).value);
      assert BlockOk(st.blocks[i]);
      RoundedIsNeed(requested, st.blocks[i].size);
      assert !TooSmall(st, requested, i);
    }
  }

  lemma BestIsBest(st: State, requested: nat, i: nat, k: nat)
    requires Tiled(st) && k < |st.free| && HasBlock(st.blocks, st.free[k]) && IndexOf(st.blocks, st.free[k]) == i
    requires BestFit(FreeSizes(st), Rounded(requested), |st.free|) == Some(k)
    ensures Best(st, requested, i, k)
  {
    hide Rounded, BestFit;
    var sizes, size := FreeSizes(st), Rounded(requested);
    BestFitIsSmallest(sizes, size, |st.free|);
    FreeFound(st, st.free[k]);
    RoundedIsNeed(requested, st.blocks[i].size);
    forall j, m | 0 <= j < |st.blocks| && 0 <= m < |st.free| ensures NoBetter(st, requested, i, k, j, m) {
      if st.free[m] == st.blocks[j].addr {
        FoundAt(st.blocks, j);
        RoundedIsNeed(requested, st.blocks[j].size);
        assert sizes[m] == st.blocks[j].size;
      }
    }
  }

  /** What a request is met with. */
  lemma GetServes(st: State, requested: nat)
    requires Tiled(st) && Get(st, Rounded(requested)).Some?
    ensures var (st', a) := Get(st, Rounded(requested)).value; Served(st, st', a, requested)
  {
    hide Rounded, BestFit, Best;
    var rounded := Rounded(requested);
    var k := BestFit(FreeSizes(st), rounded, |st.free|).value;
    var i := FreePlaces(st, k);
    BestIsBest(st, requested, i, k);
    assert BlockOk(st.blocks[i]);
    RoundedIsNeed(requested, st.blocks[i].size);
    var size := if st.blocks[i].size - rounded > 32 then rounded else st.blocks[i].size;
    var (st', a) := Get(st, rounded).value;
    assert st.blocks[i := st.blocks[i].(kind := Used)]
        == st.blocks[..i] + [st.blocks[i].(kind := Used)] + st.blocks[i + 1..];
    assert Met(st, st', a, requested, i, k, size);
  }

  // ---------------------------------------------------------------------------- brel

  /** Blocks `lo` up to `hi` as one free block. */
  ghost predicate Fused(blocks: Blocks, blocks': Blocks, lo: nat, hi: nat) {
    && lo < hi <= |blocks| && blocks[lo].addr <= blocks[hi - 1].Limit()
    && var size := blocks[hi - 1].Limit() - blocks[lo].addr;
       blocks' == blocks[..lo] + [Block(blocks[lo].addr, size, Free)] + blocks[hi..]
  }

  /** `free` is `listed` without its `k`-th entry `a`. */
  ghost predicate LeftOut(listed: seq<nat>, free: seq<nat>, k: nat, a: nat) {
    k < |listed| && listed[k] == a && free == listed[..k] + listed[k + 1..]
  }

  ghost predicate Delisted(listed: seq<nat>, free: seq<nat>, a: nat) {
    exists k :: LeftOut(listed, free, k, a)
  }

  /** Used block `i` comes back: it becomes one free block together with the free blocks that touch it.
      That block keeps the place in the list of the one below, or is put last; the one above leaves it. */
  ghost predicate Returned(st: State, st': State, i: nat) {
    && 0 <= i < |st.blocks| - 1
    && var below, above := i > 0 && st.blocks[i - 1].kind.Free?, st.blocks[i + 1].kind.Free?;
       var listed := if below then st.free else st.free + [st.blocks[i].addr];
       && Fused(st.blocks, st'.blocks, if below then i - 1 else i, if above then i + 2 else i + 1)
       && if above then Delisted(listed, st'.free, st.blocks[i + 1].addr) else st'.free == listed
  }

  lemma GiveBackFuses(st: State, i: nat)
    requires Tiled(st) && i < |st.blocks| && st.blocks[i].kind.Used?
    ensures var (st1, j) := GiveBack(st, i);
      j <= i && Fused(st.blocks, st1.blocks, j, i + 1)
  {
    var (st1, j) := GiveBack(st, i);
    if j == i {
      assert st1.blocks == st.blocks[..i] + [st1.blocks[i]] + st.blocks[i + 1..];
    }
  }

  lemma FusedAgain(a: Blocks, b: Blocks, lo: nat, hi: nat)
    requires Fused(a, b, lo, hi) && hi < |a| && a[hi].addr == a[hi - 1].Limit()
    ensures lo + 1 < |b| && b[lo + 1] == a[hi] && Fused(a, Join(b, lo), lo, hi + 1)
  {
    assert b[..lo] == a[..lo] && b[lo + 2..] == a[hi + 1..];
  }

  lemma ReleaseReturns(st: State, i: nat)
    requires Tiled(st) && i < |st.blocks| && st.blocks[i].kind.Used?
    ensures Returned(st, Release(st, i), i)
  {
    hide Fused, Join, Rekind;
    var (st1, j) := GiveBack(st, i);
    var next := st.blocks[i + 1];
    GiveBackFuses(st, i);
    FusedAgain(st.blocks, st1.blocks, j, i + 1);
    if next.kind.Free? {
      assert IsFreeAt(st.blocks, next.addr);
      assert next.addr in st1.free;
      var k := PlaceOf(st1.free, next.addr);
      assert LeftOut(st1.free, Release(st, i).free, k, next.addr);
    }
  }
}
