/**
 The byte pool of librt/libddk/bytepool.c, seen as a sequence of blocks in memory
 order and a list of the free ones. A region handed to the pool is a run of blocks
 that ends with an `End` block (the sentinel header).
 */
module BytePoolTiling {
  import opened Wrappers
  import opened Sequences

  const QUANTUM: nat := 4      // SizeQuant
  const LINKS: nat := 16       // sizeof(struct qlinks), also SizeQ
  const HEADER: nat := 16      // sizeof(struct bhead)
  const FREE_HEADER: nat := 32 // sizeof(struct bfhead)

  datatype Kind = Free | Used | End

  datatype Block = Block(addr: nat, size: nat, kind: Kind) {
    function Limit(): nat {
      addr + size
    }
  }

  type Blocks = seq<Block>

  /** `free` lists the addresses of the free blocks in list order. */
  datatype State = State(blocks: Blocks, free: seq<nat>)

  // ------------------------------------------------------------------- geometry

  predicate BlockOk(b: Block) {
    && b.size % QUANTUM == 0
    && if b.kind.End? then b.size == HEADER else b.size >= HEADER + LINKS
  }

  ghost predicate Apart(a: Block, b: Block) {
    a.Limit() <= b.addr || b.Limit() <= a.addr
  }

  /** Blocks of one region follow each other without a gap, up to its End. */
  ghost predicate Chained(blocks: Blocks) {
    && (forall i :: 0 <= i < |blocks| && !blocks[i].kind.End? ==> i + 1 < |blocks|)
    && (forall i :: 0 <= i < |blocks| && !blocks[i].kind.End? ==> blocks[i + 1].addr == blocks[i].Limit())
  }

  ghost predicate Geometry(blocks: Blocks) {
    && (forall i :: 0 <= i < |blocks| ==> BlockOk(blocks[i]))
    && Chained(blocks)
    && (forall i, j :: 0 <= i < j < |blocks| ==> Apart(blocks[i], blocks[j]))
  }

  /** No two free blocks touch. */
  ghost predicate Coalesced(blocks: Blocks) {
    forall i :: 0 <= i < |blocks| - 1 && blocks[i].kind.Free? ==> !blocks[i + 1].kind.Free?
  }

  ghost predicate IsFreeAt(blocks: Blocks, a: nat) {
    exists i :: 0 <= i < |blocks| && blocks[i].addr == a && blocks[i].kind.Free?
  }

  /** The list holds exactly the free blocks, each once. */
  ghost predicate Listed(blocks: Blocks, free: seq<nat>) {
    && Distinct(free)
    && (forall a :: a in free <==> IsFreeAt(blocks, a))
  }

  ghost predicate Tiled(st: State) {
    Geometry(st.blocks) && Coalesced(st.blocks) && Listed(st.blocks, st.free)
  }

  ghost predicate Within(blocks: Blocks, limit: nat) {
    forall i :: 0 <= i < |blocks| ==> blocks[i].Limit() <= limit
  }

  // ----------------------------------------------------------------- primitives

  /** Cut block `i` after its first `low` bytes. */
  function Cut(blocks: Blocks, i: nat, low: nat, upper: Kind): Blocks
    requires i < |blocks| && low <= blocks[i].size
  {
    var b := blocks[i];
    blocks[..i] + [b.(size := low), Block(b.addr + low, b.size - low, upper)] + blocks[i + 1..]
  }

  /** Join block `i` with the block after it. */
  function Join(blocks: Blocks, i: nat): Blocks
    requires i + 1 < |blocks|
  {
    blocks[..i] + [blocks[i].(size := blocks[i].size + blocks[i + 1].size)] + blocks[i + 2..]
  }

  function Rekind(blocks: Blocks, i: nat, kind: Kind): Blocks
    requires i < |blocks|
  {
    blocks[i := blocks[i].(kind := kind)]
  }

  lemma CutGeometry(blocks: Blocks, i: nat, low: nat, upper: Kind)
    requires Geometry(blocks) && i < |blocks| && low <= blocks[i].size
    requires !blocks[i].kind.End? && !upper.End?
    requires low % QUANTUM == 0 && low >= HEADER + LINKS && blocks[i].size - low >= HEADER + LINKS
    ensures Geometry(Cut(blocks, i, low, upper))
  {
    var c := Cut(blocks, i, low, upper);
    forall j, k | 0 <= j < k < |c| ensures Apart(c[j], c[k]) {
      var j' := if j <= i then j else j - 1;
      var k' := if k <= i then k else k - 1;
      assert j' < k' ==> Apart(blocks[j'], blocks[k']);
    }
    forall j | 0 <= j < |c|
      ensures BlockOk(c[j]) && (!c[j].kind.End? ==> j + 1 < |c| && c[j + 1].addr == c[j].Limit())
    {
      var j' := if j <= i then j else j - 1;
      assert BlockOk(blocks[j']);
    }
  }

  lemma JoinGeometry(blocks: Blocks, i: nat)
    requires Geometry(blocks) && i + 1 < |blocks|
    requires !blocks[i].kind.End? && !blocks[i + 1].kind.End?
    ensures Geometry(Join(blocks, i))
  {
    var c := Join(blocks, i);
    forall j, k | 0 <= j < k < |c| ensures Apart(c[j], c[k]) {
      var j' := if j <= i then j else j + 1;
      var k' := if k <= i then k else k + 1;
      assert Apart(blocks[j'], blocks[k']);
      assert k == i ==> Apart(blocks[j'], blocks[i + 1]);
      assert j == i ==> Apart(blocks[i], blocks[k']);
    }
    forall j | 0 <= j < |c|
      ensures BlockOk(c[j]) && (!c[j].kind.End? ==> j + 1 < |c| && c[j + 1].addr == c[j].Limit())
    {
      var j' := if j <= i then j else j + 1;
      assert BlockOk(blocks[j']) && BlockOk(blocks[i + 1]);
    }
  }

  lemma RekindGeometry(blocks: Blocks, i: nat, kind: Kind)
    requires Geometry(blocks) && i < |blocks| && !blocks[i].kind.End? && !kind.End?
    ensures Geometry(Rekind(blocks, i, kind))
  {
    var c := Rekind(blocks, i, kind);
    forall j, k | 0 <= j < k < |c| ensures Apart(c[j], c[k]) {
      assert Apart(blocks[j], blocks[k]);
    }
    forall j | 0 <= j < |c| ensures BlockOk(c[j]) { assert BlockOk(blocks[j]); }
  }

  /** Cutting and joining again gives back the tiling. */
  lemma JoinUndoesCut(blocks: Blocks, i: nat, low: nat, upper: Kind)
    requires i < |blocks| && low <= blocks[i].size
    ensures Join(Cut(blocks, i, low, upper), i) == blocks
  {
    var c := Cut(blocks, i, low, upper);
    assert c[..i] == blocks[..i] && c[i + 2..] == blocks[i + 1..];
    assert blocks[i].(size := low).(size := blocks[i].size) == blocks[i];
    assert blocks == blocks[..i] + [blocks[i]] + blocks[i + 1..];
  }

  // -------------------------------------------------------------------- look-up

  ghost predicate HasBlock(blocks: Blocks, a: nat) {
    exists i :: 0 <= i < |blocks| && blocks[i].addr == a
  }

  ghost function IndexOf(blocks: Blocks, a: nat): (i: nat)
    requires HasBlock(blocks, a)
    ensures i < |blocks| && blocks[i].addr == a
  {
    var i :| 0 <= i < |blocks| && blocks[i].addr == a;
    i
  }

  lemma OneBlockAt(blocks: Blocks, i: nat, j: nat)
    requires Geometry(blocks) && i < |blocks| && j < |blocks| && blocks[i].addr == blocks[j].addr
    ensures i == j
  {
    assert BlockOk(blocks[i]) && BlockOk(blocks[j]);
  }

  lemma FoundAt(blocks: Blocks, i: nat)
    requires Geometry(blocks) && i < |blocks|
    ensures HasBlock(blocks, blocks[i].addr) && IndexOf(blocks, blocks[i].addr) == i
  {
    OneBlockAt(blocks, i, IndexOf(blocks, blocks[i].addr));
  }

  ghost function SizeAt(blocks: Blocks, a: nat): nat
    requires HasBlock(blocks, a)
  {
    blocks[IndexOf(blocks, a)].size
  }

  lemma FreeFound(st: State, a: nat)
    requires Tiled(st) && a in st.free
    ensures HasBlock(st.blocks, a) && st.blocks[IndexOf(st.blocks, a)].kind.Free?
  {
    assert IsFreeAt(st.blocks, a);
    var i :| 0 <= i < |st.blocks| && st.blocks[i].addr == a && st.blocks[i].kind.Free?;
    FoundAt(st.blocks, i);
  }

  // ------------------------------------------------------------------- best fit

  /** The place of the best fit among the first `k` sizes: the first of the smallest
      that are large enough. */
  function BestFit(sizes: seq<nat>, size: nat, k: nat): (r: Option<nat>)
    requires k <= |sizes|
    ensures r.Some? ==> r.value < k && sizes[r.value] >= size
  {
    if k == 0 then None
    else
      var best := BestFit(sizes, size, k - 1);
      var s := sizes[k - 1];
      if s >= size && (best.None? || s < sizes[best.value]) then Some(k - 1) else best
  }

  /** Nothing that is large enough is smaller than the best fit, nothing before it is as
      small, and there is none only when everything is too small. */
  lemma {:induction false} BestFitIsSmallest(sizes: seq<nat>, size: nat, k: nat)
    requires k <= |sizes|
    ensures
      match BestFit(sizes, size, k)
      case None => forall j :: 0 <= j < k ==> sizes[j] < size
      case Some(b) =>
        forall j :: 0 <= j < k && sizes[j] >= size ==> sizes[b] < sizes[j] || (sizes[b] == sizes[j] && b <= j)
  {
    if k > 0 { BestFitIsSmallest(sizes, size, k - 1); }
  }

  /** The sizes of the free blocks in list order. */
  ghost function FreeSizes(st: State): (sizes: seq<nat>)
    requires Tiled(st)
    ensures |sizes| == |st.free|
    ensures forall k :: 0 <= k < |st.free| ==>
      HasBlock(st.blocks, st.free[k]) && sizes[k] == SizeAt(st.blocks, st.free[k])
  {
    assert forall k :: 0 <= k < |st.free| ==> HasBlock(st.blocks, st.free[k]) by {
      forall k | 0 <= k < |st.free| ensures HasBlock(st.blocks, st.free[k]) { FreeFound(st, st.free[k]); }
    }
    seq(|st.free|, k requires 0 <= k < |st.free| => SizeAt(st.blocks, st.free[k]))
  }

  // ----------------------------------------------------------- get and release

  ghost function PlaceOf(s: seq<nat>, a: nat): (k: nat)
    requires a in s
    ensures k < |s| && s[k] == a
  {
    var k :| 0 <= k < |s| && s[k] == a;
    k
  }

  /** Bytes taken by a buffer for `request` payload bytes. */
  function Rounded(request: nat): (size: nat)
    ensures size % QUANTUM == 0 && size >= HEADER + LINKS && size >= HEADER + request
  {
    var n := if request < LINKS then LINKS else request;
    (n + (QUANTUM - 1)) / QUANTUM * QUANTUM + HEADER
  }

  /** Take `size` bytes from the free block at place `k` of the list: its upper end
      if enough remains for another block, otherwise all of it. The result is the
      address of the taken block. */
  ghost function Take(st: State, k: nat, size: nat): (State, nat)
    requires Tiled(st) && k < |st.free| && FreeSizes(st)[k] >= size
  {
    FreeFound(st, st.free[k]);
    var a := st.free[k];
    var i := IndexOf(st.blocks, a);
    var s := st.blocks[i].size;
    if s - size > LINKS + HEADER then
      (State(Cut(st.blocks, i, s - size, Used), st.free), a + (s - size))
    else
      (State(Rekind(st.blocks, i, Used), Without(st.free, k)), a)
  }

  ghost function Get(st: State, size: nat): Option<(State, nat)>
    requires Tiled(st)
  {
    match BestFit(FreeSizes(st), size, |st.free|)
    case None => None
    case Some(k) => Some(Take(st, k, size))
  }

  ghost predicate IsUsedAt(blocks: Blocks, a: nat) {
    exists i :: 0 <= i < |blocks| && blocks[i].addr == a && blocks[i].kind.Used?
  }

  ghost predicate FreeBefore(blocks: Blocks, i: nat) {
    0 < i <= |blocks| && blocks[i - 1].kind.Free?
  }

  /** Give back block `i`: join it to a free block before it, or list it; then join
      a free block after it. */
  ghost function GiveBack(st: State, i: nat): (State, nat)
    requires Tiled(st) && i < |st.blocks| && st.blocks[i].kind.Used?
  {
    if FreeBefore(st.blocks, i) then
      (State(Join(st.blocks, i - 1), st.free), i - 1)
    else
      (State(Rekind(st.blocks, i, Free), st.free + [st.blocks[i].addr]), i)
  }

  ghost function Absorb(st: State, j: nat): State
    requires j + 1 < |st.blocks|
  {
    var next := st.blocks[j + 1];
    if next.kind.Free? && next.addr in st.free then
      State(Join(st.blocks, j), Without(st.free, PlaceOf(st.free, next.addr)))
    else st
  }

  ghost function Release(st: State, i: nat): State
    requires Tiled(st) && i < |st.blocks| && st.blocks[i].kind.Used?
  {
    var (st1, j) := GiveBack(st, i);
    assert j + 1 < |st1.blocks|;
    Absorb(st1, j)
  }

  // ----------------------------------------------- what the operations preserve

  lemma FreePlaces(st: State, k: nat) returns (i: nat)
    requires Tiled(st) && k < |st.free|
    ensures i < |st.blocks| && st.blocks[i].addr == st.free[k] && st.blocks[i].kind.Free?
    ensures IndexOf(st.blocks, st.free[k]) == i && FreeSizes(st)[k] == st.blocks[i].size
  {
    FreeFound(st, st.free[k]);
    i := IndexOf(st.blocks, st.free[k]);
  }

  lemma {:induction false} WithoutListed(blocks: Blocks, free: seq<nat>, blocks': Blocks, k: nat)
    requires Listed(blocks, free) && k < |free|
    requires forall a :: IsFreeAt(blocks', a) <==> IsFreeAt(blocks, a) && a != free[k]
    ensures Listed(blocks', Without(free, k))
  {
    var rest := Without(free, k);
    forall a ensures a in rest <==> a in free && a != free[k] {
      if a in free && a != free[k] {
        var m :| 0 <= m < |free| && free[m] == a;
        assert rest[if m < k then m else m - 1] == a;
      }
      if a in rest {
        var m :| 0 <= m < |rest| && rest[m] == a;
        assert free[if m < k then m else m + 1] == a;
      }
    }
  }

  lemma CutTiled(st: State, i: nat, low: nat)
    requires Tiled(st) && i < |st.blocks| && st.blocks[i].kind.Free? && low <= st.blocks[i].size
    requires low % QUANTUM == 0 && low >= HEADER + LINKS && st.blocks[i].size - low >= HEADER + LINKS
    ensures Tiled(State(Cut(st.blocks, i, low, Used), st.free))
  {
    hide Geometry, Coalesced, Cut;
    CutGeometry(st.blocks, i, low, Used);
    CutCoalesced(st.blocks, i, low);
    var c := Cut(st.blocks, i, low, Used);
    forall a ensures IsFreeAt(c, a) <==> IsFreeAt(st.blocks, a) { CutFree(st.blocks, i, low, a); }
  }

  lemma RekindTiled(st: State, i: nat, k: nat)
    requires Tiled(st) && i < |st.blocks| && st.blocks[i].kind.Free?
    requires k < |st.free| && st.free[k] == st.blocks[i].addr
    ensures Tiled(State(Rekind(st.blocks, i, Used), Without(st.free, k)))
  {
    hide Geometry, Listed;
    RekindGeometry(st.blocks, i, Used);
    var c := Rekind(st.blocks, i, Used);
    forall a ensures IsFreeAt(c, a) <==> IsFreeAt(st.blocks, a) && a != st.blocks[i].addr {
      RekindUsed(st.blocks, i, a);
    }
    WithoutListed(st.blocks, st.free, c, k);
  }

  /** Taking a block keeps the tiling. */
  lemma TakeKeepsTiled(st: State, k: nat, size: nat)
    requires Tiled(st) && k < |st.free| && FreeSizes(st)[k] >= size
    requires size % QUANTUM == 0 && size >= HEADER + LINKS
    ensures Tiled(Take(st, k, size).0)
  {
    hide Coalesced, Listed, Chained;
    var i := FreePlaces(st, k);
    assert BlockOk(st.blocks[i]);
    var low := st.blocks[i].size - size;
    if low > LINKS + HEADER {
      CutTiled(st, i, low);
    } else {
      RekindTiled(st, i, k);
    }
  }

  lemma CutCoalesced(blocks: Blocks, i: nat, low: nat)
    requires Coalesced(blocks) && i < |blocks| && low <= blocks[i].size
    ensures Coalesced(Cut(blocks, i, low, Used))
  {
  }

  lemma CutFree(blocks: Blocks, i: nat, low: nat, a: nat)
    requires i < |blocks| && low <= blocks[i].size && blocks[i].kind.Free?
    ensures IsFreeAt(Cut(blocks, i, low, Used), a) <==> IsFreeAt(blocks, a)
  {
    var c := Cut(blocks, i, low, Used);
    if j :| 0 <= j < |blocks| && blocks[j].addr == a && blocks[j].kind.Free? {
      assert c[if j <= i then j else j + 1].addr == a;
    }
    if j :| 0 <= j < |c| && c[j].addr == a && c[j].kind.Free? {
      assert blocks[if j <= i then j else j - 1].addr == a;
    }
  }

  lemma RekindUsed(blocks: Blocks, i: nat, a: nat)
    requires Geometry(blocks) && i < |blocks|
    ensures IsFreeAt(Rekind(blocks, i, Used), a) <==> IsFreeAt(blocks, a) && a != blocks[i].addr
  {
    var c := Rekind(blocks, i, Used);
    if j :| 0 <= j < |blocks| && blocks[j].addr == a && blocks[j].kind.Free? {
      if a == blocks[i].addr { OneBlockAt(blocks, i, j); }
      assert j != i ==> c[j] == blocks[j];
    }
    if j :| 0 <= j < |c| && c[j].addr == a && c[j].kind.Free? {
      assert blocks[j] == c[j];
      if a == blocks[i].addr { OneBlockAt(blocks, i, j); }
    }
  }

  /** Joining a free block with the block after it takes that one from the free ones. */
  lemma JoinFree(blocks: Blocks, i: nat, a: nat)
    requires Geometry(blocks) && i + 1 < |blocks| && blocks[i].kind.Free?
    ensures IsFreeAt(Join(blocks, i), a) <==> IsFreeAt(blocks, a) && a != blocks[i + 1].addr
  {
    hide Geometry;
    var c := Join(blocks, i);
    if j :| 0 <= j < |blocks| && blocks[j].addr == a && blocks[j].kind.Free? {
      if a == blocks[i + 1].addr {
        OneBlockAt(blocks, i + 1, j);
      } else {
        assert c[if j <= i then j else j - 1].addr == a;
      }
    }
    if j :| 0 <= j < |c| && c[j].addr == a && c[j].kind.Free? {
      var j' := if j <= i then j else j + 1;
      assert blocks[j'].addr == a;
      if a == blocks[i + 1].addr { OneBlockAt(blocks, i + 1, j'); }
    }
  }

  /** Tiled, except that free block `j` may touch a free block after it. */
  ghost predicate TiledExcept(st: State, j: nat) {
    && Geometry(st.blocks) && Listed(st.blocks, st.free)
    && j + 1 < |st.blocks| && st.blocks[j].kind.Free?
    && forall i :: 0 <= i < |st.blocks| - 1 && i != j && st.blocks[i].kind.Free? ==> !st.blocks[i + 1].kind.Free?
  }

  lemma UsedIsNotFree(blocks: Blocks, i: nat)
    requires Geometry(blocks) && i < |blocks| && !blocks[i].kind.Free?
    ensures !IsFreeAt(blocks, blocks[i].addr)
  {
    if j :| 0 <= j < |blocks| && blocks[j].addr == blocks[i].addr && blocks[j].kind.Free? {
      OneBlockAt(blocks, i, j);
    }
  }

  lemma RekindFree(blocks: Blocks, i: nat, a: nat)
    requires i < |blocks|
    ensures IsFreeAt(Rekind(blocks, i, Free), a) <==> IsFreeAt(blocks, a) || a == blocks[i].addr
  {
    var c := Rekind(blocks, i, Free);
    assert c[i].addr == blocks[i].addr && c[i].kind.Free?;
    if j :| 0 <= j < |blocks| && blocks[j].addr == a && blocks[j].kind.Free? {
      assert c[j].addr == a && c[j].kind.Free?;
    }
    if j :| 0 <= j < |c| && c[j].addr == a && c[j].kind.Free? {
      assert j != i ==> blocks[j] == c[j];
    }
  }

  lemma GiveBackTiled(st: State, i: nat)
    requires Tiled(st) && i < |st.blocks| && st.blocks[i].kind.Used?
    ensures var (st1, j) := GiveBack(st, i); TiledExcept(st1, j)
  {
    var blocks := st.blocks;
    UsedIsNotFree(blocks, i);
    if FreeBefore(blocks, i) {
      var c := Join(blocks, i - 1);
      JoinGeometry(blocks, i - 1);
      forall a ensures IsFreeAt(c, a) <==> IsFreeAt(blocks, a) { JoinFree(blocks, i - 1, a); }
    } else {
      var c := Rekind(blocks, i, Free);
      RekindGeometry(blocks, i, Free);
      var free := st.free + [blocks[i].addr];
      forall a ensures a in free <==> IsFreeAt(c, a) { RekindFree(blocks, i, a); }
    }
  }

  lemma AbsorbTiled(st: State, j: nat)
    requires TiledExcept(st, j)
    ensures Tiled(Absorb(st, j))
  {
    var blocks := st.blocks;
    var next := blocks[j + 1];
    if next.kind.Free? {
      assert IsFreeAt(blocks, next.addr);
      var c := Join(blocks, j);
      JoinGeometry(blocks, j);
      forall a ensures IsFreeAt(c, a) <==> IsFreeAt(blocks, a) && a != next.addr { JoinFree(blocks, j, a); }
      WithoutListed(blocks, st.free, c, PlaceOf(st.free, next.addr));
    }
  }

  /** A release keeps the tiling. */
  lemma ReleaseKeepsTiled(st: State, i: nat)
    requires Tiled(st) && i < |st.blocks| && st.blocks[i].kind.Used?
    ensures Tiled(Release(st, i))
  {
    GiveBackTiled(st, i);
    var (st1, j) := GiveBack(st, i);
    AbsorbTiled(st1, j);
  }

  lemma FreeStandsAlone(st: State, i: nat)
    requires Tiled(st) && i < |st.blocks| && st.blocks[i].kind.Free?
    ensures i + 1 < |st.blocks| && !st.blocks[i + 1].kind.Free? && !FreeBefore(st.blocks, i)
  {
  }

  lemma ReleaseUndoesCut(st: State, i: nat, low: nat)
    requires Tiled(st) && i < |st.blocks| && st.blocks[i].kind.Free? && low <= st.blocks[i].size
    requires Tiled(State(Cut(st.blocks, i, low, Used), st.free))
    ensures Release(State(Cut(st.blocks, i, low, Used), st.free), i + 1) == st
  {
    hide Tiled, Cut, Join;
    FreeStandsAlone(st, i);
    JoinUndoesCut(st.blocks, i, low, Used);
    CutParts(st.blocks, i, low, Used);
  }

  lemma CutParts(blocks: Blocks, i: nat, low: nat, upper: Kind)
    requires i < |blocks| && low <= blocks[i].size
    ensures
      var c := Cut(blocks, i, low, upper);
      && |c| == |blocks| + 1 && c[i] == blocks[i].(size := low)
      && c[i + 1] == Block(blocks[i].addr + low, blocks[i].size - low, upper)
  {
  }

  lemma ReleaseUndoesRekind(st: State, i: nat, k: nat)
    requires Tiled(st) && i < |st.blocks| && st.blocks[i].kind.Free?
    requires k < |st.free| && st.free[k] == st.blocks[i].addr
    requires Tiled(State(Rekind(st.blocks, i, Used), Without(st.free, k)))
    ensures
      var st2 := Release(State(Rekind(st.blocks, i, Used), Without(st.free, k)), i);
      st2.blocks == st.blocks && multiset(st2.free) == multiset(st.free)
  {
    hide Tiled;
    FreeStandsAlone(st, i);
    assert Rekind(Rekind(st.blocks, i, Used), i, Free) == st.blocks;
    assert st.free == st.free[..k] + [st.free[k]] + st.free[k + 1..];
  }

  lemma ReleaseUndoesTake(st: State, k: nat, size: nat)
    requires Tiled(st) && k < |st.free| && FreeSizes(st)[k] >= size
    requires size % QUANTUM == 0 && size >= HEADER + LINKS
    ensures
      var (st1, a) := Take(st, k, size);
      && Tiled(st1) && HasBlock(st1.blocks, a)
      && var i := IndexOf(st1.blocks, a);
      && st1.blocks[i].kind.Used? && st1.blocks[i].size == TakenSize(FreeSizes(st)[k], size)
      && Release(st1, i).blocks == st.blocks
      && multiset(Release(st1, i).free) == multiset(st.free)
  {
    hide Geometry, Coalesced, Listed, Cut, Release, Without, Distinct;
    var i := FreePlaces(st, k);
    TakeKeepsTiled(st, k, size);
    var st1 := Take(st, k, size).0;
    var low := st.blocks[i].size - size;
    if low > LINKS + HEADER {
      CutParts(st.blocks, i, low, Used);
      FoundAt(st1.blocks, i + 1);
      ReleaseUndoesCut(st, i, low);
    } else {
      FoundAt(st1.blocks, i);
      ReleaseUndoesRekind(st, i, k);
    }
  }

  /** Releasing a buffer straight after getting it restores the tiling, and the
      list holds the same blocks again. */
  lemma ReleaseUndoesGet(st: State, size: nat)
    requires Tiled(st) && size % QUANTUM == 0 && size >= HEADER + LINKS
    requires Get(st, size).Some?
    ensures
      var (st1, a) := Get(st, size).value;
      && Tiled(st1) && HasBlock(st1.blocks, a)
      && var i := IndexOf(st1.blocks, a);
      && st1.blocks[i].kind.Used?
      && st1.blocks[i].size >= size
      && Release(st1, i).blocks == st.blocks
      && multiset(Release(st1, i).free) == multiset(st.free)
  {
    var k := BestFit(FreeSizes(st), size, |st.free|).value;
    ReleaseUndoesTake(st, k, size);
  }

  // --------------------------------------------------------------- conservation

  function Bytes(b: Block, kind: Kind): nat {
    if b.kind == kind then b.size else 0
  }

  /** The bytes in blocks of one kind. */
  function Total(blocks: Blocks, kind: Kind): nat {
    if blocks == [] then 0 else Bytes(blocks[0], kind) + Total(blocks[1..], kind)
  }

  lemma {:induction false} TotalConcat(a: Blocks, b: Blocks, kind: Kind)
    ensures Total(a + b, kind) == Total(a, kind) + Total(b, kind)
  {
    if a == [] {
      assert a + b == b;
    } else {
      TotalConcat(a[1..], b, kind);
      assert (a + b)[1..] == a[1..] + b;
    }
  }

  lemma TotalOne(pre: Blocks, b: Block, post: Blocks, kind: Kind)
    ensures Total(pre + [b] + post, kind) == Total(pre, kind) + Bytes(b, kind) + Total(post, kind)
  {
    TotalConcat(pre + [b], post, kind);
    TotalConcat(pre, [b], kind);
    assert [b][1..] == [];
  }

  lemma TotalTwo(pre: Blocks, x: Block, y: Block, post: Blocks, kind: Kind)
    ensures Total(pre + [x, y] + post, kind) == Total(pre, kind) + Bytes(x, kind) + Bytes(y, kind) + Total(post, kind)
  {
    assert pre + [x, y] + post == (pre + [x]) + [y] + post;
    TotalOne(pre + [x], y, post, kind);
    TotalOne(pre, x, [], kind);
    assert pre + [x] + [] == pre + [x];
  }

  lemma CutTotal(blocks: Blocks, i: nat, low: nat, upper: Kind, kind: Kind)
    requires i < |blocks| && low <= blocks[i].size
    ensures
      var b := blocks[i];
      Total(Cut(blocks, i, low, upper), kind) == Total(blocks, kind) - Bytes(b, kind)
        + Bytes(b.(size := low), kind) + Bytes(Block(b.addr + low, b.size - low, upper), kind)
  {
    hide Total;
    var b := blocks[i];
    assert blocks == blocks[..i] + [b] + blocks[i + 1..];
    TotalOne(blocks[..i], b, blocks[i + 1..], kind);
    TotalTwo(blocks[..i], b.(size := low), Block(b.addr + low, b.size - low, upper), blocks[i + 1..], kind);
  }

  lemma JoinTotal(blocks: Blocks, i: nat, kind: Kind)
    requires i + 1 < |blocks|
    ensures
      var x, y := blocks[i], blocks[i + 1];
      Total(Join(blocks, i), kind) == Total(blocks, kind) - Bytes(x, kind) - Bytes(y, kind)
        + Bytes(x.(size := x.size + y.size), kind)
  {
    hide Total;
    var x, y := blocks[i], blocks[i + 1];
    assert blocks == blocks[..i] + [x, y] + blocks[i + 2..];
    TotalTwo(blocks[..i], x, y, blocks[i + 2..], kind);
    TotalOne(blocks[..i], x.(size := x.size + y.size), blocks[i + 2..], kind);
  }

  lemma RekindTotal(blocks: Blocks, i: nat, to: Kind, kind: Kind)
    requires i < |blocks|
    ensures Total(Rekind(blocks, i, to), kind)
            == Total(blocks, kind) - Bytes(blocks[i], kind) + Bytes(blocks[i].(kind := to), kind)
  {
    hide Total;
    var b := blocks[i];
    assert blocks == blocks[..i] + [b] + blocks[i + 1..];
    assert Rekind(blocks, i, to) == blocks[..i] + [b.(kind := to)] + blocks[i + 1..];
    TotalOne(blocks[..i], b, blocks[i + 1..], kind);
    TotalOne(blocks[..i], b.(kind := to), blocks[i + 1..], kind);
  }

  /** Free and used bytes together. */
  function Capacity(blocks: Blocks): nat {
    Total(blocks, Used) + Total(blocks, Free)
  }

  /** The bytes a taken block has when cut from a free block of `s` bytes. */
  function TakenSize(s: nat, size: nat): (taken: nat)
    requires s >= size
    ensures size <= taken <= size + LINKS + HEADER
  {
    if s - size > LINKS + HEADER then size else s
  }

  /** Bytes move between free and used; none appear or vanish. */
  lemma TakeConserves(st: State, k: nat, size: nat)
    requires Tiled(st) && k < |st.free| && FreeSizes(st)[k] >= size
    ensures
      var (st1, a) := Take(st, k, size);
      && Capacity(st1.blocks) == Capacity(st.blocks)
      && Total(st1.blocks, Used) == Total(st.blocks, Used) + TakenSize(FreeSizes(st)[k], size)
  {
    hide Total;
    var i := FreePlaces(st, k);
    var s := st.blocks[i].size;
    if s - size > LINKS + HEADER {
      CutTotal(st.blocks, i, s - size, Used, Used);
      CutTotal(st.blocks, i, s - size, Used, Free);
    } else {
      RekindTotal(st.blocks, i, Used, Used);
      RekindTotal(st.blocks, i, Used, Free);
    }
  }

  lemma ReleaseConserves(st: State, i: nat)
    requires Tiled(st) && i < |st.blocks| && st.blocks[i].kind.Used?
    ensures
      var blocks := Release(st, i).blocks;
      && Capacity(blocks) == Capacity(st.blocks)
      && Total(blocks, Used) == Total(st.blocks, Used) - st.blocks[i].size
  {
    hide Total, Geometry, Coalesced, Listed;
    var (st1, j) := GiveBack(st, i);
    if FreeBefore(st.blocks, i) {
      JoinTotal(st.blocks, i - 1, Used);
      JoinTotal(st.blocks, i - 1, Free);
    } else {
      RekindTotal(st.blocks, i, Free, Used);
      RekindTotal(st.blocks, i, Free, Free);
    }
    GiveBackTiled(st, i);
    JoinTotal(st1.blocks, j, Used);
    JoinTotal(st1.blocks, j, Free);
  }

  // --------------------------------------------------- other buffers, statistics

  /** Getting a buffer leaves every used block in place and adds the new one. */
  lemma TakeKeepsUsed(st: State, k: nat, size: nat, b: Block)
    requires Tiled(st) && k < |st.free| && FreeSizes(st)[k] >= size > 0
    ensures
      var (st1, a) := Take(st, k, size);
      && Block(a, TakenSize(FreeSizes(st)[k], size), Used) in st1.blocks
      && (b in st.blocks && b.kind.Used? ==> b in st1.blocks && b.addr != a)
  {
    hide Coalesced, Listed, Geometry;
    var i := FreePlaces(st, k);
    var blocks, low := st.blocks, st.blocks[i].size - size;
    var c := Take(st, k, size).0.blocks;
    if low > LINKS + HEADER {
      assert c[i + 1] == Block(blocks[i].addr + low, size, Used);
      if j :| 0 <= j < |blocks| && blocks[j] == b && b.kind.Used? {
        assert c[if j < i then j else j + 1] == b;
        BlocksApart(blocks, i, j);
      }
    } else {
      assert c[i] == blocks[i].(kind := Used);
      if j :| 0 <= j < |blocks| && blocks[j] == b && b.kind.Used? {
        assert c[j] == b;
        BlocksApart(blocks, i, j);
      }
    }
  }

  lemma BlocksApart(blocks: Blocks, i: nat, j: nat)
    requires Geometry(blocks) && i < |blocks| && j < |blocks| && i != j
    ensures Apart(blocks[i], blocks[j]) && blocks[i].size > 0 && blocks[j].size > 0
  {
    assert BlockOk(blocks[i]) && BlockOk(blocks[j]);
    if i < j { assert Apart(blocks[i], blocks[j]); } else { assert Apart(blocks[j], blocks[i]); }
  }

  /** Releasing block `i` leaves every other used block in place. */
  lemma ReleaseKeepsUsed(st: State, i: nat, b: Block)
    requires Tiled(st) && i < |st.blocks| && st.blocks[i].kind.Used?
    requires b in st.blocks && b.kind.Used? && b != st.blocks[i]
    ensures b in Release(st, i).blocks
  {
    hide Coalesced, Listed, Geometry;
    GiveBackTiled(st, i);
    var (st1, j) := GiveBack(st, i);
    var x :| 0 <= x < |st.blocks| && st.blocks[x] == b;
    if FreeBefore(st.blocks, i) {
      assert st1.blocks[if x < i then x else x - 1] == b;
    } else {
      assert st1.blocks[x] == b;
    }
    AbsorbKeepsUsed(st1, j, b);
  }

  lemma AbsorbKeepsUsed(st: State, j: nat, b: Block)
    requires j + 1 < |st.blocks| && st.blocks[j].kind.Free? && b in st.blocks && b.kind.Used?
    ensures b in Absorb(st, j).blocks
  {
    var y :| 0 <= y < |st.blocks| && st.blocks[y] == b;
    var c := Absorb(st, j).blocks;
    if c != st.blocks { assert c[if y < j then y else y - 1] == b; }
  }

  function Sum(s: seq<nat>): nat {
    if s == [] then 0 else Sum(s[..|s| - 1]) + s[|s| - 1]
  }

  /** Adding up the list gives the free bytes of the tiling. */
  lemma {:induction false} ListSum(st: State)
    requires Tiled(st)
    ensures Sum(FreeSizes(st)) == Total(st.blocks, Free)
    decreases |st.free|
  {
    hide Coalesced, Listed, Geometry, Total;
    if st.free == [] {
      NoFreeBlocks(st);
    } else {
      var k := |st.free| - 1;
      var i := FreePlaces(st, k);
      var st1 := State(Rekind(st.blocks, i, Used), Without(st.free, k));
      RekindTiled(st, i, k);
      ListSum(st1);
      RekindTotal(st.blocks, i, Used, Free);
      forall j | 0 <= j < k ensures FreeSizes(st1)[j] == FreeSizes(st)[j] {
        var x := FreePlaces(st1, j);
        FoundAt(st.blocks, x);
      }
      assert FreeSizes(st)[..k] == FreeSizes(st1);
    }
  }

  lemma NoFreeBlocks(st: State)
    requires Tiled(st) && st.free == []
    ensures Total(st.blocks, Free) == 0
  {
    forall i | 0 <= i < |st.blocks| ensures !st.blocks[i].kind.Free? {
      if st.blocks[i].kind.Free? { assert IsFreeAt(st.blocks, st.blocks[i].addr); }
    }
    NoneFreeTotal(st.blocks);
  }

  lemma {:induction false} NoneFreeTotal(blocks: Blocks)
    requires forall i :: 0 <= i < |blocks| ==> !blocks[i].kind.Free?
    ensures Total(blocks, Free) == 0
  {
    if blocks != [] { NoneFreeTotal(blocks[1..]); }
  }

  /** The End block of the region that block `i` lies in. */
  function RegionEnd(blocks: Blocks, i: nat): (e: nat)
    requires i < |blocks|
    ensures i <= e < |blocks|
    decreases |blocks| - i
  {
    if blocks[i].kind.End? || i + 1 == |blocks| then i else RegionEnd(blocks, i + 1)
  }

  /** A buffer that has been got can be found. */
  lemma GetFound(st: State, size: nat) returns (k: nat, b: Block)
    requires Tiled(st) && size % QUANTUM == 0 && size >= HEADER + LINKS && Get(st, size).Some?
    ensures k < |st.free| && FreeSizes(st)[k] >= size && Get(st, size).value == Take(st, k, size)
    ensures
      var (st1, a) := Get(st, size).value;
      && Tiled(st1) && b in st1.blocks && b.addr == a && b.kind.Used? && b.size >= size
      && IsUsedAt(st1.blocks, a) && st1.blocks[IndexOf(st1.blocks, a)] == b
  {
    hide Geometry, Coalesced, Listed, Take;
    k := BestFit(FreeSizes(st), size, |st.free|).value;
    var (st1, a) := Take(st, k, size);
    b := Block(a, TakenSize(FreeSizes(st)[k], size), Used);
    TakeKeepsUsed(st, k, size, b);
    TakeKeepsTiled(st, k, size);
    var i :| 0 <= i < |st1.blocks| && st1.blocks[i] == b;
    FoundAt(st1.blocks, i);
  }

  // ----------------------------------------------------------------- new regions

  /** A new region: one free block and the End header. */
  function Extended(st: State, buf: nat, size: nat): State {
    State(st.blocks + [Block(buf, size, Free), Block(buf + size, HEADER, End)], st.free + [buf])
  }

  ghost predicate Clear(blocks: Blocks, lo: nat, hi: nat) {
    forall i :: 0 <= i < |blocks| ==> blocks[i].Limit() <= lo || hi <= blocks[i].addr
  }

  lemma ExtendedGeometry(st: State, buf: nat, size: nat)
    requires Geometry(st.blocks) && Clear(st.blocks, buf, buf + size + HEADER)
    requires size % QUANTUM == 0 && size >= HEADER + LINKS
    ensures Geometry(Extended(st, buf, size).blocks)
  {
    var c, n := Extended(st, buf, size).blocks, |st.blocks|;
    forall i, j | 0 <= i < j < |c| ensures Apart(c[i], c[j]) {
      if j < n { assert Apart(st.blocks[i], st.blocks[j]); }
    }
    forall i | 0 <= i < |c| ensures BlockOk(c[i]) {
      if i < n { assert BlockOk(st.blocks[i]); }
    }
  }

  lemma ExtendedFree(st: State, buf: nat, size: nat, a: nat)
    ensures IsFreeAt(Extended(st, buf, size).blocks, a) <==> IsFreeAt(st.blocks, a) || a == buf
  {
    var c, n := Extended(st, buf, size).blocks, |st.blocks|;
    assert c[n].addr == buf && c[n].kind.Free?;
    if j :| 0 <= j < n && st.blocks[j].addr == a && st.blocks[j].kind.Free? { assert c[j] == st.blocks[j]; }
    if j :| 0 <= j < |c| && c[j].addr == a && c[j].kind.Free? { assert j < n ==> c[j] == st.blocks[j]; }
  }

  lemma ExtendedTiled(st: State, buf: nat, size: nat)
    requires Tiled(st) && Clear(st.blocks, buf, buf + size + HEADER)
    requires size % QUANTUM == 0 && size >= HEADER + LINKS
    ensures Tiled(Extended(st, buf, size)) && buf !in st.free
  {
    var st1 := Extended(st, buf, size);
    ExtendedGeometry(st, buf, size);
    forall a ensures a in st1.free <==> IsFreeAt(st1.blocks, a) {
      ExtendedFree(st, buf, size, a);
    }
    assert forall j :: 0 <= j < |st.blocks| ==> BlockOk(st.blocks[j]) && st.blocks[j].addr != buf;
    assert !IsFreeAt(st.blocks, buf);
    assert Chained(st.blocks);
  }

  lemma ExtendedTotal(st: State, buf: nat, size: nat)
    ensures Total(Extended(st, buf, size).blocks, Used) == Total(st.blocks, Used)
    ensures Capacity(Extended(st, buf, size).blocks) == Capacity(st.blocks) + size
  {
    var b, e := Block(buf, size, Free), Block(buf + size, HEADER, End);
    assert st.blocks + [b, e] == st.blocks + [b, e] + [];
    TotalTwo(st.blocks, b, e, [], Used);
    TotalTwo(st.blocks, b, e, [], Free);
  }
}
