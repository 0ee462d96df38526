/**
 The buddy allocator as a recursive function on trees. This is the simple form
 that the iterative pools of kernel/utils refine: `low` is the lower half of a
 node's address range (the source's Right child), `high` the upper half (its
 Left child).
 */
module BuddyTree {
  import opened Powers

  /** A node that is not split is a `Whole` block; nothing is kept below it. */
  datatype Tree =
    | Whole(flagged: bool)
    | Split(flagged: bool, low: Tree, high: Tree)
  {
    predicate Busy() {
      Split? || flagged
    }
  }

  datatype Block = Block(address: nat, size: nat)

  datatype Outcome = NoBlock | Placed(tree: Tree, address: nat)

  /** Byte length of a node of height `h`. */
  function Size(chunk: nat, h: nat): (s: nat) {
    chunk * Pow2(h)
  }

  lemma SizeHalves(chunk: nat, h: nat)
    requires h > 0
    ensures Size(chunk, h) == Size(chunk, h - 1) + Size(chunk, h - 1)
  {
  }

  lemma SizePositive(chunk: nat, h: nat)
    requires chunk > 0
    ensures Size(chunk, h) > 0
  {
  }

  /** What every reachable tree keeps: the flag of a split node lies between the
      AND and the OR of its children's flags, and a split node has something
      below it. */
  ghost predicate Valid(t: Tree, h: nat) {
    t.Split? ==>
      && h > 0
      && Valid(t.low, h - 1)
      && Valid(t.high, h - 1)
      && (t.low.flagged && t.high.flagged ==> t.flagged)
      && (t.flagged ==> t.low.flagged || t.high.flagged)
      && (t.low.Busy() || t.high.Busy())
  }

  /** The halves of a node, reading an unsplit node as two clear ones. */
  function Low(t: Tree): Tree {
    if t.Split? then t.low else Whole(false)
  }

  function High(t: Tree): Tree {
    if t.Split? then t.high else Whole(false)
  }

  /** A split node after an allocation below it. */
  function Joined(low: Tree, high: Tree): Tree {
    Split(low.flagged && high.flagged, low, high)
  }

  /** Does a request continue below a node of height `h`? */
  predicate Deeper(chunk: nat, h: nat, request: nat) {
    h > 0 && request <= Size(chunk, h - 1)
  }

  /** The height at which a request is placed. */
  function FitHeight(chunk: nat, h: nat, request: nat): (j: nat)
    ensures j <= h
  {
    if Deeper(chunk, h, request) then FitHeight(chunk, h - 1, request) else h
  }

  /** Lower half first, then the upper half; flagged nodes are skipped. */
  function Allocate(t: Tree, chunk: nat, h: nat, base: nat, request: nat): Outcome
    decreases h
  {
    if t.flagged then
      NoBlock
    else if Deeper(chunk, h, request) then
      match Allocate(Low(t), chunk, h - 1, base, request)
      case Placed(low, a) => Placed(Joined(low, High(t)), a)
      case NoBlock =>
        match Allocate(High(t), chunk, h - 1, base + Size(chunk, h - 1), request)
        case Placed(high, a) => Placed(Joined(Low(t), high), a)
        case NoBlock => NoBlock
    else if t.Split? then
      NoBlock
    else
      Placed(Whole(true), base)
  }

  /** A split node after a release below it. */
  function Merged(flagged: bool, low: Tree, high: Tree): Tree {
    if low.flagged || high.flagged then Split(flagged, low, high)
    else if low.Split? || high.Split? then Split(false, low, high)
    else Whole(false)
  }

  /** Follow the address down to an unsplit node and release it. */
  function Release(t: Tree, chunk: nat, h: nat, base: nat, address: nat): (Tree, bool)
    decreases t
  {
    match t
    case Whole(flagged) =>
      if flagged && base <= address < base + Size(chunk, h) then (Whole(false), true) else (t, false)
    case Split(flagged, low, high) =>
      if h == 0 then
        (t, false)
      else if address < base + Size(chunk, h - 1) then
        var (low', ok) := Release(low, chunk, h - 1, base, address);
        if ok then (Merged(flagged, low', high), true) else (t, false)
      else
        var (high', ok) := Release(high, chunk, h - 1, base + Size(chunk, h - 1), address);
        if ok then (Merged(flagged, low, high'), true) else (t, false)
  }

  // ---------------------------------------------------------------- live blocks

  /** The blocks handed out and not yet released. */
  ghost function Live(t: Tree, chunk: nat, h: nat, base: nat): set<Block>
    decreases t
  {
    match t
    case Whole(flagged) => if flagged then {Block(base, Size(chunk, h))} else {}
    case Split(_, low, high) =>
      if h == 0 then {}
      else Live(low, chunk, h - 1, base) + Live(high, chunk, h - 1, base + Size(chunk, h - 1))
  }

  ghost predicate Contains(b: Block, address: nat) {
    b.address <= address < b.address + b.size
  }

  ghost predicate Disjoint(a: Block, b: Block) {
    a.address + a.size <= b.address || b.address + b.size <= a.address
  }

  /** Inside the node, of size chunk * 2^j, and aligned to its own size relative to the node. */
  ghost predicate WellPlaced(b: Block, chunk: nat, h: nat, base: nat) {
    && base <= b.address
    && b.address + b.size <= base + Size(chunk, h)
    && exists j: nat, n: nat :: j <= h && OnGrid(b, base, Size(chunk, j), n)
  }

  /** The block is the `n`-th of the `unit`-sized blocks that start at `base`. */
  ghost predicate OnGrid(b: Block, base: nat, unit: nat, n: nat) {
    b.size == unit && b.address == base + n * unit
  }

  lemma GridShift(b: Block, base: nat, unit: nat, m: nat, n: nat)
    requires OnGrid(b, base + m * unit, unit, n)
    ensures OnGrid(b, base, unit, m + n)
  {
    assert (m + n) * unit == m * unit + n * unit;
  }

  lemma SizeMultiple(chunk: nat, j: nat, h: nat)
    requires j <= h
    ensures Size(chunk, h) == Pow2(h - j) * Size(chunk, j)
  {
    Pow2Sum(h - j, j);
    Exchange(chunk, Pow2(h - j), Pow2(j));
  }

  lemma WellPlacedRaise(b: Block, chunk: nat, h: nat, base: nat, upper: bool)
    requires h > 0
    requires WellPlaced(b, chunk, h - 1, if upper then base + Size(chunk, h - 1) else base)
    ensures WellPlaced(b, chunk, h, base)
  {
    SizeHalves(chunk, h);
    var start := if upper then base + Size(chunk, h - 1) else base;
    var j: nat, n: nat :| j <= h - 1 && OnGrid(b, start, Size(chunk, j), n);
    if upper {
      SizeMultiple(chunk, j, h - 1);
      GridShift(b, base, Size(chunk, j), Pow2(h - 1 - j), n);
    }
  }

  /** Every live block is well placed. */
  lemma {:induction false} LiveWellPlaced(t: Tree, chunk: nat, h: nat, base: nat)
    ensures forall b :: b in Live(t, chunk, h, base) ==> WellPlaced(b, chunk, h, base)
    decreases t
  {
    match t
    case Whole(_) =>
      assert OnGrid(Block(base, Size(chunk, h)), base, Size(chunk, h), 0);
    case Split(_, low, high) =>
      if h > 0 {
        var mid := base + Size(chunk, h - 1);
        LiveWellPlaced(low, chunk, h - 1, base);
        LiveWellPlaced(high, chunk, h - 1, mid);
        forall b | b in Live(t, chunk, h, base) ensures WellPlaced(b, chunk, h, base) {
          WellPlacedRaise(b, chunk, h, base, b !in Live(low, chunk, h - 1, base));
        }
      }
  }

  /** No two live blocks overlap. */
  lemma {:induction false} LiveDisjoint(t: Tree, chunk: nat, h: nat, base: nat)
    ensures forall a, b :: a in Live(t, chunk, h, base) && b in Live(t, chunk, h, base) && a != b ==> Disjoint(a, b)
    decreases t
  {
    match t
    case Whole(_) =>
    case Split(_, low, high) =>
      if h > 0 {
        var mid := base + Size(chunk, h - 1);
        LiveDisjoint(low, chunk, h - 1, base);
        LiveDisjoint(high, chunk, h - 1, mid);
        LiveWellPlaced(low, chunk, h - 1, base);
        LiveWellPlaced(high, chunk, h - 1, mid);
      }
  }

  // ----------------------------------------------------------------- allocation

  /** The block at `address` of height `j` is open: no flag on it or above it, and it is not split. */
  ghost predicate Open(t: Tree, chunk: nat, h: nat, base: nat, j: nat, address: nat)
    requires j <= h
    decreases h
  {
    && !t.flagged
    && if h == j then
         t.Whole? && address == base
       else if address < base + Size(chunk, h - 1) then
         Open(Low(t), chunk, h - 1, base, j, address)
       else
         Open(High(t), chunk, h - 1, base + Size(chunk, h - 1), j, address)
  }

  lemma {:induction false} OpenInside(t: Tree, chunk: nat, h: nat, base: nat, j: nat, address: nat)
    requires chunk > 0 && j <= h
    requires Open(t, chunk, h, base, j, address)
    ensures base <= address < base + Size(chunk, h)
    decreases h
  {
    SizePositive(chunk, h);
    if h > j {
      SizeHalves(chunk, h);
      if address < base + Size(chunk, h - 1) {
        OpenInside(Low(t), chunk, h - 1, base, j, address);
      } else {
        OpenInside(High(t), chunk, h - 1, base + Size(chunk, h - 1), j, address);
      }
    }
  }

  lemma OpenSplits(t: Tree, chunk: nat, h: nat, base: nat, j: nat, a: nat)
    requires chunk > 0 && j < h && !t.flagged
    ensures
      var mid := base + Size(chunk, h - 1);
      var low, high := Open(Low(t), chunk, h - 1, base, j, a), Open(High(t), chunk, h - 1, mid, j, a);
      && (Open(t, chunk, h, base, j, a) <==> low || high)
      && (low ==> a < mid)
      && (high ==> mid <= a)
  {
    var mid := base + Size(chunk, h - 1);
    if Open(Low(t), chunk, h - 1, base, j, a) { OpenInside(Low(t), chunk, h - 1, base, j, a); }
    if Open(High(t), chunk, h - 1, mid, j, a) { OpenInside(High(t), chunk, h - 1, mid, j, a); }
  }

  /** `o` reports the lowest open block of height `j`, or that there is none. */
  ghost predicate ReportsLowest(t: Tree, chunk: nat, h: nat, base: nat, j: nat, o: Outcome)
    requires j <= h
  {
    if o.NoBlock? then
      forall a: nat :: !Open(t, chunk, h, base, j, a)
    else
      && Open(t, chunk, h, base, j, o.address)
      && forall a: nat :: Open(t, chunk, h, base, j, a) ==> o.address <= a
  }

  /** The search takes the lowest open block of the fitting height, and fails exactly when there is none. */
  lemma {:induction false} AllocateTakesLowestOpen(t: Tree, chunk: nat, h: nat, base: nat, request: nat)
    requires chunk > 0
    ensures ReportsLowest(t, chunk, h, base, FitHeight(chunk, h, request), Allocate(t, chunk, h, base, request))
    decreases h
  {
    if !t.flagged && Deeper(chunk, h, request) {
      var j := FitHeight(chunk, h - 1, request);
      AllocateTakesLowestOpen(Low(t), chunk, h - 1, base, request);
      AllocateTakesLowestOpen(High(t), chunk, h - 1, base + Size(chunk, h - 1), request);
      forall a: nat { OpenSplits(t, chunk, h, base, j, a); }
    }
  }

  /** The fitting height is the smallest one whose block holds the request; a
      request larger than the whole node is still given the node. */
  lemma {:induction false} FitHeightIsSmallest(chunk: nat, h: nat, request: nat)
    ensures
      var j := FitHeight(chunk, h, request);
      && (request <= Size(chunk, h) <==> request <= Size(chunk, j))
      && (forall i: nat :: i < j ==> request > Size(chunk, i))
      && (request > Size(chunk, h) ==> j == h)
  {
    if Deeper(chunk, h, request) {
      FitHeightIsSmallest(chunk, h - 1, request);
      SizeHalves(chunk, h);
    } else if h > 0 {
      forall i: nat | i < h ensures request > Size(chunk, i) {
        SizeMonotone(chunk, i, h - 1);
      }
    }
  }

  /** A clear node places every request at its start. */
  lemma {:induction false} ClearStartsAtBase(chunk: nat, h: nat, base: nat, request: nat)
    ensures Allocate(Whole(false), chunk, h, base, request).Placed?
    ensures Allocate(Whole(false), chunk, h, base, request).address == base
  {
    if Deeper(chunk, h, request) { ClearStartsAtBase(chunk, h - 1, base, request); }
  }

  /** Of a clear pool, a request is given enough exactly when the pool is large enough; a larger
      one is not refused but given the whole pool. */
  lemma OversizeTakesAll(chunk: nat, h: nat, base: nat, request: nat)
    ensures request <= Size(chunk, h) <==> request <= Size(chunk, FitHeight(chunk, h, request))
    ensures request > Size(chunk, h) ==> Allocate(Whole(false), chunk, h, base, request) == Placed(Whole(true), base)
  {
    FitHeightIsSmallest(chunk, h, request);
    if h > 0 { SizeHalves(chunk, h); }
  }

  lemma SizeMonotone(chunk: nat, i: nat, h: nat)
    requires i <= h
    ensures Size(chunk, i) <= Size(chunk, h)
  {
    Pow2Monotone(i, h);
    assert chunk * Pow2(i) <= chunk * Pow2(h);
  }

  /** An allocation keeps the invariant and adds exactly one block to the live
      ones, of the fitting size and disjoint from all of them. */
  lemma {:induction false} AllocateAddsBlock(t: Tree, chunk: nat, h: nat, base: nat, request: nat)
    requires chunk > 0 && Valid(t, h)
    ensures
      match Allocate(t, chunk, h, base, request)
      case NoBlock => true
      case Placed(t', a) =>
        var b := Block(a, Size(chunk, FitHeight(chunk, h, request)));
        && Valid(t', h)
        && t'.Busy()
        && b !in Live(t, chunk, h, base)
        && Live(t', chunk, h, base) == Live(t, chunk, h, base) + {b}
    decreases h
  {
    if !t.flagged && Deeper(chunk, h, request) {
      var half := Size(chunk, h - 1);
      AllocateAddsBlock(Low(t), chunk, h - 1, base, request);
      AllocateAddsBlock(High(t), chunk, h - 1, base + half, request);
      SizePositive(chunk, FitHeight(chunk, h, request));
      match Allocate(Low(t), chunk, h - 1, base, request)
      case Placed(low, a) =>
        LiveWellPlaced(low, chunk, h - 1, base);
        LiveWellPlaced(High(t), chunk, h - 1, base + half);
      case NoBlock =>
        match Allocate(High(t), chunk, h - 1, base + half, request)
        case Placed(high, a) =>
          LiveWellPlaced(high, chunk, h - 1, base + half);
          LiveWellPlaced(Low(t), chunk, h - 1, base);
        case NoBlock =>
    }
  }

  // -------------------------------------------------------------------- release

  /** A release keeps the invariant; flags are only ever cleared. */
  lemma {:induction false} ReleaseKeepsValid(t: Tree, chunk: nat, h: nat, base: nat, address: nat)
    requires Valid(t, h)
    ensures
      var (t', ok) := Release(t, chunk, h, base, address);
      Valid(t', h) && (t'.flagged ==> t.flagged) && (!ok ==> t' == t)
    decreases t
  {
    if t.Split? {
      ReleaseKeepsValid(t.low, chunk, h - 1, base, address);
      ReleaseKeepsValid(t.high, chunk, h - 1, base + Size(chunk, h - 1), address);
    }
  }

  lemma MergedLive(flagged: bool, low: Tree, high: Tree, chunk: nat, h: nat, base: nat)
    requires h > 0
    ensures Live(Merged(flagged, low, high), chunk, h, base)
            == Live(low, chunk, h - 1, base) + Live(high, chunk, h - 1, base + Size(chunk, h - 1))
  {
  }

  /** Releasing an address succeeds exactly when a live block contains it. */
  lemma {:induction false} ReleaseSucceeds(t: Tree, chunk: nat, h: nat, base: nat, address: nat)
    requires Valid(t, h)
    ensures Release(t, chunk, h, base, address).1 <==> exists b :: b in Live(t, chunk, h, base) && Contains(b, address)
    decreases t
  {
    match t
    case Whole(_) =>
      var b := Block(base, Size(chunk, h));
      assert t.flagged ==> b in Live(t, chunk, h, base);
      assert Contains(b, address) <==> base <= address < base + Size(chunk, h);
    case Split(_, low, high) =>
      var mid := base + Size(chunk, h - 1);
      var lows, highs := Live(low, chunk, h - 1, base), Live(high, chunk, h - 1, mid);
      LiveWellPlaced(low, chunk, h - 1, base);
      LiveWellPlaced(high, chunk, h - 1, mid);
      if address < mid {
        ReleaseSucceeds(low, chunk, h - 1, base, address);
        assert forall b :: b in highs ==> !Contains(b, address);
      } else {
        ReleaseSucceeds(high, chunk, h - 1, mid, address);
        assert forall b :: b in lows ==> !Contains(b, address);
      }
  }

  /** A release gives back exactly the live block that contains the address. */
  lemma {:induction false} ReleaseRemovesBlock(t: Tree, chunk: nat, h: nat, base: nat, address: nat, b: Block)
    requires Valid(t, h)
    requires b in Live(t, chunk, h, base) && Contains(b, address)
    ensures Live(Release(t, chunk, h, base, address).0, chunk, h, base) == Live(t, chunk, h, base) - {b}
    decreases t
  {
    ReleaseSucceeds(t, chunk, h, base, address);
    if t.Split? {
      var low, high := t.low, t.high;
      var mid := base + Size(chunk, h - 1);
      LiveWellPlaced(low, chunk, h - 1, base);
      LiveWellPlaced(high, chunk, h - 1, mid);
      if address < mid {
        ReleaseRemovesBlock(low, chunk, h - 1, base, address, b);
        ReleaseSucceeds(low, chunk, h - 1, base, address);
        assert b !in Live(high, chunk, h - 1, mid);
        MergedLive(t.flagged, Release(low, chunk, h - 1, base, address).0, high, chunk, h, base);
      } else {
        ReleaseRemovesBlock(high, chunk, h - 1, mid, address, b);
        ReleaseSucceeds(high, chunk, h - 1, mid, address);
        assert b !in Live(low, chunk, h - 1, base);
        MergedLive(t.flagged, low, Release(high, chunk, h - 1, mid, address).0, chunk, h, base);
      }
    }
  }

  /** A subtree with no live block is a clear unsplit node. */
  lemma {:induction false} NoLiveIsClear(t: Tree, chunk: nat, h: nat, base: nat)
    requires Valid(t, h)
    ensures Live(t, chunk, h, base) == {} <==> t == Whole(false)
    decreases t
  {
    match t
    case Whole(_) =>
      if t.flagged { assert Block(base, Size(chunk, h)) in Live(t, chunk, h, base); }
    case Split(_, low, high) =>
      var mid := base + Size(chunk, h - 1);
      NoLiveIsClear(low, chunk, h - 1, base);
      NoLiveIsClear(high, chunk, h - 1, mid);
      var x :| x in Live(low, chunk, h - 1, base) + Live(high, chunk, h - 1, mid);
      assert x in Live(t, chunk, h, base);
  }
}
