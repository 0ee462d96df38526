/**
 When a buddy pool turns a request down although there is room: the flag of a split node
 outlives one of the two blocks below it and hides the other half.
 */
module BuddyCompleteness {
  import opened Powers
  import opened BuddyTree
  import opened BuddyArray
  import BuddyRuns

  /** The block of height `j` at `address` holds nothing that is in use. */
  ghost predicate Vacant(t: Tree, chunk: nat, h: nat, base: nat, j: nat, address: nat)
    requires j <= h
    decreases h
  {
    if h == j then address == base && Live(t, chunk, h, base) == {}
    else if t.Whole? && t.flagged then false
    else if address < base + Size(chunk, h - 1) then Vacant(Low(t), chunk, h - 1, base, j, address)
    else Vacant(High(t), chunk, h - 1, base + Size(chunk, h - 1), j, address)
  }

  /** One of the blocks of height `j` that the node consists of. */
  ghost predicate IsBlock(chunk: nat, h: nat, base: nat, j: nat, address: nat)
    requires j <= h
  {
    exists n: nat :: n < Pow2(h - j) && OnGrid(Block(address, Size(chunk, j)), base, Size(chunk, j), n)
  }

  /** The block is free memory: no byte of it belongs to a live block. */
  ghost predicate Free(t: Tree, chunk: nat, h: nat, base: nat, j: nat, address: nat)
    requires j <= h
  {
    IsBlock(chunk, h, base, j, address)
    && forall b :: b in Live(t, chunk, h, base) ==> Disjoint(b, Block(address, Size(chunk, j)))
  }

  /** The blocks of a node are those of its halves. */
  lemma BlockOfHalf(chunk: nat, h: nat, base: nat, j: nat, address: nat)
    requires chunk > 0 && j < h
    ensures var mid := base + Size(chunk, h - 1);
      IsBlock(chunk, h, base, j, address) <==>
        if address < mid then IsBlock(chunk, h - 1, base, j, address) else IsBlock(chunk, h - 1, mid, j, address)
  {
    hide Size;
    var unit, half, mid, b := Size(chunk, j), Pow2(h - 1 - j), base + Size(chunk, h - 1),
      Block(address, Size(chunk, j));
    SizePositive(chunk, j);
    SizeMultiple(chunk, j, h - 1);
    SizeMultiple(chunk, j, h);
    if IsBlock(chunk, h, base, j, address) {
      var n: nat :| n < Pow2(h - j) && OnGrid(b, base, unit, n);
      GridOrder(n, half, unit);
      GridOrder(n, 2 * half, unit);
      if n < half {
        assert OnGrid(b, base, unit, n);
      } else {
        Distribute(half, n - half, unit);
        assert OnGrid(b, mid, unit, n - half);
      }
    } else if address >= mid && IsBlock(chunk, h - 1, mid, j, address) {
      var n: nat :| n < half && OnGrid(b, mid, unit, n);
      GridShift(b, base, unit, half, n);
    }
  }

  lemma LiveInside(t: Tree, chunk: nat, h: nat, base: nat)
    ensures forall b :: b in Live(t, chunk, h, base) ==>
      base <= b.address && b.address + b.size <= base + Size(chunk, h)
  {
    LiveWellPlaced(t, chunk, h, base);
  }

  /** A block of one half is free exactly if it is free in that half. */
  lemma FreeOfHalf(t: Tree, chunk: nat, h: nat, base: nat, j: nat, address: nat)
    requires chunk > 0 && Valid(t, h) && j < h && !(t.Whole? && t.flagged)
    ensures var mid := base + Size(chunk, h - 1);
      Free(t, chunk, h, base, j, address) <==>
        if address < mid then Free(Low(t), chunk, h - 1, base, j, address)
        else Free(High(t), chunk, h - 1, mid, j, address)
  {
    hide Size, IsBlock;
    var mid := base + Size(chunk, h - 1);
    BlockOfHalf(chunk, h, base, j, address);
    LiveInside(Low(t), chunk, h - 1, base);
    LiveInside(High(t), chunk, h - 1, mid);
    if IsBlock(chunk, h - 1, base, j, address) { BlockInside(chunk, h - 1, base, j, address); }
  }

  lemma BlockInside(chunk: nat, h: nat, base: nat, j: nat, address: nat)
    requires chunk > 0 && j <= h && IsBlock(chunk, h, base, j, address)
    ensures base <= address && address + Size(chunk, j) <= base + Size(chunk, h)
  {
    hide Size;
    var n: nat :| n < Pow2(h - j) && OnGrid(Block(address, Size(chunk, j)), base, Size(chunk, j), n);
    SizePositive(chunk, j);
    SizeMultiple(chunk, j, h);
    GridOrder(n, Pow2(h - j), Size(chunk, j));
  }

  /** A node of the block's own height. */
  lemma FreeNode(t: Tree, chunk: nat, h: nat, base: nat, address: nat)
    requires chunk > 0
    ensures Free(t, chunk, h, base, h, address) <==> address == base && Live(t, chunk, h, base) == {}
  {
    hide Size;
    SizePositive(chunk, h);
    LiveWellPlaced(t, chunk, h, base);
    assert IsBlock(chunk, h, base, h, base) by {
      assert OnGrid(Block(base, Size(chunk, h)), base, Size(chunk, h), 0);
    }
    if address == base {
      forall b | b in Live(t, chunk, h, base) ensures !Disjoint(b, Block(base, Size(chunk, h))) {
        LivePositive(t, chunk, h, base, b);
      }
    }
  }

  lemma LivePositive(t: Tree, chunk: nat, h: nat, base: nat, b: Block)
    requires chunk > 0 && b in Live(t, chunk, h, base)
    ensures b.size > 0
  {
    LiveWellPlaced(t, chunk, h, base);
    var j: nat, n: nat :| j <= h && OnGrid(b, base, Size(chunk, j), n);
    SizePositive(chunk, j);
  }

  /** Vacant is free, seen from the tree. */
  lemma {:induction false} VacantIffFree(t: Tree, chunk: nat, h: nat, base: nat, j: nat, address: nat)
    requires chunk > 0 && Valid(t, h) && j <= h
    ensures Vacant(t, chunk, h, base, j, address) <==> Free(t, chunk, h, base, j, address)
    decreases h
  {
    hide Size, Free, Live;
    if h == j {
      FreeNode(t, chunk, h, base, address);
    } else if t.Whole? && t.flagged {
      TakenIsNotFree(chunk, h, base, j, address);
    } else {
      FreeOfHalf(t, chunk, h, base, j, address);
      if address < base + Size(chunk, h - 1) {
        VacantIffFree(Low(t), chunk, h - 1, base, j, address);
      } else {
        VacantIffFree(High(t), chunk, h - 1, base + Size(chunk, h - 1), j, address);
      }
    }
  }

  lemma TakenIsNotFree(chunk: nat, h: nat, base: nat, j: nat, address: nat)
    requires chunk > 0 && j <= h
    ensures !Free(Whole(true), chunk, h, base, j, address)
  {
    hide Size, IsBlock;
    if IsBlock(chunk, h, base, j, address) {
      BlockInside(chunk, h, base, j, address);
      SizePositive(chunk, j);
      assert Block(base, Size(chunk, h)) in Live(Whole(true), chunk, h, base);
    }
  }

  /** A split node on the way to the block is flagged. */
  ghost predicate Hidden(t: Tree, chunk: nat, h: nat, base: nat, j: nat, address: nat)
    requires j <= h
    decreases h
  {
    h > j
    && ((t.Split? && t.flagged)
        || (if address < base + Size(chunk, h - 1) then Hidden(Low(t), chunk, h - 1, base, j, address)
            else Hidden(High(t), chunk, h - 1, base + Size(chunk, h - 1), j, address)))
  }

  /** A block is open exactly when it is vacant and not hidden. */
  lemma {:induction false} OpenIsVacantInSight(t: Tree, chunk: nat, h: nat, base: nat, j: nat, address: nat)
    requires Valid(t, h) && j <= h
    ensures Open(t, chunk, h, base, j, address) <==>
      Vacant(t, chunk, h, base, j, address) && !Hidden(t, chunk, h, base, j, address)
    decreases h
  {
    if h == j {
      NoLiveIsClear(t, chunk, h, base);
    } else if address < base + Size(chunk, h - 1) {
      OpenIsVacantInSight(Low(t), chunk, h - 1, base, j, address);
    } else {
      OpenIsVacantInSight(High(t), chunk, h - 1, base + Size(chunk, h - 1), j, address);
    }
  }

  ghost predicate FreeIsHidden(t: Tree, chunk: nat, h: nat, base: nat, j: nat, address: nat)
    requires j <= h
  {
    Free(t, chunk, h, base, j, address) ==> Hidden(t, chunk, h, base, j, address)
  }

  ghost predicate AllHidden(t: Tree, chunk: nat, h: nat, base: nat, j: nat)
    requires j <= h
  {
    forall a: nat :: FreeIsHidden(t, chunk, h, base, j, a)
  }

  /** A request is turned down exactly when every free block of the fitting size is hidden. */
  lemma RefusedIffHidden(t: Tree, chunk: nat, h: nat, base: nat, request: nat)
    requires chunk > 0 && Valid(t, h)
    ensures
      var j := FitHeight(chunk, h, request);
      Allocate(t, chunk, h, base, request).NoBlock? <==> AllHidden(t, chunk, h, base, j)
  {
    hide Free;
    var j := FitHeight(chunk, h, request);
    AllocateTakesLowestOpen(t, chunk, h, base, request);
    forall a: nat ensures Open(t, chunk, h, base, j, a) <==> !FreeIsHidden(t, chunk, h, base, j, a) {
      OpenIsVacantInSight(t, chunk, h, base, j, a);
      VacantIffFree(t, chunk, h, base, j, a);
    }
    var o := Allocate(t, chunk, h, base, request);
    if o.Placed? {
      assert !FreeIsHidden(t, chunk, h, base, j, o.address);
      assert !AllHidden(t, chunk, h, base, j);
    }
  }

  /** Take both halves of a pool, give the upper one back, and it is not given out again. */
  lemma UpperHalfHidden(p: Shape)
    requires BuddyRuns.Usable(p) && p.height > 0
    ensures
      var half := Size(p.chunk, p.height - 1);
      var take, give := BuddyRuns.Get(half), BuddyRuns.Put(p.start + half);
      BuddyRuns.Run(p, Whole(false), [take, take, give, take]).1 == [p.start, p.start + half, 0, 0]
  {
    hide Size;
    var half := Size(p.chunk, p.height - 1);
    var a, c := BuddyRuns.Get(half), BuddyRuns.Put(p.start + half);
    var one, two, three := Split(false, Whole(true), Whole(false)), Split(true, Whole(true), Whole(true)),
      Split(true, Whole(true), Whole(false));
    SizePositive(p.chunk, p.height - 1);
    if p.height > 1 {
      SizePositive(p.chunk, p.height - 2);
      SizeHalves(p.chunk, p.height - 1);
    }
    assert !Deeper(p.chunk, p.height - 1, half) && Deeper(p.chunk, p.height, half);
    assert Allocate(Whole(false), p.chunk, p.height - 1, p.start, half) == Placed(Whole(true), p.start);
    assert Allocate(Whole(true), p.chunk, p.height - 1, p.start, half) == NoBlock;
    assert Allocate(Whole(false), p.chunk, p.height - 1, p.start + half, half)
        == Placed(Whole(true), p.start + half);
    assert BuddyRuns.Step(p, Whole(false), a) == (one, p.start);
    assert BuddyRuns.Step(p, one, a) == (two, p.start + half);
    assert BuddyRuns.Step(p, two, c) == (three, 0);
    assert BuddyRuns.Step(p, three, a) == (three, 0);
    RunMore(p, [], a);
    RunMore(p, [a], a);
    RunMore(p, [a, a], c);
    RunMore(p, [a, a, c], a);
    assert [] + [a] == [a] && [a] + [a] == [a, a] && [a, a] + [c] == [a, a, c];
    assert [a, a, c] + [a] == [a, a, c, a];
  }

  lemma RunMore(p: Shape, ops: seq<BuddyRuns.Op>, op: BuddyRuns.Op)
    ensures
      var (t, replies) := BuddyRuns.Run(p, Whole(false), ops);
      var (t', reply) := BuddyRuns.Step(p, t, op);
      BuddyRuns.Run(p, Whole(false), ops + [op]) == (t', replies + [reply])
  {
    assert (ops + [op])[..|ops|] == ops;
  }
}
