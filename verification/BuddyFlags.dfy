/**
 What the flags of split nodes do to the blocks below them: an operation on one block never takes
 another free block out of sight, and as long as nothing is released every free block is in sight.
 */
module BuddyFlags {
  import opened BuddyTree
  import opened BuddyArray
  import opened BuddyCompleteness
  import BuddyRuns

  // ----------------------------------------------------------------- flags as latches

  /** From `t` to `t'` the flag of every split node acts as a latch: it is set when both halves are
      flagged, cleared when neither is, and otherwise stays as it was. */
  ghost predicate Latched(t: Tree, t': Tree)
    decreases t'
  {
    t'.Split? ==>
      && (t'.low.flagged && t'.high.flagged ==> t'.flagged)
      && (!t'.low.flagged && !t'.high.flagged ==> !t'.flagged)
      && (t'.low.flagged != t'.high.flagged ==> t'.flagged == (t.Split? && t.flagged))
      && Latched(Low(t), t'.low)
      && Latched(High(t), t'.high)
  }

  lemma {:induction false} NothingLatched(t: Tree, h: nat)
    requires Valid(t, h)
    ensures Latched(t, t)
    decreases h
  {
    if t.Split? {
      NothingLatched(t.low, h - 1);
      NothingLatched(t.high, h - 1);
    }
  }

  lemma {:induction false} AllocateLatches(t: Tree, chunk: nat, h: nat, base: nat, request: nat)
    requires Valid(t, h) && Allocate(t, chunk, h, base, request).Placed?
    ensures Latched(t, Allocate(t, chunk, h, base, request).tree)
    decreases h
  {
    if Deeper(chunk, h, request) {
      if Allocate(Low(t), chunk, h - 1, base, request).Placed? {
        AllocateLatches(Low(t), chunk, h - 1, base, request);
        NothingLatched(High(t), h - 1);
      } else {
        AllocateLatches(High(t), chunk, h - 1, base + Size(chunk, h - 1), request);
        NothingLatched(Low(t), h - 1);
      }
    }
  }

  lemma {:induction false} ReleaseLatches(t: Tree, chunk: nat, h: nat, base: nat, address: nat)
    requires Valid(t, h)
    ensures Latched(t, Release(t, chunk, h, base, address).0)
    decreases h
  {
    NothingLatched(t, h);
    if t.Split? {
      var mid := base + Size(chunk, h - 1);
      NothingLatched(t.low, h - 1);
      NothingLatched(t.high, h - 1);
      if address < mid {
        ReleaseLatches(t.low, chunk, h - 1, base, address);
        ReleaseKeepsValid(t.low, chunk, h - 1, base, address);
      } else {
        ReleaseLatches(t.high, chunk, h - 1, mid, address);
        ReleaseKeepsValid(t.high, chunk, h - 1, mid, address);
      }
    }
  }

  // ------------------------------------------------------------------- nothing gets hidden

  lemma {:induction false} OpenFits(t: Tree, chunk: nat, h: nat, base: nat, j: nat, address: nat)
    requires j <= h && Open(t, chunk, h, base, j, address)
    ensures base <= address && address + Size(chunk, j) <= base + Size(chunk, h)
    decreases h
  {
    if h > j {
      SizeHalves(chunk, h);
      if address < base + Size(chunk, h - 1) {
        OpenFits(Low(t), chunk, h - 1, base, j, address);
      } else {
        OpenFits(High(t), chunk, h - 1, base + Size(chunk, h - 1), j, address);
      }
    }
  }

  /** An allocation hides nothing: an open block that does not overlap the one handed out is still open. */
  lemma {:induction false} AllocateHidesNothing(t: Tree, chunk: nat, h: nat, base: nat, request: nat, j: nat, a: nat)
    requires chunk > 0 && j <= h && Open(t, chunk, h, base, j, a)
    requires
      var o := Allocate(t, chunk, h, base, request);
      o.Placed? && Disjoint(Block(a, Size(chunk, j)), Block(o.address, Size(chunk, FitHeight(chunk, h, request))))
    ensures Open(Allocate(t, chunk, h, base, request).tree, chunk, h, base, j, a)
    decreases h
  {
    var fit, o := FitHeight(chunk, h, request), Allocate(t, chunk, h, base, request);
    AllocateTakesLowestOpen(t, chunk, h, base, request);
    OpenFits(t, chunk, h, base, fit, o.address);
    OpenFits(t, chunk, h, base, j, a);
    SizePositive(chunk, j);
    SizePositive(chunk, fit);
    if Deeper(chunk, h, request) && j < h {
      var mid := base + Size(chunk, h - 1);
      if Allocate(Low(t), chunk, h - 1, base, request).Placed? {
        if a < mid { AllocateHidesNothing(Low(t), chunk, h - 1, base, request, j, a); }
      } else if a >= mid {
        AllocateHidesNothing(High(t), chunk, h - 1, mid, request, j, a);
      }
    }
  }

  /** Nor does a release. */
  lemma {:induction false} ReleaseHidesNothing(t: Tree, chunk: nat, h: nat, base: nat, address: nat, j: nat, a: nat)
    requires Valid(t, h) && j <= h && Open(t, chunk, h, base, j, a)
    ensures Open(Release(t, chunk, h, base, address).0, chunk, h, base, j, a)
    decreases h
  {
    if t.Split? && j < h {
      var mid := base + Size(chunk, h - 1);
      ReleaseKeepsValid(t, chunk, h, base, address);
      if address < mid && a < mid {
        ReleaseHidesNothing(t.low, chunk, h - 1, base, address, j, a);
      } else if address >= mid && a >= mid {
        ReleaseHidesNothing(t.high, chunk, h - 1, mid, address, j, a);
      }
    }
  }

  // ------------------------------------------------------------------- runs without releases

  /** Every free block of the pool can be found. */
  ghost predicate InSight(p: Shape, t: Tree) {
    forall j: nat, a: nat :: j <= p.height && Free(t, p.chunk, p.height, p.start, j, a) ==>
      Open(t, p.chunk, p.height, p.start, j, a)
  }

  lemma FreshInSight(p: Shape)
    requires p.chunk > 0
    ensures InSight(p, Whole(false))
  {
    forall j: nat, a: nat | j <= p.height && Free(Whole(false), p.chunk, p.height, p.start, j, a)
      ensures Open(Whole(false), p.chunk, p.height, p.start, j, a)
    {
      VacantIffFree(Whole(false), p.chunk, p.height, p.start, j, a);
      ClearIsOpen(p.chunk, p.height, p.start, j, a);
    }
  }

  lemma {:induction false} ClearIsOpen(chunk: nat, h: nat, base: nat, j: nat, a: nat)
    requires j <= h && Vacant(Whole(false), chunk, h, base, j, a)
    ensures Open(Whole(false), chunk, h, base, j, a)
    decreases h
  {
    if h > j {
      if a < base + Size(chunk, h - 1) {
        ClearIsOpen(chunk, h - 1, base, j, a);
      } else {
        ClearIsOpen(chunk, h - 1, base + Size(chunk, h - 1), j, a);
      }
    }
  }

  lemma GetKeepsInSight(p: Shape, t: Tree, request: nat)
    requires p.chunk > 0 && Valid(t, p.height) && InSight(p, t)
    ensures InSight(p, BuddyRuns.Step(p, t, BuddyRuns.Get(request)).0)
  {
    hide Open, IsBlock, Live;
    var o := Allocate(t, p.chunk, p.height, p.start, request);
    if o.Placed? {
      var b := Block(o.address, Size(p.chunk, FitHeight(p.chunk, p.height, request)));
      AllocateAddsBlock(t, p.chunk, p.height, p.start, request);
      forall j: nat, a: nat | j <= p.height && Free(o.tree, p.chunk, p.height, p.start, j, a)
        ensures Open(o.tree, p.chunk, p.height, p.start, j, a)
      {
        assert b in Live(o.tree, p.chunk, p.height, p.start);
        assert Disjoint(b, Block(a, Size(p.chunk, j)));
        assert Free(t, p.chunk, p.height, p.start, j, a);
        AllocateHidesNothing(t, p.chunk, p.height, p.start, request, j, a);
      }
    }
  }

  ghost predicate OnlyGets(ops: seq<BuddyRuns.Op>) {
    forall i :: 0 <= i < |ops| ==> ops[i].Get?
  }

  lemma {:induction false} GetsKeepInSight(p: Shape, ops: seq<BuddyRuns.Op>)
    requires p.chunk > 0 && OnlyGets(ops)
    ensures var t := BuddyRuns.Run(p, Whole(false), ops).0; Valid(t, p.height) && InSight(p, t)
    decreases |ops|
  {
    if ops == [] {
      FreshInSight(p);
    } else {
      var n := |ops| - 1;
      var t := BuddyRuns.Run(p, Whole(false), ops[..n]).0;
      GetsKeepInSight(p, ops[..n]);
      GetKeepsInSight(p, t, ops[n].request);
      AllocateAddsBlock(t, p.chunk, p.height, p.start, ops[n].request);
    }
  }

  ghost predicate NoneFree(p: Shape, t: Tree, j: nat)
    requires j <= p.height
  {
    forall a: nat :: !Free(t, p.chunk, p.height, p.start, j, a)
  }

  /** With allocations alone a fresh pool refuses a request exactly when no block of the fitting
      size is free. */
  lemma GetsRefusedIffNoneFree(p: Shape, ops: seq<BuddyRuns.Op>, request: nat)
    requires BuddyRuns.Usable(p) && OnlyGets(ops)
    ensures
      var t := BuddyRuns.Run(p, Whole(false), ops).0;
      BuddyRuns.Step(p, t, BuddyRuns.Get(request)).1 == 0 <==>
        NoneFree(p, t, FitHeight(p.chunk, p.height, request))
  {
    hide Open, Free, BuddyRuns.Run;
    var t, j := BuddyRuns.Run(p, Whole(false), ops).0, FitHeight(p.chunk, p.height, request);
    var o := Allocate(t, p.chunk, p.height, p.start, request);
    GetsKeepInSight(p, ops);
    AllocateTakesLowestOpen(t, p.chunk, p.height, p.start, request);
    if o.Placed? {
      OpenFits(t, p.chunk, p.height, p.start, j, o.address);
      OpenIsVacantInSight(t, p.chunk, p.height, p.start, j, o.address);
      VacantIffFree(t, p.chunk, p.height, p.start, j, o.address);
    }
  }
}
