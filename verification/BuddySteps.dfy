/**
 The invariants of the two iterative loops, and one lemma for each of their
 steps. Both pools keep these invariants, the array pool on its array and the
 pointer pool on the flags its nodes hold.
 */
module BuddySteps {
  import opened Powers
  import opened BuddyTree
  import opened BuddyArray

  // ------------------------------------------------------------------- allocate

  /** The search stands at node `i` on level `d`, having started from flags `c0`.
      Until a clear node is split nothing has changed; after that the search is
      on a clear node below the only node that does not fit its children. */
  ghost predicate Searching(p: Shape, c0: Flags, request: nat, c: Flags, i: nat, d: nat) {
    && |c| == |c0| == NodeCount(p.height)
    && i < |c| && OnLevel(i, d) && d <= p.height
    && PathOpen(c, i)
    && (i > 0 ==> !c[i].flagged)
    && ((c == c0 && Sound(c)) || (i > 0 && c[i] == CLEAR && SoundExcept(c, Parent(i))))
    && From(p, c, i, d, request) == From(p, c0, 0, 0, request)
  }

  /** The subtree at `i` has its final flags, and the rest of the way is bookkeeping. */
  ghost predicate Marking(p: Shape, c0: Flags, request: nat, c: Flags, i: nat, address: nat) {
    && |c| == |c0| == NodeCount(p.height)
    && i < |c| && PathOpen(c, i)
    && c[i] != CLEAR
    && SoundExcept(c, if i == 0 then -1 else Parent(i))
    && From(p, c0, 0, 0, request) == Placed(Rebuild(c, i, TreeAt(c, i)), address)
  }

  lemma RootLevel(k: nat)
    ensures OnLevel(0, 0) && 0 < NodeCount(k) && NodeCount(k) % 2 == 1
  {
    Pow2Monotone(1, k + 1);
  }

  lemma SearchStarts(p: Shape, c: Flags, request: nat)
    requires |c| == NodeCount(p.height) && Sound(c)
    ensures Searching(p, c, request, c, 0, 0) && p.Base(0, 0) == p.start
    ensures From(p, c, 0, 0, request) == Allocate(TreeAt(c, 0), p.chunk, p.height, p.start, request)
  {
    RootLevel(p.height);
  }

  /** A flagged root ends the search. */
  lemma SearchBlocked(p: Shape, c0: Flags, request: nat, c: Flags, i: nat, d: nat)
    requires Searching(p, c0, request, c, i, d) && c[i].flagged
    ensures i == 0 && c == c0 && From(p, c0, 0, 0, request) == NoBlock
  {
  }

  lemma SplitKeepsSound(c: Flags, i: nat)
    requires 2 * i + 2 < |c| && c[i] == CLEAR && PathOpen(c, i)
    requires SoundExcept(c, if i == 0 then -1 else Parent(i))
    ensures SoundExcept(c[i := Chunk(true, false)], i)
  {
    var c' := c[i := Chunk(true, false)];
    forall j: nat | j < |c'| && j != i ensures NodeOk(c', j) {
      assert (i > 0 && j == Parent(i)) || NodeOk(c, j);
    }
  }

  /** One level down: the lower half unless it is flagged. */
  lemma SearchDescends(p: Shape, c0: Flags, request: nat, c: Flags, i: nat, d: nat)
    requires Searching(p, c0, request, c, i, d)
    requires !c[i].flagged && Deeper(p.chunk, p.height - d, request)
    ensures 2 * i + 2 < |c| && OnLevel(2 * i + 1, d + 1) && OnLevel(2 * i + 2, d + 1)
    ensures
      var c' := c[i := c[i].(split := true)];
      if !c'[2 * i + 2].flagged then Searching(p, c0, request, c', 2 * i + 2, d + 1)
      else Searching(p, c0, request, c', 2 * i + 1, d + 1)
    ensures p.Base(2 * i + 2, d + 1) == p.Base(i, d)
    ensures p.Base(2 * i + 1, d + 1) == p.Base(i, d) + p.Span(d + 1)
  {
    hide Pow2, Size, OnLevel, NodeCount, Rebuild;
    LevelBelow(i, d, p.height);
    var left, right := 2 * i + 1, 2 * i + 2;
    var c' := c[i := c[i].(split := true)];
    assert NodeOk(c, i);
    assert Parent(left) == i && Parent(right) == i;
    if c[i].split {
      assert c' == c;
      FromLowerHalf(p, c, i, d, request);
    } else {
      FromFreshSplit(p, c, i, d, request);
      FromLowerHalf(p, c', i, d, request);
      SplitKeepsSound(c, i);
      PathOpenFrame(c, i, c'[i], i);
    }
    assert PathOpen(c', left) && PathOpen(c', right);
    if c'[right].flagged {
      assert From(p, c', right, d + 1, request) == From(p, c', left, d + 1, request);
    }
  }

  /** The node is unsplit and fits: mark it. */
  lemma SearchPlaces(p: Shape, c0: Flags, request: nat, c: Flags, i: nat, d: nat)
    requires Searching(p, c0, request, c, i, d)
    requires c[i] == CLEAR && !Deeper(p.chunk, p.height - d, request)
    ensures Marking(p, c0, request, c[i := Chunk(false, true)], i, p.Base(i, d))
  {
    var x := Chunk(false, true);
    var c' := c[i := x];
    LevelBelow(i, d, p.height);
    PathOpenFrame(c, i, x, i);
    RebuildFrame(c, i, x, i, Whole(true));
    forall j: nat | j < |c'| && j != (if i == 0 then -1 else Parent(i)) ensures NodeOk(c', j) {
      assert NodeOk(c, j);
    }
  }

  /** Bookkeeping at a node of the allocation. */
  function Marked(x: Chunk, left: Chunk, right: Chunk): Chunk {
    if left.flagged && right.flagged then x.(flagged := true) else x
  }

  /** Once node `q` fits its children, only its parent can be left that does not. */
  lemma FitMovesUp(c: Flags, q: nat, x: Chunk)
    requires q < |c| && SoundExcept(c, q) && NodeOk(c[q := x], q)
    ensures SoundExcept(c[q := x], if q == 0 then -1 else Parent(q))
  {
    var c' := c[q := x];
    forall j: nat | j < |c'| && j != q && !(q > 0 && j == Parent(q)) ensures NodeOk(c', j) {
      assert NodeOk(c, j);
      assert 2 * j + 1 != q && 2 * j + 2 != q;
    }
  }

  lemma MarkedFits(c: Flags, i: nat)
    requires |c| % 2 == 1 && 0 < i < |c| && PathOpen(c, i) && c[i] != CLEAR
    ensures var q := Parent(i); NodeOk(c[q := Marked(c[q], c[2 * q + 1], c[2 * q + 2])], q)
  {
  }

  /** Bookkeeping at the parent: it is flagged once both children are. */
  lemma MarkAscends(p: Shape, c0: Flags, request: nat, c: Flags, i: nat, address: nat)
    requires Marking(p, c0, request, c, i, address) && i > 0
    ensures
      var q := Parent(i);
      && 2 * q + 2 < |c|
      && Marking(p, c0, request, c[q := Marked(c[q], c[2 * q + 1], c[2 * q + 2])], q, address)
  {
    hide Pow2, Size, OnLevel, NodeCount, Rebuild, NodeOk, From;
    var q := Parent(i);
    var x := Marked(c[q], c[2 * q + 1], c[2 * q + 2]);
    var c' := c[q := x];
    var (low, high) := Pair(c, i, TreeAt(c, i));
    RebuildUp(c, i, TreeAt(c, i));
    TreeAtFrame(c, q, x, 2 * q + 1);
    TreeAtFrame(c, q, x, 2 * q + 2);
    assert TreeAt(c', q) == Joined(low, high);
    RebuildFrame(c, q, x, q, Joined(low, high));
    PathOpenFrame(c, q, x, q);
    MarkedFits(c, i);
    FitMovesUp(c, q, x);
  }

  /** At the root the flags are those of the recursive allocation. */
  lemma MarkEnds(p: Shape, c0: Flags, request: nat, c: Flags, address: nat)
    requires Marking(p, c0, request, c, 0, address)
    ensures Sound(c) && From(p, c0, 0, 0, request) == Placed(TreeAt(c, 0), address)
  {
  }

  // ------------------------------------------------------------- FindNextParent

  /** The climb from `i` has reached `f` and found nothing on the way. */
  ghost predicate Climbing(p: Shape, c: Flags, request: nat, i: nat, d: nat, f: nat, e: nat) {
    && |c| == NodeCount(p.height)
    && i < |c| && OnLevel(i, d) && d <= p.height
    && f < |c| && OnLevel(f, e) && e <= p.height
    && PathOpen(c, f)
    && p.Base(f, e) <= p.Base(i, d) < p.Base(f, e) + p.Span(e)
    && Resume(p, c, f, e, request, NoBlock) == Resume(p, c, i, d, request, NoBlock)
  }

  lemma ClimbStarts(p: Shape, c0: Flags, request: nat, c: Flags, i: nat, d: nat)
    requires Searching(p, c0, request, c, i, d) && p.chunk > 0
    requires c[i].split && !Deeper(p.chunk, p.height - d, request)
    ensures c == c0 && Climbing(p, c, request, i, d, i, d)
    ensures Resume(p, c, i, d, request, NoBlock) == From(p, c0, 0, 0, request)
  {
    LevelBelow(i, d, p.height);
    SizePositive(p.chunk, p.height - d);
    assert NodeOk(c, i);
  }

  /** A failed lower half hands over to the upper half, a failed upper half to the parent. */
  lemma ResumePasses(p: Shape, c: Flags, request: nat, f: nat, e: nat)
    requires |c| % 2 == 1 && 0 < f < |c| && OnLevel(f, e) && e <= p.height
    ensures e > 0 && OnLevel(Parent(f), e - 1)
    ensures f % 2 == 1 ==> Resume(p, c, f, e, request, NoBlock) == Resume(p, c, Parent(f), e - 1, request, NoBlock)
    ensures f % 2 == 0 ==>
      && OnLevel(f - 1, e)
      && Resume(p, c, f, e, request, NoBlock) == From(p, c, f - 1, e, request)
      && (c[f - 1].flagged ==> From(p, c, f - 1, e, request) == Resume(p, c, f - 1, e, request, NoBlock))
  {
    LevelAbove(f, e);
    LevelSibling(f, e);
  }

  lemma BaseAbove(p: Shape, f: nat, e: nat)
    requires f > 0 && OnLevel(f, e) && e <= p.height
    ensures e > 0 && OnLevel(Parent(f), e - 1) && p.Span(e - 1) == p.Span(e) + p.Span(e)
    ensures p.Base(f, e) == p.Base(Parent(f), e - 1) + if f % 2 == 1 then p.Span(e) else 0
  {
    LevelAbove(f, e);
    SizeHalves(p.chunk, p.height - e + 1);
  }

  lemma ClimbUp(p: Shape, c: Flags, request: nat, i: nat, d: nat, f: nat, e: nat)
    requires Climbing(p, c, request, i, d, f, e) && f > 0
    requires f % 2 == 0 ==> c[f - 1].flagged
    ensures e > 0 && OnLevel(Parent(f), e - 1) && Climbing(p, c, request, i, d, Parent(f), e - 1)
    ensures p.Base(f, e) == p.Base(Parent(f), e - 1) + if f % 2 == 1 then p.Span(e) else 0
  {
    hide Pow2, Size, OnLevel, NodeCount, Resume, From, Shape.Base;
    RootLevel(p.height);
    BaseAbove(p, f, e);
    ResumePasses(p, c, request, f, e);
    if f % 2 == 0 {
      ResumePasses(p, c, request, f - 1, e);
      assert Parent(f - 1) == Parent(f);
    }
  }

  lemma ClimbEnds(p: Shape, c: Flags, request: nat, i: nat, d: nat, e: nat)
    requires Climbing(p, c, request, i, d, 0, e)
    ensures Resume(p, c, i, d, request, NoBlock) == NoBlock
  {
  }

  lemma ClimbAcross(p: Shape, c: Flags, request: nat, i: nat, d: nat, f: nat, e: nat)
    requires Climbing(p, c, request, i, d, f, e)
    requires f > 0 && f % 2 == 0
    ensures OnLevel(f - 1, e) && p.Base(f - 1, e) == p.Base(f, e) + p.Span(e)
    ensures Resume(p, c, i, d, request, NoBlock) == From(p, c, f - 1, e, request)
    ensures PathOpen(c, f - 1)
  {
    RootLevel(p.height);
    ResumePasses(p, c, request, f, e);
    BaseAbove(p, f, e);
    BaseAbove(p, f - 1, e);
    assert Parent(f - 1) == Parent(f);
  }

  // -------------------------------------------------------------------- release

  /** Every proper ancestor of `i` is split. */
  ghost predicate PathSplit(c: Flags, i: nat)
    requires i < |c|
    decreases i
  {
    i > 0 ==> c[Parent(i)].split && PathSplit(c, Parent(i))
  }

  lemma {:induction false} PathSplitFrame(c: Flags, i: nat, x: Chunk, a: nat)
    requires i < |c| && a <= i && PathSplit(c, a)
    ensures PathSplit(c[i := x], a)
    decreases a
  {
    if a > 0 { PathSplitFrame(c, i, x, Parent(a)); }
  }

  /** The whole tree after a release turned the subtree at `i` into `t`. */
  function Unwind(c: Flags, i: nat, t: Tree): Tree
    requires i < |c| && |c| % 2 == 1
    decreases i
  {
    if i == 0 then t
    else
      var (low, high) := Pair(c, i, t);
      Unwind(c, Parent(i), Merged(c[Parent(i)].flagged, low, high))
  }

  lemma {:induction false} UnwindFrame(c: Flags, i: nat, x: Chunk, a: nat, t: Tree)
    requires i < |c| && |c| % 2 == 1 && Below(i, a)
    ensures a < |c| && Unwind(c[i := x], a, t) == Unwind(c, a, t)
    decreases a
  {
    BelowBounds(i, a);
    if a > 0 {
      NotBelowSibling(i, a);
      TreeAtFrame(c, i, x, Sibling(a));
      BelowChild(i, Parent(a));
      var (low, high) := Pair(c, a, t);
      UnwindFrame(c, i, x, Parent(a), Merged(c[Parent(a)].flagged, low, high));
    }
  }

  /** The release of the whole tree, seen from node `i`. */
  function ReleaseFrom(p: Shape, c: Flags, i: nat, d: nat, address: nat): (Tree, bool)
    requires i < |c| && |c| % 2 == 1 && OnLevel(i, d) && d <= p.height
  {
    var (t, ok) := Release(TreeAt(c, i), p.chunk, p.height - d, p.Base(i, d), address);
    if ok then (Unwind(c, i, t), true) else (TreeAt(c, 0), false)
  }

  /** The descent stands at node `i`; nothing has changed. */
  ghost predicate Seeking(p: Shape, c: Flags, address: nat, i: nat, d: nat) {
    && |c| == NodeCount(p.height) && Sound(c)
    && i < |c| && OnLevel(i, d) && d <= p.height
    && PathSplit(c, i)
    && ReleaseFrom(p, c, i, d, address) == Release(TreeAt(c, 0), p.chunk, p.height, p.start, address)
  }

  /** The subtree at `i` has its final flags after the release. */
  ghost predicate Clearing(p: Shape, c0: Flags, address: nat, c: Flags, i: nat) {
    && |c| == |c0| == NodeCount(p.height)
    && i < |c| && PathSplit(c, i)
    && SoundExcept(c, if i == 0 then -1 else Parent(i))
    && (i > 0 ==> c[i].flagged && c[Sibling(i)].flagged ==> c[Parent(i)].flagged)
    && Release(TreeAt(c0, 0), p.chunk, p.height, p.start, address) == (Unwind(c, i, TreeAt(c, i)), true)
  }

  lemma SeekStarts(p: Shape, c: Flags, address: nat)
    requires |c| == NodeCount(p.height) && Sound(c)
    ensures Seeking(p, c, address, 0, 0) && p.Base(0, 0) == p.start
  {
    RootLevel(p.height);
  }

  lemma SeekDescends(p: Shape, c: Flags, address: nat, i: nat, d: nat)
    requires Seeking(p, c, address, i, d) && c[i].split
    ensures 2 * i + 2 < |c| && d < p.height && OnLevel(2 * i + 1, d + 1) && OnLevel(2 * i + 2, d + 1)
    ensures Seeking(p, c, address, if address < p.Base(i, d) + p.Span(d + 1) then 2 * i + 2 else 2 * i + 1, d + 1)
    ensures p.Base(2 * i + 2, d + 1) == p.Base(i, d)
    ensures p.Base(2 * i + 1, d + 1) == p.Base(i, d) + p.Span(d + 1)
  {
    hide Pow2, Size, OnLevel, NodeCount, Shape.Base, Parent, Sibling, Merged;
    LevelBelow(i, d, p.height);
    RootLevel(p.height);
    SplitIsInside(c, i);
    BaseBelow(p, i, d);
    ChildrenOf(i);
    SplitTree(c, i);
  }

  lemma SplitIsInside(c: Flags, i: nat)
    requires Sound(c) && i < |c| && c[i].split
    ensures 2 * i + 2 < |c|
  {
    assert NodeOk(c, i);
  }

  lemma SplitTree(c: Flags, i: nat)
    requires 2 * i + 2 < |c| && c[i].split
    ensures TreeAt(c, i) == Split(c[i].flagged, TreeAt(c, 2 * i + 2), TreeAt(c, 2 * i + 1))
  {}

  /** Where the children of a node begin. */
  lemma BaseBelow(p: Shape, i: nat, d: nat)
    requires OnLevel(i, d) && d < p.height && OnLevel(2 * i + 1, d + 1) && OnLevel(2 * i + 2, d + 1)
    ensures p.Base(2 * i + 2, d + 1) == p.Base(i, d)
    ensures p.Base(2 * i + 1, d + 1) == p.Base(i, d) + p.Span(d + 1)
  {
    hide Pow2, Size, OnLevel, Parent;
    ChildrenOf(i);
  }

  lemma SeekReleases(p: Shape, c: Flags, address: nat, i: nat, d: nat)
    requires Seeking(p, c, address, i, d) && !c[i].split
    ensures
      var hit := c[i].flagged && p.Base(i, d) <= address < p.Base(i, d) + p.Span(d);
      if hit then Clearing(p, c, address, c[i := CLEAR], i)
      else Release(TreeAt(c, 0), p.chunk, p.height, p.start, address) == (TreeAt(c, 0), false)
  {
    LevelBelow(i, d, p.height);
    var c' := c[i := CLEAR];
    UnwindFrame(c, i, CLEAR, i, Whole(false));
    PathSplitFrame(c, i, CLEAR, i);
    if i > 0 { assert NodeOk(c, Parent(i)); }
    forall j: nat | j < |c'| && j != (if i == 0 then -1 else Parent(i)) ensures NodeOk(c', j) {
      assert NodeOk(c, j);
    }
  }

  /** Bookkeeping at a node of the release. */
  function Coalesced(x: Chunk, left: Chunk, right: Chunk): Chunk {
    if left.flagged || right.flagged then x
    else Chunk(x.split && (left.split || right.split), false)
  }

  lemma CoalescedFits(c: Flags, q: nat)
    requires 2 * q + 2 < |c| && c[q].split && SoundExcept(c, q)
    requires c[2 * q + 1].flagged && c[2 * q + 2].flagged ==> c[q].flagged
    ensures NodeOk(c[q := Coalesced(c[q], c[2 * q + 1], c[2 * q + 2])], q)
  {
    assert NodeOk(c, 2 * q + 1) && NodeOk(c, 2 * q + 2);
  }

  lemma FlagsBelowParent(c: Flags, q: nat, x: Chunk)
    requires |c| % 2 == 1 && 0 < q < |c| && SoundExcept(c, q)
    requires c[Parent(q)].split && (x.flagged ==> c[q].flagged)
    ensures x.flagged && c[Sibling(q)].flagged ==> c[Parent(q)].flagged
  {
    assert NodeOk(c, Parent(q));
  }

  lemma CoalescedTree(c: Flags, q: nat)
    requires 2 * q + 2 < |c| && c[q].split && SoundExcept(c, q)
    ensures TreeAt(c[q := Coalesced(c[q], c[2 * q + 1], c[2 * q + 2])], q)
            == Merged(c[q].flagged, TreeAt(c, 2 * q + 2), TreeAt(c, 2 * q + 1))
  {
    var x := Coalesced(c[q], c[2 * q + 1], c[2 * q + 2]);
    TreeAtFrame(c, q, x, 2 * q + 1);
    TreeAtFrame(c, q, x, 2 * q + 2);
    assert NodeOk(c, 2 * q + 1) && NodeOk(c, 2 * q + 2);
  }

  /** The two children of the parent, one of which is `i`. */
  lemma ClearedPair(c: Flags, i: nat)
    requires |c| % 2 == 1 && 0 < i < |c| && PathSplit(c, i)
    requires c[i].flagged && c[Sibling(i)].flagged ==> c[Parent(i)].flagged
    ensures
      var q := Parent(i);
      && 2 * q + 2 < |c| && c[q].split && PathSplit(c, q)
      && (c[2 * q + 1].flagged && c[2 * q + 2].flagged ==> c[q].flagged)
  {
    hide Parent, Sibling;
    ParentOf(i);
  }

  /** The whole tree is the same one step up. */
  lemma ClearedTree(c: Flags, i: nat)
    requires |c| % 2 == 1 && 0 < i < |c|
    requires 2 * Parent(i) + 2 < |c| && c[Parent(i)].split && SoundExcept(c, Parent(i))
    ensures
      var q := Parent(i);
      var c' := c[q := Coalesced(c[q], c[2 * q + 1], c[2 * q + 2])];
      Unwind(c', q, TreeAt(c', q)) == Unwind(c, i, TreeAt(c, i))
  {
    hide TreeAt, NodeOk, SoundExcept, Merged, Coalesced, Parent, Sibling;
    var q := Parent(i);
    ParentOf(i);
    var (low, high) := Pair(c, i, TreeAt(c, i));
    CoalescedTree(c, q);
    UnwindFrame(c, q, Coalesced(c[q], c[2 * q + 1], c[2 * q + 2]), q, Merged(c[q].flagged, low, high));
  }

  lemma ClearAscends(p: Shape, c0: Flags, address: nat, c: Flags, i: nat)
    requires Clearing(p, c0, address, c, i) && i > 0
    ensures
      var q := Parent(i);
      && 2 * q + 2 < |c|
      && Clearing(p, c0, address, c[q := Coalesced(c[q], c[2 * q + 1], c[2 * q + 2])], q)
  {
    hide Pow2, NodeCount, TreeAt, NodeOk, SoundExcept, Release, Unwind, PathSplit;
    RootLevel(p.height);
    var q := Parent(i);
    ClearedPair(c, i);
    ClearedTree(c, i);
    var x := Coalesced(c[q], c[2 * q + 1], c[2 * q + 2]);
    PathSplitFrame(c, q, x, q);
    CoalescedFits(c, q);
    FitMovesUp(c, q, x);
    if q > 0 {
      ClearedParent(c, q);
      FlagsBelowParent(c, q, x);
    }
  }

  lemma ClearedParent(c: Flags, q: nat)
    requires 0 < q < |c| && PathSplit(c, q)
    ensures c[Parent(q)].split
  {}

  /** At the root the flags are those of the recursive release. */
  lemma ClearEnds(p: Shape, c0: Flags, address: nat, c: Flags)
    requires Clearing(p, c0, address, c, 0)
    ensures Sound(c)
    ensures Release(TreeAt(c0, 0), p.chunk, p.height, p.start, address) == (TreeAt(c, 0), true)
  {
  }
}
