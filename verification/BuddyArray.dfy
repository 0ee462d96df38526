/**
 The tree as it is stored by the pools: one Split flag and one Allocated flag for
 each node, children of node i at 2i+1 (upper half) and 2i+2 (lower half). The
 lemmas here carry an iterative search over such a sequence of flags to the
 recursive functions of `BuddyTree`.
 */
module BuddyArray {
  import opened Powers
  import opened BuddyTree

  datatype Chunk = Chunk(split: bool, flagged: bool)

  const CLEAR := Chunk(false, false)

  type Flags = seq<Chunk>

  function Parent(i: nat): nat
    requires i > 0
  {
    (i - 1) / 2
  }

  /** The tree below node `i`. */
  function TreeAt(c: Flags, i: nat): Tree
    requires i < |c|
    decreases |c| - i
  {
    if c[i].split && 2 * i + 2 < |c| then
      Split(c[i].flagged, TreeAt(c, 2 * i + 2), TreeAt(c, 2 * i + 1))
    else
      Whole(c[i].flagged)
  }

  // ---------------------------------------------------------------- node levels

  /** Number of nodes of a tree of height `k`. */
  function NodeCount(k: nat): (n: nat)
    ensures n > 0 && n % 2 == 1
  {
    assert Pow2(k + 1) == 2 * Pow2(k);
    Pow2(k + 1) - 1
  }

  predicate OnLevel(i: nat, d: nat) {
    Pow2(d) - 1 <= i < Pow2(d + 1) - 1
  }

  lemma LevelBelow(i: nat, d: nat, k: nat)
    requires OnLevel(i, d) && d <= k
    ensures i < NodeCount(k)
    ensures 2 * i + 2 < NodeCount(k) <==> d < k
    ensures OnLevel(2 * i + 1, d + 1) && OnLevel(2 * i + 2, d + 1)
  {
    Pow2Monotone(d + 1, k + 1);
    if d < k { Pow2Monotone(d + 2, k + 1); }
  }

  lemma LevelAbove(i: nat, d: nat)
    requires OnLevel(i, d) && i > 0
    ensures d > 0 && OnLevel(Parent(i), d - 1)
  {
  }

  lemma LevelSibling(i: nat, d: nat)
    requires OnLevel(i, d) && i > 0
    ensures OnLevel(Sibling(i), d) && Parent(Sibling(i)) == Parent(i)
  {
    LevelAbove(i, d);
  }

  /** A pool: `Length == chunk * 2^height`. */
  datatype Shape = Shape(start: nat, chunk: nat, height: nat) {
    /** Length of a node on level `d`. */
    function Span(d: nat): nat
      requires d <= height
    {
      Size(chunk, height - d)
    }

    /** Start address of node `i` on level `d`. */
    function Base(i: nat, d: nat): nat
      requires OnLevel(i, d) && d <= height
      decreases d
    {
      if i == 0 then start
      else
        LevelAbove(i, d);
        Base(Parent(i), d - 1) + if i % 2 == 1 then Span(d) else 0
    }

    /** The search below node `i` on level `d`. */
    function Search(c: Flags, i: nat, d: nat, request: nat): Outcome
      requires i < |c| && OnLevel(i, d) && d <= height
    {
      Allocate(TreeAt(c, i), chunk, height - d, Base(i, d), request)
    }
  }

  lemma {:induction false} BaseInside(p: Shape, i: nat, d: nat)
    requires OnLevel(i, d) && d <= p.height
    ensures p.start <= p.Base(i, d)
    ensures p.Base(i, d) + p.Span(d) <= p.start + p.Span(0)
    decreases d
  {
    if i > 0 {
      LevelAbove(i, d);
      BaseInside(p, Parent(i), d - 1);
      SizeHalves(p.chunk, p.height - d + 1);
    }
  }

  // ------------------------------------------------------------ local invariant

  /** What holds between a node and its two children. */
  predicate Fits(x: Chunk, left: Chunk, right: Chunk) {
    if x.split then
      && (left.flagged && right.flagged ==> x.flagged)
      && (x.flagged ==> left.flagged || right.flagged)
      && (left != CLEAR || right != CLEAR)
    else
      left == CLEAR && right == CLEAR
  }

  predicate NodeOk(c: Flags, i: nat)
    requires i < |c|
  {
    if 2 * i + 2 < |c| then Fits(c[i], c[2 * i + 1], c[2 * i + 2]) else !c[i].split
  }

  /** Every node fits its children, except perhaps node `except`. */
  ghost predicate SoundExcept(c: Flags, except: int) {
    forall j: nat :: j < |c| && j != except ==> NodeOk(c, j)
  }

  ghost predicate Sound(c: Flags) {
    SoundExcept(c, -1)
  }

  /** Sound flags make a valid tree. */
  lemma {:induction false} SoundIsValid(c: Flags, i: nat, d: nat, k: nat)
    requires |c| == NodeCount(k) && Sound(c)
    requires OnLevel(i, d) && d <= k
    ensures i < |c| && Valid(TreeAt(c, i), k - d)
    decreases k - d
  {
    LevelBelow(i, d, k);
    assert NodeOk(c, i);
    if d < k {
      SoundIsValid(c, 2 * i + 1, d + 1, k);
      SoundIsValid(c, 2 * i + 2, d + 1, k);
      assert NodeOk(c, 2 * i + 1) && NodeOk(c, 2 * i + 2);
    }
  }

  /** Two sound flag sequences with the same tree are the same sequence. */
  lemma {:induction false} SameTreeBelow(c: Flags, c': Flags, i: nat, j: nat)
    requires |c| == |c'| && |c| % 2 == 1 && Sound(c) && Sound(c')
    requires i < |c| && j < |c| && Below(j, i)
    requires TreeAt(c, i) == TreeAt(c', i)
    ensures c[j] == c'[j]
    decreases |c| - i
  {
    assert NodeOk(c, i) && NodeOk(c', i);
    if j != i {
      BelowChild(j, i);
      var m := if Below(j, 2 * i + 1) then 2 * i + 1 else 2 * i + 2;
      BelowBounds(j, m);
      assert c[i].split == c'[i].split;
      if c[i].split {
        SameTreeBelow(c, c', m, j);
      } else {
        assert NodeOk(c, m) && NodeOk(c', m);
        assert TreeAt(c, m) == TreeAt(c', m);
        SameTreeBelow(c, c', m, j);
      }
    }
  }

  lemma SameTreeSameFlags(c: Flags, c': Flags)
    requires |c| == |c'| && |c| % 2 == 1 && Sound(c) && Sound(c')
    requires TreeAt(c, 0) == TreeAt(c', 0)
    ensures c == c'
  {
    forall j: nat | j < |c| ensures c[j] == c'[j] {
      BelowRoot(j);
      SameTreeBelow(c, c', 0, j);
    }
  }

  // ------------------------------------------------------------------- ancestry

  /** `i` is `s` or a descendant of `s`. */
  predicate Below(i: nat, s: nat) {
    i == s || (i > s && Below(Parent(i), s))
  }

  lemma {:induction false} BelowRoot(i: nat)
    ensures Below(i, 0)
  {
    if i > 0 { BelowRoot(Parent(i)); }
  }

  lemma {:induction false} BelowBounds(i: nat, s: nat)
    requires Below(i, s)
    ensures s <= i
  {
  }

  lemma {:induction false} BelowChild(i: nat, s: nat)
    ensures Below(i, s) <==> i == s || Below(i, 2 * s + 1) || Below(i, 2 * s + 2)
  {
    if i > s { BelowChild(Parent(i), s); }
  }

  lemma {:induction false} BelowComparable(i: nat, s: nat, t: nat)
    requires Below(i, s) && Below(i, t)
    ensures Below(s, t) || Below(t, s)
  {
    if i != s && i != t { BelowComparable(Parent(i), s, t); }
  }

  function Sibling(i: nat): nat
    requires i > 0
  {
    if i % 2 == 0 then i - 1 else i + 1
  }

  /** A node and its sibling are the two children of its parent. */
  lemma ParentOf(i: nat)
    requires i > 0
    ensures Parent(i) < i
    ensures if i % 2 == 0 then i == 2 * Parent(i) + 2 && Sibling(i) == 2 * Parent(i) + 1
            else i == 2 * Parent(i) + 1 && Sibling(i) == 2 * Parent(i) + 2
  {}

  lemma ChildrenOf(i: nat)
    ensures Parent(2 * i + 1) == Parent(2 * i + 2) == i
    ensures Sibling(2 * i + 1) == 2 * i + 2 && Sibling(2 * i + 2) == 2 * i + 1
    ensures (2 * i + 1) % 2 == 1 && (2 * i + 2) % 2 == 0
  {}

  lemma NotBelowSibling(i: nat, a: nat)
    requires a > 0 && Below(i, a)
    ensures !Below(i, Sibling(a))
  {
    if Below(i, Sibling(a)) {
      BelowComparable(i, a, Sibling(a));
      assert false;
    }
  }

  /** A tree does not see a change outside it. */
  lemma {:induction false} TreeAtFrame(c: Flags, i: nat, x: Chunk, s: nat)
    requires i < |c| && s < |c| && !Below(i, s)
    ensures TreeAt(c[i := x], s) == TreeAt(c, s)
    decreases |c| - s
  {
    if c[s].split && 2 * s + 2 < |c| {
      BelowChild(i, s);
      TreeAtFrame(c, i, x, 2 * s + 1);
      TreeAtFrame(c, i, x, 2 * s + 2);
    }
  }

  /** The node pair `t` at `i` with its sibling's tree, in address order. */
  function Pair(c: Flags, i: nat, t: Tree): (Tree, Tree)
    requires 0 < i < |c| && |c| % 2 == 1
  {
    if i % 2 == 0 then (t, TreeAt(c, Sibling(i))) else (TreeAt(c, Sibling(i)), t)
  }

  // ----------------------------------------------------- the rest of the search

  /** The whole tree after an allocation turned the subtree at `i` into `t`. */
  function Rebuild(c: Flags, i: nat, t: Tree): Tree
    requires i < |c| && |c| % 2 == 1
    decreases i
  {
    if i == 0 then t
    else
      var (low, high) := Pair(c, i, t);
      Rebuild(c, Parent(i), Joined(low, high))
  }

  lemma RebuildUp(c: Flags, i: nat, t: Tree)
    requires 0 < i < |c| && |c| % 2 == 1
    ensures var (low, high) := Pair(c, i, t); Rebuild(c, i, t) == Rebuild(c, Parent(i), Joined(low, high))
  {
  }

  lemma {:induction false} RebuildFrame(c: Flags, i: nat, x: Chunk, a: nat, t: Tree)
    requires i < |c| && |c| % 2 == 1 && Below(i, a)
    ensures a < |c| && Rebuild(c[i := x], a, t) == Rebuild(c, a, t)
    decreases a
  {
    BelowBounds(i, a);
    if a > 0 {
      NotBelowSibling(i, a);
      TreeAtFrame(c, i, x, Sibling(a));
      BelowChild(i, Parent(a));
      var (low, high) := Pair(c, a, t);
      RebuildFrame(c, i, x, Parent(a), Joined(low, high));
    }
  }

  /** The outcome of the whole search once the search below node `i` has given `o`. */
  function Resume(p: Shape, c: Flags, i: nat, d: nat, request: nat, o: Outcome): Outcome
    requires i < |c| && |c| % 2 == 1 && OnLevel(i, d) && d <= p.height
    decreases i
  {
    if o.Placed? then
      Placed(Rebuild(c, i, o.tree), o.address)
    else if i == 0 then
      NoBlock
    else if i % 2 == 0 then
      LevelSibling(i, d);
      Resume(p, c, i - 1, d, request, p.Search(c, i - 1, d, request))
    else
      LevelAbove(i, d);
      Resume(p, c, Parent(i), d - 1, request, NoBlock)
  }

  /** The search of the whole tree, seen from node `i`. */
  function From(p: Shape, c: Flags, i: nat, d: nat, request: nat): Outcome
    requires i < |c| && |c| % 2 == 1 && OnLevel(i, d) && d <= p.height
  {
    Resume(p, c, i, d, request, p.Search(c, i, d, request))
  }

  /** Searching an unflagged split node is searching its lower half and resuming. */
  lemma FromLowerHalf(p: Shape, c: Flags, i: nat, d: nat, request: nat)
    requires |c| == NodeCount(p.height) && OnLevel(i, d) && d < p.height
    requires i < |c| && c[i].split && !c[i].flagged && Deeper(p.chunk, p.height - d, request)
    ensures 2 * i + 2 < |c| && OnLevel(2 * i + 2, d + 1)
    ensures From(p, c, i, d, request) == From(p, c, 2 * i + 2, d + 1, request)
  {
    hide Pow2, Size, OnLevel, NodeCount, Rebuild;
    LevelBelow(i, d, p.height);
    var left, right := 2 * i + 1, 2 * i + 2;
    var low, high := p.Search(c, right, d + 1, request), p.Search(c, left, d + 1, request);
    assert Parent(right) == i && Parent(left) == i && Sibling(right) == left && Sibling(left) == right;
    assert p.Base(right, d + 1) == p.Base(i, d) && p.Base(left, d + 1) == p.Base(i, d) + p.Span(d + 1);
    if low.Placed? {
      RebuildUp(c, right, low.tree);
    } else {
      assert Resume(p, c, right, d + 1, request, low) == Resume(p, c, left, d + 1, request, high);
      if high.Placed? {
        RebuildUp(c, left, high.tree);
      } else {
        assert Resume(p, c, left, d + 1, request, high) == Resume(p, c, i, d, request, NoBlock);
      }
    }
  }

  /** Splitting a clear node on the way down changes nothing about the outcome. */
  lemma FromFreshSplit(p: Shape, c: Flags, i: nat, d: nat, request: nat)
    requires |c| == NodeCount(p.height) && OnLevel(i, d) && d < p.height
    requires i < |c| && c[i] == CLEAR && NodeOk(c, i) && Deeper(p.chunk, p.height - d, request)
    ensures From(p, c[i := Chunk(true, false)], i, d, request) == From(p, c, i, d, request)
  {
    LevelBelow(i, d, p.height);
    var c' := c[i := Chunk(true, false)];
    var h, base := p.height - d, p.Base(i, d);
    ClearStartsAtBase(p.chunk, h, base, request);
    var o := Allocate(Whole(false), p.chunk, h, base, request);
    assert TreeAt(c', 2 * i + 1) == TreeAt(c', 2 * i + 2) == Whole(false);
    assert p.Search(c', i, d, request) == o == p.Search(c, i, d, request);
    RebuildFrame(c, i, Chunk(true, false), i, o.tree);
  }

  /** Every proper ancestor of `i` is split and unflagged. */
  ghost predicate PathOpen(c: Flags, i: nat)
    requires i < |c|
    decreases i
  {
    i > 0 ==> var p := Parent(i); c[p].split && !c[p].flagged && PathOpen(c, p)
  }

  lemma {:induction false} PathOpenFrame(c: Flags, i: nat, x: Chunk, a: nat)
    requires i < |c| && a <= i && PathOpen(c, a)
    ensures PathOpen(c[i := x], a)
    decreases a
  {
    if a > 0 { PathOpenFrame(c, i, x, Parent(a)); }
  }
}
