/** kernel/utils/dynamic_memory_pool.c: the same buddy pool, with its tree made of linked nodes. */
module DynamicPool {
  import opened Powers
  import opened BuddyTree
  import opened BuddyArray
  import opened BuddySteps
  import opened StaticPool

  class Node {
    var parent: Node?
    var left: Node?
    var right: Node?
    var split: bool
    var flagged: bool
    ghost const place: nat   // the index of this node in the array form of the tree

    constructor (parent: Node?, ghost place: nat)
      ensures this.parent == parent && left == null && right == null && !split && !flagged
      ensures this.place == place
    {
      this.parent := parent;
      left, right := null, null;
      split, flagged := false, false;
      this.place := place;
    }
  }

  class Pool {
    const startAddress: nat
    const length: nat
    const chunkSize: nat
    const root: Node
    ghost const height: nat
    ghost var nodes: seq<Node?>   // the nodes created so far, by their place in the tree
    ghost var flags: Flags        // their flags, as the array pool would store them

    ghost function Outline(): Shape {
      Shape(startAddress, chunkSize, height)
    }

    /** Links, places and flags of one node agree. */
    ghost predicate LinkedAt(i: int)
      requires 0 <= i < |nodes| == |flags|
      reads this, nodes
    {
      var n := nodes[i];
      if n == null then
        flags[i] == CLEAR
      else
        && n.place == i
        && flags[i] == Chunk(n.split, n.flagged)
        && (i == 0 <==> n.parent == null)
        && (n.parent != null ==> Holds(n.parent) && ChildPlace(n.parent.place, i))
        && (n.left == null <==> n.right == null)
        && (n.split ==> n.left != null)
        && (if n.left != null
            then 2 * i + 2 < |nodes| && nodes[2 * i + 1] == n.left && nodes[2 * i + 2] == n.right
            else 2 * i + 2 < |nodes| ==> nodes[2 * i + 1] == null && nodes[2 * i + 2] == null)
    }

    static ghost predicate ChildPlace(p: nat, i: int) {
      i == 2 * p + 1 || i == 2 * p + 2
    }

    /** `node` is a node of this tree. */
    ghost predicate Holds(node: Node)
      reads this
    {
      node.place < |nodes| && nodes[node.place] == node
    }

    ghost predicate Linked()
      reads this, nodes
    {
      && |nodes| == |flags| == NodeCount(height)
      && nodes[0] == root
      && forall i {:trigger LinkedAt(i)} :: 0 <= i < |nodes| ==> LinkedAt(i)
    }

    ghost predicate Valid()
      reads this, nodes
    {
      && startAddress > 0 && chunkSize > 0
      && length == Size(chunkSize, height)
      && Linked()
      && Sound(flags)
    }

    ghost function Contents(): Tree
      requires Valid()
      reads this, nodes
    {
      TreeAt(flags, 0)
    }

    constructor (startAddress: nat, length: nat, chunkSize: nat, ghost height: nat)
      requires startAddress > 0 && chunkSize > 0 && length == Size(chunkSize, height)
      ensures Valid() && forall n :: n in nodes && n != null ==> fresh(n)
      ensures Outline() == Shape(startAddress, chunkSize, height)
      ensures Contents() == Whole(false)
    {
      var node := new Node(null, 0);
      this.startAddress := startAddress;
      this.length := length;
      this.chunkSize := chunkSize;
      this.height := height;
      root := node;
      nodes := seq(NodeCount(height), i => if i == 0 then node else null);
      flags := seq(NodeCount(height), i => CLEAR);
    }

    /** Change the flags of one node. */
    method SetFlags(node: Node, split: bool, flagged: bool)
      requires Linked() && Holds(node)
      requires split ==> node.left != null
      modifies this`flags, node`split, node`flagged
      ensures Linked() && node.split == split && node.flagged == flagged
      ensures flags == old(flags)[node.place := Chunk(split, flagged)]
    {
      hide NodeCount;
      node.split := split;
      node.flagged := flagged;
      flags := flags[node.place := Chunk(split, flagged)];
      forall j | 0 <= j < |nodes| ensures LinkedAt(j) {
        assert old(LinkedAt(j));
      }
    }

    /** Create both children of a node that has none. */
    method CreateChildren(node: Node)
      requires Linked() && Holds(node) && node.left == null
      requires 2 * node.place + 2 < |nodes|
      modifies this`nodes, node`left, node`right
      ensures Linked() && |nodes| == |old(nodes)|
      ensures forall j :: 0 <= j < |nodes| && old(nodes[j]) != null ==> nodes[j] == old(nodes[j])
      ensures forall j :: 0 <= j < |nodes| && nodes[j] != old(nodes[j]) ==> fresh(nodes[j])
      ensures node.left != null
    {
      hide NodeCount;
      ghost var i := node.place;
      assert LinkedAt(i);
      NoGrandchildren(node);
      var right := new Node(node, 2 * i + 2);
      var left := new Node(node, 2 * i + 1);
      node.right := right;
      node.left := left;
      nodes := nodes[2 * i + 1 := left][2 * i + 2 := right];
      ghost var was := old(nodes);
      assert nodes[i] == node && LinkedAt(i);
      assert LinkedAt(2 * i + 1) && LinkedAt(2 * i + 2);
      forall j | 0 <= j < |nodes| && j != i && j != 2 * i + 1 && j != 2 * i + 2 ensures LinkedAt(j) {
        assert old(LinkedAt(j)) && nodes[j] == was[j];
        if 2 * j + 2 < |nodes| {
          assert nodes[2 * j + 1] == was[2 * j + 1] && nodes[2 * j + 2] == was[2 * j + 2];
        }
      }
    }

    /** Below a node without children there is nothing. */
    lemma NoGrandchildren(node: Node)
      requires Linked() && Holds(node) && node.left == null && 2 * node.place + 2 < |nodes|
      ensures
        var i := node.place;
        && (forall j :: 2 * i + 1 <= j <= 2 * i + 2 ==> nodes[j] == null && flags[j] == CLEAR)
        && (forall j :: 4 * i + 3 <= j <= 4 * i + 6 && j < |nodes| ==> nodes[j] == null)
    {
      var i := node.place;
      assert LinkedAt(i);
      assert LinkedAt(2 * i + 1) && LinkedAt(2 * i + 2);
      forall j | 4 * i + 3 <= j <= 4 * i + 6 && j < |nodes| ensures nodes[j] == null {
        assert LinkedAt(j);
      }
    }

    lemma RootHeld()
      requires Linked()
      ensures Holds(root) && root.place == 0 && |flags| == |nodes| == NodeCount(height)
    {
      assert LinkedAt(0);
    }

    /** What a node of the tree can rely on about its neighbours. */
    lemma Neighbours(node: Node)
      requires Linked() && Holds(node)
      ensures node.parent == null <==> node.place == 0
      ensures node.parent != null ==>
        var q := node.parent;
        && Holds(q) && q.place == Parent(node.place)
        && q.left != null && q.right != null && Holds(q.left) && Holds(q.right)
        && q.left.place == 2 * q.place + 1 && q.right.place == 2 * q.place + 2
        && (q.left == node <==> node.place % 2 == 1)
      ensures flags[node.place] == Chunk(node.split, node.flagged)
      ensures (node.left == null <==> node.right == null) && (node.split ==> node.left != null)
      ensures node.left != null ==>
        && Holds(node.left) && Holds(node.right)
        && node.left.place == 2 * node.place + 1 && node.right.place == 2 * node.place + 2
        && flags[node.left.place] == Chunk(node.left.split, node.left.flagged)
        && flags[node.right.place] == Chunk(node.right.split, node.right.flagged)
    {
      hide Linked, LinkedAt, Parent;
      NeighbourAbove(node);
      NeighboursBelow(node);
    }

    lemma NeighbourAbove(node: Node)
      requires Linked() && Holds(node)
      ensures node.parent == null <==> node.place == 0
      ensures node.parent != null ==>
        var q := node.parent;
        && Holds(q) && q.place == Parent(node.place)
        && q.left != null && q.right != null && Holds(q.left) && Holds(q.right)
        && q.left.place == 2 * q.place + 1 && q.right.place == 2 * q.place + 2
        && (q.left == node <==> node.place % 2 == 1)
    {
      hide NodeCount, Parent;
      assert LinkedAt(node.place);
      if node.parent != null {
        var q := node.parent.place;
        ChildrenOf(q);
        assert LinkedAt(q);
        assert LinkedAt(2 * q + 1) && LinkedAt(2 * q + 2);
      }
    }

    lemma NeighboursBelow(node: Node)
      requires Linked() && Holds(node)
      ensures flags[node.place] == Chunk(node.split, node.flagged)
      ensures (node.left == null <==> node.right == null) && (node.split ==> node.left != null)
      ensures node.left != null ==>
        && Holds(node.left) && Holds(node.right)
        && node.left.place == 2 * node.place + 1 && node.right.place == 2 * node.place + 2
        && flags[node.left.place] == Chunk(node.left.split, node.left.flagged)
        && flags[node.right.place] == Chunk(node.right.split, node.right.flagged)
    {
      hide NodeCount;
      var i := node.place;
      assert LinkedAt(i);
      if node.left != null { assert LinkedAt(2 * i + 1) && LinkedAt(2 * i + 2); }
    }

    /** What a node knows about itself and about the way up. */
    lemma Above(node: Node)
      requires Linked() && Holds(node)
      ensures node.parent == null <==> node.place == 0
      ensures node.parent != null ==>
        Holds(node.parent) && node.parent.place == Parent(node.place) && node.parent.left != null
      ensures node.place < |flags| && flags[node.place] == Chunk(node.split, node.flagged)
    {
      Neighbours(node);
    }

    /** Split a node, creating its children the first time, and step to the lower
        half, or to the upper one if the lower is flagged. */
    method Descend(node: Node) returns (child: Node, lower: bool)
      requires Linked() && Holds(node) && 2 * node.place + 2 < |nodes|
      modifies this`nodes, this`flags, node
      ensures Linked() && |nodes| == |old(nodes)|
      ensures flags == old(flags)[node.place := old(flags)[node.place].(split := true)]
      ensures forall j :: 0 <= j < |nodes| && nodes[j] != old(nodes[j]) ==> fresh(nodes[j])
      ensures lower == !flags[2 * node.place + 2].flagged
      ensures Holds(child) && child.place == if lower then 2 * node.place + 2 else 2 * node.place + 1
    {
      hide LinkedAt, Linked, NodeCount;
      RootHeld();
      Neighbours(node);
      if !node.split {
        if node.right == null {
          CreateChildren(node);
        }
        SetFlags(node, true, node.flagged);
      }
      Neighbours(node);
      if !node.right.flagged {
        return node.right, true;
      } else {
        return node.left, false;
      }
    }

    /** Bookkeeping at a node of the allocation. */
    method Mark(node: Node)
      requires Linked() && Holds(node) && node.left != null
      modifies this`flags, node`split, node`flagged
      ensures Linked() && 2 * node.place + 2 < |flags|
      ensures
        var i, c := node.place, old(flags);
        flags == c[i := Marked(c[i], c[2 * i + 1], c[2 * i + 2])]
    {
      hide LinkedAt, Linked, NodeCount;
      RootHeld();
      Neighbours(node);
      if node.left.flagged && node.right.flagged {
        SetFlags(node, node.split, true);
      }
      RootHeld();
    }

    /** The next unflagged upper half to the right of the path, or null. */
    method FindNextParent(node: Node, depth: nat, accumulated: nat, ghost request: nat)
      returns (next: Node?, depth': nat, accumulated': nat)
      requires Valid() && Holds(node)
      requires Climbing(Outline(), flags, request, node.place, depth, node.place, depth)
      requires accumulated == Outline().Base(node.place, depth)
      ensures next == null ==> Resume(Outline(), flags, node.place, depth, request, NoBlock) == NoBlock
      ensures next != null ==>
        && Holds(next) && OnLevel(next.place, depth') && depth' <= height
        && accumulated < accumulated' == Outline().Base(next.place, depth')
        && 0 < next.place && PathOpen(flags, next.place) && !flags[next.place].flagged
        && Resume(Outline(), flags, node.place, depth, request, NoBlock)
           == From(Outline(), flags, next.place, depth', request)
    {
      hide Resume, From, PathOpen, NodeOk, Pow2, ShiftRight, Size, OnLevel, Shape.Base, NodeCount;
      ghost var p, index := Outline(), node.place;
      var finder: Node?, finderDepth: int, finderLength := node, depth, accumulated;
      while finder != null
        invariant finder == null ==> Resume(p, flags, index, depth, request, NoBlock) == NoBlock
        invariant finder != null ==> Holds(finder)
        invariant finder != null ==>
          finderDepth >= 0 && Climbing(p, flags, request, index, depth, finder.place, finderDepth)
        invariant finder != null ==> finderLength == p.Base(finder.place, finderDepth)
        decreases finder != null, if finder != null then finder.place else 0
      {
        Neighbours(finder);
        if finder.parent != null {
          Neighbours(finder.parent);
          SpanIsShift(p, finderDepth);
          if !finder.parent.left.flagged && finder.parent.left != finder {
            ClimbAcross(p, flags, request, index, depth, finder.place, finderDepth);
            finderLength := finderLength + ShiftRight(length, finderDepth);
            return finder.parent.left, finderDepth, finderLength;
          }
          ClimbUp(p, flags, request, index, depth, finder.place, finderDepth);
          if finder.parent.left == finder {
            finderLength := finderLength - ShiftRight(length, finderDepth);
          }
          finderDepth := finderDepth - 1;
        } else {
          ClimbEnds(p, flags, request, index, depth, finderDepth);
        }
        finder := finder.parent;
      }
      return null, depth, accumulated;
    }

    /** The same recursive allocation as the array pool; 0 stands for "no block". */
    method Allocate(request: nat) returns (result: nat)
      requires Valid()
      modifies this`nodes, this`flags, nodes
      ensures Valid() && forall j :: 0 <= j < |nodes| && nodes[j] != null ==> nodes[j] in old(nodes) || fresh(nodes[j])
      ensures match BuddyTree.Allocate(old(Contents()), chunkSize, height, startAddress, request)
        case NoBlock => result == 0 && flags == old(flags)
        case Placed(t, a) => result == a >= startAddress && Contents() == t
    {
      hide Resume, From, PathOpen, TreeAt, NodeOk, Rebuild, Climbing, BuddyTree.Allocate, Pow2, ShiftRight, Size,
        OnLevel, Shape.Base, NodeCount, LinkedAt, Linked, Marking;
      ghost var p, c0 := Outline(), flags;
      var accumulated := startAddress;
      var node: Node?, depth: int, finish := root, 0, false;
      ghost var done: nat := 0;   // the last node whose subtree is final
      result := 0;
      RootLevel(height);
      RootHeld();
      SearchStarts(p, c0, request);
      while node != null
        invariant Linked() && forall j :: 0 <= j < |nodes| && nodes[j] != null ==>
          nodes[j] in old(nodes) || fresh(nodes[j])
        invariant |nodes| == |flags| == NodeCount(height)
        invariant node != null ==> Holds(node)
        invariant node != null && !finish ==>
          && depth >= 0 && Searching(p, c0, request, flags, node.place, depth)
          && accumulated == p.Base(node.place, depth) && result == 0
        invariant finish && result == 0 ==> flags == c0 && From(p, c0, 0, 0, request) == NoBlock
        invariant finish && result != 0 ==>
          && Marking(p, c0, request, flags, done, result)
          && (if node == null then done == 0 else done > 0 && node.place == Parent(done) && node.left != null)
          && result >= startAddress
        invariant node == null && !finish ==>
          result == 0 && flags == c0 && From(p, c0, 0, 0, request) == NoBlock
        decreases
          if node == null then 0 else if finish then 1 else 2,
          if finish then (if node == null then 0 else node.place) else startAddress + length - accumulated,
          if finish then 0 else height - depth
      {
        Above(node);
        ghost var c, index := flags, node.place;
        assert nodes[index] in nodes;
        if finish {
          if result != 0 {
            MarkAscends(p, c0, request, c, done, result);
            Mark(node);
            done := index;
          }
          node, depth := node.parent, depth - 1;
          continue;
        }
        var current := if depth != 0 then ShiftRight(length, depth) else length;
        var next := ShiftRight(length, depth + 1);
        var goDeeper := request <= next && current != chunkSize;
        GoDeeperIsDeeper(chunkSize, height, depth, request);
        BaseInside(p, index, depth);
        if node.flagged {
          SearchBlocked(p, c0, request, c, index, depth);
          node, depth := node.parent, depth - 1;
          continue;
        }
        if goDeeper {
          SearchDescends(p, c0, request, c, index, depth);
          var lower;
          node, lower := Descend(node);
          if !lower { accumulated := accumulated + next; }
          depth := depth + 1;
          continue;
        }
        if node.split {
          ClimbStarts(p, c0, request, c, index, depth);
          var newNode, newDepth, newAccumulated := FindNextParent(node, depth, accumulated, request);
          if newNode != null {
            node, depth, accumulated := newNode, newDepth, newAccumulated;
            continue;
          }
        } else {
          SearchPlaces(p, c0, request, c, index, depth);
          SetFlags(node, false, true);
          result := accumulated;
          done := index;
        }
        finish := true;
        node, depth := node.parent, depth - 1;
      }
      if result != 0 { MarkEnds(p, c0, request, flags, result); }
    }

    /** Bookkeeping at a node of the release. */
    method Coalesce(node: Node)
      requires Linked() && Holds(node) && node.left != null
      modifies this`flags, node`split, node`flagged
      ensures Linked() && 2 * node.place + 2 < |flags|
      ensures
        var i, c := node.place, old(flags);
        flags == c[i := Coalesced(c[i], c[2 * i + 1], c[2 * i + 2])]
    {
      hide LinkedAt, Linked, NodeCount;
      RootHeld();
      Neighbours(node);
      if !node.left.flagged && !node.right.flagged {
        if !node.left.split && !node.right.split {
          SetFlags(node, false, false);
        } else {
          SetFlags(node, node.split, false);
        }
      }
      RootHeld();
    }

    /** The same recursive release as the array pool; 0 stands for success. */
    method Free(address: nat) returns (result: int)
      requires Valid()
      modifies this`flags, nodes
      ensures Valid()
      ensures result == 0 || result == -1
      ensures Release(old(Contents()), chunkSize, height, startAddress, address) == (Contents(), result == 0)
      ensures result == -1 ==> flags == old(flags)
    {
      hide TreeAt, NodeOk, Unwind, Release, ReleaseFrom, Pow2, ShiftRight, Size, OnLevel, Shape.Base, PathSplit,
        NodeCount, LinkedAt, Linked;
      ghost var p, c0 := Outline(), flags;
      var accumulated := startAddress;
      var node: Node?, depth: int, finish := root, 0, false;
      ghost var done: nat := 0;   // the last node whose subtree is final
      result := -1;
      RootLevel(height);
      RootHeld();
      SeekStarts(p, c0, address);
      while node != null
        invariant Linked() && |nodes| == |flags| == NodeCount(height)
        invariant result == 0 || result == -1
        invariant node == null ==> finish
        invariant node != null ==> Holds(node)
        invariant !finish ==>
          && depth >= 0 && Seeking(p, c0, address, node.place, depth)
          && accumulated == p.Base(node.place, depth)
          && result == -1
        invariant result == -1 ==> flags == c0
        invariant finish && result == -1 ==>
          Release(TreeAt(c0, 0), chunkSize, height, startAddress, address) == (TreeAt(c0, 0), false)
        invariant finish && result == 0 ==>
          && Clearing(p, c0, address, flags, done)
          && (if node == null then done == 0 else done > 0 && node.place == Parent(done) && node.left != null)
        decreases !finish, if finish then (if node == null then 0 else node.place + 1) else height - depth
      {
        Above(node);
        ghost var index := node.place;
        assert nodes[index] in nodes;
        if finish {
          if result == 0 {
            ClearAscends(p, c0, address, flags, done);
            Coalesce(node);
            done := index;
          }
          node, depth := node.parent, depth - 1;
          continue;
        }
        var current := if depth != 0 then ShiftRight(length, depth) else length;
        CurrentLength(p, depth);
        if node.split {
          Neighbours(node);
          SeekDescends(p, c0, address, index, depth);
          CurrentHalf(p, depth);
          if address < accumulated + current / 2 {
            node, depth := node.right, depth + 1;
          } else {
            accumulated := accumulated + current / 2;
            node, depth := node.left, depth + 1;
          }
          continue;
        }
        SeekReleases(p, c0, address, index, depth);
        if node.flagged {
          var limit := accumulated + current;
          if accumulated <= address < limit {
            SetFlags(node, node.split, false);
            result := 0;
            done := index;
          }
        }
        finish := true;
        node, depth := node.parent, depth - 1;
      }
      if result == 0 { ClearEnds(p, c0, address, flags); }
    }
  }
}
