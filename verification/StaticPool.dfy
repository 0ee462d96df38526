/** kernel/utils/static_memory_pool.c: the buddy pool that keeps its tree in an array. */
module StaticPool {
  import opened Powers
  import opened BuddyTree
  import opened BuddyArray
  import opened BuddySteps

  /** The number of nodes (one byte each) that a pool has to be given. */
  method CalculateSize(length: nat, chunkSize: nat) returns (count: nat)
    requires chunkSize > 0
    ensures length / chunkSize == 0 ==> count == 0
    ensures length / chunkSize > 0 ==>
      exists k: nat :: Pow2(k) <= length / chunkSize < Pow2(k + 1) && count == NodeCount(k)
    ensures forall h: nat :: length == Size(chunkSize, h) ==> count == NodeCount(h)
  {
    var bottom, levels := length / chunkSize, 0;
    ghost var total := bottom;
    while bottom > 0
      invariant bottom == ShiftRight(total, levels)
      invariant levels > 0 ==> ShiftRight(total, levels - 1) > 0
    {
      levels := levels + 1;
      bottom := bottom / 2;
    }
    count := PowerOfTwo(levels);
    count := count - 1;
    if levels > 0 {
      ShiftBounds(total, levels);
      ShiftBounds(total, levels - 1);
      assert Pow2(levels - 1) <= total < Pow2(levels - 1 + 1) by {
        Scale(ShiftRight(total, levels - 1), Pow2(levels - 1));
      }
    }
    forall h: nat | length == Size(chunkSize, h) ensures count == NodeCount(h) {
      ExactQuotient(Pow2(h), chunkSize);
      SamePower(levels - 1, h);
    }
  }

  lemma ExactQuotient(q: nat, unit: nat)
    requires unit > 0
    ensures unit * q / unit == q
  {
    var r := unit * q / unit;
    GridOrder(r, q, unit);
    GridOrder(q, r, unit);
  }

  lemma SamePower(k: nat, h: nat)
    requires Pow2(k) <= Pow2(h) < Pow2(k + 1)
    ensures k == h
  {
    if k < h { Pow2Monotone(k + 1, h); }
    if h < k { Pow2Monotone(h + 1, k); }
  }

  lemma Scale(q: nat, s: nat)
    requires q > 0
    ensures s <= q * s
  {
  }

  lemma {:induction false} ShiftBounds(x: nat, n: nat)
    ensures ShiftRight(x, n) * Pow2(n) <= x < (ShiftRight(x, n) + 1) * Pow2(n)
  {
    if n > 0 {
      ShiftBounds(x, n - 1);
      HalfBounds(ShiftRight(x, n - 1), Pow2(n - 1), x);
    }
  }

  lemma HalfBounds(b: nat, s: nat, x: nat)
    requires b * s <= x < (b + 1) * s
    ensures (b / 2) * (2 * s) <= x < (b / 2 + 1) * (2 * s)
  {
    var h := b / 2;
    assert b == 2 * h || b == 2 * h + 1;
    assert (2 * h) * s == h * (2 * s);
    assert (2 * h + 1) * s == h * (2 * s) + s;
    assert (2 * h + 2) * s == (h + 1) * (2 * s);
  }

  method PowerOfTwo(n: nat) returns (value: nat)
    ensures value == Pow2(n)
  {
    value := 1;
    for i := 0 to n
      invariant value == Pow2(i)
    {
      value := 2 * value;
    }
  }

  lemma SpanIsShift(p: Shape, d: nat)
    requires d <= p.height
    ensures ShiftRight(Size(p.chunk, p.height), d) == p.Span(d)
  {
    ShiftIsExact(p.chunk, p.height, d);
  }

  lemma CurrentLength(p: Shape, d: nat)
    requires d <= p.height
    ensures
      var length := Size(p.chunk, p.height);
      (if d != 0 then ShiftRight(length, d) else length) == p.Span(d)
  {
    SpanIsShift(p, d);
  }

  lemma CurrentHalf(p: Shape, d: nat)
    requires d < p.height
    ensures p.Span(d) / 2 == p.Span(d + 1)
  {
    SizeHalves(p.chunk, p.height - d);
  }

  /** The lengths that the loop computes are those of the tree. */
  lemma GoDeeperIsDeeper(chunk: nat, height: nat, depth: nat, request: nat)
    requires chunk > 0 && depth <= height
    ensures
      var length := Size(chunk, height);
      var current := if depth != 0 then ShiftRight(length, depth) else length;
      var next := ShiftRight(length, depth + 1);
      && (request <= next && current != chunk <==> Deeper(chunk, height - depth, request))
      && (depth < height ==> next == Size(chunk, height - depth - 1) > 0)
  {
    ShiftIsExact(chunk, height, depth);
    if depth < height {
      ShiftIsExact(chunk, height, depth + 1);
      Pow2Monotone(1, height - depth);
    }
  }

  class Pool {
    const startAddress: nat
    const length: nat
    const chunkSize: nat
    const chunks: array<Chunk>
    ghost const height: nat

    ghost function Outline(): Shape {
      Shape(startAddress, chunkSize, height)
    }

    ghost predicate Valid()
      reads chunks
    {
      && startAddress > 0 && chunkSize > 0
      && length == Size(chunkSize, height)
      && chunks.Length == NodeCount(height)
      && Sound(chunks[..])
    }

    /** The tree that the flags hold. */
    ghost function Contents(): Tree
      requires Valid()
      reads chunks
    {
      RootLevel(height);
      TreeAt(chunks[..], 0)
    }

    /** `storage` holds as many nodes as `CalculateSize` asks for. */
    constructor (storage: array<Chunk>, startAddress: nat, length: nat, chunkSize: nat, ghost height: nat)
      requires startAddress > 0 && chunkSize > 0 && length == Size(chunkSize, height)
      requires storage.Length == NodeCount(height)
      modifies storage
      ensures Valid() && chunks == storage
      ensures Outline() == Shape(startAddress, chunkSize, height)
      ensures Contents() == Whole(false)
    {
      this.startAddress := startAddress;
      this.length := length;
      this.chunkSize := chunkSize;
      this.chunks := storage;
      this.height := height;
      new;
      forall i | 0 <= i < storage.Length {
        storage[i] := CLEAR;
      }
      RootLevel(height);
    }

    /** The next unflagged upper half to the right of the path, or -1. */
    method FindNextParent(index: nat, depth: nat, accumulated: nat, ghost request: nat)
      returns (next: int, depth': nat, accumulated': nat)
      requires Valid()
      requires Climbing(Outline(), chunks[..], request, index, depth, index, depth)
      requires accumulated == Outline().Base(index, depth)
      ensures next == -1 ==> Resume(Outline(), chunks[..], index, depth, request, NoBlock) == NoBlock
      ensures next != -1 ==>
        && 0 <= next < chunks.Length && OnLevel(next, depth') && depth' <= height
        && accumulated < accumulated' == Outline().Base(next, depth')
        && 0 < next && PathOpen(chunks[..], next) && !chunks[next].flagged
        && Resume(Outline(), chunks[..], index, depth, request, NoBlock)
           == From(Outline(), chunks[..], next, depth', request)
    {
      hide Resume, From, PathOpen, NodeOk, Pow2, ShiftRight, Size, OnLevel, Shape.Base;
      ghost var p, c := Outline(), chunks[..];
      var finder: int, finderDepth: int, finderLength := index, depth, accumulated;
      RootLevel(height);
      while finder != -1
        invariant -1 <= finder
        invariant finder == -1 ==> Resume(p, c, index, depth, request, NoBlock) == NoBlock
        invariant finder != -1 ==> finderDepth >= 0 && Climbing(p, c, request, index, depth, finder, finderDepth)
        invariant finder != -1 ==> finderLength == p.Base(finder, finderDepth)
        decreases finder
      {
        var parent := if finder == 0 then -1 else (finder - 1) / 2;
        if parent != -1 {
          var parentLeft := parent * 2 + 1;
          SpanIsShift(p, finderDepth);
          if !chunks[parentLeft].flagged && parentLeft != finder {
            ClimbAcross(p, c, request, index, depth, finder, finderDepth);
            finderLength := finderLength + ShiftRight(length, finderDepth);
            return parentLeft, finderDepth, finderLength;
          }
          ClimbUp(p, c, request, index, depth, finder, finderDepth);
          if parentLeft == finder {
            finderLength := finderLength - ShiftRight(length, finderDepth);
          }
          finderDepth := finderDepth - 1;
        } else {
          ClimbEnds(p, c, request, index, depth, finderDepth);
        }
        finder := parent;
      }
      return -1, depth, accumulated;
    }

    /** The iterative search leaves the flags and returns the address of the
        recursive allocation; 0 stands for "no block". */
    method Allocate(request: nat) returns (result: nat)
      requires Valid()
      modifies chunks
      ensures Valid()
      ensures match BuddyTree.Allocate(old(Contents()), chunkSize, height, startAddress, request)
        case NoBlock => result == 0 && chunks[..] == old(chunks[..])
        case Placed(t, a) => result == a >= startAddress && Contents() == t
    {
      hide Resume, From, PathOpen, TreeAt, NodeOk, Rebuild, Climbing, BuddyTree.Allocate, Pow2, ShiftRight, Size,
        OnLevel, Shape.Base;
      ghost var p, c0 := Outline(), chunks[..];
      var accumulated := startAddress;
      var index: int, depth: int, finish := 0, 0, false;
      ghost var done: nat := 0;   // the last node whose subtree is final
      result := 0;
      RootLevel(height);
      SearchStarts(p, c0, request);
      while index != -1
        invariant -1 <= index < chunks.Length
        invariant index != -1 && !finish ==>
          && depth >= 0 && Searching(p, c0, request, chunks[..], index, depth)
          && accumulated == p.Base(index, depth) && result == 0
        invariant finish && result == 0 ==> chunks[..] == c0 && From(p, c0, 0, 0, request) == NoBlock
        invariant finish && result != 0 ==>
          && Marking(p, c0, request, chunks[..], done, result)
          && index == (if done == 0 then -1 else Parent(done))
          && result >= startAddress
        invariant index == -1 && !finish ==>
          result == 0 && chunks[..] == c0 && From(p, c0, 0, 0, request) == NoBlock
        decreases
          if index == -1 then 0 else if finish then 1 else 2,
          if finish then index else startAddress + length - accumulated,
          if finish then 0 else height - depth
      {
        var parent := if index == 0 then -1 else (index - 1) / 2;
        var left, right := index * 2 + 1, index * 2 + 2;
        ghost var c := chunks[..];
        if finish {
          if result != 0 {
            MarkAscends(p, c0, request, c, done, result);
            if chunks[left].flagged && chunks[right].flagged {
              chunks[index] := chunks[index].(flagged := true);
            }
            assert chunks[..] == c[index := Marked(c[index], c[left], c[right])];
            done := index;
          }
          index, depth := parent, depth - 1;
          continue;
        }
        var current := if depth != 0 then ShiftRight(length, depth) else length;
        var next := ShiftRight(length, depth + 1);
        var goDeeper := request <= next && current != chunkSize;
        GoDeeperIsDeeper(chunkSize, height, depth, request);
        BaseInside(p, index, depth);
        if chunks[index].flagged {
          SearchBlocked(p, c0, request, c, index, depth);
          index, depth := parent, depth - 1;
          continue;
        }
        if goDeeper {
          SearchDescends(p, c0, request, c, index, depth);
          chunks[index] := chunks[index].(split := true);
          if !chunks[right].flagged {
            index, depth := right, depth + 1;
          } else {
            accumulated := accumulated + next;
            index, depth := left, depth + 1;
          }
          continue;
        }
        if chunks[index].split {
          ClimbStarts(p, c0, request, c, index, depth);
          var newIndex, newDepth, newAccumulated := FindNextParent(index, depth, accumulated, request);
          if newIndex != -1 {
            index, depth, accumulated := newIndex, newDepth, newAccumulated;
            continue;
          }
        } else {
          SearchPlaces(p, c0, request, c, index, depth);
          chunks[index] := chunks[index].(flagged := true);
          result := accumulated;
          done := index;
        }
        finish := true;
        index, depth := parent, depth - 1;
      }
      if result != 0 { MarkEnds(p, c0, request, chunks[..], result); }
    }

    /** The iterative descent leaves the flags of the recursive release; 0 stands for success. */
    method Free(address: nat) returns (result: int)
      requires Valid()
      modifies chunks
      ensures Valid()
      ensures result == 0 || result == -1
      ensures Release(old(Contents()), chunkSize, height, startAddress, address) == (Contents(), result == 0)
      ensures result == -1 ==> chunks[..] == old(chunks[..])
    {
      hide TreeAt, NodeOk, Unwind, Release, ReleaseFrom, Pow2, ShiftRight, Size, OnLevel, Shape.Base, PathSplit;
      ghost var p, c0 := Outline(), chunks[..];
      var accumulated := startAddress;
      var index: int, depth: int, finish := 0, 0, false;
      ghost var done: nat := 0;   // the last node whose subtree is final
      result := -1;
      RootLevel(height);
      SeekStarts(p, c0, address);
      while index != -1
        invariant -1 <= index < chunks.Length
        invariant result == 0 || result == -1
        invariant index == -1 ==> finish
        invariant !finish ==>
          && depth >= 0 && Seeking(p, c0, address, index, depth)
          && accumulated == p.Base(index, depth)
          && result == -1
        invariant result == -1 ==> chunks[..] == c0
        invariant finish && result == -1 ==>
          Release(TreeAt(c0, 0), chunkSize, height, startAddress, address) == (TreeAt(c0, 0), false)
        invariant finish && result == 0 ==>
          && Clearing(p, c0, address, chunks[..], done)
          && index == (if done == 0 then -1 else Parent(done))
        decreases !finish, if finish then index + 1 else height - depth
      {
        var parent := if index == 0 then -1 else (index - 1) / 2;
        var left, right := index * 2 + 1, index * 2 + 2;
        ghost var c := chunks[..];
        if finish {
          if result == 0 {
            ClearAscends(p, c0, address, c, done);
            if !chunks[left].flagged && !chunks[right].flagged {
              chunks[index] := chunks[index].(flagged := false);
              if !chunks[left].split && !chunks[right].split {
                chunks[index] := chunks[index].(split := false);
              }
            }
            assert chunks[..] == c[index := Coalesced(c[index], c[left], c[right])];
            done := index;
          }
          index, depth := parent, depth - 1;
          continue;
        }
        var current := if depth != 0 then ShiftRight(length, depth) else length;
        CurrentLength(p, depth);
        if chunks[index].split {
          SeekDescends(p, c0, address, index, depth);
          CurrentHalf(p, depth);
          if address < accumulated + current / 2 {
            index, depth := right, depth + 1;
          } else {
            accumulated := accumulated + current / 2;
            index, depth := left, depth + 1;
          }
          continue;
        }
        SeekReleases(p, c0, address, index, depth);
        if chunks[index].flagged {
          var limit := accumulated + current;
          if accumulated <= address < limit {
            chunks[index] := chunks[index].(flagged := false);
            result := 0;
            done := index;
          }
        }
        finish := true;
        index, depth := parent, depth - 1;
      }
      if result == 0 { ClearEnds(p, c0, address, chunks[..]); }
    }
  }

  /** A pool with the storage that it asks for: every node of its tree has a place in it. */
  method Create(startAddress: nat, length: nat, chunkSize: nat, ghost height: nat) returns (pool: Pool)
    requires startAddress > 0 && chunkSize > 0 && length == Size(chunkSize, height)
    ensures fresh(pool) && fresh(pool.chunks) && pool.Valid() && pool.Contents() == Whole(false)
    ensures pool.Outline() == Shape(startAddress, chunkSize, height)
  {
    var count := CalculateSize(length, chunkSize);
    var storage := new Chunk[count];
    pool := new Pool(storage, startAddress, length, chunkSize, height);
  }
}
