/** librt/libddk/bytepool.c: the boundary-tag pool, working in place on memory. */
module BytePool {
  import opened Wrappers
  import opened Memory
  import opened BytePoolTiling
  import opened BytePoolFit
  import opened BytePoolLayout
  import opened BytePoolSteps

  const INT_MAX: int := 0x7FFF_FFFF

  class Pool {
    const mem: array<byte>
    var first: int   // freelist.ql.flink
    var last: int    // freelist.ql.blink
    var totalloc: int
    var numget: int
    var numrel: int
    ghost var st: State

    ghost function Links(): Ends
      reads this
    {
      Ends(first, last)
    }

    ghost predicate Valid()
      reads this, mem
    {
      && Holds(mem[..], Links(), st)
      && totalloc == Total(st.blocks, Used)
    }

    /** A pool without any region. */
    constructor (mem: array<byte>)
      requires mem.Length <= LONG_MAX
      ensures Valid() && this.mem == mem && st == State([], [])
      ensures totalloc == numget == numrel == 0
    {
      this.mem := mem;
      first, last := LIST, LIST;
      totalloc, numget, numrel := 0, 0, 0;
      st := State([], []);
    }

    // ---------------------------------------------------------- memory accesses

    method Read(p: int) returns (v: int)
      requires 0 <= p && p + WORD <= mem.Length
      ensures v == Long(mem[..], p)
    {
      v := Decode(mem[p..p + WORD]);
      assert mem[..][p..p + WORD] == mem[p..p + WORD];
    }

    method Write(p: int, v: int)
      requires 0 <= p && p + WORD <= mem.Length && FitsLong(v)
      modifies mem
      ensures mem[..] == Store(old(mem[..]), p, v)
    {
      hide Encode;
      var s := Encode(v);
      forall i | 0 <= i < WORD {
        mem[p + i] := s[i];
      }
      assert mem[..] == Store(old(mem[..]), p, v);
    }

    /** `memset(lo, 0x55, hi - lo)`. */
    method Wipe(lo: nat, hi: nat)
      requires lo <= hi <= mem.Length
      modifies mem
      ensures mem[..] == Filled(old(mem[..]), lo, hi)
    {
      forall x | lo <= x < hi {
        mem[x] := WIPE;
      }
      assert mem[..] == Filled(old(mem[..]), lo, hi);
    }

    method GetFlink(p: int) returns (v: int)
      requires p == LIST || (0 <= p && p + FREE_HEADER <= mem.Length)
      ensures v == if p == LIST then first else Long(mem[..], p + 16)
    {
      if p == LIST { v := first; } else { v := Read(p + 16); }
    }

    method GetBlink(p: int) returns (v: int)
      requires p == LIST || (0 <= p && p + FREE_HEADER <= mem.Length)
      ensures v == if p == LIST then last else Long(mem[..], p + 24)
    {
      if p == LIST { v := last; } else { v := Read(p + 24); }
    }

    method SetFlink(p: int, v: int)
      requires (p == LIST || (0 <= p && p + FREE_HEADER <= mem.Length)) && FitsLong(v)
      modifies mem, this`first
      ensures (mem[..], Links()) == SetForward(old(mem[..]), old(Links()), p, v)
    {
      if p == LIST { first := v; } else { Write(p + 16, v); }
    }

    method SetBlink(p: int, v: int)
      requires (p == LIST || (0 <= p && p + FREE_HEADER <= mem.Length)) && FitsLong(v)
      modifies mem, this`last
      ensures (mem[..], Links()) == SetBack(old(mem[..]), old(Links()), p, v)
    {
      if p == LIST { last := v; } else { Write(p + 24, v); }
    }

    /** Dechain the free block at `b`, the `k`-th of the list. */
    method Unlink(b: nat, ghost blocks: Blocks, ghost free: seq<nat>, ghost k: nat, ghost e: int, ghost w: int)
      requires Rep(mem[..], Links(), blocks, free, e, w) && k < |free| && free[k] == b
      modifies mem, this`first, this`last
      ensures (mem[..], Links()) == Unlinked(old(mem[..]), old(Links()), free, k)
    {
      hide Long, Store, Geometry, Headers, Wipes, Spaced;
      ghost var m := mem[..];
      SpacedAddress(free, |m|, k - 1);
      SpacedAddress(free, |m|, k);
      SpacedAddress(free, |m|, k + 1);
      assert LinkedAt(m, free, k);
      var back := GetBlink(b);
      var forward := GetFlink(b);
      var check := GetFlink(back);
      assert check == b by { if k > 0 { assert LinkedAt(m, free, k - 1); } }
      check := GetBlink(forward);
      assert check == b by { if k + 1 < |free| { assert LinkedAt(m, free, k + 1); } }
      SetFlink(back, forward);
      SetBlink(forward, back);
    }

    /** Chain the block at `b` in front of the list head. */
    method Append(b: nat, ghost blocks: Blocks, ghost free: seq<nat>, ghost e: int, ghost w: int)
      requires Rep(mem[..], Links(), blocks, free, e, w) && b + FREE_HEADER <= mem.Length
      modifies mem, this`first, this`last
      ensures (mem[..], Links()) == Appended(old(mem[..]), old(Links()), free, b)
    {
      hide Long, Store, Geometry, Headers, Wipes, Spaced;
      ghost var m := mem[..];
      SpacedAddress(free, |m|, 0);
      SpacedAddress(free, |m|, |free| - 1);
      var check := GetFlink(last);
      assert check == LIST by { if |free| > 0 { assert LinkedAt(m, free, |free| - 1); } }
      check := GetBlink(first);
      assert check == LIST by { if |free| > 0 { assert LinkedAt(m, free, 0); } }
      var tail := last;
      Write(b + 16, LIST);
      Write(b + 24, tail);
      last := b;
      SetFlink(tail, b);
    }

    // ------------------------------------------------------------------- bget

    /** Scan the list for the best fit. */
    method FindBest(size: nat) returns (best: int)
      requires Valid()
      ensures best == Entry(st.free, BestFit(FreeSizes(st), size, |st.free|))
    {
      hide Long, Tiled, Rep, FreeSizes, Total, SizeAt, IndexOf;
      ghost var k, free, sizes, m := 0, st.free, FreeSizes(st), mem[..];
      var b := first;
      best := LIST;
      FirstIsHead(m, Links(), st);
      while b != LIST
        invariant 0 <= k <= |free| && b == At(free, k)
        invariant best == Entry(free, BestFit(sizes, size, k))
        decreases |free| - k
      {
        ghost var i := ListedBlock(m, Links(), st, k);
        var bsize := Read(b + 8);
        if bsize >= size {
          if best == LIST {
            best := b;
          } else {
            i := ListedBlock(m, Links(), st, BestFit(sizes, size, k).value);
            var bestSize := Read(best + 8);
            if bsize < bestSize { best := b; }
          }
        }
        b := Read(b + 16);
        k := k + 1;
      }
    }

    /** The address at a place of the list; no place stands for the list head. */
    static ghost function Entry(free: seq<nat>, place: Option<nat>): int {
      match place
      case None => LIST
      case Some(k) => At(free, k)
    }

    lemma FirstIsHead(m: Bytes, ends: Ends, st: State)
      requires Holds(m, ends, st)
      ensures ends.first == At(st.free, 0)
    {
    }

    /** Split the chosen block and hand out its upper end. */
    method TakeUpper(b: nat, bsize: nat, size: nat, ghost k: nat, ghost i: nat) returns (buf: nat)
      requires Valid() && CanTake(mem[..], Links(), st, k, size, i)
      requires st.blocks[i] == Block(b, bsize, Free) && bsize - size > LINKS + HEADER
      modifies this, mem
      ensures Valid() && Kept(old(mem[..]), mem[..], old(st.blocks))
      ensures (st, buf - HEADER) == Take(old(st), k, size) && buf >= HEADER
      ensures numget == old(numget) + 1 && numrel == old(numrel)
    {
      hide Long, Store, Rep, Tiled, Total, Kept;
      ghost var m, blocks := mem[..], st.blocks;
      UpperTakenHolds(m, Links(), st, k, size, i);
      TakeConserves(st, k, size);
      HeaderRead(m, Links(), st, i + 1);
      var ba := b + (bsize - size);
      var bn := ba + size;
      var check := Read(bn);
      assert check == bsize;
      var rest: int, taken: int := bsize - size, -(size as int);
      Write(b + 8, rest);
      Write(ba, rest);
      Write(ba + 8, taken);
      Write(bn, 0);
      totalloc := totalloc + size;
      numget := numget + 1;
      st := Take(st, k, size).0;
      buf := ba + HEADER;
    }

    /** Hand out the whole of the chosen block. */
    method TakeAll(b: nat, bsize: nat, size: nat, ghost k: nat, ghost i: nat) returns (buf: nat)
      requires Valid() && CanTake(mem[..], Links(), st, k, size, i)
      requires st.blocks[i] == Block(b, bsize, Free) && bsize - size <= LINKS + HEADER
      modifies this, mem
      ensures Valid() && Kept(old(mem[..]), mem[..], old(st.blocks))
      ensures (st, buf - HEADER) == Take(old(st), k, size) && buf >= HEADER
      ensures numget == old(numget) + 1 && numrel == old(numrel)
    {
      hide Long, Store, Rep, Tiled, Total, Kept, Unlinked;
      ghost var m, ends := mem[..], Links();
      AllTakenHolds(m, ends, st, k, size, i);
      TakeConserves(st, k, size);
      HeaderRead(m, ends, st, i + 1);
      var ba := b + bsize;
      var check := Read(ba);
      assert check == bsize;
      Unlink(b, st.blocks, st.free, k, -1, -1);
      totalloc := totalloc + bsize;
      numget := numget + 1;
      var negated: int := -(bsize as int);
      Write(b + 8, negated);
      Write(ba, 0);
      st := Take(st, k, size).0;
      buf := b + HEADER;
    }

    /** Allocate a buffer for `requested` bytes; 0 stands for NULL. */
    method Get(requested: nat) returns (buf: nat)
      requires Valid() && requested > 0
      modifies this, mem
      ensures Valid() && Kept(old(mem[..]), mem[..], old(st.blocks))
      ensures numrel == old(numrel)
      ensures match BytePoolTiling.Get(old(st), Rounded(requested))
        case None => buf == 0 && st == old(st) && mem[..] == old(mem[..]) && numget == old(numget)
        case Some(r) => st == r.0 && buf == r.1 + HEADER && numget == old(numget) + 1
      ensures buf == 0 <==> AllTooSmall(old(st), requested)
      ensures buf != 0 ==> buf >= HEADER && Served(old(st), st, buf - HEADER, requested)
    {
      hide Long, Rep, Tiled, Total, Kept, BestFit, Take, AllTooSmall, Served;
      KeptSelf(mem[..], st.blocks);
      RefusedIffTooSmall(st, requested);
      var size := requested;
      if size < LINKS { size := LINKS; }
      size := (size + (QUANTUM - 1)) / QUANTUM * QUANTUM;
      size := size + HEADER;
      var b := FindBest(size);
      if b == LIST {
        return 0;
      }
      ghost var k := BestFit(FreeSizes(st), size, |st.free|).value;
      ghost var i := ListedBlock(mem[..], Links(), st, k);
      GetServes(st, requested);
      HeaderRead(mem[..], Links(), st, i + 1);
      var bsize := Read(b + 8);
      if bsize - size > LINKS + HEADER {
        buf := TakeUpper(b, bsize, size, k, i);
      } else {
        buf := TakeAll(b, bsize, size, k, i);
      }
    }

    // ------------------------------------------------------------------- brel

    /** Join the released block to a free block before it, or chain it. */
    method GiveBackBlock(a: nat, size: nat, prevfree: nat, ghost i: nat) returns (b: nat)
      requires Holds(mem[..], Links(), st) && i < |st.blocks|
      requires st.blocks[i] == Block(a, size, Used) && prevfree == Tag(st.blocks, i)
      requires i > 0 && !st.blocks[i - 1].kind.End? ==> st.blocks[i - 1].Limit() == a
      modifies mem, this`first, this`last
      ensures
        var (st1, j) := GiveBack(st, i);
        Merging(old(mem[..]), mem[..], Links(), st1, j) && b == st1.blocks[j].addr
    {
      hide Long, Store, Rep, Tiled, Total, Kept, Appended;
      ghost var m, ends := mem[..], Links();
      HeaderRead(m, ends, st, i);
      if prevfree != 0 {
        HeaderRead(m, ends, st, i - 1);
        b := a - prevfree;
        var check := Read(b + 8);
        assert check == prevfree;
        GrownOverMerging(m, ends, st, i);
        Write(b + 8, check + size);
      } else {
        NotFreeBefore(m, ends, st, i);
        RelistedMerging(m, ends, st, i);
        b := a;
        Append(b, st.blocks, st.free, -1, -1);
        Write(b + 8, size);
      }
    }

    lemma NotFreeBefore(m: Bytes, ends: Ends, st: State, i: nat)
      requires Holds(m, ends, st) && i < |st.blocks| && Tag(st.blocks, i) == 0
      ensures !FreeBefore(st.blocks, i)
    {
      assert i > 0 ==> BlockOk(st.blocks[i - 1]);
    }

    /** Join a free block after the merged one. */
    method SwallowNext(b: nat, ghost m0: Bytes, ghost st1: State, ghost j: nat) returns (ghost st2: State)
      requires Merging(m0, mem[..], Links(), st1, j) && b == st1.blocks[j].addr
      modifies mem, this`first, this`last
      ensures Merging(m0, mem[..], Links(), st2, j) && b == st2.blocks[j].addr
      ensures st2 == Absorb(st1, j) && !st2.blocks[j + 1].kind.Free?
    {
      hide Long, Store, Rep, Total, Kept, Unlinked, Listed, Geometry;
      ghost var m := mem[..];
      MergingRead(m0, m, Links(), st1, j, j);
      MergingRead(m0, m, Links(), st1, j, j + 1);
      st2 := Absorb(st1, j);
      var bsize := Read(b + 8);
      var bn := b + bsize;
      var next := Read(bn + 8);
      if next > 0 {
        MergingRead(m0, m, Links(), st1, j, j + 2);
        var check := Read(bn + next);
        assert check == next;
        SwallowedMerging(m0, m, Links(), st1, j);
        ghost var k := PlaceOf(st1.free, bn);
        Unlink(bn, st1.blocks, st1.free, k, j + 1, j);
        Write(b + 8, bsize + next);
      }
    }

    /** Wipe the merged block and set the tag behind it. */
    method Seal(b: nat, ghost m0: Bytes, ghost st2: State, ghost j: nat)
      requires Merging(m0, mem[..], Links(), st2, j) && b == st2.blocks[j].addr && !st2.blocks[j + 1].kind.Free?
      modifies mem
      ensures Holds(mem[..], Links(), st2) && Kept(m0, mem[..], st2.blocks)
    {
      hide Long, Store, Rep, Kept, Filled, Geometry, Listed;
      ghost var m := mem[..];
      MergingRead(m0, m, Links(), st2, j, j);
      MergingRead(m0, m, Links(), st2, j, j + 1);
      SealedHolds(m0, m, Links(), st2, j);
      var bsize := Read(b + 8);
      var next := Read(b + bsize + 8);
      Wipe(b + FREE_HEADER, b + bsize);
      assert next < 0;
      Write(b + bsize, bsize);
    }

    /** Release the buffer at `buf`. */
    method Release(buf: nat)
      requires Valid() && buf >= HEADER && IsUsedAt(st.blocks, buf - HEADER)
      modifies this, mem
      ensures Valid() && Kept(old(mem[..]), mem[..], st.blocks)
      ensures
        var i := IndexOf(old(st).blocks, buf - HEADER);
        old(st).blocks[i].kind.Used? && st == BytePoolTiling.Release(old(st), i) && Returned(old(st), st, i)
      ensures numget == old(numget) && numrel == old(numrel) + 1
    {
      hide Long, Rep, Tiled, Total, Kept, Merging, GiveBack, Absorb, Returned;
      ghost var m, ends := mem[..], Links();
      var b := buf - HEADER;
      numrel := numrel + 1;
      ghost var i := UsedFound(st, b);
      HeaderRead(m, ends, st, i);
      HeaderRead(m, ends, st, i + 1);
      ReleaseConserves(st, i);
      ReleaseReturns(st, i);
      var bsize := Read(b + 8);
      assert bsize < 0;
      var check := Read(b - bsize);
      assert check == 0;
      totalloc := totalloc + bsize;
      assert totalloc >= 0;
      var prevfree := Read(b);
      b := GiveBackBlock(b, -bsize, prevfree, i);
      ghost var (st1, j) := GiveBack(st, i);
      ghost var st2 := SwallowNext(b, m, st1, j);
      Seal(b, m, st2, j);
      st := st2;
    }

    // ------------------------------------------------------------------ bgetr

    /** `memcpy(to, from, n)` into the payload of used block `i`. */
    method Copy(from: nat, to: nat, n: nat, ghost i: nat)
      requires Holds(mem[..], Links(), st) && i < |st.blocks| && st.blocks[i].kind.Used?
      requires to == st.blocks[i].addr + HEADER && to + n <= st.blocks[i].Limit() <= mem.Length
      requires from + n <= mem.Length && (from + n <= to || to + n <= from)
      modifies mem
      ensures Holds(mem[..], Links(), st)
      ensures mem[to..to + n] == old(mem[..])[from..from + n]
      ensures forall x :: 0 <= x < mem.Length && !(to <= x < to + n) ==> mem[x] == old(mem[x])
    {
      forall j | 0 <= j < n {
        mem[to + j] := mem[from + j];
      }
      PayloadStored(old(mem[..]), mem[..], Links(), st, i);
    }

    static function Smaller(a: int, b: int): int {
      if a < b then a else b
    }

    /** Reallocate the buffer at `buf` (0 for none), which is block `i`, to `size`
        bytes: the first bytes move with it, no other buffer changes, and on failure
        nothing does. */
    method GetAgain(buf: nat, size: nat, ghost i: nat) returns (nbuf: nat)
      requires Valid() && size > 0
      requires buf != 0 ==> i < |st.blocks| && st.blocks[i].kind.Used? && st.blocks[i].addr + HEADER == buf
      modifies this, mem
      ensures Valid()
      ensures nbuf == 0 <==> AllTooSmall(old(st), size)
      ensures nbuf == 0 <==> BytePoolTiling.Get(old(st), Rounded(size)).None?
      ensures nbuf == 0 ==> st == old(st) && mem[..] == old(mem[..])
      ensures nbuf != 0 ==> HasBuffer(st.blocks, nbuf, size)
      ensures nbuf != 0 && buf != 0 ==>
        Moved(old(mem[..]), mem[..], buf, nbuf, Smaller(size, old(st).blocks[i].size - HEADER))
      ensures nbuf != 0 ==> UntouchedExcept(old(mem[..]), mem[..], old(st).blocks, st.blocks, buf)
    {
      hide Holds, Total, BytePoolTiling.Get, Rounded, Kept, Untouched, BytePoolTiling.Release, Long, Moved;
      hide AllTooSmall, Served, Returned, UntouchedExcept;
      ghost var st0, m0 := st, mem[..];
      nbuf := Get(size);
      if nbuf == 0 {
        return;
      }
      ghost var st1, m1 := st, mem[..];
      GotTiled(m0, old(Links()), st0);
      GotTiled(m1, Links(), st1);
      ghost var n := GotBuffer(m0, m1, st0, st1, size, nbuf);
      if buf == 0 {
        return;
      }
      ghost var o := OldBuffer(m0, m1, Links(), st0, st1, i);
      HeaderRead(m1, Links(), st1, n);
      HeaderRead(m1, Links(), st1, o);
      TiledApart(st1, n, o);
      var osize := Read(buf - 8);
      osize := -osize - HEADER;
      assert osize > 0;
      var length := if size < osize then size else osize;
      Copy(buf, nbuf, length, n);
      ghost var m2 := mem[..];
      Release(buf);
      ReallocatedOk(m0, m1, m2, mem[..], st0, st1, i, n, o, buf, nbuf, length);
    }

    // ----------------------------------------------------------------- bstats

    /** Free and used space, adding up the list. */
    method Stats() returns (curalloc: int, totfree: int, maxfree: int, nget: int, nrel: int)
      requires Valid()
      ensures nget == numget && nrel == numrel && curalloc == Total(st.blocks, Used)
      ensures totfree == Total(st.blocks, Free) && curalloc + totfree == Capacity(st.blocks)
      ensures forall i :: 0 <= i < |st.blocks| && st.blocks[i].kind.Free? ==> st.blocks[i].size <= maxfree
      ensures maxfree == -1 ||
        exists i :: 0 <= i < |st.blocks| && st.blocks[i].kind.Free? && st.blocks[i].size == maxfree
    {
      hide Long, Tiled, Rep, Total;
      ghost var k, sizes, m := 0, FreeSizes(st), mem[..];
      var b := first;
      nget, nrel, curalloc := numget, numrel, totalloc;
      totfree, maxfree := 0, -1;
      FirstIsHead(m, Links(), st);
      while b != LIST
        invariant 0 <= k <= |st.free| && b == At(st.free, k)
        invariant totfree == Sum(sizes[..k])
        invariant forall j :: 0 <= j < k ==> sizes[j] <= maxfree
        invariant maxfree == -1 || exists j :: 0 <= j < k && sizes[j] == maxfree
        decreases |st.free| - k
      {
        ghost var i := ListedBlock(m, Links(), st, k);
        var bsize := Read(b + 8);
        HeaderRead(m, Links(), st, i);
        assert bsize > 0;
        assert sizes[..k + 1][..k] == sizes[..k];
        totfree := totfree + bsize;
        if bsize > maxfree { maxfree := bsize; }
        b := Read(b + 16);
        k := k + 1;
      }
      assert sizes[..k] == sizes;
      ListSum(st);
      ListCovers(st, maxfree);
    }

    lemma ListCovers(st: State, top: int)
      requires Tiled(st)
      requires forall k :: 0 <= k < |st.free| ==> FreeSizes(st)[k] <= top
      requires top == -1 || exists k :: 0 <= k < |st.free| && FreeSizes(st)[k] == top
      ensures forall i :: 0 <= i < |st.blocks| && st.blocks[i].kind.Free? ==> st.blocks[i].size <= top
      ensures top == -1 || exists i :: 0 <= i < |st.blocks| && st.blocks[i].kind.Free? && st.blocks[i].size == top
    {
      hide Geometry, Coalesced;
      forall i | 0 <= i < |st.blocks| && st.blocks[i].kind.Free? ensures st.blocks[i].size <= top {
        assert IsFreeAt(st.blocks, st.blocks[i].addr);
        var k := PlaceOf(st.free, st.blocks[i].addr);
        FoundAt(st.blocks, i);
        assert FreeSizes(st)[k] <= top;
      }
      if top != -1 {
        var k :| 0 <= k < |st.free| && FreeSizes(st)[k] == top;
        var i := FreePlaces(st, k);
      }
    }

    // ----------------------------------------------------------------- bpoolv

    /** The pool as `Valid`, but with nothing said about the contents of free blocks. */
    ghost predicate ValidUnwiped()
      reads this, mem
    {
      && Tiled(st)
      && Room(mem[..], st.blocks) && Spaced(st.free, mem.Length)
      && Headers(mem[..], st.blocks, -1) && BytePoolLayout.Links(mem[..], Links(), st.free)
    }

    /** `memcmp` of a range with itself shifted by one, after a look at its first byte. */
    method CheckWiped(lo: nat, hi: nat) returns (ok: bool)
      requires lo < hi <= mem.Length
      ensures ok <==> forall x :: lo <= x < hi ==> mem[x] == WIPE
    {
      if mem[lo] != WIPE { return false; }
      var x := lo;
      while x + 1 < hi
        invariant lo <= x < hi
        invariant forall y :: lo <= y <= x ==> mem[y] == WIPE
      {
        if mem[x] != mem[x + 1] { return false; }
        x := x + 1;
      }
      return true;
    }

    /** The header of block `i`. */
    lemma BlockRead(i: nat)
      requires ValidUnwiped() && i < |st.blocks|
      ensures
        var b := st.blocks[i];
        && b.addr + HEADER <= b.Limit() <= mem.Length && Long(mem[..], b.addr + 8) == SizeField(b)
        && (SizeField(b) == LONG_MIN <==> b.kind.End?) && (SizeField(b) > 0 <==> b.kind.Free?)
        && (!b.kind.End? ==> b.addr + FREE_HEADER <= b.Limit())
        && (!b.kind.End? ==> i + 1 < |st.blocks| && st.blocks[i + 1].addr == b.Limit())
    {
      assert BlockOk(st.blocks[i]);
      assert HeaderAt(mem[..], st.blocks, i, -1);
    }

    /** The neighbours in the list of free block `i` point back to it. */
    method CheckLinks(b: nat, ghost i: nat) returns (ok: bool)
      requires ValidUnwiped() && i < |st.blocks| && st.blocks[i].addr == b && st.blocks[i].kind.Free?
      ensures ok
    {
      hide Long, Headers, Geometry, Spaced;
      assert IsFreeAt(st.blocks, b);
      ghost var m, free, k := mem[..], st.free, PlaceOf(st.free, b);
      SpacedAddress(free, |m|, k - 1);
      SpacedAddress(free, |m|, k);
      SpacedAddress(free, |m|, k + 1);
      assert LinkedAt(m, free, k);
      if k > 0 { assert LinkedAt(m, free, k - 1); }
      if k + 1 < |free| { assert LinkedAt(m, free, k + 1); }
      var back := GetBlink(b);
      var forward := GetFlink(b);
      var there := GetFlink(back);
      var here := GetBlink(forward);
      ok := there == b && here == b;
    }

    /** Validate the region whose first block is block `r`: accepted exactly when
        none of its free blocks has been written to. */
    method Validate(buf: nat, ghost r: nat) returns (ok: bool)
      requires ValidUnwiped() && r < |st.blocks| && st.blocks[r].addr == buf
      ensures ok <==> RegionWiped(mem[..], st.blocks, r, RegionEnd(st.blocks, r))
    {
      hide Long, Wiped, Tiled, Room, Headers, BytePoolLayout.Links;
      ghost var i, m, blocks := r, mem[..], st.blocks;
      ghost var end := RegionEnd(blocks, r);
      var b := buf;
      BlockRead(r);
      var bs := Read(b + 8);
      while bs != LONG_MIN
        invariant r <= i <= end == RegionEnd(blocks, i) && i < |blocks|
        invariant b == blocks[i].addr && bs == SizeField(blocks[i])
        invariant RegionWiped(m, blocks, r, i)
        decreases |blocks| - i
      {
        BlockRead(i);
        BlockRead(i + 1);
        if bs < 0 {
          bs := -bs;
        } else {
          assert bs > 0;
          var ok1 := CheckLinks(b, i);
          if !ok1 { return false; }
          if bs > FREE_HEADER {
            var clean := CheckWiped(b + FREE_HEADER, b + bs);
            WipedIff(m, blocks[i], clean);
            if !clean { return false; }
          } else {
            WipedIff(m, blocks[i], true);
          }
        }
        b := b + bs;
        i := i + 1;
        bs := Read(b + 8);
      }
      BlockRead(i);
      return true;
    }

    /** The free ones among blocks [r, e) hold the wipe pattern. */
    static ghost predicate RegionWiped(m: Bytes, blocks: Blocks, r: nat, e: nat) {
      forall i :: r <= i < e && i < |blocks| && blocks[i].kind.Free? && blocks[i].Limit() <= |m| ==> Wiped(m, blocks[i])
    }

    /** Every pool kept by the operations passes its own validator. */
    method ValidateValid(buf: nat, ghost r: nat) returns (ok: bool)
      requires Valid() && r < |st.blocks| && st.blocks[r].addr == buf
      ensures ok
    {
      ok := Validate(buf, r);
    }

    lemma WipedIff(m: Bytes, b: Block, clean: bool)
      requires b.Limit() <= |m|
      requires clean <==> forall x :: b.addr + FREE_HEADER <= x < b.Limit() ==> m[x] == WIPE
      ensures clean <==> Wiped(m, b)
    {
    }

    // ------------------------------------------------------------------ bpool

    /** Hand the region of `len` bytes at `buf` to the pool. */
    method AddRegion(buf: nat, len: nat)
      requires Valid() && FREE_HEADER + HEADER <= len / QUANTUM * QUANTUM && len <= INT_MAX
      requires buf + len <= mem.Length && Clear(st.blocks, buf, buf + len)
      modifies this, mem
      ensures Valid() && Kept(old(mem[..]), mem[..], old(st).blocks)
      ensures st == Extended(old(st), buf, len / QUANTUM * QUANTUM - HEADER)
      ensures numget == old(numget) && numrel == old(numrel)
    {
      hide Long, Store, Tiled, Rep, Kept, Appended, Filled, Total;
      ghost var m, ends := mem[..], Links();
      var size := len / QUANTUM * QUANTUM - HEADER;
      assert CanExtend(m, ends, st, buf, size);
      RegionHolds(m, ends, st, buf, size);
      RegionRoom(m, ends, st, buf, size);
      ExtendedTotal(st, buf, size);
      Write(buf, 0);
      Append(buf, st.blocks, st.free, -1, -1);
      Write(buf + 8, size);
      Wipe(buf + FREE_HEADER, buf + size);
      Write(buf + size, size);
      Write(buf + size + 8, LONG_MIN);
      st := Extended(st, buf, size);
    }

    lemma RegionRoom(m: Bytes, ends: Ends, st: State, buf: nat, size: nat)
      requires CanExtend(m, ends, st, buf, size)
      ensures |m| <= LONG_MAX && Spaced(st.free, |m|)
      ensures Rep(Store(m, buf, 0), ends, st.blocks, st.free, -1, -1)
    {
      hide Long, Store, Geometry, Wipes, Listed, Kept, Coalesced, Headers;
      KeptSelf(m, st.blocks);
      OutsideStore(m, m, st.blocks, buf, buf + size + HEADER, buf, 0);
      OutsideLinks(m, ends, st, buf, buf + size + HEADER, buf, 0);
    }
  }
}
