/**
 The boot loader's memory map (boot/uefi/library.c): neighbouring entries are joined, then
 the kernel's range is cut out of the entry that holds it.
 */
module MemoryMap {

  const WORD: nat := 0x1_0000_0000_0000_0000

  /** As a 64-bit number. */
  function Word(x: int): nat { x % WORD }

  lemma WordIs(x: nat)
    requires x < WORD
    ensures Word(x) == x
  {}

  datatype Kind = Reserved | Firmware | Acpi | Nvs | Available | Reclaim

  datatype Entry = Entry(kind: Kind, base: nat, virtual: nat, length: nat, attributes: nat) {
    /** The entry ends inside the address space. */
    predicate Fits() { base + length < WORD }

    predicate Covers(x: nat) { base <= x < base + length }

    /** The same as the code tests it, with an end that may have wrapped. */
    predicate Found(x: nat) { base <= x < Word(base + length) }
  }

  /** What a memory map says about an address: type and attributes. */
  datatype Use = Use(kind: Kind, attributes: nat)

  /** Everything the map says about address `x`, entry by entry. */
  function At(s: seq<Entry>, x: nat): seq<Use> {
    if s == [] then []
    else At(s[..|s| - 1], x) + (if s[|s| - 1].Covers(x) then [Use(s[|s| - 1].kind, s[|s| - 1].attributes)] else [])
  }

  function Total(s: seq<Entry>): nat {
    if s == [] then 0 else Total(s[..|s| - 1]) + s[|s| - 1].length
  }

  lemma {:induction false} AtConcat(a: seq<Entry>, b: seq<Entry>, x: nat)
    ensures At(a + b, x) == At(a, x) + At(b, x)
    ensures Total(a + b) == Total(a) + Total(b)
    decreases b
  {
    if b == [] {
      assert a + b == a;
    } else {
      AtConcat(a, b[..|b| - 1], x);
      assert (a + b)[..|a + b| - 1] == a + b[..|b| - 1];
    }
  }

  lemma AtOne(e: Entry, x: nat)
    ensures At([e], x) == if e.Covers(x) then [Use(e.kind, e.attributes)] else []
    ensures Total([e]) == e.length
  {
    assert [e][..0] == [];
  }

  // ------------------------------------------------------------------ consolidation

  /** The second entry continues the first. */
  predicate Mergeable(a: Entry, b: Entry) {
    a.kind == b.kind && a.attributes == b.attributes && Word(a.base + a.length) == b.base
  }

  function Joined(a: Entry, b: Entry): Entry {
    a.(length := Word(a.length + b.length))
  }

  /** What the loop makes of the entries it has seen and those still to come. */
  function Merged(done: seq<Entry>, rest: seq<Entry>): seq<Entry>
    decreases rest
  {
    if rest == [] then done
    else if done != [] && Mergeable(done[|done| - 1], rest[0]) then
      Merged(done[..|done| - 1] + [Joined(done[|done| - 1], rest[0])], rest[1..])
    else Merged(done + [rest[0]], rest[1..])
  }

  ghost predicate AllFit(s: seq<Entry>) {
    forall i :: 0 <= i < |s| ==> s[i].Fits()
  }

  ghost predicate NoneMergeable(s: seq<Entry>) {
    forall i {:trigger MergeableAt(s, i)} :: 0 < i < |s| ==> !MergeableAt(s, i)
  }

  /** Entry `i` is of the same type and attributes as the one before it and starts where that one ends. */
  ghost predicate MergeableAt(s: seq<Entry>, i: int)
    requires 0 < i < |s|
  {
    && s[i - 1].kind == s[i].kind
    && s[i - 1].attributes == s[i].attributes
    && s[i - 1].base + s[i - 1].length == s[i].base
  }

  /** Joining two neighbours changes nothing for any address. */
  lemma JoinKeeps(a: Entry, b: Entry, x: nat)
    requires a.Fits() && b.Fits() && Mergeable(a, b)
    ensures Joined(a, b).Fits() && At([Joined(a, b)], x) == At([a], x) + At([b], x)
    ensures Total([Joined(a, b)]) == Total([a]) + Total([b])
  {
    AtOne(a, x);
    AtOne(b, x);
    AtOne(Joined(a, b), x);
  }

  /**
   Consolidation, as a function from addresses, is the identity, also where entries overlap;
   the total length stays, and no two neighbours are left that could be joined.
   */
  lemma {:induction false} MergedKeepsMap(done: seq<Entry>, rest: seq<Entry>, x: nat)
    requires AllFit(done) && AllFit(rest) && NoneMergeable(done)
    ensures
      var r := Merged(done, rest);
      && At(r, x) == At(done, x) + At(rest, x) && Total(r) == Total(done) + Total(rest)
      && AllFit(r) && NoneMergeable(r) && |r| <= |done| + |rest|
    decreases rest
  {
    hide At, Total;
    if rest == [] {
      assert At([], x) == [] && Total([]) == 0 by { EmptyMap(x); }
    } else {
      var n := |done| - 1;
      assert rest == [rest[0]] + rest[1..];
      AtConcat([rest[0]], rest[1..], x);
      if done != [] && Mergeable(done[n], rest[0]) {
        var j := Joined(done[n], rest[0]);
        assert done == done[..n] + [done[n]];
        AtConcat(done[..n], [done[n]], x);
        AtConcat(done[..n], [j], x);
        JoinKeeps(done[n], rest[0], x);
        LastReplaced(done, j);
        MergedKeepsMap(done[..n] + [j], rest[1..], x);
      } else {
        AtConcat(done, [rest[0]], x);
        LastAppended(done, rest[0]);
        MergedKeepsMap(done + [rest[0]], rest[1..], x);
      }
    }
  }

  lemma EmptyMap(x: nat)
    ensures At([], x) == [] && Total([]) == 0
  {}

  /** The join of the last entry is no more mergeable with its predecessor than the entry was. */
  lemma LastReplaced(s: seq<Entry>, j: Entry)
    requires s != [] && NoneMergeable(s) && j == s[|s| - 1].(length := j.length)
    ensures NoneMergeable(s[..|s| - 1] + [j])
  {
    var r := s[..|s| - 1] + [j];
    forall i | 0 < i < |r| ensures !MergeableAt(r, i) {
      assert !MergeableAt(s, i);
    }
  }

  lemma LastAppended(s: seq<Entry>, e: Entry)
    requires NoneMergeable(s) && e.base < WORD && (s != [] ==> !Mergeable(s[|s| - 1], e))
    ensures NoneMergeable(s + [e])
  {
    var r := s + [e];
    forall i | 0 < i < |r| ensures !MergeableAt(r, i) {
      if i < |s| { assert !MergeableAt(s, i); }
    }
  }

  lemma ConsolidationKeepsMap(s: seq<Entry>, x: nat)
    requires AllFit(s)
    ensures
      var r := Merged([], s);
      At(r, x) == At(s, x) && Total(r) == Total(s) && AllFit(r) && NoneMergeable(r) && |r| <= |s|
  {
    hide Merged;
    MergedKeepsMap([], s, x);
    assert At([], x) + At(s, x) == At(s, x);
  }

  // ------------------------------------------------------------------ the kernel

  /** The first entry that the loop takes for the one around the kernel, |s| if there is none. */
  function Around(s: seq<Entry>, kernel: nat, i: nat): (r: nat)
    requires i <= |s|
    ensures i <= r <= |s| && (r < |s| ==> s[r].Found(kernel) && s[r].Covers(kernel))
    ensures forall k :: i <= k < r ==> !s[k].Found(kernel)
    decreases |s| - i
  {
    if i == |s| || s[i].Found(kernel) then i else Around(s, kernel, i + 1)
  }

  lemma AroundStep(s: seq<Entry>, kernel: nat, i: nat)
    requires i < |s|
    ensures Around(s, kernel, i) == if s[i].Found(kernel) then i else Around(s, kernel, i + 1)
  {}

  /** The entries that take the place of entry `e`; lengths are 64-bit numbers. */
  function Cut(e: Entry, kernel: nat, length: nat): seq<Entry>
    requires e.Covers(kernel)
  {
    var middle := Entry(Reserved, kernel, 0, length, e.attributes);
    if e.base == kernel then
      [middle, e.(base := Word(e.base + length), length := Word(e.length - length))]
    else
      var first := e.(length := kernel - e.base);
      [first, middle, e.(base := Word(kernel + length), length := Word(e.length - (length + first.length)))]
  }

  /** The memory map with the kernel marked. */
  function Marked(s: seq<Entry>, kernel: nat, length: nat): seq<Entry> {
    var i := Around(s, kernel, 0);
    if i == |s| then s else s[..i] + Cut(s[i], kernel, length) + s[i + 1..]
  }

  /** The cut covers the same addresses, the kernel's as reserved. */
  lemma CutKeeps(e: Entry, kernel: nat, length: nat, x: nat)
    requires e.Fits() && e.Covers(kernel) && kernel + length <= e.base + e.length
    ensures At(Cut(e, kernel, length), x) ==
      if kernel <= x < kernel + length then [Use(Reserved, e.attributes)] else At([e], x)
  {
    hide At, Total, Word;
    var c := Cut(e, kernel, length);
    WordIs(kernel + length);
    WordIs(e.base + e.length - kernel - length);
    AtOne(e, x);
    AtOne(c[0], x);
    AtOne(c[1], x);
    if e.base == kernel {
      AtTwo(c[0], c[1], x);
    } else {
      AtOne(c[2], x);
      AtThree(c[0], c[1], c[2], x);
    }
  }

  lemma AtTwo(a: Entry, b: Entry, x: nat)
    ensures At([a, b], x) == At([a], x) + At([b], x) && Total([a, b]) == Total([a]) + Total([b])
  {
    AtConcat([a], [b], x);
    assert [a] + [b] == [a, b];
  }

  lemma AtThree(a: Entry, b: Entry, c: Entry, x: nat)
    ensures At([a, b, c], x) == At([a], x) + At([b], x) + At([c], x)
    ensures Total([a, b, c]) == Total([a]) + Total([b]) + Total([c])
  {
    AtTwo(a, b, x);
    AtConcat([a, b], [c], x);
    assert [a, b] + [c] == [a, b, c];
  }

  /** The lengths add up as before exactly when the kernel lies inside the entry. */
  lemma CutTotal(e: Entry, kernel: nat, length: nat)
    requires e.Fits() && e.Covers(kernel) && length < WORD
    ensures Total(Cut(e, kernel, length)) == e.length <==> kernel + length <= e.base + e.length
  {
    hide Total, At;
    var c := Cut(e, kernel, length);
    AtOne(c[0], 0);
    AtOne(c[1], 0);
    if e.base == kernel {
      AtTwo(c[0], c[1], 0);
    } else {
      AtOne(c[2], 0);
      AtThree(c[0], c[1], c[2], 0);
    }
  }

  /** A kernel that runs past its entry: what is left of the entry has a length that has wrapped,
      and begins at an address behind the kernel, or at the start of memory. */
  lemma CutLeaks(e: Entry, kernel: nat, length: nat)
    requires e.Fits() && e.Covers(kernel) && e.base + e.length < kernel + length && length < WORD
    ensures
      var x := Word(kernel + length);
      !(kernel <= x < kernel + length) && |At(Cut(e, kernel, length), x)| == |At([e], x)| + 1
  {
    hide At, Total;
    var c, x := Cut(e, kernel, length), Word(kernel + length);
    AtOne(e, x);
    AtOne(c[0], x);
    AtOne(c[1], x);
    if e.base == kernel {
      AtTwo(c[0], c[1], x);
    } else {
      AtOne(c[2], x);
      AtThree(c[0], c[1], c[2], x);
    }
  }

  /** What the map says is what it said before, around and after the entry that is cut. */
  lemma MarkedAt(s: seq<Entry>, kernel: nat, length: nat, x: nat)
    requires Around(s, kernel, 0) < |s|
    ensures
      var i := Around(s, kernel, 0);
      At(Marked(s, kernel, length), x) == At(s[..i], x) + At(Cut(s[i], kernel, length), x) + At(s[i + 1..], x)
      && At(s, x) == At(s[..i], x) + At([s[i]], x) + At(s[i + 1..], x)
  {
    hide At, Total, Around, Cut;
    var i := Around(s, kernel, 0);
    AtConcat(s[..i], Cut(s[i], kernel, length), x);
    AtConcat(s[..i] + Cut(s[i], kernel, length), s[i + 1..], x);
    AtConcat(s[..i], [s[i]], x);
    AtConcat(s[..i] + [s[i]], s[i + 1..], x);
    assert s == s[..i] + [s[i]] + s[i + 1..];
  }

  /** What the map says about the kernel's addresses once they are marked: reserved, where the
      entry around them said something else. */
  lemma MarkingReserves(s: seq<Entry>, kernel: nat, length: nat, x: nat)
    requires var i := Around(s, kernel, 0); i < |s| && s[i].Fits() && kernel + length <= s[i].base + s[i].length
    requires kernel <= x < kernel + length
    ensures
      var i := Around(s, kernel, 0);
      At(Marked(s, kernel, length), x) == At(s[..i], x) + [Use(Reserved, s[i].attributes)] + At(s[i + 1..], x)
  {
    MarkedAt(s, kernel, length, x);
    CutKeeps(s[Around(s, kernel, 0)], kernel, length, x);
  }

  /**
   Marking the kernel changes what the map says about no other address, exactly when the kernel
   lies inside the entry that is cut.
   */
  lemma MarkingChangesOnlyKernel(s: seq<Entry>, kernel: nat, length: nat)
    requires Around(s, kernel, 0) < |s| && s[Around(s, kernel, 0)].Fits() && length < WORD
    ensures
      var i := Around(s, kernel, 0);
      (forall x: nat :: x < kernel || kernel + length <= x ==> At(Marked(s, kernel, length), x) == At(s, x))
      <==> kernel + length <= s[i].base + s[i].length
  {
    hide At, Total, Around, Cut, Marked, Word;
    var e := s[Around(s, kernel, 0)];
    if kernel + length <= e.base + e.length {
      forall x: nat | x < kernel || kernel + length <= x ensures At(Marked(s, kernel, length), x) == At(s, x) {
        MarkedAt(s, kernel, length, x);
        CutKeeps(e, kernel, length, x);
      }
    } else {
      MarkedAt(s, kernel, length, Word(kernel + length));
      CutLeaks(e, kernel, length);
    }
  }

  /** A kernel of two pages in a map that has one: the map then says that all memory behind the
      kernel, up to its end, is available. */
  lemma KernelRunsOver(x: nat)
    requires 8192 <= x < WORD
    ensures
      var s := [Entry(Available, 0, 0, 4096, 0)];
      Marked(s, 0, 8192) == [Entry(Reserved, 0, 0, 8192, 0), Entry(Available, 8192, 0, WORD - 4096, 0)]
      && At(s, x) == [] && At(Marked(s, 0, 8192), x) == [Use(Available, 0)]
  {
    var s := [Entry(Available, 0, 0, 4096, 0)];
    var r := Entry(Available, 8192, 0, WORD - 4096, 0);
    assert Around(s, 0, 0) == 0;
    assert Marked(s, 0, 8192) == Cut(s[0], 0, 8192);
    AtTwo(Entry(Reserved, 0, 0, 8192, 0), r, x);
    AtOne(s[0], x);
    AtOne(Entry(Reserved, 0, 0, 8192, 0), x);
    AtOne(r, x);
  }

  /** The total length is conserved exactly when there is no entry around the kernel or the
      kernel lies inside it. */
  lemma MarkingKeepsTotal(s: seq<Entry>, kernel: nat, length: nat)
    requires length < WORD && (Around(s, kernel, 0) < |s| ==> s[Around(s, kernel, 0)].Fits())
    ensures
      var i := Around(s, kernel, 0);
      Total(Marked(s, kernel, length)) == Total(s) <==> i == |s| || kernel + length <= s[i].base + s[i].length
  {
    hide At, Total, Around;
    var i := Around(s, kernel, 0);
    if i < |s| {
      CutTotal(s[i], kernel, length);
      AtConcat(s[..i], Cut(s[i], kernel, length), 0);
      AtConcat(s[..i] + Cut(s[i], kernel, length), s[i + 1..], 0);
      AtOne(s[i], 0);
      AtConcat(s[..i], [s[i]], 0);
      AtConcat(s[..i] + [s[i]], s[i + 1..], 0);
      assert s == s[..i] + [s[i]] + s[i + 1..];
    }
  }

  /** Where entries do not overlap the map is a function, and stays one. */
  lemma {:induction false} OneUse(s: seq<Entry>, x: nat, i: nat)
    requires i < |s| && s[i].Covers(x) && forall k :: 0 <= k < |s| && k != i ==> !s[k].Covers(x)
    ensures At(s, x) == [Use(s[i].kind, s[i].attributes)]
    decreases |s|
  {
    var n := |s| - 1;
    if i < n {
      OneUse(s[..n], x, i);
    } else {
      NoUse(s[..n], x);
    }
  }

  lemma {:induction false} NoUse(s: seq<Entry>, x: nat)
    requires forall k :: 0 <= k < |s| ==> !s[k].Covers(x)
    ensures At(s, x) == []
    decreases |s|
  {
    if s != [] { NoUse(s[..|s| - 1], x); }
  }

  // ------------------------------------------------------------------ in place

  /** `s` after entries `source + lo` to `source + hi - 1` have been copied, of `n` in all. */
  function Copied(s: seq<Entry>, source: nat, destination: nat, lo: nat, hi: nat, n: nat): (r: seq<Entry>)
    requires lo <= hi <= n && source + n <= |s| && destination + n <= |s|
    ensures |r| == |s|
  {
    s[..destination + lo] + s[source + lo..source + hi] + s[destination + hi..]
  }

  lemma CopiedMore(s: seq<Entry>, source: nat, destination: nat, i: nat, n: nat)
    requires i < n && destination <= source && source + n <= |s|
    ensures
      var c := Copied(s, source, destination, 0, i, n);
      c[source + i] == s[source + i]
        && c[destination + i := s[source + i]] == Copied(s, source, destination, 0, i + 1, n)
  {}

  lemma CopiedBefore(s: seq<Entry>, source: nat, destination: nat, i: nat, n: nat)
    requires i < n && source <= destination && destination + n <= |s|
    ensures
      var c := Copied(s, source, destination, i + 1, n, n);
      c[source + i] == s[source + i] && c[destination + i := s[source + i]] == Copied(s, source, destination, i, n, n)
  {}

  /** The entries once `n` of them, from `i` on, have moved up by `d`. */
  lemma RoomMade(s: seq<Entry>, i: nat, d: nat, n: nat)
    requires n > 0 && i + d + n <= |s|
    ensures
      var r := Copied(s, i, i + d, 0, n, n);
      r[..i] == s[..i] && r[i + d] == s[i] && r[i + d + 1..i + d + n] == s[i + 1..i + n]
  {}

  class VBoot {
    const entries: array<Entry>
    var count: nat

    constructor (entries: array<Entry>, count: nat)
      ensures this.entries == entries && this.count == count
    {
      this.entries := entries;
      this.count := count;
    }

    ghost predicate Valid()
      reads this
    {
      count <= entries.Length
    }

    ghost function Map(): seq<Entry>
      requires Valid()
      reads this, entries
    {
      entries[..count]
    }

    /** __MemMove, of whole entries: `n` entries from `source` on, in ascending order. */
    method MoveDown(source: nat, destination: nat, n: nat)
      requires destination <= source && source + n <= entries.Length
      modifies entries
      ensures entries[..] == Copied(old(entries[..]), source, destination, 0, n, n)
    {
      ghost var was := entries[..];
      var i := 0;
      while i < n
        invariant i <= n && entries[..] == Copied(was, source, destination, 0, i, n)
      {
        CopiedMore(was, source, destination, i, n);
        entries[destination + i] := entries[source + i];
        i := i + 1;
      }
    }

    /** __MemMoveReverse, of whole entries: in descending order. */
    method MoveUp(source: nat, destination: nat, n: nat)
      requires source <= destination && destination + n <= entries.Length
      modifies entries
      ensures entries[..] == Copied(old(entries[..]), source, destination, 0, n, n)
    {
      ghost var was := entries[..];
      var i := n;
      while i > 0
        invariant 0 <= i <= n && entries[..] == Copied(was, source, destination, i, n, n)
      {
        i := i - 1;
        CopiedBefore(was, source, destination, i, n);
        entries[destination + i] := entries[source + i];
      }
    }

    /** Two neighbours become one entry and the rest moves down. */
    method JoinAt(i: nat)
      requires Valid() && 1 <= i < count
      modifies this`count, entries
      ensures count == old(count) - 1 && Valid()
      ensures entries[..i] == old(entries[..i - 1] + [Joined(entries[i - 1], entries[i])])
      ensures entries[i..count] == old(entries[i + 1..count])
    {
      entries[i - 1] := Joined(entries[i - 1], entries[i]);
      ghost var now := entries[..];
      if i < count - 1 { MoveDown(i + 1, i, count - i - 1); }
      count := count - 1;
      assert entries[..i] == entries[..][..i] == now[..i];
      assert entries[i..count] == entries[..][i..count] == now[i + 1..count + 1];
    }

    /** __ConsolidateMemoryMap. */
    method Consolidate()
      requires Valid()
      modifies this`count, entries
      ensures Valid() && Map() == Merged([], old(Map()))
    {
      hide Mergeable, Joined;
      ghost var was := Map();
      if count == 0 { return; }
      var i := 1;
      assert entries[..1] == [] + [was[0]] && entries[1..count] == was[1..];
      while i < count
        invariant 1 <= i <= count && Valid()
        invariant Merged(entries[..i], entries[i..count]) == Merged([], was)
        decreases count - i
      {
        ghost var done, rest := entries[..i], entries[i..count];
        assert done[|done| - 1] == entries[i - 1] && rest[0] == entries[i];
        if Mergeable(entries[i - 1], entries[i]) {
          JoinAt(i);
          assert entries[..i] == done[..|done| - 1] + [Joined(done[|done| - 1], rest[0])];
          assert entries[i..count] == rest[1..];
        } else {
          i := i + 1;
          assert entries[..i] == done + [rest[0]] && entries[i..count] == rest[1..];
        }
      }
      assert entries[..i] == Map() && entries[i..count] == [];
    }

    /** __FixupMemoryMap. */
    method Fixup(kernel: nat, length: nat)
      requires Valid() && count + 2 <= entries.Length
      modifies this`count, entries
      ensures Valid() && Map() == Marked(old(Map()), kernel, length)
    {
      hide Around, Cut, Word;
      ghost var was := Map();
      var i := 0;
      while i < count
        invariant i <= count == |was| && Map() == was && Around(was, kernel, 0) == Around(was, kernel, i)
      {
        var entry := entries[i];
        assert entry == was[i];
        AroundStep(was, kernel, i);
        if entry.base <= kernel && Word(entry.base + entry.length) > kernel {
          CutAt(i, kernel, length);
          return;
        }
        i := i + 1;
      }
    }

    /** Entry `i` and all behind it move up by `d`. */
    method MakeRoom(i: nat, d: nat)
      requires Valid() && i < count && count + d <= entries.Length
      modifies entries
      ensures entries[..i] == old(entries[..i]) && entries[i + d] == old(entries[i])
      ensures entries[i + d + 1..count + d] == old(entries[i + 1..count])
    {
      ghost var was := entries[..];
      MoveUp(i, i + d, count - i);
      ghost var now := entries[..];
      RoomMade(was, i, d, count - i);
      assert entries[..i] == now[..i] && old(entries[..i]) == was[..i];
      assert entries[i + d + 1..count + d] == now[i + d + 1..count + d];
      assert old(entries[i + 1..count]) == was[i + 1..count];
    }

    /** The entries from `i` on: those of the cut, then what was behind the entry. */
    method CutAt(i: nat, kernel: nat, length: nat)
      requires Valid() && count + 2 <= entries.Length && i < count && entries[i].Covers(kernel)
      modifies this`count, entries
      ensures Valid() && Map() == old(Map()[..i] + Cut(entries[i], kernel, length) + Map()[i + 1..])
    {
      if entries[i].base == kernel { CutFront(i, kernel, length); } else { CutMiddle(i, kernel, length); }
      assert old(Map()[..i]) == old(entries[..i]) && old(Map()[i + 1..]) == old(entries[i + 1..count]);
    }

    method CutFront(i: nat, kernel: nat, length: nat)
      requires Valid() && count + 1 <= entries.Length && i < count && entries[i].Covers(kernel)
        && entries[i].base == kernel
      modifies this`count, entries
      ensures Valid() && Map() == old(entries[..i] + Cut(entries[i], kernel, length) + entries[i + 1..count])
    {
      hide Word;
      MakeRoom(i, 1);
      var original := entries[i + 1];
      entries[i] := Entry(Reserved, kernel, 0, length, original.attributes);
      entries[i + 1] := original.(base := Word(original.base + length), length := Word(original.length - length));
      count := count + 1;
      assert Map() == entries[..i] + [entries[i], entries[i + 1]] + entries[i + 2..count];
    }

    method CutMiddle(i: nat, kernel: nat, length: nat)
      requires Valid() && count + 2 <= entries.Length && i < count && entries[i].Covers(kernel)
        && entries[i].base != kernel
      modifies this`count, entries
      ensures Valid() && Map() == old(entries[..i] + Cut(entries[i], kernel, length) + entries[i + 1..count])
    {
      hide Word;
      MakeRoom(i, 2);
      var original := entries[i + 2];
      var first := original.(length := kernel - original.base);
      entries[i] := first;
      entries[i + 1] := Entry(Reserved, kernel, 0, length, original.attributes);
      entries[i + 2] := original.(base := Word(kernel + length),
        length := Word(original.length - (length + first.length)));
      count := count + 2;
      assert Map() == entries[..i] + [entries[i], entries[i + 1], entries[i + 2]] + entries[i + 3..count];
    }
  }
}
