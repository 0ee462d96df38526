/**
 How a tiling is kept in memory: a header in front of every block (the size of a
 free block before it, then its own size, negative when used), the two list links
 of a free block behind its header, and the wipe pattern in the rest of it.
 */
module BytePoolLayout {
  import opened Sequences
  import opened Memory
  import opened BytePoolTiling

  const WIPE: byte := 0x55
  const LIST: int := -1   // the address of the list head, which lies outside the regions

  /** The links of the list head. */
  datatype Ends = Ends(first: int, last: int)

  ghost predicate Room(m: Bytes, blocks: Blocks) {
    Geometry(blocks) && Within(blocks, |m|) && |m| <= LONG_MAX
  }

  function SizeField(b: Block): int {
    var size: int := b.size;
    match b.kind
    case Free => size
    case Used => -size
    case End => LONG_MIN
  }

  ghost function Tag(blocks: Blocks, i: nat): int {
    if FreeBefore(blocks, i) then blocks[i - 1].size else 0
  }

  /** Every header is right, except perhaps the tag of block `e`. */
  ghost predicate Headers(m: Bytes, blocks: Blocks, e: int)
    requires Room(m, blocks)
  {
    forall i :: 0 <= i < |blocks| ==> HeaderAt(m, blocks, i, e)
  }

  ghost predicate HeaderAt(m: Bytes, blocks: Blocks, i: int, e: int)
    requires Room(m, blocks) && 0 <= i < |blocks|
  {
    assert BlockOk(blocks[i]);
    && Long(m, blocks[i].addr + 8) == SizeField(blocks[i])
    && (i != e ==> Long(m, blocks[i].addr) == Tag(blocks, i))
  }

  ghost predicate Wiped(m: Bytes, b: Block)
    requires b.Limit() <= |m|
  {
    forall x :: b.addr + FREE_HEADER <= x < b.Limit() ==> m[x] == WIPE
  }

  /** Every free block is wiped, except perhaps block `w`. */
  ghost predicate Wipes(m: Bytes, blocks: Blocks, w: int)
    requires Within(blocks, |m|)
  {
    forall i :: 0 <= i < |blocks| && i != w && blocks[i].kind.Free? ==> Wiped(m, blocks[i])
  }

  // ---------------------------------------------------------------- list links

  function At(free: seq<nat>, k: int): int {
    if 0 <= k < |free| then free[k] else LIST
  }

  /** Listed addresses leave room for each other's links. */
  ghost predicate Spaced(free: seq<nat>, limit: nat) {
    && (forall k :: 0 <= k < |free| ==> free[k] + FREE_HEADER <= limit)
    && (forall j, k :: 0 <= j < k < |free| ==> free[j] + FREE_HEADER <= free[k] || free[k] + FREE_HEADER <= free[j])
  }

  ghost predicate LinkedAt(m: Bytes, free: seq<nat>, k: int)
    requires 0 <= k < |free| && free[k] + FREE_HEADER <= |m|
  {
    && Long(m, free[k] + 16) == At(free, k + 1)
    && Long(m, free[k] + 24) == At(free, k - 1)
  }

  /** The circular list through the head visits `free` in order, both ways. */
  ghost predicate Links(m: Bytes, ends: Ends, free: seq<nat>)
    requires Spaced(free, |m|)
  {
    && ends == Ends(At(free, 0), At(free, |free| - 1))
    && forall k :: 0 <= k < |free| ==> LinkedAt(m, free, k)
  }

  /** `p.flink = v`, where `p` may be the list head. */
  function SetForward(m: Bytes, ends: Ends, p: int, v: int): (r: (Bytes, Ends))
    requires p == LIST || (0 <= p && p + FREE_HEADER <= |m|)
    requires FitsLong(v)
    ensures |r.0| == |m|
  {
    if p == LIST then (m, ends.(first := v)) else (Store(m, p + 16, v), ends)
  }

  /** `p.blink = v`, where `p` may be the list head. */
  function SetBack(m: Bytes, ends: Ends, p: int, v: int): (r: (Bytes, Ends))
    requires p == LIST || (0 <= p && p + FREE_HEADER <= |m|)
    requires FitsLong(v)
    ensures |r.0| == |m|
  {
    if p == LIST then (m, ends.(last := v)) else (Store(m, p + 24, v), ends)
  }

  lemma SpacedAddress(free: seq<nat>, limit: nat, k: int)
    requires Spaced(free, limit) && limit <= LONG_MAX
    ensures At(free, k) == LIST || (0 <= At(free, k) && At(free, k) + FREE_HEADER <= limit)
    ensures FitsLong(At(free, k))
  {
  }

  lemma WithoutSpaced(free: seq<nat>, limit: nat, k: nat)
    requires Spaced(free, limit) && k < |free|
    ensures Spaced(Without(free, k), limit)
  {
  }

  /** Memory after dechaining the `k`-th block of the list. */
  ghost function Unlinked(m: Bytes, ends: Ends, free: seq<nat>, k: nat): (r: (Bytes, Ends))
    requires |m| <= LONG_MAX && Spaced(free, |m|) && k < |free|
    ensures |r.0| == |m|
  {
    SpacedAddress(free, |m|, k - 1);
    SpacedAddress(free, |m|, k + 1);
    var (m1, ends1) := SetForward(m, ends, At(free, k - 1), At(free, k + 1));
    SetBack(m1, ends1, At(free, k + 1), At(free, k - 1))
  }

  /** Setting a forward link changes that link only. */
  lemma SetForwardAt(m: Bytes, ends: Ends, free: seq<nat>, q: int, v: int, j: int)
    requires Spaced(free, |m|) && 0 <= j < |free| && FitsLong(v)
    ensures
      var m' := SetForward(m, ends, At(free, q), v).0;
      && Long(m', free[j] + 16) == (if j == q then v else Long(m, free[j] + 16))
      && Long(m', free[j] + 24) == Long(m, free[j] + 24)
  {
    hide Store, Long;
    if 0 <= q < |free| {
      StoreOther(m, free[q] + 16, v, free[j] + 24);
      if j == q { StoreReads(m, free[q] + 16, v); } else { StoreOther(m, free[q] + 16, v, free[j] + 16); }
    }
  }

  /** Setting a backward link changes that link only. */
  lemma SetBackAt(m: Bytes, ends: Ends, free: seq<nat>, q: int, v: int, j: int)
    requires Spaced(free, |m|) && 0 <= j < |free| && FitsLong(v)
    ensures
      var m' := SetBack(m, ends, At(free, q), v).0;
      && Long(m', free[j] + 24) == (if j == q then v else Long(m, free[j] + 24))
      && Long(m', free[j] + 16) == Long(m, free[j] + 16)
  {
    hide Store, Long;
    if 0 <= q < |free| {
      StoreOther(m, free[q] + 24, v, free[j] + 16);
      if j == q { StoreReads(m, free[q] + 24, v); } else { StoreOther(m, free[q] + 24, v, free[j] + 24); }
    }
  }

  lemma UnlinkLinks(m: Bytes, ends: Ends, free: seq<nat>, k: nat)
    requires |m| <= LONG_MAX && Spaced(free, |m|) && k < |free| && Links(m, ends, free)
    ensures
      var (m', ends') := Unlinked(m, ends, free, k);
      Spaced(Without(free, k), |m'|) && Links(m', ends', Without(free, k))
  {
    hide Store, Long, Without;
    SpacedAddress(free, |m|, k - 1);
    SpacedAddress(free, |m|, k + 1);
    WithoutSpaced(free, |m|, k);
    var rest := Without(free, k);
    WithoutAt(free, k, 0);
    WithoutAt(free, k, |rest| - 1);
    forall j | 0 <= j < |rest| ensures LinkedAt(Unlinked(m, ends, free, k).0, rest, j) {
      UnlinkedAt(m, ends, free, k, j);
    }
  }

  lemma UnlinkedAt(m: Bytes, ends: Ends, free: seq<nat>, k: nat, j: nat)
    requires |m| <= LONG_MAX && Spaced(free, |m|) && k < |free| && Links(m, ends, free)
    requires j < |free| - 1 && Spaced(Without(free, k), |m|)
    ensures LinkedAt(Unlinked(m, ends, free, k).0, Without(free, k), j)
  {
    hide Store, Long, Without, Spaced;
    SpacedAddress(free, |m|, k - 1);
    SpacedAddress(free, |m|, k + 1);
    var before, after := At(free, k - 1), At(free, k + 1);
    var (m1, ends1) := SetForward(m, ends, before, after);
    var i := if j < k then j else j + 1;
    SpacedAddress(free, |m|, i);
    assert LinkedAt(m, free, i);
    SetForwardAt(m, ends, free, k - 1, after, i);
    SetBackAt(m1, ends1, free, k + 1, before, i);
    WithoutAt(free, k, j - 1);
    WithoutAt(free, k, j);
    WithoutAt(free, k, j + 1);
  }

  lemma WithoutAt(free: seq<nat>, k: nat, j: int)
    requires k < |free|
    ensures At(Without(free, k), j) == At(free, if j < k then j else j + 1)
  {
  }

  /** Memory after chaining a block at the end of the list. */
  ghost function Appended(m: Bytes, ends: Ends, free: seq<nat>, a: nat): (r: (Bytes, Ends))
    requires |m| <= LONG_MAX && Spaced(free, |m|) && a + FREE_HEADER <= |m|
    ensures |r.0| == |m|
  {
    SpacedAddress(free, |m|, |free| - 1);
    var last := At(free, |free| - 1);
    var m1 := Store(Store(m, a + 16, LIST), a + 24, last);
    SetForward(m1, ends.(last := a), last, a)
  }

  lemma AppendLinks(m: Bytes, ends: Ends, free: seq<nat>, a: nat)
    requires |m| <= LONG_MAX && Spaced(free, |m|) && Spaced(free + [a], |m|) && Links(m, ends, free)
    requires a + FREE_HEADER <= |m|
    ensures var (m', ends') := Appended(m, ends, free, a); Links(m', ends', free + [a])
  {
    hide Store, Long;
    forall j | 0 <= j < |free + [a]| ensures LinkedAt(Appended(m, ends, free, a).0, free + [a], j) {
      AppendedAt(m, ends, free, a, j);
    }
  }

  lemma AppendedAt(m: Bytes, ends: Ends, free: seq<nat>, a: nat, j: nat)
    requires |m| <= LONG_MAX && Spaced(free, |m|) && Spaced(free + [a], |m|) && Links(m, ends, free)
    requires a + FREE_HEADER <= |m| && j <= |free|
    ensures LinkedAt(Appended(m, ends, free, a).0, free + [a], j)
  {
    hide Store, Long;
    var all, n := free + [a], |free|;
    assert all[n] == a && forall j :: 0 <= j < n ==> all[j] == free[j];
    SpacedAddress(free, |m|, n - 1);
    var last := At(free, n - 1);
    assert last == At(all, n - 1);
    var m1 := Store(Store(m, a + 16, LIST), a + 24, last);
    if j < n {
      assert LinkedAt(m, free, j);
      AloneLinks(m, a, last, free[j]);
    } else {
      FreshLinks(m, a, last);
    }
    SetForwardAt(m1, ends.(last := a), all, n - 1, a, j);
  }

  lemma FreshLinks(m: Bytes, a: nat, last: int)
    requires a + FREE_HEADER <= |m| && FitsLong(last)
    ensures
      var m1 := Store(Store(m, a + 16, LIST), a + 24, last);
      Long(m1, a + 16) == LIST && Long(m1, a + 24) == last
  {
    hide Store, Long;
    var m0 := Store(m, a + 16, LIST);
    StoreReads(m, a + 16, LIST);
    StoreReads(m0, a + 24, last);
    StoreOther(m0, a + 24, last, a + 16);
  }

  lemma AloneLinks(m: Bytes, a: nat, last: int, b: nat)
    requires a + FREE_HEADER <= |m| && FitsLong(last) && b + FREE_HEADER <= |m|
    requires a + FREE_HEADER <= b || b + FREE_HEADER <= a
    ensures
      var m1 := Store(Store(m, a + 16, LIST), a + 24, last);
      Long(m1, b + 16) == Long(m, b + 16) && Long(m1, b + 24) == Long(m, b + 24)
  {
    hide Store, Long;
    var m0 := Store(m, a + 16, LIST);
    StoreOther(m, a + 16, LIST, b + 16);
    StoreOther(m, a + 16, LIST, b + 24);
    StoreOther(m0, a + 24, last, b + 16);
    StoreOther(m0, a + 24, last, b + 24);
  }

  // ------------------------------------------------------------ stores in blocks

  /** Every listed address starts a block that has room for links. */
  ghost predicate Anchored(blocks: Blocks, free: seq<nat>) {
    Distinct(free) && forall k :: 0 <= k < |free| ==> HasBody(blocks, free[k])
  }

  ghost predicate HasBody(blocks: Blocks, a: nat) {
    exists i :: 0 <= i < |blocks| && blocks[i].addr == a && !blocks[i].kind.End?
  }

  lemma AnchoredSpaced(blocks: Blocks, free: seq<nat>, limit: nat)
    requires Geometry(blocks) && Within(blocks, limit) && Anchored(blocks, free)
    ensures Spaced(free, limit)
  {
    forall k | 0 <= k < |free| ensures free[k] + FREE_HEADER <= limit {
      assert HasBody(blocks, free[k]);
      var i :| 0 <= i < |blocks| && blocks[i].addr == free[k] && !blocks[i].kind.End?;
      assert BlockOk(blocks[i]);
    }
    forall j, k | 0 <= j < k < |free| ensures free[j] + FREE_HEADER <= free[k] || free[k] + FREE_HEADER <= free[j] {
      assert HasBody(blocks, free[j]) && HasBody(blocks, free[k]);
      BodiesApart(blocks, free[j], free[k]);
    }
  }

  lemma BodiesApart(blocks: Blocks, a: nat, b: nat)
    requires Geometry(blocks) && HasBody(blocks, a) && HasBody(blocks, b) && a != b
    ensures a + FREE_HEADER <= b || b + FREE_HEADER <= a
  {
    var i :| 0 <= i < |blocks| && blocks[i].addr == a && !blocks[i].kind.End?;
    var j :| 0 <= j < |blocks| && blocks[j].addr == b && !blocks[j].kind.End?;
    assert BlockOk(blocks[i]) && BlockOk(blocks[j]);
    if i < j { assert Apart(blocks[i], blocks[j]); } else { assert Apart(blocks[j], blocks[i]); }
  }

  lemma ListedAnchored(blocks: Blocks, free: seq<nat>)
    requires Listed(blocks, free)
    ensures Anchored(blocks, free)
  {
    forall k | 0 <= k < |free| ensures HasBody(blocks, free[k]) {
      assert free[k] in free;
      assert IsFreeAt(blocks, free[k]);
    }
  }

  /** The whole representation: headers except the tag of block `e`, the list, and
      the wiped blocks except block `w`. */
  ghost predicate Rep(m: Bytes, ends: Ends, blocks: Blocks, free: seq<nat>, e: int, w: int) {
    && Room(m, blocks) && Anchored(blocks, free) && Spaced(free, |m|)
    && Headers(m, blocks, e) && Links(m, ends, free) && Wipes(m, blocks, w)
  }

  /** `p` is one of the two words of the header of block `j`. */
  predicate HeaderWord(blocks: Blocks, j: nat, p: int) {
    j < |blocks| && (p == blocks[j].addr || p == blocks[j].addr + 8)
  }

  /** `p` is one of the two link words of block `j`. */
  predicate LinkWord(blocks: Blocks, j: nat, p: int) {
    j < |blocks| && !blocks[j].kind.End? && (p == blocks[j].addr + 16 || p == blocks[j].addr + 24)
  }

  lemma WordInside(m: Bytes, blocks: Blocks, j: nat, p: int)
    requires Room(m, blocks) && (HeaderWord(blocks, j, p) || LinkWord(blocks, j, p))
    ensures 0 <= p && p + WORD <= |m|
  {
    assert BlockOk(blocks[j]);
  }

  lemma OtherWord(blocks: Blocks, i: nat, j: nat, p: int, q: int)
    requires Geometry(blocks) && i < |blocks| && j < |blocks| && i != j
    requires blocks[i].addr <= p && p + WORD <= blocks[i].Limit()
    requires blocks[j].addr <= q && q + WORD <= blocks[j].Limit()
    ensures p + WORD <= q || q + WORD <= p
  {
    assert BlockOk(blocks[i]) && BlockOk(blocks[j]);
    if i < j { assert Apart(blocks[i], blocks[j]); } else { assert Apart(blocks[j], blocks[i]); }
  }

  /** A store to a header leaves the headers of other blocks alone. */
  lemma HeaderStoreOther(m: Bytes, blocks: Blocks, j: nat, p: int, v: int, i: nat)
    requires Room(m, blocks) && HeaderWord(blocks, j, p) && FitsLong(v) && i < |blocks| && i != j
    ensures 0 <= p && p + WORD <= |m| && blocks[i].addr + HEADER <= |m|
    ensures Long(Store(m, p, v), blocks[i].addr) == Long(m, blocks[i].addr)
    ensures Long(Store(m, p, v), blocks[i].addr + 8) == Long(m, blocks[i].addr + 8)
  {
    hide Long, Store;
    WordInside(m, blocks, j, p);
    assert BlockOk(blocks[i]) && BlockOk(blocks[j]);
    OtherWord(blocks, j, i, p, blocks[i].addr);
    OtherWord(blocks, j, i, p, blocks[i].addr + 8);
    StoreOther(m, p, v, blocks[i].addr);
    StoreOther(m, p, v, blocks[i].addr + 8);
  }

  /** A store to a header leaves the list alone. */
  lemma HeaderStoreLinks(m: Bytes, ends: Ends, blocks: Blocks, free: seq<nat>, j: nat, p: int, v: int)
    requires Room(m, blocks) && HeaderWord(blocks, j, p) && FitsLong(v)
    requires Anchored(blocks, free) && Spaced(free, |m|) && Links(m, ends, free)
    ensures 0 <= p && p + WORD <= |m| && Links(Store(m, p, v), ends, free)
  {
    hide Long, Store, Spaced;
    WordInside(m, blocks, j, p);
    forall k | 0 <= k < |free| ensures free[k] + FREE_HEADER <= |m| && LinkedAt(Store(m, p, v), free, k) {
      assert HasBody(blocks, free[k]);
      HeaderStoreLink(m, blocks, j, p, v, free[k]);
      assert LinkedAt(m, free, k);
    }
  }

  lemma HeaderStoreLink(m: Bytes, blocks: Blocks, j: nat, p: int, v: int, a: nat)
    requires Room(m, blocks) && HeaderWord(blocks, j, p) && FitsLong(v) && HasBody(blocks, a)
    ensures 0 <= p && p + WORD <= |m| && a + FREE_HEADER <= |m|
    ensures Long(Store(m, p, v), a + 16) == Long(m, a + 16)
    ensures Long(Store(m, p, v), a + 24) == Long(m, a + 24)
  {
    hide Long, Store;
    WordInside(m, blocks, j, p);
    var i :| 0 <= i < |blocks| && blocks[i].addr == a && !blocks[i].kind.End?;
    assert BlockOk(blocks[i]) && BlockOk(blocks[j]);
    if i != j {
      OtherWord(blocks, j, i, p, a + 16);
      OtherWord(blocks, j, i, p, a + 24);
    }
    StoreOther(m, p, v, a + 16);
    StoreOther(m, p, v, a + 24);
  }

  /** A store to a header or a link leaves wiped bytes alone. */
  lemma StoreWipes(m: Bytes, blocks: Blocks, j: nat, p: int, v: int, w: int)
    requires Room(m, blocks) && (HeaderWord(blocks, j, p) || LinkWord(blocks, j, p)) && FitsLong(v)
    requires Wipes(m, blocks, w)
    ensures 0 <= p && p + WORD <= |m| && Wipes(Store(m, p, v), blocks, w)
  {
    hide Store;
    WordInside(m, blocks, j, p);
    StoreBytes(m, p, v);
    assert BlockOk(blocks[j]);
    forall i | 0 <= i < |blocks| && i != w && blocks[i].kind.Free? ensures Wiped(Store(m, p, v), blocks[i]) {
      assert Wiped(m, blocks[i]);
      assert i < j ==> Apart(blocks[i], blocks[j]);
      assert j < i ==> Apart(blocks[j], blocks[i]);
    }
  }

  /** A store to a link leaves the headers alone. */
  lemma LinkStoreHeaders(m: Bytes, blocks: Blocks, j: nat, p: int, v: int, e: int)
    requires Room(m, blocks) && LinkWord(blocks, j, p) && FitsLong(v) && Headers(m, blocks, e)
    ensures 0 <= p && p + WORD <= |m| && Headers(Store(m, p, v), blocks, e)
  {
    hide Long, Store;
    WordInside(m, blocks, j, p);
    assert BlockOk(blocks[j]);
    forall i | 0 <= i < |blocks| ensures HeaderAt(Store(m, p, v), blocks, i, e) {
      assert HeaderAt(m, blocks, i, e);
      assert BlockOk(blocks[i]);
      if i != j {
        OtherWord(blocks, j, i, p, blocks[i].addr);
        OtherWord(blocks, j, i, p, blocks[i].addr + 8);
      }
      StoreOther(m, p, v, blocks[i].addr);
      StoreOther(m, p, v, blocks[i].addr + 8);
    }
  }
}
