/**
 The format without its definition: which match a repeat repeats, how short a match may be, and
 how one token of each kind is stored.
 */
module TokenFacts {
  import opened Wrappers
  import opened Memory
  import opened Tokens
  import opened TokenCodec

  // -------------------------------------------------------------------------- repeats

  predicate HasOffset(t: Token) {
    t.Short? || t.Match?
  }

  /** `ts[k]` is the last short match or match of `ts`. */
  ghost predicate IsLastMatch(ts: seq<Token>, k: nat) {
    k < |ts| && HasOffset(ts[k]) && forall j :: k < j < |ts| ==> !HasOffset(ts[j])
  }

  ghost predicate NoMatch(ts: seq<Token>) {
    forall j :: 0 <= j < |ts| ==> !HasOffset(ts[j])
  }

  /** `out'` is `out` and `n` bytes, each the one `offset` before it. */
  ghost predicate Echoes(out: Bytes, out': Bytes, dst: Bytes, offset: nat, n: nat) {
    && |out'| == |out| + n && out <= out' && offset <= |out| && |out'| <= |dst|
    && forall i :: |out| <= i < |out'| ==> out'[i] == if offset == 0 then dst[i] else out'[i - offset]
  }

  lemma CopyEchoes(out: Bytes, dst: Bytes, offset: nat, len: nat)
    requires offset <= |out| && |out| + len <= |dst|
    ensures Echoes(out, Copied(out, dst, offset, len), dst, offset, len)
  {
    var r := Copied(out, dst, offset, len);
    forall i | |out| <= i < |r| ensures r[i] == if offset == 0 then dst[i] else r[i - offset] {
      if offset == 0 { CopiedFromZero(out, dst, len, i); } else { CopiedIsPeriodic(out, dst, offset, len, i); }
    }
  }

  lemma {:induction false} CopiedFromZero(out: Bytes, dst: Bytes, len: nat, i: nat)
    requires |out| <= i < |out| + len <= |dst|
    ensures Copied(out, dst, 0, len)[i] == dst[i]
    decreases len
  {
    var next := out + [dst[|out|]];
    if i > |out| { CopiedFromZero(next, dst, len - 1, i); }
  }

  /** A match copies from its own offset. */
  lemma MatchEchoes(ts: seq<Token>, t: Token, last: nat, out: Bytes, dst: Bytes)
    requires |out| <= |dst| && Expand(ts, last, out, dst).Some? && HasOffset(t)
    ensures
      var x, y := Expand(ts, last, out, dst).value, Expand(ts + [t], last, out, dst);
      && (y.None? <==> t.offset > |x| || t.length > |dst| - |x|)
      && (y.Some? ==> Echoes(x, y.value, dst, t.offset, t.length))
  {
    hide Expand, Copied, Echoes;
    ExpandOneMore(ts, t, last, out, dst);
    var x := Expand(ts, last, out, dst).value;
    if t.offset <= |x| && t.length <= |dst| - |x| { CopyEchoes(x, dst, t.offset, t.length); }
  }

  /** What a repeat after `ts` would go by. */
  ghost function Offset(ts: seq<Token>, last: nat): nat {
    if ts == [] then last else Offset(ts[1..], LastOffset(ts[0], last))
  }

  lemma {:induction false} OffsetOfLast(ts: seq<Token>, last: nat, k: nat)
    requires IsLastMatch(ts, k)
    ensures Offset(ts, last) == ts[k].offset
    decreases ts
  {
    if k > 0 { OffsetOfLast(ts[1..], LastOffset(ts[0], last), k - 1); } else { OffsetOfNone(ts[1..], ts[0].offset); }
  }

  lemma {:induction false} OffsetOfNone(ts: seq<Token>, last: nat)
    requires NoMatch(ts)
    ensures Offset(ts, last) == last
    decreases ts
  {
    if ts != [] { OffsetOfNone(ts[1..], last); }
  }

  lemma {:induction false} ExpandOneMore(ts: seq<Token>, t: Token, last: nat, out: Bytes, dst: Bytes)
    requires |out| <= |dst|
    ensures Expand(ts + [t], last, out, dst)
            == match Expand(ts, last, out, dst) case None => None case Some(x) => Apply(t, Offset(ts, last), x, dst)
    decreases ts
  {
    if ts == [] {
      assert ts + [t] == [t] && [t][1..] == [];
    } else {
      assert (ts + [t])[0] == ts[0] && (ts + [t])[1..] == ts[1..] + [t];
      var next := Apply(ts[0], last, out, dst);
      if next.Some? { ExpandOneMore(ts[1..], t, LastOffset(ts[0], last), next.value, dst); }
    }
  }

  /** A repeat copies from as far back as the last match before it did, short or not, and fails
      exactly when that is before the output or there is no room. */
  lemma RepeatRepeatsLast(ts: seq<Token>, k: nat, n: nat, last: nat, out: Bytes, dst: Bytes)
    requires |out| <= |dst| && Expand(ts, last, out, dst).Some? && IsLastMatch(ts, k)
    ensures
      var x, y := Expand(ts, last, out, dst).value, Expand(ts + [Repeat(n)], last, out, dst);
      && (y.None? <==> ts[k].offset > |x| || n > |dst| - |x|)
      && (y.Some? ==> Echoes(x, y.value, dst, ts[k].offset, n))
  {
    hide Expand, Copied, Echoes;
    OffsetOfLast(ts, last, k);
    ExpandOneMore(ts, Repeat(n), last, out, dst);
    var x := Expand(ts, last, out, dst).value;
    if ts[k].offset <= |x| && n <= |dst| - |x| { CopyEchoes(x, dst, ts[k].offset, n); }
  }

  /** A repeat that no match precedes fails: the initial offset reaches back before any output. */
  lemma RepeatNeedsMatch(ts: seq<Token>, n: nat, out: Bytes, dst: Bytes)
    requires |out| <= |dst| < TWO32 && n > 0 && NoMatch(ts)
    ensures Expand(ts + [Repeat(n)], TWO32 - 1, out, dst).None?
  {
    hide Expand, Copied;
    OffsetOfNone(ts, TWO32 - 1);
    ExpandOneMore(ts, Repeat(n), TWO32 - 1, out, dst);
  }

  // -------------------------------------------------------------------------- lengths

  /** No match is shorter than this. */
  function Shortest(offset: nat): nat {
    if offset < 128 then 4 else if offset < 1280 then 2 else if offset < 32000 then 3 else 4
  }

  lemma FarNotShorter(r: Reader, high: nat)
    ensures
      var o := GetFar(r, high);
      o.Some? ==> o.value.0.length >= Shortest(o.value.0.offset) || o.value.0.length < 2
  {
    hide GetGamma, GetByte;
  }

  /** The shortest length of a match depends on how far it reaches back; only one whose length
      overflows 32 bits is shorter. */
  lemma MatchNotShorter(r: Reader, lwm: bool)
    ensures
      var o := GetToken(r, lwm);
      o.Some? && o.value.0.Match? ==> o.value.0.length >= Shortest(o.value.0.offset) || o.value.0.length < 2
  {
    hide GetGamma, GetByte, GetBit, GetShort, GetSingle, GetRepeat, GetFar, Shortest;
    var o0 := GetBit(r);
    if o0.Some? && o0.value.0 {
      var o1 := GetBit(o0.value.1);
      if o1.Some? && !o1.value.0 {
        var g := GetGamma(o1.value.1, 1);
        if g.Some? && (lwm || g.value.0 != 2) {
          FarNotShorter(g.value.1, if lwm then g.value.0 - 2 else g.value.0 - 3);
        }
      }
    }
  }

  /** The matches that can be written down. */
  lemma ShortestMatch(offset: nat, len: nat, lwm: bool)
    ensures Encodable(Match(offset, len), lwm) <==> offset < 0xffff_ff00 && Shortest(offset) <= len < TWO32
  {
  }

  // ---------------------------------------------------------------------- known encodings

  /** One token of each kind, bit by bit. */
  lemma KnownItems(x: byte, lwm: bool)
    ensures var o, i := Bit(false), Bit(true);
      && TokenItems(Literal(x), lwm) == [o, Whole(x)]
      && TokenItems(Short(2, 3), lwm) == [i, i, o, Whole(5)]
      && TokenItems(Single(5), lwm) == [i, i, i, o, i, o, i]
      && TokenItems(End, lwm) == [i, i, o, Whole(0)]
  {
  }

  /** A match is stored differently after a match. */
  lemma KnownMatches()
    ensures var o, i := Bit(false), Bit(true);
      && TokenItems(Repeat(2), false) == [i, o, o, o, o, o]
      && TokenItems(Match(3, 4), true) == [i, o, o, o, Whole(3), o, o]
      && TokenItems(Match(3, 5), false) == [i, o, i, o, Whole(3), i, o]
      && TokenItems(Match(0x305, 6), true) == [i, o, o, i, i, o, Whole(5), i, i, o, o]
  {
    KnownGammas();
  }

  lemma KnownGammas()
    ensures var o, i := Bit(false), Bit(true);
      && GammaItems(2, false) == [o, o] && GammaItems(3, false) == [i, o]
      && GammaItems(5, false) == [o, i, i, o] && GammaItems(6, false) == [i, i, o, o]
  {
    var o, i := Bit(false), Bit(true);
    assert GammaItems(2, true) == [o, i] && GammaItems(3, true) == [i, i];
  }

  /** The bits of a tag are read from its most significant one. */
  lemma KnownTag()
    ensures TagBits(0x6e, 8) == [false, true, true, false, true, true, true, false]
  {
    assert TagBits(2 * 0x6e, 7) == [true, true, false, true, true, true, false];
  }
}
