/**
 The aPLib format of boot/uefi/depack.c: a stream that interleaves tag bits, read
 eight at a time, with whole bytes; the tokens it spells; and what they expand to.
 */
module Tokens {
  import opened Wrappers
  import opened Memory

  const TWO31: nat := 0x8000_0000
  const TWO32: nat := 0x1_0000_0000

  // --------------------------------------------------------------------- reader

  /** Bits left in the current tag, and the bytes after it. */
  datatype Reader = Reader(pending: seq<bool>, rest: Bytes) {
    /** Unread bits: what every read uses up. */
    function Weight(): nat {
      |pending| + 8 * |rest|
    }
  }

  /** The bits of a tag, most significant first; the tag is shifted as they are read. */
  function TagBits(tag: nat, n: nat): (s: seq<bool>)
    ensures |s| == n
    decreases n
  {
    if n == 0 then [] else [tag / 128 % 2 == 1] + TagBits(2 * tag, n - 1)
  }

  function GetBit(r: Reader): (o: Option<(bool, Reader)>)
    ensures o.Some? ==> o.value.1.Weight() < r.Weight()
  {
    if r.pending != [] then Some((r.pending[0], Reader(r.pending[1..], r.rest)))
    else if r.rest == [] then None
    else
      var bits := TagBits(r.rest[0], 8);
      Some((bits[0], Reader(bits[1..], r.rest[1..])))
  }

  function GetByte(r: Reader): (o: Option<(byte, Reader)>)
    ensures o.Some? ==> o.value.1.Weight() < r.Weight()
  {
    if r.rest == [] then None else Some((r.rest[0], Reader(r.pending, r.rest[1..])))
  }

  /** Each pair of bits is a digit and a flag that says whether another follows. */
  function GetGamma(r: Reader, v: nat): (o: Option<(nat, Reader)>)
    ensures o.Some? ==> o.value.1.Weight() < r.Weight() && 2 * v <= o.value.0
    ensures o.Some? && v < TWO32 ==> o.value.0 < TWO32
    decreases r.Weight()
  {
    var (digit, r1) :- GetBit(r);
    if v >= TWO31 then None
    else
      var v1 := 2 * v + Digit(digit);
      var (more, r2) :- GetBit(r1);
      if more then GetGamma(r2, v1) else Some((v1, r2))
  }

  function Digit(b: bool): nat {
    if b then 1 else 0
  }

  // --------------------------------------------------------------------- tokens

  datatype Token =
    | Literal(value: byte)
    | Single(back: nat)                 // one byte from at most 15 back, or a zero byte
    | Short(offset: nat, length: nat)   // 2 or 3 bytes from at most 127 back
    | Match(offset: nat, length: nat)
    | Repeat(length: nat)               // the last match offset again
    | End

  /** A repeat is possible only when the previous token was not a match. */
  predicate MatchBefore(t: Token) {
    t.Short? || t.Match? || t.Repeat?
  }

  /** Lengths of far and near matches are stored short. */
  function Bonus(offset: nat): nat {
    (if offset >= 32000 then 1 else 0) + (if offset >= 1280 then 1 else 0) + (if offset < 128 then 2 else 0)
  }

  /** Read one token; `lwm` says that the previous one was a match. */
  function GetToken(r: Reader, lwm: bool): (o: Option<(Token, Reader)>)
    ensures o.Some? ==> o.value.1.Weight() < r.Weight()
  {
    var (b0, r0) :- GetBit(r);
    if !b0 then
      var (x, r1) :- GetByte(r0);
      Some((Literal(x), r1))
    else
      var (b1, r1) :- GetBit(r0);
      if !b1 then GetMatch(r1, lwm) else GetLong(r1)
  }

  function GetLong(r: Reader): (o: Option<(Token, Reader)>)
    ensures o.Some? ==> o.value.1.Weight() < r.Weight()
  {
    var (b2, r2) :- GetBit(r);
    if !b2 then GetShort(r2) else GetSingle(r2)
  }

  function GetMatch(r: Reader, lwm: bool): (o: Option<(Token, Reader)>)
    ensures o.Some? ==> o.value.1.Weight() < r.Weight() && (o.value.0.Match? || o.value.0.Repeat?)
  {
    var (g, r1) :- GetGamma(r, 1);
    if !lwm && g == 2 then GetRepeat(r1) else GetFar(r1, if lwm then g - 2 else g - 3)
  }

  function GetRepeat(r: Reader): (o: Option<(Token, Reader)>)
    ensures o.Some? ==> o.value.1.Weight() < r.Weight() && o.value.0.Repeat?
  {
    var (len, r1) :- GetGamma(r, 1);
    Some((Repeat(len), r1))
  }

  function GetFar(r: Reader, high: nat): (o: Option<(Token, Reader)>)
    ensures o.Some? ==> o.value.1.Weight() < r.Weight() && o.value.0.Match?
  {
    if high > 0x00ff_fffe then None
    else
      var (low, r1) :- GetByte(r);
      var offset := 256 * high + low;
      var (len, r2) :- GetGamma(r1, 1);
      Some((Match(offset, (len + Bonus(offset)) % TWO32), r2))
  }

  function GetShort(r: Reader): (o: Option<(Token, Reader)>)
    ensures o.Some? ==> o.value.1.Weight() < r.Weight() && (o.value.0.Short? || o.value.0.End?)
  {
    var (x, r1) :- GetByte(r);
    Some((if x / 2 == 0 then End else Short(x / 2, 2 + x % 2), r1))
  }

  function GetNibble(r: Reader): (o: Option<(nat, Reader)>)
    ensures o.Some? ==> o.value.1.Weight() < r.Weight() && o.value.0 < 16
  {
    var (b3, r3) :- GetBit(r);
    var (b2, r2) :- GetBit(r3);
    var (b1, r1) :- GetBit(r2);
    var (b0, r0) :- GetBit(r1);
    Some((8 * Digit(b3) + 4 * Digit(b2) + 2 * Digit(b1) + Digit(b0), r0))
  }

  function GetSingle(r: Reader): (o: Option<(Token, Reader)>)
    ensures o.Some? ==> o.value.1.Weight() < r.Weight() && o.value.0.Single?
  {
    var (back, r1) :- GetNibble(r);
    Some((Single(back), r1))
  }

  /** All tokens up to the end marker. */
  function GetTokens(r: Reader, lwm: bool): Option<seq<Token>>
    decreases r.Weight()
  {
    var (t, r1) :- GetToken(r, lwm);
    if t.End? then Some([])
    else
      var ts :- GetTokens(r1, MatchBefore(t));
      Some([t] + ts)
  }

  // ------------------------------------------------------------------ expansion

  /** `out` with `len` more bytes, each a copy of the one `offset` back; a copy from
      0 back leaves the byte that was in the destination. */
  function Copied(out: Bytes, dst: Bytes, offset: nat, len: nat): (r: Bytes)
    requires offset <= |out| && |out| + len <= |dst|
    ensures |r| == |out| + len && out <= r
    decreases len
  {
    if len == 0 then out
    else
      var b := if offset == 0 then dst[|out|] else out[|out| - offset];
      Copied(out + [b], dst, offset, len - 1)
  }

  lemma CopiedStep(out: Bytes, dst: Bytes, offset: nat, len: nat)
    requires offset <= |out| && |out| + len <= |dst| && len > 0
    ensures Copied(out, dst, offset, len)
            == Copied(out + [if offset == 0 then dst[|out|] else out[|out| - offset]], dst, offset, len - 1)
  {
  }

  lemma CopiedNone(out: Bytes, dst: Bytes, offset: nat)
    requires offset <= |out| <= |dst|
    ensures Copied(out, dst, offset, 0) == out
  {
  }

  /** What a token appends, given the last match offset; None when it reaches back
      before the output or runs out of the destination. */
  function Apply(t: Token, last: nat, out: Bytes, dst: Bytes): (r: Option<Bytes>)
    requires |out| <= |dst|
    ensures r.Some? ==> out <= r.value && |r.value| <= |dst|
  {
    match t
    case Literal(x) => if |out| == |dst| then None else Some(out + [x])
    case Single(back) =>
      if back > |out| || |out| == |dst| then None
      else Some(out + [if back == 0 then 0 else out[|out| - back]])
    case Short(offset, len) => CopyChecked(out, dst, offset, len)
    case Match(offset, len) => CopyChecked(out, dst, offset, len)
    case Repeat(len) => CopyChecked(out, dst, last, len)
    case End => Some(out)
  }

  function CopyChecked(out: Bytes, dst: Bytes, offset: nat, len: nat): (r: Option<Bytes>)
    requires |out| <= |dst|
    ensures r.Some? ==> out <= r.value && |r.value| <= |dst|
  {
    if offset > |out| || len > |dst| - |out| then None else Some(Copied(out, dst, offset, len))
  }

  /** The last match offset after a token. */
  function LastOffset(t: Token, last: nat): nat {
    if t.Short? || t.Match? then t.offset else last
  }

  function Expand(ts: seq<Token>, last: nat, out: Bytes, dst: Bytes): (r: Option<Bytes>)
    requires |out| <= |dst|
    ensures r.Some? ==> out <= r.value && |r.value| <= |dst|
  {
    if ts == [] then Some(out)
    else
      var out1 :- Apply(ts[0], last, out, dst);
      Expand(ts[1..], LastOffset(ts[0], last), out1, dst)
  }

  /** The depacker, one token at a time. */
  function Unpack(r: Reader, lwm: bool, last: nat, out: Bytes, dst: Bytes): (o: Option<Bytes>)
    requires |out| <= |dst|
    ensures o.Some? ==> out <= o.value && |o.value| <= |dst|
    decreases r.Weight()
  {
    var (t, r1) :- GetToken(r, lwm);
    if t.End? then Some(out)
    else
      var out1 :- Apply(t, last, out, dst);
      Unpack(r1, MatchBefore(t), LastOffset(t, last), out1, dst)
  }

  /** Unpacking is expanding the tokens that the stream spells. */
  lemma {:induction false} UnpackIsExpand(r: Reader, lwm: bool, last: nat, out: Bytes, dst: Bytes)
    requires |out| <= |dst|
    ensures Unpack(r, lwm, last, out, dst)
            == match GetTokens(r, lwm) case None => None case Some(ts) => Expand(ts, last, out, dst)
    decreases r.Weight()
  {
    var o := GetToken(r, lwm);
    if o.Some? && !o.value.0.End? {
      var (t, r1) := o.value;
      var next := Apply(t, last, out, dst);
      var ts := GetTokens(r1, MatchBefore(t));
      if next.Some? {
        UnpackIsExpand(r1, MatchBefore(t), LastOffset(t, last), next.value, dst);
      }
      if ts.Some? {
        assert ([t] + ts.value)[1..] == ts.value;
      }
    }
  }

  /** A copy repeats the last `offset` bytes: byte `j` of the result is the byte
      `offset` before it. */
  lemma {:induction false} CopiedIsPeriodic(out: Bytes, dst: Bytes, offset: nat, len: nat, j: nat)
    requires 0 < offset <= |out| && |out| + len <= |dst| && |out| <= j < |out| + len
    ensures Copied(out, dst, offset, len)[j] == Copied(out, dst, offset, len)[j - offset]
    decreases len
  {
    var b := out[|out| - offset];
    var next := out + [b];
    if j == |out| {
      assert next <= Copied(next, dst, offset, len - 1);
      assert Copied(out, dst, offset, len)[j] == b;
    } else {
      CopiedIsPeriodic(next, dst, offset, len - 1, j);
    }
  }
}
