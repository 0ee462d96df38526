/** boot/uefi/depack.c: the depacker, working in place on its destination. */
module Depack {
  import opened Wrappers
  import opened Memory
  import opened Tokens
  import opened TokenCodec

  const HEADER_SIZE: nat := 24
  const APLIB_ERROR: nat := TWO32 - 1
  const NO_OFFSET: nat := TWO32 - 1

  /** struct APDSSTATE: what is left of both buffers, and the current tag. */
  class State {
    const source: array<byte>
    const destination: array<byte>
    var next: nat       // position of the source pointer
    var srclen: nat
    var filled: nat     // position of the destination pointer
    var dstlen: nat
    var tag: nat
    var bitcount: nat

    ghost predicate Valid()
      reads this
    {
      && source != destination
      && next + srclen == source.Length && filled + dstlen == destination.Length
      && destination.Length < TWO32
    }

    /** What is left to read. */
    ghost function Input(): Reader
      requires Valid()
      reads this, source
    {
      Reader(TagBits(tag, bitcount), source[next..])
    }

    /** What has been written. */
    ghost function Output(): Bytes
      requires Valid()
      reads this, destination
    {
      destination[..filled]
    }

    /** The rest of the destination is as it was. */
    ghost predicate RestIs(dst: Bytes)
      requires Valid()
      reads this, destination
    {
      |dst| == destination.Length && destination[filled..] == dst[filled..]
    }

    constructor (source: array<byte>, destination: array<byte>)
      requires source != destination && source.Length >= HEADER_SIZE && destination.Length < TWO32
      ensures Valid() && this.source == source && this.destination == destination
      ensures Input() == Reader([], source[HEADER_SIZE..]) && filled == 0
    {
      this.source := source;
      this.destination := destination;
      next, srclen := HEADER_SIZE, source.Length - HEADER_SIZE;
      filled, dstlen := 0, destination.Length;
      tag, bitcount := 0, 0;
    }

    method GetBit() returns (ok: bool, bit: nat)
      requires Valid()
      modifies this`next, this`srclen, this`tag, this`bitcount
      ensures Valid()
      ensures match Tokens.GetBit(old(Input()))
        case None => !ok
        case Some(r) => ok && bit == Digit(r.0) && Input() == r.1
    {
      if bitcount == 0 {
        if srclen == 0 {
          return false, 0;
        }
        srclen := srclen - 1;
        tag := source[next];
        next := next + 1;
        bitcount := 7;
      } else {
        bitcount := bitcount - 1;
      }
      bit := tag / 128 % 2;
      tag := tag * 2;
      return true, bit;
    }

    method GetByte() returns (ok: bool, x: byte)
      requires Valid()
      modifies this`next, this`srclen
      ensures Valid()
      ensures match Tokens.GetByte(old(Input()))
        case None => !ok
        case Some(r) => ok && x == r.0 && Input() == r.1
    {
      if srclen == 0 {
        return false, 0;
      }
      srclen := srclen - 1;
      x := source[next];
      next := next + 1;
      return true, x;
    }

    method GetGamma() returns (ok: bool, v: nat)
      requires Valid()
      modifies this`next, this`srclen, this`tag, this`bitcount
      ensures Valid()
      ensures match Tokens.GetGamma(old(Input()), 1)
        case None => !ok
        case Some(r) => ok && v == r.0 && Input() == r.1
    {
      hide Tokens.GetBit, TagBits;
      v := 1;
      while true
        invariant Valid() && v < TWO32
        invariant Tokens.GetGamma(old(Input()), 1) == Tokens.GetGamma(Input(), v)
        decreases Input().Weight()
      {
        var bit;
        ok, bit := GetBit();
        if !ok { return; }
        if v >= TWO31 { return false, v; }
        v := 2 * v + bit;
        ok, bit := GetBit();
        if !ok { return; }
        if bit == 0 { return true, v; }
      }
    }

    /** Write one byte. */
    method Put(x: byte, ghost dst: Bytes)
      requires Valid() && RestIs(dst) && dstlen > 0
      modifies this`filled, this`dstlen, destination
      ensures Valid() && RestIs(dst) && Output() == old(Output()) + [x]
    {
      ghost var out, rest := destination[..filled], destination[filled..];
      dstlen := dstlen - 1;
      destination[filled] := x;
      assert destination[..filled + 1] == out + [x];
      assert destination[filled + 1..] == rest[1..] == dst[filled + 1..];
      filled := filled + 1;
    }

    /** Copy `len` bytes from `offset` back. */
    method CopyBack(offset: nat, len: nat, ghost dst: Bytes)
      requires Valid() && RestIs(dst) && offset <= filled && len <= dstlen
      modifies this`filled, this`dstlen, destination
      ensures Valid() && RestIs(dst) && Output() == Copied(old(Output()), dst, offset, len)
    {
      hide Copied;
      var left := len;
      while left > 0
        invariant Valid() && RestIs(dst) && 0 <= left <= len && offset <= filled && left <= dstlen
        invariant Copied(Output(), dst, offset, left) == Copied(old(Output()), dst, offset, len)
      {
        assert destination[filled] == destination[filled..][0] == dst[filled];
        CopiedStep(Output(), dst, offset, left);
        Put(destination[filled - offset], dst);
        left := left - 1;
      }
      CopiedNone(Output(), dst, offset);
    }

    /** The state after a token of the stream has been read and applied: an error, the
        end, or the next output with the last match offset. */
    ghost predicate Did(o: Option<(Token, Reader)>, last: nat, out: Bytes, dst: Bytes,
                        ok: bool, done: bool, last': nat)
      requires |out| <= |dst|
      reads this, source, destination
    {
      && Valid() && RestIs(dst)
      && match o
         case None => !ok
         case Some(r) =>
           if r.0.End? then ok && done && Output() == out
           else match Apply(r.0, last, out, dst)
             case None => !ok
             case Some(next) =>
               ok && !done && Input() == r.1 && Output() == next && last' == LastOffset(r.0, last)
    }

    method GetNibble() returns (ok: bool, offs: nat)
      requires Valid()
      modifies this`next, this`srclen, this`tag, this`bitcount
      ensures Valid()
      ensures match Tokens.GetNibble(old(Input()))
        case None => !ok
        case Some(r) => ok && offs == r.0 && Input() == r.1
    {
      hide Tokens.GetBit, TagBits;
      offs := 0;
      var b3, b2, b1, b0;
      ok, b3 := GetBit();
      if !ok { return; }
      ok, b2 := GetBit();
      if !ok { return; }
      ok, b1 := GetBit();
      if !ok { return; }
      ok, b0 := GetBit();
      if !ok { return; }
      offs := 2 * (2 * (2 * b3 + b2) + b1) + b0;
    }

    /** 1 1 1: a single byte from close by, or a zero byte. */
    method DoSingle(last: nat, ghost dst: Bytes) returns (ok: bool)
      requires Valid() && RestIs(dst)
      modifies this, destination
      ensures Did(Tokens.GetSingle(old(Input())), last, old(Output()), dst, ok, false, last)
    {
      hide Tokens.GetNibble, TagBits, Copied;
      var offs;
      ok, offs := GetNibble();
      if !ok { return; }
      if offs != 0 {
        if offs > filled || dstlen == 0 { return false; }
        Put(destination[filled - offs], dst);
      } else {
        if dstlen == 0 { return false; }
        Put(0, dst);
      }
    }

    /** 1 1 0: a short match, or the end marker. */
    method DoShort(last: nat, ghost dst: Bytes) returns (ok: bool, done: bool, last': nat)
      requires Valid() && RestIs(dst)
      modifies this, destination
      ensures Did(Tokens.GetShort(old(Input())), last, old(Output()), dst, ok, done, last')
    {
      hide TagBits, Copied;
      done, last' := false, last;
      var x;
      ok, x := GetByte();
      if !ok { return; }
      var offs, len := x / 2, 2 + x % 2;
      if offs != 0 {
        if offs > filled { return false, false, last; }
        if len > dstlen { return false, false, last; }
        CopyBack(offs, len, dst);
      } else {
        done := true;
      }
      last' := offs;
    }

    /** The last match offset again. */
    method DoRepeat(last: nat, ghost dst: Bytes) returns (ok: bool)
      requires Valid() && RestIs(dst)
      modifies this, destination
      ensures Did(Tokens.GetRepeat(old(Input())), last, old(Output()), dst, ok, false, last)
    {
      hide TagBits, Copied, Tokens.GetGamma;
      var len;
      ok, len := GetGamma();
      if !ok { return; }
      if last > filled { return false; }
      if len > dstlen { return false; }
      CopyBack(last, len, dst);
    }

    /** A new offset, of which `high` is known, and a length. */
    method DoFar(high: nat, last: nat, ghost dst: Bytes) returns (ok: bool, last': nat)
      requires Valid() && RestIs(dst)
      modifies this, destination
      ensures Did(Tokens.GetFar(old(Input()), high), last, old(Output()), dst, ok, false, last')
    {
      hide TagBits, Copied, Tokens.GetGamma, Tokens.GetByte;
      last' := last;
      var len, low;
      if high > 0x00ff_fffe { return false, last; }
      ok, low := GetByte();
      if !ok { return; }
      var offs := 256 * high + low;
      ok, len := GetGamma();
      if !ok { return; }
      len := WithBonus(offs, len);
      if offs > filled { return false, last; }
      if len > dstlen { return false, last; }
      CopyBack(offs, len, dst);
      last' := offs;
    }

    /** The length adjustment, in 32-bit arithmetic. */
    method WithBonus(offs: nat, length: nat) returns (len: nat)
      requires length < TWO32
      ensures len == (length + Bonus(offs)) % TWO32
    {
      len := length;
      if offs >= 32000 { len := (len + 1) % TWO32; }
      if offs >= 1280 { len := (len + 1) % TWO32; }
      if offs < 128 { len := (len + 2) % TWO32; }
    }

    /** 1 0: a match with a gamma-coded offset, or the last offset again. */
    method DoMatch(lwm: bool, last: nat, ghost dst: Bytes) returns (ok: bool, last': nat)
      requires Valid() && RestIs(dst)
      modifies this, destination
      ensures Did(Tokens.GetMatch(old(Input()), lwm), last, old(Output()), dst, ok, false, last')
    {
      hide TagBits, Tokens.GetGamma, Tokens.GetFar, Tokens.GetRepeat, Apply;
      last' := last;
      var offs;
      ok, offs := GetGamma();
      if !ok { return; }
      if !lwm && offs == 2 {
        ok := DoRepeat(last, dst);
      } else {
        ok, last' := DoFar(if lwm then offs - 2 else offs - 3, last, dst);
      }
    }

    /** 0: a byte as it stands. */
    method DoLiteral(last: nat, ghost dst: Bytes) returns (ok: bool)
      requires Valid() && RestIs(dst)
      modifies this, destination
      ensures Did(match Tokens.GetByte(old(Input()))
                  case None => None
                  case Some(r) => Some((Literal(r.0), r.1)),
                  last, old(Output()), dst, ok, false, last)
    {
      hide TagBits, Copied;
      var x;
      ok, x := GetByte();
      if !ok { return; }
      if dstlen == 0 { return false; }
      Put(x, dst);
    }

    /** Read one token and apply it. */
    method Step(lwm: bool, last: nat, ghost dst: Bytes) returns (ok: bool, done: bool, lwm': bool, last': nat)
      requires Valid() && RestIs(dst)
      modifies this, destination
      ensures Did(GetToken(old(Input()), lwm), last, old(Output()), dst, ok, done, last')
      ensures ok && !done ==> lwm' == MatchBefore(GetToken(old(Input()), lwm).value.0)
    {
      hide TagBits, Tokens.GetBit, Tokens.GetByte, GetSingle, GetShort, GetMatch, Apply;
      done, lwm', last' := false, lwm, last;
      var bit;
      ok, bit := GetBit();
      if !ok { return; }
      if bit != 0 {
        ok, bit := GetBit();
        if !ok { return; }
        if bit != 0 {
          ok, bit := GetBit();
          if !ok { return; }
          if bit != 0 {
            ok := DoSingle(last, dst);
            lwm' := false;
          } else {
            ok, done, last' := DoShort(last, dst);
            lwm' := true;
          }
        } else {
          ok, last' := DoMatch(lwm, last, dst);
          lwm' := true;
        }
      } else {
        ok := DoLiteral(last, dst);
        lwm' := false;
      }
    }
  }

  /** What depacking `src` into `dst` produces; the first byte stands as it is. */
  function Depacked(src: Bytes, dst: Bytes): (r: Option<Bytes>)
    requires |src| >= HEADER_SIZE
    ensures r.Some? ==> 0 < |r.value| <= |dst|
  {
    if |src| == HEADER_SIZE || dst == [] then None
    else Unpack(Reader([], src[HEADER_SIZE + 1..]), false, NO_OFFSET, [src[HEADER_SIZE]], dst)
  }

  /** Depack `source` into `destination`. */
  method Depack(source: array<byte>, destination: array<byte>) returns (result: nat)
    requires source != destination && source.Length >= HEADER_SIZE && destination.Length < TWO32
    modifies destination
    ensures match Depacked(source[..], old(destination[..]))
      case None => result == APLIB_ERROR
      case Some(out) =>
        && result == |out|
        && destination[..] == out + old(destination[..])[|out|..]
  {
    hide TagBits, GetToken, Apply;
    ghost var dst, goal := destination[..], Depacked(source[..], destination[..]);
    var ud := new State(source, destination);
    var ok, x := ud.GetByte();
    if !ok || ud.dstlen == 0 {
      return APLIB_ERROR;
    }
    assert source[HEADER_SIZE..][1..] == source[..][HEADER_SIZE + 1..];
    assert ud.Input() == Reader([], source[..][HEADER_SIZE + 1..]);
    ud.Put(x, dst);
    assert ud.Input() == Reader([], source[..][HEADER_SIZE + 1..]) && ud.Output() == [x];
    var last, lwm, done := NO_OFFSET, false, false;
    while !done
      invariant ud.Valid() && ud.RestIs(dst) && ud.source == source && ud.destination == destination && fresh(ud)
      invariant done ==> goal == Some(ud.Output())
      invariant !done ==> goal == Unpack(ud.Input(), lwm, last, ud.Output(), dst)
      decreases !done, if done then 0 else ud.Input().Weight()
    {
      ok, done, lwm, last := ud.Step(lwm, last, dst);
      if !ok {
        return APLIB_ERROR;
      }
    }
    assert destination[..] == destination[..ud.filled] + destination[ud.filled..];
    return ud.filled;
  }

  /** Depacking the encoding of a token list gives its expansion. */
  lemma DepackEncoded(header: Bytes, first: byte, ts: seq<Token>, tail: Bytes, dst: Bytes)
    requires |header| == HEADER_SIZE && AllEncodable(ts, false) && dst != []
    ensures Depacked(header + [first] + Encoded(ts) + tail, dst) == Expand(ts, NO_OFFSET, [first], dst)
  {
    var src := header + [first] + Encoded(ts) + tail;
    assert src[HEADER_SIZE + 1..] == Encoded(ts) + tail && src[HEADER_SIZE] == first;
    UnpackEncoded(ts, tail, NO_OFFSET, [first], dst);
  }

  /** Whatever the source, what is produced is the expansion of the tokens it spells. */
  lemma DepackedIsExpansion(src: Bytes, dst: Bytes)
    requires |src| > HEADER_SIZE && dst != []
    ensures Depacked(src, dst)
            == match GetTokens(Reader([], src[HEADER_SIZE + 1..]), false)
               case None => None
               case Some(ts) => Expand(ts, NO_OFFSET, [src[HEADER_SIZE]], dst)
  {
    UnpackIsExpand(Reader([], src[HEADER_SIZE + 1..]), false, NO_OFFSET, [src[HEADER_SIZE]], dst);
  }
}
