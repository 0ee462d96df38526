/** Writing tokens down so that the reader of `Tokens` gets them back. */
module TokenCodec {
  import opened Wrappers
  import opened Memory
  import opened Tokens

  /** What the stream is made of before bits are gathered into tags. */
  datatype Item = Bit(b: bool) | Whole(x: byte)

  // --------------------------------------------------------------------- layout

  /** The reader's next reads give these items. */
  ghost predicate Spells(r: Reader, items: seq<Item>)
    decreases items
  {
    if items == [] then true
    else match items[0]
      case Bit(b) =>
        var o := GetBit(r);
        o.Some? && o.value.0 == b && Spells(o.value.1, items[1..])
      case Whole(x) =>
        var o := GetByte(r);
        o.Some? && o.value.0 == x && Spells(o.value.1, items[1..])
  }

  /** The bits among the items. */
  function BitsOf(items: seq<Item>): seq<bool> {
    if items == [] then []
    else (if items[0].Bit? then [items[0].b] else []) + BitsOf(items[1..])
  }

  /** The first `n` bits as a number, padded with zeros. */
  function Gather(bits: seq<bool>, n: nat): (v: nat)
    decreases n
  {
    if n == 0 then 0
    else 2 * Gather(bits, n - 1) + (if n - 1 < |bits| && bits[n - 1] then 1 else 0)
  }

  lemma {:induction false} GatherBound(bits: seq<bool>, n: nat)
    requires n <= 8
    ensures Gather(bits, n) < Bound(n)
    decreases n
  {
    if n > 0 { GatherBound(bits, n - 1); }
  }

  function Bound(n: nat): nat {
    if n == 0 then 1 else 2 * Bound(n - 1)
  }

  /** The tag byte that holds the next eight bits. */
  function TagOf(bits: seq<bool>): byte {
    GatherBound(bits, 8);
    assert Bound(8) == 256;
    Gather(bits, 8)
  }

  /** The items as bytes, while `left` bits of the current tag are still to come. */
  function Lay(items: seq<Item>, left: nat): Bytes
    decreases items
  {
    if items == [] then []
    else if items[0].Whole? then [items[0].x] + Lay(items[1..], left)
    else if left > 0 then Lay(items[1..], left - 1)
    else [TagOf(BitsOf(items))] + Lay(items[1..], 7)
  }

  lemma {:induction false} GatherFirst(bits: seq<bool>, n: nat)
    requires bits != []
    ensures Gather(bits, n + 1) == Bound(n) * Digit(bits[0]) + Gather(bits[1..], n)
    decreases n
  {
    if n > 0 { GatherFirst(bits, n - 1); }
  }

  lemma {:induction false} TagBitsOf(k: nat, s: seq<bool>)
    requires |s| <= 8
    ensures TagBits(256 * k + Gather(s, 8), |s|) == s
    decreases s
  {
    hide TagBits, Gather, Bound;
    if s != [] {
      var d, low := Digit(s[0]), Gather(s[1..], 7);
      GatherEight(s);
      TagBitsOf(2 * k + d, s[1..]);
      TagStep(k, d, low, |s|);
      assert s == [d == 1] + s[1..];
    }
  }

  lemma GatherEight(s: seq<bool>)
    requires 0 < |s| <= 8
    ensures Gather(s, 8) == 128 * Digit(s[0]) + Gather(s[1..], 7)
    ensures Gather(s[1..], 8) == 2 * Gather(s[1..], 7) && Gather(s[1..], 7) < 128
  {
    hide Bound;
    GatherFirst(s, 7);
    GatherBound(s[1..], 7);
    BoundSeven();
  }

  lemma BoundSeven()
    ensures Bound(7) == 128
  {
    assert Bound(3) == 8;
  }

  lemma TagStep(k: nat, d: nat, low: nat, n: nat)
    requires d < 2 && low < 128 && n > 0
    ensures TagBits(256 * k + (128 * d + low), n) == [d == 1] + TagBits(256 * (2 * k + d) + 2 * low, n - 1)
  {
    var tag := 256 * k + (128 * d + low);
    assert tag / 128 == 2 * k + d;
    assert 2 * tag == 256 * (2 * k + d) + 2 * low;
  }

  lemma {:induction false} TagBitsPrefix(tag: nat, n: nat, m: nat, j: nat)
    requires j < n && j < m
    ensures TagBits(tag, n)[j] == TagBits(tag, m)[j]
    decreases j
  {
    if j > 0 { TagBitsPrefix(2 * tag, n - 1, m - 1, j - 1); }
  }

  lemma {:induction false} GatherPrefix(bits: seq<bool>, n: nat, m: nat)
    requires n <= m
    ensures Gather(bits, n) == Gather(if |bits| < m then bits else bits[..m], n)
    decreases n
  {
    if n > 0 { GatherPrefix(bits, n - 1, m); }
  }

  /** The tag byte spells the next bits. */
  lemma TagSpells(bits: seq<bool>, j: nat)
    requires j < 8 && j < |bits|
    ensures TagBits(TagOf(bits), 8)[j] == bits[j]
  {
    hide TagBits, Gather;
    var s := if |bits| < 8 then bits else bits[..8];
    GatherPrefix(bits, 8, 8);
    TagBitsOf(0, s);
    TagBitsPrefix(TagOf(bits), 8, |s|, j);
  }

  /** The bits left in the tag are the next bits of the items. */
  ghost predicate Ahead(pending: seq<bool>, items: seq<Item>) {
    forall j :: 0 <= j < |pending| && j < |BitsOf(items)| ==> pending[j] == BitsOf(items)[j]
  }

  /** Laying items out and reading them gives them back, whatever follows. */
  lemma {:induction false} LaySpells(items: seq<Item>, pending: seq<bool>, tail: Bytes)
    requires Ahead(pending, items)
    ensures Spells(Reader(pending, Lay(items, |pending|) + tail), items)
    decreases items
  {
    hide TagOf, TagBits, BitsOf;
    if items == [] {
    } else if items[0].Whole? {
      WholeAhead(pending, items);
      assert Lay(items, |pending|) + tail == [items[0].x] + (Lay(items[1..], |pending|) + tail);
      LaySpells(items[1..], pending, tail);
    } else if pending != [] {
      AheadNext(pending, items);
      LaySpells(items[1..], pending[1..], tail);
    } else {
      var tag := TagOf(BitsOf(items));
      var bits := TagBits(tag, 8);
      assert Lay(items, 0) + tail == [tag] + (Lay(items[1..], 7) + tail);
      forall j | 0 <= j < |bits| && j < |BitsOf(items)| ensures bits[j] == BitsOf(items)[j] {
        TagSpells(BitsOf(items), j);
      }
      AheadNext(bits, items);
      LaySpells(items[1..], bits[1..], tail);
    }
  }

  lemma WholeAhead(pending: seq<bool>, items: seq<Item>)
    requires Ahead(pending, items) && items != [] && items[0].Whole?
    ensures Ahead(pending, items[1..])
  {
    assert BitsOf(items) == BitsOf(items[1..]);
  }

  lemma AheadNext(pending: seq<bool>, items: seq<Item>)
    requires Ahead(pending, items) && pending != [] && items != [] && items[0].Bit?
    ensures pending[0] == items[0].b && Ahead(pending[1..], items[1..])
  {
    var all, rest := BitsOf(items), BitsOf(items[1..]);
    assert all == [items[0].b] + rest;
    forall j | 0 <= j < |pending[1..]| && j < |rest| ensures pending[1..][j] == rest[j] {
      assert all[j + 1] == rest[j];
    }
  }

  // ------------------------------------------------------------------- encoding

  /** The digits of `v` below its leading one, each with the flag after it. */
  function GammaItems(v: nat, more: bool): seq<Item>
    requires v >= 2
  {
    var last := [Bit(v % 2 == 1), Bit(more)];
    if v < 4 then last else GammaItems(v / 2, true) + last
  }

  function NibbleItems(n: nat): seq<Item> {
    [Bit(n / 8 % 2 == 1), Bit(n / 4 % 2 == 1), Bit(n / 2 % 2 == 1), Bit(n % 2 == 1)]
  }

  /** Tokens that the format can hold after a match (`lwm`) or after something else. */
  predicate Encodable(t: Token, lwm: bool) {
    match t
    case Literal(_) => true
    case Single(back) => back < 16
    case Short(offset, len) => 1 <= offset < 128 && 2 <= len <= 3
    case Match(offset, len) => offset / 256 <= 0x00ff_fffe && 2 + Bonus(offset) <= len < TWO32
    case Repeat(len) => !lwm && 2 <= len < TWO32
    case End => true
  }

  function TokenItems(t: Token, lwm: bool): seq<Item>
    requires Encodable(t, lwm)
  {
    match t
    case Literal(x) => [Bit(false), Whole(x)]
    case Single(back) => [Bit(true), Bit(true), Bit(true)] + NibbleItems(back)
    case Short(offset, len) => [Bit(true), Bit(true), Bit(false), Whole(2 * offset + len - 2)]
    case Match(offset, len) =>
      [Bit(true), Bit(false)] + GammaItems(offset / 256 + (if lwm then 2 else 3), false)
      + [Whole(offset % 256)] + GammaItems(len - Bonus(offset), false)
    case Repeat(len) => [Bit(true), Bit(false)] + GammaItems(2, false) + GammaItems(len, false)
    case End => [Bit(true), Bit(true), Bit(false), Whole(0)]
  }

  ghost predicate AllEncodable(ts: seq<Token>, lwm: bool) {
    ts != [] ==> !ts[0].End? && Encodable(ts[0], lwm) && AllEncodable(ts[1..], MatchBefore(ts[0]))
  }

  ghost function StreamItems(ts: seq<Token>, lwm: bool): seq<Item>
    requires AllEncodable(ts, lwm)
  {
    if ts == [] then TokenItems(End, lwm)
    else TokenItems(ts[0], lwm) + StreamItems(ts[1..], MatchBefore(ts[0]))
  }

  // ------------------------------------------------------------------ round trip

  /** The reader after reading the items it spells. */
  ghost function After(r: Reader, items: seq<Item>): Reader
    requires Spells(r, items)
    decreases items
  {
    if items == [] then r
    else match items[0]
      case Bit(_) => After(GetBit(r).value.1, items[1..])
      case Whole(_) => After(GetByte(r).value.1, items[1..])
  }

  lemma {:induction false} SpellsSplit(r: Reader, a: seq<Item>, b: seq<Item>)
    requires Spells(r, a + b)
    ensures Spells(r, a) && Spells(After(r, a), b)
    decreases a
  {
    if a == [] {
      assert a + b == b;
    } else {
      assert (a + b)[1..] == a[1..] + b;
      var o := if a[0].Bit? then GetBit(r).value.1 else GetByte(r).value.1;
      SpellsSplit(o, a[1..], b);
    }
  }

  /** A gamma code is read back. */
  lemma {:induction false} GammaReads(r: Reader, v: nat, more: bool, rest: seq<Item>)
    requires 2 <= v < TWO32 && Spells(r, GammaItems(v, more) + rest)
    ensures Spells(r, GammaItems(v, more)) && Spells(After(r, GammaItems(v, more)), rest)
    ensures GetGamma(r, 1) == if more then GetGamma(After(r, GammaItems(v, more)), v)
                              else Some((v, After(r, GammaItems(v, more))))
    decreases v
  {
    hide GetGamma, GetBit, GetByte;
    var last := [Bit(v % 2 == 1), Bit(more)];
    SpellsSplit(r, GammaItems(v, more), rest);
    if v >= 4 {
      var front := GammaItems(v / 2, true);
      SpellsSplit(r, front, last);
      GammaReads(r, v / 2, true, last);
      var r1 := After(r, front);
      AfterSplit(r, front, last);
      OneDigit(r1, v / 2, v % 2 == 1, more);
    } else {
      OneDigit(r, 1, v % 2 == 1, more);
    }
  }

  lemma {:induction false} AfterSplit(r: Reader, a: seq<Item>, b: seq<Item>)
    requires Spells(r, a + b) && Spells(r, a) && Spells(After(r, a), b)
    ensures After(r, a + b) == After(After(r, a), b)
    decreases a
  {
    if a == [] {
      assert a + b == b;
    } else {
      assert (a + b)[1..] == a[1..] + b;
      var o := if a[0].Bit? then GetBit(r).value.1 else GetByte(r).value.1;
      AfterSplit(o, a[1..], b);
    }
  }

  lemma OneDigit(r: Reader, v: nat, digit: bool, more: bool)
    requires v < TWO31 && Spells(r, [Bit(digit), Bit(more)])
    ensures
      var r1 := After(r, [Bit(digit), Bit(more)]);
      var v1 := 2 * v + Digit(digit);
      GetGamma(r, v) == if more then GetGamma(r1, v1) else Some((v1, r1))
  {
    var last := [Bit(digit), Bit(more)];
    var r1 := GetBit(r).value.1;
    assert last[1..] == [Bit(more)];
    assert Spells(r1, [Bit(more)]) && After(r, last) == After(r1, [Bit(more)]);
    assert [Bit(more)][1..] == [];
    assert After(r1, [Bit(more)]) == GetBit(r1).value.1;
  }

  /** A single byte among the items is read back. */
  lemma WholeReads(r: Reader, x: byte, rest: seq<Item>)
    requires Spells(r, [Whole(x)] + rest)
    ensures GetByte(r).Some? && GetByte(r).value.0 == x && Spells(GetByte(r).value.1, rest)
  {
    assert ([Whole(x)] + rest)[1..] == rest;
  }

  lemma BitReads(r: Reader, b: bool, rest: seq<Item>)
    requires Spells(r, [Bit(b)] + rest)
    ensures GetBit(r).Some? && GetBit(r).value.0 == b && Spells(GetBit(r).value.1, rest)
  {
    assert ([Bit(b)] + rest)[1..] == rest;
  }

  /** A gamma code that ends is read back. */
  lemma GammaValue(r: Reader, v: nat, rest: seq<Item>)
    requires 2 <= v < TWO32 && Spells(r, GammaItems(v, false) + rest)
    ensures GetGamma(r, 1).Some? && GetGamma(r, 1).value.0 == v && Spells(GetGamma(r, 1).value.1, rest)
  {
    GammaReads(r, v, false, rest);
  }

  lemma NibbleValue(n: nat)
    requires n < 16
    ensures 8 * (n / 8 % 2) + 4 * (n / 4 % 2) + 2 * (n / 2 % 2) + n % 2 == n
  {
  }

  lemma NibbleSplit(n: nat, rest: seq<Item>)
    ensures NibbleItems(n) + rest
            == [Bit(n / 8 % 2 == 1)] + ([Bit(n / 4 % 2 == 1)] + ([Bit(n / 2 % 2 == 1)] + ([Bit(n % 2 == 1)] + rest)))
  {
  }

  lemma SingleReads(r: Reader, back: nat, rest: seq<Item>)
    requires back < 16 && Spells(r, NibbleItems(back) + rest)
    ensures GetSingle(r).Some? && GetSingle(r).value.0 == Single(back) && Spells(GetSingle(r).value.1, rest)
  {
    hide Spells, GetBit, NibbleItems;
    var b3, b2, b1, b0 := back / 8 % 2 == 1, back / 4 % 2 == 1, back / 2 % 2 == 1, back % 2 == 1;
    NibbleSplit(back, rest);
    NibbleValue(back);
    BitReads(r, b3, [Bit(b2)] + ([Bit(b1)] + ([Bit(b0)] + rest)));
    var r3 := GetBit(r).value.1;
    BitReads(r3, b2, [Bit(b1)] + ([Bit(b0)] + rest));
    var r2 := GetBit(r3).value.1;
    BitReads(r2, b1, [Bit(b0)] + rest);
    BitReads(GetBit(r2).value.1, b0, rest);
  }

  lemma MatchReads(r: Reader, offset: nat, len: nat, lwm: bool, rest: seq<Item>)
    requires Encodable(Match(offset, len), lwm)
    requires
      var high, low := GammaItems(offset / 256 + (if lwm then 2 else 3), false), [Whole(offset % 256)];
      Spells(r, high + (low + (GammaItems(len - Bonus(offset), false) + rest)))
    ensures GetMatch(r, lwm).Some? && GetMatch(r, lwm).value.0 == Match(offset, len)
    ensures Spells(GetMatch(r, lwm).value.1, rest)
  {
    hide Spells, GetGamma, GammaItems, GetByte, Bonus;
    var g, v := offset / 256 + (if lwm then 2 else 3), len - Bonus(offset);
    GammaValue(r, g, [Whole(offset % 256)] + (GammaItems(v, false) + rest));
    var r1 := GetGamma(r, 1).value.1;
    WholeReads(r1, offset % 256, GammaItems(v, false) + rest);
    GammaValue(GetByte(r1).value.1, v, rest);
  }

  lemma RepeatReads(r: Reader, len: nat, rest: seq<Item>)
    requires 2 <= len < TWO32 && Spells(r, GammaItems(2, false) + (GammaItems(len, false) + rest))
    ensures GetMatch(r, false).Some? && GetMatch(r, false).value.0 == Repeat(len)
    ensures Spells(GetMatch(r, false).value.1, rest)
  {
    hide Spells, GetGamma, GammaItems, GetByte;
    GammaValue(r, 2, GammaItems(len, false) + rest);
    GammaValue(GetGamma(r, 1).value.1, len, rest);
  }

  /** Every encodable token is read back. */
  lemma TokenReads(r: Reader, t: Token, lwm: bool, rest: seq<Item>)
    requires Encodable(t, lwm) && Spells(r, TokenItems(t, lwm) + rest)
    ensures GetToken(r, lwm).Some? && GetToken(r, lwm).value.0 == t && Spells(GetToken(r, lwm).value.1, rest)
  {
    hide Spells, GetBit, GammaItems, GetSingle, GetMatch, NibbleItems;
    var items := TokenItems(t, lwm);
    assert items + rest == [items[0]] + (items[1..] + rest);
    BitReads(r, items[0].b, items[1..] + rest);
    var r0 := GetBit(r).value.1;
    if t.Literal? {
      assert items[1..] + rest == [Whole(t.value)] + rest;
      WholeReads(r0, t.value, rest);
    } else {
      assert items[1..] + rest == [items[1]] + (items[2..] + rest);
      BitReads(r0, items[1].b, items[2..] + rest);
      LongTokenReads(GetBit(r0).value.1, t, lwm, rest);
    }
  }

  /** The part of a token after its first two bits. */
  lemma LongTokenReads(r: Reader, t: Token, lwm: bool, rest: seq<Item>)
    requires Encodable(t, lwm) && !t.Literal? && Spells(r, TokenItems(t, lwm)[2..] + rest)
    ensures
      var o := if t.Match? || t.Repeat? then GetMatch(r, lwm) else GetLong(r);
      o.Some? && o.value.0 == t && Spells(o.value.1, rest)
  {
    hide Spells, GetMatch, GetLong, TokenItems;
    if t.Match? || t.Repeat? { MatchTokenReads(r, t, lwm, rest); } else { ShortTokenReads(r, t, lwm, rest); }
  }

  lemma MatchTokenReads(r: Reader, t: Token, lwm: bool, rest: seq<Item>)
    requires Encodable(t, lwm) && (t.Match? || t.Repeat?) && Spells(r, TokenItems(t, lwm)[2..] + rest)
    ensures
      var o := GetMatch(r, lwm);
      o.Some? && o.value.0 == t && Spells(o.value.1, rest)
  {
    hide Spells, GammaItems, GetMatch, Bonus;
    var items := TokenItems(t, lwm);
    if t.Match? {
      var high, low := GammaItems(t.offset / 256 + (if lwm then 2 else 3), false), [Whole(t.offset % 256)];
      assert items[2..] + rest == high + (low + (GammaItems(t.length - Bonus(t.offset), false) + rest));
      MatchReads(r, t.offset, t.length, lwm, rest);
    } else {
      assert items[2..] + rest == GammaItems(2, false) + (GammaItems(t.length, false) + rest);
      RepeatReads(r, t.length, rest);
    }
  }

  lemma ShortTokenReads(r: Reader, t: Token, lwm: bool, rest: seq<Item>)
    requires Encodable(t, lwm) && (t.Single? || t.Short? || t.End?) && Spells(r, TokenItems(t, lwm)[2..] + rest)
    ensures
      var o := GetLong(r);
      o.Some? && o.value.0 == t && Spells(o.value.1, rest)
  {
    hide Spells, GetBit, GetSingle, NibbleItems;
    var items := TokenItems(t, lwm);
    assert items[2..] + rest == [items[2]] + (items[3..] + rest);
    BitReads(r, items[2].b, items[3..] + rest);
    var r2 := GetBit(r).value.1;
    if t.Single? {
      assert items[3..] + rest == NibbleItems(t.back) + rest;
      SingleReads(r2, t.back, rest);
    } else {
      assert items[3..] + rest == [items[3]] + rest;
      WholeReads(r2, items[3].x, rest);
    }
  }

  /** A token list is read back from a stream that spells it. */
  lemma {:induction false} TokensRead(r: Reader, ts: seq<Token>, lwm: bool)
    requires AllEncodable(ts, lwm) && Spells(r, StreamItems(ts, lwm))
    ensures GetTokens(r, lwm) == Some(ts)
    decreases ts
  {
    hide GetToken, TokenItems;
    if ts == [] {
      assert TokenItems(End, lwm) + [] == TokenItems(End, lwm);
      TokenReads(r, End, lwm, []);
    } else {
      var next := MatchBefore(ts[0]);
      TokenReads(r, ts[0], lwm, StreamItems(ts[1..], next));
      TokensRead(GetToken(r, lwm).value.1, ts[1..], next);
      assert [ts[0]] + ts[1..] == ts;
    }
  }

  /** The bytes that encode a token list. */
  ghost function Encoded(ts: seq<Token>): Bytes
    requires AllEncodable(ts, false)
  {
    Lay(StreamItems(ts, false), 0)
  }

  /** Unpacking the encoding of a token list gives its expansion, whatever follows it. */
  lemma UnpackEncoded(ts: seq<Token>, tail: Bytes, last: nat, out: Bytes, dst: Bytes)
    requires AllEncodable(ts, false) && |out| <= |dst|
    ensures Unpack(Reader([], Encoded(ts) + tail), false, last, out, dst) == Expand(ts, last, out, dst)
  {
    var r := Reader([], Encoded(ts) + tail);
    LaySpells(StreamItems(ts, false), [], tail);
    TokensRead(r, ts, false);
    UnpackIsExpand(r, false, last, out, dst);
  }
}
