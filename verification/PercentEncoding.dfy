/**
 * `encodeURIComponent` and `decodeURIComponent`: percent-encoded UTF-8 (section 2.1 of
 * RFC 3986) over strings of UTF-16 code units. Encoding fails on a lone surrogate, decoding
 * on anything that is not the percent-encoding of well-formed UTF-8.
 */
module PercentEncoding {
  import opened Common
  import opened Json

  const PERCENT: CodeUnit := 37

  predicate Alphanumeric(u: CodeUnit) { 48 <= u <= 57 || 65 <= u <= 90 || 97 <= u <= 122 }

  /** Letters, digits and - _ . ! ~ * ' ( ) stand for themselves. */
  predicate Unreserved(u: CodeUnit) { Alphanumeric(u) || u in [45, 95, 46, 33, 126, 42, 39, 40, 41] }

  type Byte = b: int | 0 <= b < 256

  function UpperHex(d: int): CodeUnit
    requires 0 <= d < 16
  {
    if d < 10 then 48 + d else 55 + d
  }

  function PercentByte(b: Byte): (t: Text)
    ensures |t| == 3
  {
    [PERCENT, UpperHex(b / 16), UpperHex(b % 16)]
  }

  /** Either case is read. */
  function HexValue(u: CodeUnit): (d: Option<int>)
    ensures d.Some? ==> 0 <= d.value < 16
  {
    if 48 <= u <= 57 then Some(u - 48)
    else if 65 <= u <= 70 then Some(u - 55)
    else if 97 <= u <= 102 then Some(u - 87)
    else None
  }

  // ---------------------------------------------------------------------------- encoding

  type CodePoint = c: int | 0 <= c < 0x110000

  function Utf8(c: CodePoint): seq<Byte> {
    if c < 0x80 then [c]
    else if c < 0x800 then [0xC0 + c / 64, 0x80 + c % 64]
    else if c < 0x10000 then [0xE0 + c / 4096, 0x80 + c / 64 % 64, 0x80 + c % 64]
    else [0xF0 + c / 262144, 0x80 + c / 4096 % 64, 0x80 + c / 64 % 64, 0x80 + c % 64]
  }

  function PercentBytes(bs: seq<Byte>): Text {
    if bs == [] then [] else PercentByte(bs[0]) + PercentBytes(bs[1..])
  }

  function PairValue(hi: CodeUnit, lo: CodeUnit): CodePoint
    requires High(hi) && Low(lo)
  {
    0x10000 + (hi - 0xD800) * 1024 + (lo - 0xDC00)
  }

  function Prepend(head: Text, rest: Option<Text>): Option<Text> {
    match rest
    case Some(t) => Some(head + t)
    case None => None
  }

  function Encode(s: Text): Option<Text> {
    if s == [] then Some([])
    else if Unreserved(s[0]) then Prepend([s[0]], Encode(s[1..]))
    else if StartsPair(s) then Prepend(PercentBytes(Utf8(PairValue(s[0], s[1]))), Encode(s[2..]))
    else if High(s[0]) || Low(s[0]) then None
    else Prepend(PercentBytes(Utf8(s[0])), Encode(s[1..]))
  }

  /** No surrogate without its partner. */
  predicate Paired(s: Text) {
    if s == [] then true
    else if StartsPair(s) then Paired(s[2..])
    else !High(s[0]) && !Low(s[0]) && Paired(s[1..])
  }

  // ---------------------------------------------------------------------------- decoding

  /** The byte written at the start of a text. */
  function ReadByte(t: Text): Option<Byte> {
    if |t| < 3 || t[0] != PERCENT then None
    else match (HexValue(t[1]), HexValue(t[2]))
      case (Some(h), Some(l)) => Some(h * 16 + l)
      case _ => None
  }

  /** The `n` bytes written at the start of a text. */
  function ReadBytes(t: Text, n: nat): (bs: Option<seq<Byte>>)
    ensures bs.Some? ==> |bs.value| == n && 3 * n <= |t|
  {
    if n == 0 then Some([])
    else match ReadByte(t)
      case None => None
      case Some(b) =>
        match ReadBytes(t[3..], n - 1)
        case Some(bs) => Some([b] + bs)
        case None => None
  }

  /** How many bytes a first byte announces; 0 for none that is allowed. */
  function Length(b: Byte): nat {
    if b < 0x80 then 1
    else if 0xC0 <= b < 0xE0 then 2
    else if 0xE0 <= b < 0xF0 then 3
    else if 0xF0 <= b < 0xF8 then 4
    else 0
  }

  predicate Continues(b: Byte) { 0x80 <= b < 0xC0 }

  /** The code point some bytes stand for; overlong forms, surrogates and values past the last
      code point are refused. */
  function FromUtf8(bs: seq<Byte>): Option<CodePoint> {
    if |bs| == 1 && bs[0] < 0x80 then Some(bs[0])
    else if |bs| == 2 && Continues(bs[1]) then Checked(Bits(bs[0], 0xC0) * 64 + Bits(bs[1], 0x80), 0x80)
    else if |bs| == 3 && Continues(bs[1]) && Continues(bs[2]) then
      Checked(Bits(bs[0], 0xE0) * 4096 + Bits(bs[1], 0x80) * 64 + Bits(bs[2], 0x80), 0x800)
    else if |bs| == 4 && Continues(bs[1]) && Continues(bs[2]) && Continues(bs[3]) then
      Checked(Bits(bs[0], 0xF0) * 262144 + Bits(bs[1], 0x80) * 4096 + Bits(bs[2], 0x80) * 64 + Bits(bs[3], 0x80),
              0x10000)
    else None
  }

  function Bits(b: int, lead: int): int { b - lead }

  function Checked(c: int, least: nat): Option<CodePoint> {
    if least <= c < 0x110000 && !(0xD800 <= c < 0xE000) then Some(c) else None
  }

  /** The code point written at the start of a text, and the length of its writing. */
  function ReadCodePoint(t: Text): (r: Option<(CodePoint, nat)>)
    ensures r.Some? ==> 3 <= r.value.1 <= |t|
  {
    match ReadByte(t)
    case None => None
    case Some(b) =>
      var n := Length(b);
      if n == 0 then None
      else match ReadBytes(t, n)
        case None => None
        case Some(bs) =>
          match FromUtf8(bs)
          case Some(c) => Some((c, 3 * n))
          case None => None
  }

  function Units(c: CodePoint): Text {
    if c < 0x10000 then [c] else [0xD800 + (c - 0x10000) / 1024, 0xDC00 + (c - 0x10000) % 1024]
  }

  function Decode(t: Text): Option<Text>
    decreases |t|
  {
    if t == [] then Some([])
    else if t[0] != PERCENT then Prepend([t[0]], Decode(t[1..]))
    else match ReadCodePoint(t)
      case Some((c, n)) => Prepend(Units(c), Decode(t[n..]))
      case None => None
  }

  // --------------------------------------------------------------------------- round trip

  lemma ReadsByte(b: Byte, rest: Text)
    ensures ReadByte(PercentByte(b) + rest) == Some(b)
    ensures (PercentByte(b) + rest)[3..] == rest
  {
    assert HexValue(UpperHex(b / 16)) == Some(b / 16) && HexValue(UpperHex(b % 16)) == Some(b % 16);
  }

  lemma BytesCons(b: Byte, bs: seq<Byte>, rest: Text)
    ensures PercentBytes([b] + bs) + rest == PercentByte(b) + (PercentBytes(bs) + rest)
  {
    assert ([b] + bs)[1..] == bs;
  }

  lemma {:induction false} ReadsBytes(bs: seq<Byte>, rest: Text)
    ensures var t := PercentBytes(bs) + rest;
            ReadBytes(t, |bs|) == Some(bs) && |PercentBytes(bs)| == 3 * |bs|
  {
    if bs != [] {
      ReadsBytes(bs[1..], rest);
      assert bs == [bs[0]] + bs[1..];
      BytesCons(bs[0], bs[1..], rest);
      ReadsByte(bs[0], PercentBytes(bs[1..]) + rest);
    }
  }

  predicate Scalar(c: CodePoint) { !(0xD800 <= c < 0xE000) }

  lemma ThreeParts(c: CodePoint)
    ensures (c / 4096) * 4096 + (c / 64 % 64) * 64 + c % 64 == c
  {
    assert c / 64 / 64 == c / 4096;
  }

  lemma FourParts(c: CodePoint)
    ensures (c / 262144) * 262144 + (c / 4096 % 64) * 4096 + (c / 64 % 64) * 64 + c % 64 == c
  {
    ThreeParts(c);
    assert c / 4096 / 64 == c / 262144;
  }

  /** UTF-8 is read back, and its first byte tells its length. */
  lemma Utf8ReadsBack(c: CodePoint)
    requires Scalar(c)
    ensures Utf8(c) != [] && Length(Utf8(c)[0]) == |Utf8(c)| && FromUtf8(Utf8(c)) == Some(c)
  {
    ThreeParts(c);
    FourParts(c);
  }

  /** A code point is read back from its writing, whatever follows. */
  lemma ReadsBack(c: CodePoint, rest: Text)
    requires Scalar(c)
    ensures var w := PercentBytes(Utf8(c));
            w != [] && w[0] == PERCENT && ReadCodePoint(w + rest) == Some((c, |w|))
  {
    var bs := Utf8(c);
    Utf8ReadsBack(c);
    ReadsBytes(bs, rest);
    assert bs == [bs[0]] + bs[1..];
    BytesCons(bs[0], bs[1..], rest);
    ReadsByte(bs[0], PercentBytes(bs[1..]) + rest);
  }

  lemma PairUnits(hi: CodeUnit, lo: CodeUnit)
    requires High(hi) && Low(lo)
    ensures Scalar(PairValue(hi, lo)) && Units(PairValue(hi, lo)) == [hi, lo]
  {
  }

  lemma DecodesCodePoint(c: CodePoint, rest: Text)
    requires Scalar(c)
    ensures Decode(PercentBytes(Utf8(c)) + rest) == Prepend(Units(c), Decode(rest))
  {
    ReadsBack(c, rest);
    var w := PercentBytes(Utf8(c));
    assert (w + rest)[|w|..] == rest;
  }

  /** Encoding works exactly on strings without lone surrogates. */
  lemma {:induction false} EncodesIff(s: Text)
    ensures Encode(s).Some? <==> Paired(s)
  {
    if s != [] {
      if StartsPair(s) {
        EncodesIff(s[2..]);
      } else {
        EncodesIff(s[1..]);
      }
    }
  }

  lemma DecodesUnreserved(u: CodeUnit, rest: Text)
    requires u != PERCENT
    ensures Decode([u] + rest) == Prepend([u], Decode(rest))
  {
    assert ([u] + rest)[1..] == rest;
  }

  /** One character of the text: what is left to encode, and what it decodes to. */
  lemma EncodeStep(s: Text)
    requires s != [] && Encode(s).Some?
    ensures var n := if StartsPair(s) then 2 else 1;
            && Encode(s[n..]).Some?
            && Decode(Encode(s).value) == Prepend(s[..n], Decode(Encode(s[n..]).value))
  {
    if StartsPair(s) {
      PairUnits(s[0], s[1]);
      DecodesCodePoint(PairValue(s[0], s[1]), Encode(s[2..]).value);
      assert s[..2] == [s[0], s[1]];
    } else if Unreserved(s[0]) {
      DecodesUnreserved(s[0], Encode(s[1..]).value);
      assert s[..1] == [s[0]];
    } else {
      DecodesCodePoint(s[0], Encode(s[1..]).value);
      assert s[..1] == [s[0]];
    }
  }

  /** Decoding undoes encoding. */
  lemma {:induction false} DecodeEncode(s: Text)
    requires Encode(s).Some?
    ensures Decode(Encode(s).value) == Some(s)
  {
    if s != [] {
      var n := if StartsPair(s) then 2 else 1;
      assert Decode(Encode(s).value) == Some(s[..n] + s[n..]) by {
        EncodeStep(s);
        DecodeEncode(s[n..]);
      }
      assert s == s[..n] + s[n..];
    }
  }

  // ---------------------------------------------------------------- what encoded text holds

  predicate SafeUnit(u: CodeUnit) { Unreserved(u) || u == PERCENT }

  predicate Safe(t: Text) { forall i :: 0 <= i < |t| ==> SafeUnit(t[i]) }

  lemma {:induction false} BytesSafe(bs: seq<Byte>)
    ensures Safe(PercentBytes(bs))
  {
    if bs != [] {
      BytesSafe(bs[1..]);
    }
  }

  /** Encoded text has no separator and no white space in it. */
  lemma {:induction false} EncodedIsSafe(s: Text)
    requires Encode(s).Some?
    ensures Safe(Encode(s).value)
  {
    if s != [] {
      if Unreserved(s[0]) {
        EncodedIsSafe(s[1..]);
      } else if StartsPair(s) {
        EncodedIsSafe(s[2..]);
        BytesSafe(Utf8(PairValue(s[0], s[1])));
      } else {
        EncodedIsSafe(s[1..]);
        BytesSafe(Utf8(s[0]));
      }
    }
  }
}
