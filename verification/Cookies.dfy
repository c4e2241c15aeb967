/**
 * Cookie headers: the cookie-string of section 4.2.1 of RFC 6265, parsed into a map, and the
 * name-value pairs that go into it.
 */
module Cookies {
  import opened Common
  import opened Json
  import opened PercentEncoding

  const SEMICOLON: CodeUnit := 59
  const EQUALS: CodeUnit := 61
  const SPACE: CodeUnit := 32

  // ------------------------------------------------------------------------- text helpers

  function Split(t: Text, sep: CodeUnit): (parts: seq<Text>)
    ensures parts != []
  {
    if t == [] then [[]]
    else
      var rest := Split(t[1..], sep);
      if t[0] == sep then [[]] + rest else [[t[0]] + rest[0]] + rest[1..]
  }

  function Join(parts: seq<Text>, sep: CodeUnit): Text
    requires parts != []
  {
    if |parts| == 1 then parts[0] else parts[0] + [sep] + Join(parts[1..], sep)
  }

  /** The first place of a unit; -1 if there is none. */
  function IndexOf(t: Text, u: CodeUnit): (i: int)
    ensures -1 <= i < |t| && (i >= 0 ==> t[i] == u)
  {
    if t == [] then -1
    else if t[0] == u then 0
    else
      var i := IndexOf(t[1..], u);
      if i < 0 then -1 else i + 1
  }

  /** White space and line terminators, as `trim` strips them. */
  predicate White(u: CodeUnit) {
    9 <= u <= 13 || u == 32 || u == 160 || u == 0x1680 || 0x2000 <= u <= 0x200A
    || u == 0x2028 || u == 0x2029 || u == 0x202F || u == 0x205F || u == 0x3000 || u == 0xFEFF
  }

  function TrimStart(t: Text): Text {
    if t != [] && White(t[0]) then TrimStart(t[1..]) else t
  }

  function TrimEnd(t: Text): Text {
    if t != [] && White(t[|t| - 1]) then TrimEnd(t[..|t| - 1]) else t
  }

  function Trim(t: Text): Text { TrimEnd(TrimStart(t)) }

  // ------------------------------------------------------------------------------ parsing

  predicate NameUnit(u: CodeUnit) { Alphanumeric(u) || u == 95 || u == 45 }

  predicate GoodName(name: Text) {
    1 <= |name| <= 128 && forall i :: 0 <= i < |name| ==> NameUnit(name[i])
  }

  datatype Cookie = Cookie(name: Text, value: Text)

  /** The cookie one segment of the header stands for, if it is well-formed. */
  function Segment(part: Text): Option<Cookie> {
    var i := IndexOf(part, EQUALS);
    if i <= 0 then None
    else
      var name := Trim(part[..i]);
      if !GoodName(name) then None
      else match Decode(Trim(part[i + 1..]))
        case Some(value) => Some(Cookie(name, value))
        case None => None
  }

  function Add(out: map<Text, Text>, c: Option<Cookie>): map<Text, Text> {
    match c
    case Some(cookie) => out[cookie.name := cookie.value]
    case None => out
  }

  /** Segments in order; a later cookie of the same name wins. */
  function CollectInto(out: map<Text, Text>, parts: seq<Text>): map<Text, Text>
    decreases |parts|
  {
    if parts == [] then out else CollectInto(Add(out, Segment(parts[0])), parts[1..])
  }

  function Collect(parts: seq<Text>): map<Text, Text> { CollectInto(map[], parts) }

  function Parsed(header: Option<Text>): map<Text, Text> {
    if header.None? || header.value == [] then map[] else Collect(Split(header.value, SEMICOLON))
  }

  /** Takes the header apart at semicolons and keeps each well-formed segment, a later one
      replacing an earlier one of the same name. */
  method ParseCookies(header: Option<Text>) returns (out: map<Text, Text>)
    ensures out == Parsed(header)
  {
    out := map[];
    if header.None? || |header.value| == 0 {
      return;
    }
    var parts := Split(header.value, SEMICOLON);
    assert parts[0..] == parts;
    for k := 0 to |parts|
      invariant CollectInto(out, parts[k..]) == Collect(parts)
    {
      assert parts[k..][1..] == parts[k + 1..];
      var cookie := Segment(parts[k]);
      if cookie.None? {
        continue;
      }
      out := out[cookie.value.name := cookie.value.value];
    }
  }

  // --------------------------------------------------------------- splitting undoes joining

  lemma {:induction false} SplitPiece(piece: Text, sep: CodeUnit, rest: Text)
    requires sep !in piece
    ensures Split(piece + [sep] + rest, sep) == [piece] + Split(rest, sep)
  {
    var t := piece + [sep] + rest;
    if piece == [] {
      assert t[1..] == rest;
    } else {
      SplitPiece(piece[1..], sep, rest);
      assert t[1..] == piece[1..] + [sep] + rest;
      var inner := [piece[1..]] + Split(rest, sep);
      assert inner[1..] == Split(rest, sep);
      assert [t[0]] + piece[1..] == piece;
    }
  }

  lemma {:induction false} SplitNone(piece: Text, sep: CodeUnit)
    requires sep !in piece
    ensures Split(piece, sep) == [piece]
  {
    if piece != [] {
      SplitNone(piece[1..], sep);
      assert [piece[0]] + piece[1..] == piece;
      assert [piece[1..]][1..] == [];
    }
  }

  ghost predicate Separate(parts: seq<Text>, sep: CodeUnit) {
    forall i :: 0 <= i < |parts| ==> sep !in parts[i]
  }

  lemma {:induction false} SplitJoin(parts: seq<Text>, sep: CodeUnit)
    requires parts != [] && Separate(parts, sep)
    ensures Split(Join(parts, sep), sep) == parts
  {
    if |parts| == 1 {
      SplitNone(parts[0], sep);
    } else {
      SplitJoin(parts[1..], sep);
      SplitPiece(parts[0], sep, Join(parts[1..], sep));
      assert parts == [parts[0]] + parts[1..];
    }
  }

  lemma {:induction false} JoinSplit(t: Text, sep: CodeUnit)
    ensures Separate(Split(t, sep), sep) && Join(Split(t, sep), sep) == t
  {
    if t != [] {
      JoinSplit(t[1..], sep);
      var rest := Split(t[1..], sep);
      assert t == [t[0]] + t[1..];
      if t[0] == sep {
        assert ([[]] + rest)[1..] == rest;
      } else {
        var parts := [[t[0]] + rest[0]] + rest[1..];
        assert parts[1..] == rest[1..];
      }
    }
  }

  // ------------------------------------------------------------------------- one segment

  lemma {:induction false} IndexAfter(before: Text, u: CodeUnit, rest: Text)
    requires u !in before
    ensures IndexOf(before + [u] + rest, u) == |before|
  {
    var t := before + [u] + rest;
    if before != [] {
      IndexAfter(before[1..], u, rest);
      assert t[1..] == before[1..] + [u] + rest;
    }
  }

  predicate NoWhite(t: Text) { forall i :: 0 <= i < |t| ==> !White(t[i]) }

  lemma TrimNothing(t: Text)
    requires NoWhite(t)
    ensures Trim(t) == t
  {
  }

  lemma TrimSpace(t: Text)
    requires NoWhite(t)
    ensures Trim([SPACE] + t) == t
  {
    assert ([SPACE] + t)[1..] == t;
    assert TrimStart([SPACE] + t) == TrimStart(t);
    TrimNothing(t);
  }

  lemma NameIsPlain(name: Text)
    requires GoodName(name)
    ensures NoWhite(name) && EQUALS !in name && SEMICOLON !in name
  {
    forall i | 0 <= i < |name| ensures name[i] != EQUALS && name[i] != SEMICOLON && !White(name[i]) {
      assert NameUnit(name[i]);
    }
  }

  lemma SafeIsPlain(t: Text)
    requires Safe(t)
    ensures NoWhite(t) && EQUALS !in t && SEMICOLON !in t
  {
    forall i | 0 <= i < |t| ensures t[i] != EQUALS && t[i] != SEMICOLON && !White(t[i]) {
      assert SafeUnit(t[i]);
    }
  }

  /** What can be sent: a good name, and a value that can be encoded. */
  predicate Sendable(c: Cookie) { GoodName(c.name) && Paired(c.value) }

  function Pair(c: Cookie): Text
    requires Sendable(c)
  {
    EncodesIff(c.value);
    c.name + [EQUALS] + Encode(c.value).value
  }

  lemma PairIsOneSegment(c: Cookie)
    requires Sendable(c)
    ensures SEMICOLON !in Pair(c)
  {
    EncodesIff(c.value);
    NameIsPlain(c.name);
    EncodedIsSafe(c.value);
    SafeIsPlain(Encode(c.value).value);
  }

  /** A segment with a name, an equals sign and encoded text. */
  lemma SegmentIs(before: Text, name: Text, enc: Text)
    requires EQUALS !in before && before != [] && Trim(before) == name && GoodName(name) && Trim(enc) == enc
    ensures Segment(before + [EQUALS] + enc)
         == (match Decode(enc)
             case Some(value) => Some(Cookie(name, value))
             case None => None)
  {
    var part := before + [EQUALS] + enc;
    IndexAfter(before, EQUALS, enc);
    assert part[..|before|] == before && part[|before| + 1..] == enc;
  }

  lemma PairParts(c: Cookie) returns (enc: Text)
    requires Sendable(c)
    ensures Pair(c) == c.name + [EQUALS] + enc && Trim(enc) == enc && Decode(enc) == Some(c.value)
    ensures NoWhite(c.name) && EQUALS !in c.name
  {
    EncodesIff(c.value);
    enc := Encode(c.value).value;
    NameIsPlain(c.name);
    EncodedIsSafe(c.value);
    SafeIsPlain(enc);
    TrimNothing(enc);
    DecodeEncode(c.value);
  }

  /** A pair as it stands in a header: after a space, unless it is the first. */
  function Placed(c: Cookie, first: bool): Text
    requires Sendable(c)
  {
    if first then Pair(c) else [SPACE] + Pair(c)
  }

  lemma Shifted(name: Text, enc: Text)
    ensures [SPACE] + (name + [EQUALS] + enc) == ([SPACE] + name) + [EQUALS] + enc
  {
  }

  /** A pair parses back. */
  lemma PairParses(c: Cookie, first: bool)
    requires Sendable(c)
    ensures Segment(Placed(c, first)) == Some(c)
  {
    var enc := PairParts(c);
    if first {
      TrimNothing(c.name);
      SegmentIs(c.name, c.name, enc);
    } else {
      TrimSpace(c.name);
      SegmentIs([SPACE] + c.name, c.name, enc);
      Shifted(c.name, enc);
    }
  }

  // ------------------------------------------------------------------------------ headers

  predicate AllSendable(cs: seq<Cookie>) { forall i :: 0 <= i < |cs| ==> Sendable(cs[i]) }

  /** The segments of a header: every pair but the first follows a space. */
  function Segments(cs: seq<Cookie>, first: bool): (parts: seq<Text>)
    requires AllSendable(cs)
    ensures |parts| == |cs|
  {
    if cs == [] then [] else [Placed(cs[0], first)] + Segments(cs[1..], false)
  }

  /** Pairs joined by `; `. */
  function Header(cs: seq<Cookie>): Text
    requires cs != [] && AllSendable(cs)
  {
    Join(Segments(cs, true), SEMICOLON)
  }

  function JarInto(out: map<Text, Text>, cs: seq<Cookie>): map<Text, Text>
    decreases |cs|
  {
    if cs == [] then out else JarInto(out[cs[0].name := cs[0].value], cs[1..])
  }

  /** The map some cookies stand for; the last of a name counts. */
  function Jar(cs: seq<Cookie>): map<Text, Text> { JarInto(map[], cs) }

  lemma {:induction false} SegmentsAreSeparate(cs: seq<Cookie>, first: bool)
    requires AllSendable(cs)
    ensures Separate(Segments(cs, first), SEMICOLON)
  {
    if cs != [] {
      SegmentsAreSeparate(cs[1..], false);
      PairIsOneSegment(cs[0]);
    }
  }

  lemma {:induction false} SegmentsCollect(cs: seq<Cookie>, first: bool, out: map<Text, Text>)
    requires AllSendable(cs)
    ensures CollectInto(out, Segments(cs, first)) == JarInto(out, cs)
    decreases |cs|
  {
    if cs != [] {
      PairParses(cs[0], first);
      SegmentsCollect(cs[1..], false, out[cs[0].name := cs[0].value]);
      var rest := Segments(cs[1..], false);
      assert ([Placed(cs[0], first)] + rest)[1..] == rest;
    }
  }

  lemma {:induction false} JoinNotEmpty(parts: seq<Text>, sep: CodeUnit)
    requires parts != [] && parts[0] != []
    ensures Join(parts, sep) != []
  {
  }

  /** The round trip: any cookies joined into a header parse back to the same map, the last
      occurrence of a name winning. */
  lemma HeaderRoundTrip(cs: seq<Cookie>)
    requires cs != [] && AllSendable(cs)
    ensures Parsed(Some(Header(cs))) == Jar(cs)
  {
    var parts := Segments(cs, true);
    SegmentsAreSeparate(cs, true);
    SplitJoin(parts, SEMICOLON);
    SegmentsCollect(cs, true, map[]);
    JoinNotEmpty(parts, SEMICOLON);
  }

  lemma {:induction false} CollectSkips(out: map<Text, Text>, before: seq<Text>, bad: Text, after: seq<Text>)
    requires Segment(bad).None?
    ensures CollectInto(out, before + [bad] + after) == CollectInto(out, before + after)
    decreases |before|
  {
    if before == [] {
      assert before + [bad] + after == [bad] + after && before + after == after;
      assert ([bad] + after)[1..] == after;
    } else {
      CollectSkips(Add(out, Segment(before[0])), before[1..], bad, after);
      assert (before + [bad] + after)[1..] == before[1..] + [bad] + after;
      assert (before + after)[1..] == before[1..] + after;
    }
  }

  /** A segment that is not a well-formed cookie, put anywhere into any header, changes no
      other cookie. */
  lemma MalformedSegmentIsIgnored(header: Text, bad: Text, n: nat)
    requires header != [] && n <= |Split(header, SEMICOLON)| && SEMICOLON !in bad && Segment(bad).None?
    ensures var parts := Split(header, SEMICOLON);
            Parsed(Some(Join(parts[..n] + [bad] + parts[n..], SEMICOLON))) == Parsed(Some(header))
  {
    var parts := Split(header, SEMICOLON);
    JoinSplit(header, SEMICOLON);
    var more := parts[..n] + [bad] + parts[n..];
    assert Separate(more, SEMICOLON);
    SplitJoin(more, SEMICOLON);
    CollectSkips(map[], parts[..n], bad, parts[n..]);
    assert parts[..n] + parts[n..] == parts;
    assert |Split(Join(more, SEMICOLON), SEMICOLON)| >= 2;
  }

  // -------------------------------------------------------------------------- Set-Cookie

  datatype SameSite = Lax | Strict | NoneSite

  datatype Options = Options(
    maxAge: Option<Text>, secure: bool, httpOnly: bool, path: Text, sameSite: Option<SameSite>)

  function SiteName(s: SameSite): Text {
    match s
    case Lax => Lit("Lax")
    case Strict => Lit("Strict")
    case NoneSite => Lit("None")
  }

  /** The attributes asked for. */
  function Attributes(opts: Options): seq<Text> {
    [Lit("Path=") + opts.path]
    + (if opts.httpOnly then [Lit("HttpOnly")] else [])
    + (if opts.sameSite.Some? then [Lit("SameSite=") + SiteName(opts.sameSite.value)] else [])
    + (if opts.secure then [Lit("Secure")] else [])
    + (if opts.maxAge.Some? then [Lit("Max-Age=") + opts.maxAge.value] else [])
  }

  function Spaced(parts: seq<Text>): seq<Text> {
    seq(|parts|, i requires 0 <= i < |parts| => [SPACE] + parts[i])
  }

  /** Nothing the caller gives holds a semicolon. */
  predicate Plain(opts: Options) {
    SEMICOLON !in opts.path && (opts.maxAge.Some? ==> SEMICOLON !in opts.maxAge.value)
  }

  lemma NamesArePlain(s: SameSite)
    ensures SEMICOLON !in Lit("Path=") && SEMICOLON !in Lit("HttpOnly") && SEMICOLON !in Lit("SameSite=")
    ensures SEMICOLON !in Lit("Secure") && SEMICOLON !in Lit("Max-Age=") && SEMICOLON !in SiteName(s)
  {
  }

  lemma AttributesSeparate(opts: Options)
    requires Plain(opts)
    ensures Separate(Spaced(Attributes(opts)), SEMICOLON)
  {
    NamesArePlain(if opts.sameSite.Some? then opts.sameSite.value else Lax);
    var all := Attributes(opts);
    forall i | 0 <= i < |all| ensures SEMICOLON !in Spaced(all)[i] {
      assert SEMICOLON !in all[i];
    }
  }

  /** A `Set-Cookie` value: the pair, then its attributes, joined by `; `; nothing when the
      value cannot be encoded. Taken apart at the semicolons it is the cookie and exactly the
      attributes asked for. */
  method SerializeCookie(name: Text, value: Text, opts: Options) returns (r: Option<Text>)
    ensures r.Some? <==> Paired(value)
    ensures r.Some? && GoodName(name) ==> Segment(Split(r.value, SEMICOLON)[0]) == Some(Cookie(name, value))
    ensures r.Some? && GoodName(name) && Plain(opts) ==>
              Split(r.value, SEMICOLON)[1..] == Spaced(Attributes(opts))
  {
    EncodesIff(value);
    var enc := Encode(value);
    if enc.None? {
      return None;
    }
    var parts := [Lit("Path=") + opts.path];
    if opts.httpOnly {
      parts := parts + [Lit("HttpOnly")];
    }
    if opts.sameSite.Some? {
      parts := parts + [Lit("SameSite=") + SiteName(opts.sameSite.value)];
    }
    if opts.secure {
      parts := parts + [Lit("Secure")];
    }
    if opts.maxAge.Some? {
      parts := parts + [Lit("Max-Age=") + opts.maxAge.value];
    }
    assert parts == Attributes(opts);
    var pair := name + [EQUALS] + enc.value;
    var rest := Join(Spaced(parts), SEMICOLON);
    r := Some(pair + [SEMICOLON] + rest);
    if GoodName(name) {
      ghost var c := Cookie(name, value);
      PairIsOneSegment(c);
      SplitPiece(pair, SEMICOLON, rest);
      PairParses(c, true);
      if Plain(opts) {
        AttributesSeparate(opts);
        SplitJoin(Spaced(parts), SEMICOLON);
      }
    }
  }
}
