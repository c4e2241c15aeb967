/**
 * JSON values as JavaScript holds them after `JSON.parse`, the text `JSON.stringify`
 * gives for them, and the sorted-key canonical form that the conversation fingerprint
 * and the audit row hash are both taken over.
 *
 * Strings are sequences of UTF-16 code units, so lone surrogates are covered. A number
 * is identified by the text JavaScript prints for it.
 */
module Json {
  import opened Common

  type CodeUnit = u: int | 0 <= u < 0x10000
  type Text = seq<CodeUnit>

  datatype Value =
    | Null
    | Bool(b: bool)
    | Number(lexeme: Text)
    | Str(s: Text)
    | Array(items: Items)
    | Object(fields: Fields)

  datatype Items = NoItems | Item(head: Value, tail: Items)

  /** Own properties in enumeration order. */
  datatype Fields = NoFields | Field(key: Text, value: Value, rest: Fields)

  /** The code units of a literal. */
  function Lit(s: string): (t: Text)
    ensures |t| == |s|
  {
    seq(|s|, i requires 0 <= i < |s| => if s[i] as int < 0x10000 then s[i] as int else 0)
  }

  function Keys(fs: Fields): set<Text> {
    match fs
    case NoFields => {}
    case Field(k, _, r) => {k} + Keys(r)
  }

  /** `o[k]`; `None` stands for `undefined`. */
  function Get(fs: Fields, k: Text): (v: Option<Value>)
    ensures v.Some? <==> k in Keys(fs)
    ensures v.Some? && WellFormedFields(fs) ==> WellFormed(v.value)
  {
    match fs
    case NoFields => None
    case Field(k', v', r) => if k' == k then Some(v') else Get(r, k)
  }

  /** A JavaScript object has each own property once, and a number prints as a number. */
  ghost predicate WellFormed(v: Value) {
    match v
    case Number(l) => IsNumber(l)
    case Array(xs) => WellFormedItems(xs)
    case Object(fs) => WellFormedFields(fs)
    case _ => true
  }

  ghost predicate WellFormedItems(xs: Items) {
    xs.Item? ==> WellFormed(xs.head) && WellFormedItems(xs.tail)
  }

  ghost predicate WellFormedFields(fs: Fields) {
    fs.Field? ==> fs.key !in Keys(fs.rest) && WellFormed(fs.value) && WellFormedFields(fs.rest)
  }

  // ---------------------------------------------------------------- printing

  predicate NumberUnit(u: CodeUnit) {
    48 <= u <= 57 || u == 43 || u == 45 || u == 46 || u == 69 || u == 101
  }

  predicate IsNumber(l: Text) {
    l != [] && (48 <= l[0] <= 57 || l[0] == 45) && forall i :: 0 <= i < |l| ==> NumberUnit(l[i])
  }

  predicate High(u: CodeUnit) { 0xD800 <= u <= 0xDBFF }

  predicate Low(u: CodeUnit) { 0xDC00 <= u <= 0xDFFF }

  predicate StartsPair(s: Text) { |s| >= 2 && High(s[0]) && Low(s[1]) }

  function Hex(d: int): CodeUnit
    requires 0 <= d < 16
  {
    if d < 10 then 48 + d else 87 + d
  }

  /** Four hexadecimal digits of `u`. */
  function Hex4(u: CodeUnit): Text {
    var q := u / 16;
    var r := q / 16;
    [Hex(r / 16), Hex(r % 16), Hex(q % 16), Hex(u % 16)]
  }

  /** The text of one code unit inside a JSON string literal. */
  function EscapeUnit(u: CodeUnit): Text {
    if u == 34 || u == 92 then [92, u]
    else if u == 8 then [92, 98]
    else if u == 9 then [92, 116]
    else if u == 10 then [92, 110]
    else if u == 12 then [92, 102]
    else if u == 13 then [92, 114]
    else if u < 32 || High(u) || Low(u) then
      [92, 117] + Hex4(u)
    else [u]
  }

  /** A surrogate pair stands for itself; any other unit is escaped on its own. */
  function Token(s: Text): Text
    requires s != []
  {
    if StartsPair(s) then s[..2] else EscapeUnit(s[0])
  }

  function TokenSize(s: Text): (n: nat)
    requires s != []
    ensures 1 <= n <= |s|
  {
    if StartsPair(s) then 2 else 1
  }

  // The printers take the text that follows, so that concatenations nest to the right.

  function EscapeTo(s: Text, after: Text): Text
    decreases |s|
  {
    if s == [] then after else Token(s) + EscapeTo(s[TokenSize(s)..], after)
  }

  function QuoteTo(s: Text, after: Text): Text {
    [34] + EscapeTo(s, [34] + after)
  }

  function PrintTo(v: Value, after: Text): Text {
    match v
    case Null => [110, 117, 108, 108] + after
    case Bool(b) => (if b then [116, 114, 117, 101] else [102, 97, 108, 115, 101]) + after
    case Number(l) => l + after
    case Str(s) => QuoteTo(s, after)
    case Array(xs) =>
      (match xs
       case NoItems => [91, 93] + after
       case Item(h, t) => [91] + PrintTo(h, ItemsTo(t, after)))
    case Object(fs) =>
      (match fs
       case NoFields => [123, 125] + after
       case Field(k, x, r) => [123] + QuoteTo(k, [58] + PrintTo(x, FieldsTo(r, after))))
  }

  function ItemsTo(xs: Items, after: Text): Text {
    match xs
    case NoItems => [93] + after
    case Item(h, t) => [44] + PrintTo(h, ItemsTo(t, after))
  }

  function FieldsTo(fs: Fields, after: Text): Text {
    match fs
    case NoFields => [125] + after
    case Field(k, x, r) => [44] + QuoteTo(k, [58] + PrintTo(x, FieldsTo(r, after)))
  }

  /** `JSON.stringify(v)`. */
  function Print(v: Value): Text {
    PrintTo(v, [])
  }

  // ------------------------------------------------- printing is unambiguous

  lemma Hex4Injective(u: CodeUnit, w: CodeUnit)
    requires Hex4(u) == Hex4(w)
    ensures u == w
  {
    var q, q' := u / 16, w / 16;
    assert q / 16 / 16 == q' / 16 / 16 by { assert Hex4(u)[0] == Hex4(w)[0]; }
    assert q / 16 % 16 == q' / 16 % 16 by { assert Hex4(u)[1] == Hex4(w)[1]; }
    assert q % 16 == q' % 16 by { assert Hex4(u)[2] == Hex4(w)[2]; }
    assert u % 16 == w % 16 by { assert Hex4(u)[3] == Hex4(w)[3]; }
  }

  lemma SameLengthPrefix(x: Text, y: Text, a: Text, b: Text)
    requires x + a == y + b && |x| == |y|
    ensures x == y && a == b
  {
    assert x == (x + a)[..|x|] && y == (y + b)[..|y|];
    assert a == (x + a)[|x|..] && b == (y + b)[|y|..];
  }

  /** An escape is introduced by a backslash, and the unit after it fixes its length. */
  lemma UnitDecodes(u: CodeUnit, w: CodeUnit, a: Text, b: Text)
    requires EscapeUnit(u) + a == EscapeUnit(w) + b
    ensures u == w && a == b
  {
    var x, y := EscapeUnit(u), EscapeUnit(w);
    assert x[0] == (x + a)[0] == (y + b)[0] == y[0];
    if x[0] == 92 {
      assert x[1] == (x + a)[1] == (y + b)[1] == y[1];
    }
    assert |x| == |y|;
    SameLengthPrefix(x, y, a, b);
    if |x| == 6 {
      assert Hex4(u) == x[2..] == y[2..] == Hex4(w);
      Hex4Injective(u, w);
    }
  }

  lemma TokenDecodes(s: Text, t: Text, a: Text, b: Text)
    requires s != [] && t != [] && Token(s) + a == Token(t) + b
    ensures s[..TokenSize(s)] == t[..TokenSize(t)] && a == b
  {
    var x, y := Token(s), Token(t);
    assert x[0] == (x + a)[0] == (y + b)[0] == y[0];
    if StartsPair(s) {
      assert StartsPair(t);
      SameLengthPrefix(x, y, a, b);
    } else {
      UnitDecodes(s[0], t[0], a, b);
    }
  }

  lemma EscapeHead(s: Text, a: Text)
    ensures EscapeTo(s, [34] + a) != []
    ensures EscapeTo(s, [34] + a)[0] == 34 <==> s == []
  {
  }

  lemma {:induction false} EscapeInjective(s: Text, t: Text, a: Text, b: Text)
    requires EscapeTo(s, [34] + a) == EscapeTo(t, [34] + b)
    ensures s == t && a == b
    decreases |s|
  {
    EscapeHead(s, a);
    EscapeHead(t, b);
    if s == [] {
      assert a == ([34] + a)[1..] && b == ([34] + b)[1..];
    } else {
      var m, n := TokenSize(s), TokenSize(t);
      TokenDecodes(s, t, EscapeTo(s[m..], [34] + a), EscapeTo(t[n..], [34] + b));
      EscapeInjective(s[m..], t[n..], a, b);
      assert s == s[..m] + s[m..] && t == t[..n] + t[n..];
    }
  }

  lemma QuoteInjective(s: Text, t: Text, a: Text, b: Text)
    requires QuoteTo(s, a) == QuoteTo(t, b)
    ensures s == t && a == b
  {
    assert EscapeTo(s, [34] + a) == QuoteTo(s, a)[1..];
    assert EscapeTo(t, [34] + b) == QuoteTo(t, b)[1..];
    EscapeInjective(s, t, a, b);
  }

  /** What may follow a number: nothing that could continue it. */
  predicate Stops(a: Text) {
    a == [] || !NumberUnit(a[0])
  }

  /** The longer of two numbers at the start of the same text is not longer. */
  lemma NumberEnds(l: Text, m: Text, a: Text, b: Text)
    requires IsNumber(m) && Stops(a) && l + a == m + b && |l| <= |m|
    ensures |l| == |m|
  {
    var d := m[|l|..];
    assert a == d + b by {
      assert a == (l + a)[|l|..];
      assert d + b == (m + b)[|l|..];
    }
  }

  lemma NumberDecodes(l: Text, m: Text, a: Text, b: Text)
    requires IsNumber(l) && IsNumber(m) && Stops(a) && Stops(b) && l + a == m + b
    ensures l == m && a == b
  {
    if |l| <= |m| { NumberEnds(l, m, a, b); } else { NumberEnds(m, l, b, a); }
    SameLengthPrefix(l, m, a, b);
  }

  /** The first unit of a printed value tells its kind. */
  function Kind(v: Value): (k: int) {
    match v
    case Null => 110
    case Bool(b) => if b then 116 else 102
    case Number(_) => 48
    case Str(_) => 34
    case Array(_) => 91
    case Object(_) => 123
  }

  lemma FirstUnit(v: Value, a: Text)
    requires WellFormed(v)
    ensures PrintTo(v, a) != []
    ensures v.Number? ==> 48 <= PrintTo(v, a)[0] <= 57 || PrintTo(v, a)[0] == 45
    ensures !v.Number? ==> PrintTo(v, a)[0] == Kind(v)
  {
  }

  /** Two printed values with what follows them can be told apart: the text determines
      the value, and what was left over. */
  lemma {:induction false} PrintInjective(v: Value, w: Value, a: Text, b: Text)
    requires WellFormed(v) && WellFormed(w) && Stops(a) && Stops(b)
    requires PrintTo(v, a) == PrintTo(w, b)
    ensures v == w && a == b
    decreases v, 0
  {
    FirstUnit(v, a);
    FirstUnit(w, b);
    var x, y := PrintTo(v, a), PrintTo(w, b);
    match v
    case Null => assert a == x[4..] && b == y[4..];
    case Bool(t) =>
      var n := if t then 4 else 5;
      assert a == x[n..] && b == y[n..];
    case Number(l) => NumberDecodes(l, w.lexeme, a, b);
    case Str(s) => QuoteInjective(s, w.s, a, b);
    case Array(xs) =>
      ArrayInjective(xs, w.items, a, b);
    case Object(fs) =>
      ObjectInjective(fs, w.fields, a, b);
  }

  lemma {:induction false} ArrayInjective(xs: Items, ys: Items, a: Text, b: Text)
    requires WellFormedItems(xs) && WellFormedItems(ys)
    requires PrintTo(Array(xs), a) == PrintTo(Array(ys), b)
    ensures xs == ys && a == b
    decreases xs, 2
  {
    var x, y := PrintTo(Array(xs), a), PrintTo(Array(ys), b);
    if xs.Item? && ys.Item? {
      assert PrintTo(xs.head, ItemsTo(xs.tail, a)) == x[1..];
      assert PrintTo(ys.head, ItemsTo(ys.tail, b)) == y[1..];
      PrintInjective(xs.head, ys.head, ItemsTo(xs.tail, a), ItemsTo(ys.tail, b));
      ItemsInjective(xs.tail, ys.tail, a, b);
    } else {
      if xs.Item? { FirstUnit(xs.head, ItemsTo(xs.tail, a)); }
      if ys.Item? { FirstUnit(ys.head, ItemsTo(ys.tail, b)); }
      assert x[1] == y[1];
      assert a == x[2..] && b == y[2..];
    }
  }

  lemma {:induction false} ItemsInjective(xs: Items, ys: Items, a: Text, b: Text)
    requires WellFormedItems(xs) && WellFormedItems(ys)
    requires ItemsTo(xs, a) == ItemsTo(ys, b)
    ensures xs == ys && a == b
    decreases xs, 1
  {
    var x, y := ItemsTo(xs, a), ItemsTo(ys, b);
    assert x[0] == y[0];
    if xs.Item? {
      assert PrintTo(xs.head, ItemsTo(xs.tail, a)) == x[1..];
      assert PrintTo(ys.head, ItemsTo(ys.tail, b)) == y[1..];
      PrintInjective(xs.head, ys.head, ItemsTo(xs.tail, a), ItemsTo(ys.tail, b));
      ItemsInjective(xs.tail, ys.tail, a, b);
    } else {
      assert a == x[1..] && b == y[1..];
    }
  }

  lemma {:induction false} ObjectInjective(fs: Fields, gs: Fields, a: Text, b: Text)
    requires WellFormedFields(fs) && WellFormedFields(gs)
    requires PrintTo(Object(fs), a) == PrintTo(Object(gs), b)
    ensures fs == gs && a == b
    decreases fs, 3
  {
    var x, y := PrintTo(Object(fs), a), PrintTo(Object(gs), b);
    if fs.Field? && gs.Field? {
      FieldInjective(fs, gs, a, b, x[1..]);
    } else {
      assert x[1] == y[1];
      assert a == x[2..] && b == y[2..];
    }
  }

  /** The part shared by the first and the later fields. */
  lemma {:induction false} FieldInjective(fs: Fields, gs: Fields, a: Text, b: Text, x: Text)
    requires WellFormedFields(fs) && WellFormedFields(gs) && fs.Field? && gs.Field?
    requires x == QuoteTo(fs.key, [58] + PrintTo(fs.value, FieldsTo(fs.rest, a)))
    requires x == QuoteTo(gs.key, [58] + PrintTo(gs.value, FieldsTo(gs.rest, b)))
    ensures fs == gs && a == b
    decreases fs, 1
  {
    var p, q := PrintTo(fs.value, FieldsTo(fs.rest, a)), PrintTo(gs.value, FieldsTo(gs.rest, b));
    QuoteInjective(fs.key, gs.key, [58] + p, [58] + q);
    assert p == ([58] + p)[1..] && q == ([58] + q)[1..];
    PrintInjective(fs.value, gs.value, FieldsTo(fs.rest, a), FieldsTo(gs.rest, b));
    FieldsInjective(fs.rest, gs.rest, a, b);
  }

  lemma {:induction false} FieldsInjective(fs: Fields, gs: Fields, a: Text, b: Text)
    requires WellFormedFields(fs) && WellFormedFields(gs)
    requires FieldsTo(fs, a) == FieldsTo(gs, b)
    ensures fs == gs && a == b
    decreases fs, 2
  {
    var x, y := FieldsTo(fs, a), FieldsTo(gs, b);
    assert x[0] == y[0];
    if fs.Field? {
      FieldInjective(fs, gs, a, b, x[1..]);
    } else {
      assert a == x[1..] && b == y[1..];
    }
  }

  // ------------------------------------------------------ more about the text

  lemma {:induction false} EscapeThen(s: Text, after: Text)
    ensures EscapeTo(s, after) == EscapeTo(s, []) + after
    decreases |s|
  {
    if s != [] {
      EscapeThen(s[TokenSize(s)..], after);
    }
  }

  lemma QuoteThen(s: Text, after: Text)
    ensures QuoteTo(s, after) == QuoteTo(s, []) + after
  {
    EscapeThen(s, [34] + after);
    EscapeThen(s, [34]);
    assert [34] + [] == [34];
    Regrouped([34], EscapeTo(s, []), [34], after);
  }

  lemma Regrouped(a: Text, b: Text, c: Text, d: Text)
    ensures a + (b + (c + d)) == (a + (b + c)) + d
  {
    assert b + (c + d) == (b + c) + d;
  }

  /** Printing in front of `after` is printing, then `after`. */
  lemma {:induction false} PrintThen(v: Value, after: Text)
    ensures PrintTo(v, after) == Print(v) + after
    decreases v, 1
  {
    match v
    case Str(s) => QuoteThen(s, after);
    case Array(xs) =>
      if xs.Item? {
        var t, h := xs.tail, xs.head;
        ItemsThen(t, after);
        PrintThen(h, ItemsTo(t, after));
        PrintThen(h, ItemsTo(t, []));
        assert Print(h) + ItemsTo(t, after) == Print(h) + ItemsTo(t, []) + after;
      }
    case Object(fs) =>
      if fs.Field? {
        FieldThen(fs, after);
      }
    case _ =>
  }

  lemma {:induction false} ItemsThen(xs: Items, after: Text)
    ensures ItemsTo(xs, after) == ItemsTo(xs, []) + after
    decreases xs, 0
  {
    if xs.Item? {
      var t, h := xs.tail, xs.head;
      ItemsThen(t, after);
      PrintThen(h, ItemsTo(t, after));
      PrintThen(h, ItemsTo(t, []));
      assert Print(h) + ItemsTo(t, after) == Print(h) + ItemsTo(t, []) + after;
    }
  }

  lemma {:induction false} FieldThen(fs: Fields, after: Text)
    requires fs.Field?
    ensures QuoteTo(fs.key, [58] + PrintTo(fs.value, FieldsTo(fs.rest, after)))
         == QuoteTo(fs.key, [58] + PrintTo(fs.value, FieldsTo(fs.rest, []))) + after
    decreases fs, 0
  {
    var k, x, r := fs.key, fs.value, fs.rest;
    var p, q := [58] + PrintTo(x, FieldsTo(r, after)), [58] + PrintTo(x, FieldsTo(r, []));
    assert p == q + after by {
      FieldsThen(r, after);
      PrintThen(x, FieldsTo(r, after));
      PrintThen(x, FieldsTo(r, []));
      assert Print(x) + FieldsTo(r, after) == Print(x) + FieldsTo(r, []) + after;
    }
    QuoteThen(k, p);
    QuoteThen(k, q);
    assert QuoteTo(k, []) + (q + after) == QuoteTo(k, []) + q + after;
  }

  lemma {:induction false} FieldsThen(fs: Fields, after: Text)
    ensures FieldsTo(fs, after) == FieldsTo(fs, []) + after
    decreases fs, 1
  {
    if fs.Field? {
      FieldThen(fs, after);
    }
  }
}
