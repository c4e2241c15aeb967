/**
 * The canonical form of a JSON value: keys in a fixed order, some keys dropped at every
 * depth. The reference it is compared with is `MeaningOf`, which reads an object as an
 * unordered map; nothing is sorted there.
 */
module CanonicalJson {
  import opened Json

  // ------------------------------------------------------------ key order

  /** Order by UTF-16 code unit, as `Array.prototype.sort` compares strings. */
  predicate LexLess(a: Text, b: Text) {
    if b == [] then false
    else if a == [] then true
    else a[0] < b[0] || (a[0] == b[0] && LexLess(a[1..], b[1..]))
  }

  lemma {:induction false} LexTotal(a: Text, b: Text)
    ensures !LexLess(a, a)
    ensures LexLess(a, b) || a == b || LexLess(b, a)
    ensures !(LexLess(a, b) && LexLess(b, a))
  {
    if a != [] {
      if b != [] {
        LexTotal(a[1..], b[1..]);
        assert a == [a[0]] + a[1..] && b == [b[0]] + b[1..];
      } else {
        LexTotal(a[1..], b);
      }
    }
  }

  lemma {:induction false} LexTransitive(a: Text, b: Text, c: Text)
    requires LexLess(a, b) && LexLess(b, c)
    ensures LexLess(a, c)
  {
    if a != [] && a[0] == b[0] == c[0] {
      LexTransitive(a[1..], b[1..], c[1..]);
    }
  }

  const MAX_INDEX: Text := [52, 50, 57, 52, 57, 54, 55, 50, 57, 52] // 4294967294

  /** An array index in canonical decimal. A JavaScript object enumerates these keys
      first, by value, whatever order they were added in. */
  predicate IsIndex(k: Text) {
    && k != []
    && (forall i :: 0 <= i < |k| ==> 48 <= k[i] <= 57)
    && (k[0] == 48 ==> |k| == 1)
    && (|k| < 10 || (|k| == 10 && !LexLess(MAX_INDEX, k)))
  }

  /** Enumeration order of an object built from its sorted keys. */
  predicate Before(a: Text, b: Text) {
    if IsIndex(a) != IsIndex(b) then IsIndex(a)
    else if IsIndex(a) && |a| != |b| then |a| < |b|
    else LexLess(a, b)
  }

  lemma BeforeTotal(a: Text, b: Text)
    ensures Before(a, b) || a == b || Before(b, a)
    ensures !(Before(a, b) && Before(b, a)) && !Before(a, a)
  {
    LexTotal(a, b);
  }

  lemma BeforeTransitive(a: Text, b: Text, c: Text)
    requires Before(a, b) && Before(b, c)
    ensures Before(a, c)
  {
    if LexLess(a, b) && LexLess(b, c) {
      LexTransitive(a, b, c);
    }
  }

  // -------------------------------------------------------- canonical form

  function Insert(k: Text, v: Value, fs: Fields): Fields {
    match fs
    case NoFields => Field(k, v, NoFields)
    case Field(k', v', r) => if Before(k', k) then Field(k', v', Insert(k, v, r)) else Field(k, v, fs)
  }

  function Sort(fs: Fields): Fields {
    match fs
    case NoFields => NoFields
    case Field(k, v, r) => Insert(k, v, Sort(r))
  }

  /** Keys sorted and the keys in `drop` left out, at every depth. */
  function Canon(v: Value, drop: set<Text>): Value {
    match v
    case Array(xs) => Array(CanonItems(xs, drop))
    case Object(fs) => Object(Sort(CanonFields(fs, drop)))
    case _ => v
  }

  function CanonItems(xs: Items, drop: set<Text>): Items {
    match xs
    case NoItems => NoItems
    case Item(h, t) => Item(Canon(h, drop), CanonItems(t, drop))
  }

  function CanonFields(fs: Fields, drop: set<Text>): Fields {
    match fs
    case NoFields => NoFields
    case Field(k, v, r) =>
      if k in drop then CanonFields(r, drop) else Field(k, Canon(v, drop), CanonFields(r, drop))
  }

  function CanonText(v: Value, drop: set<Text>): Text {
    Print(Canon(v, drop))
  }

  // --------------------------------------------------------------- meaning

  datatype Meaning =
    | MNull
    | MBool(b: bool)
    | MNumber(lexeme: Text)
    | MString(s: Text)
    | MArray(items: seq<Meaning>)
    | MObject(fields: map<Text, Meaning>)

  /** The value as data: objects are maps, and the keys in `drop` do not count. */
  function MeaningOf(v: Value, drop: set<Text>): Meaning {
    match v
    case Null => MNull
    case Bool(b) => MBool(b)
    case Number(l) => MNumber(l)
    case Str(s) => MString(s)
    case Array(xs) => MArray(MeaningOfItems(xs, drop))
    case Object(fs) => MObject(MeaningOfFields(fs, drop))
  }

  function MeaningOfItems(xs: Items, drop: set<Text>): seq<Meaning> {
    match xs
    case NoItems => []
    case Item(h, t) => [MeaningOf(h, drop)] + MeaningOfItems(t, drop)
  }

  function MeaningOfFields(fs: Fields, drop: set<Text>): map<Text, Meaning> {
    match fs
    case NoFields => map[]
    case Field(k, v, r) =>
      if k in drop then MeaningOfFields(r, drop) else MeaningOfFields(r, drop)[k := MeaningOf(v, drop)]
  }

  lemma {:induction false} MeaningKeys(fs: Fields, drop: set<Text>)
    ensures MeaningOfFields(fs, drop).Keys == Keys(fs) - drop
  {
    if fs.Field? {
      MeaningKeys(fs.rest, drop);
    }
  }

  // ---------------------------------------- canonical values and their meaning

  /** Strictly ascending keys, none of them dropped, at every depth. */
  ghost predicate Canonical(v: Value, drop: set<Text>) {
    match v
    case Number(l) => IsNumber(l)
    case Array(xs) => CanonicalItems(xs, drop)
    case Object(fs) => CanonicalFields(fs, drop)
    case _ => true
  }

  ghost predicate CanonicalItems(xs: Items, drop: set<Text>) {
    xs.Item? ==> Canonical(xs.head, drop) && CanonicalItems(xs.tail, drop)
  }

  ghost predicate CanonicalFields(fs: Fields, drop: set<Text>) {
    fs.Field? ==>
      && fs.key !in drop
      && Canonical(fs.value, drop)
      && (forall k :: k in Keys(fs.rest) ==> Before(fs.key, k))
      && CanonicalFields(fs.rest, drop)
  }

  lemma {:induction false} CanonicalIsWellFormed(v: Value, drop: set<Text>)
    requires Canonical(v, drop)
    ensures WellFormed(v)
    decreases v
  {
    match v
    case Array(xs) => CanonicalItemsWellFormed(xs, drop);
    case Object(fs) => CanonicalFieldsWellFormed(fs, drop);
    case _ =>
  }

  lemma {:induction false} CanonicalItemsWellFormed(xs: Items, drop: set<Text>)
    requires CanonicalItems(xs, drop)
    ensures WellFormedItems(xs)
    decreases xs
  {
    if xs.Item? {
      CanonicalIsWellFormed(xs.head, drop);
      CanonicalItemsWellFormed(xs.tail, drop);
    }
  }

  lemma {:induction false} CanonicalFieldsWellFormed(fs: Fields, drop: set<Text>)
    requires CanonicalFields(fs, drop)
    ensures WellFormedFields(fs)
    decreases fs
  {
    if fs.Field? {
      BeforeTotal(fs.key, fs.key);
      CanonicalIsWellFormed(fs.value, drop);
      CanonicalFieldsWellFormed(fs.rest, drop);
    }
  }

  lemma {:induction false} InsertKeys(k: Text, v: Value, fs: Fields)
    ensures Keys(Insert(k, v, fs)) == {k} + Keys(fs)
  {
    if fs.Field? && Before(fs.key, k) {
      InsertKeys(k, v, fs.rest);
    }
  }

  /** Inserting a new key adds exactly that entry. */
  lemma {:induction false} InsertMeaning(k: Text, v: Value, fs: Fields, drop: set<Text>)
    requires CanonicalFields(fs, drop) && k !in Keys(fs) && k !in drop
    ensures MeaningOfFields(Insert(k, v, fs), drop)
         == MeaningOfFields(fs, drop)[k := MeaningOf(v, drop)]
  {
    if fs.Field? && Before(fs.key, k) {
      InsertMeaning(k, v, fs.rest, drop);
    }
  }

  /** And keeps the order. */
  lemma {:induction false} InsertCanonical(k: Text, v: Value, fs: Fields, drop: set<Text>)
    requires CanonicalFields(fs, drop) && k !in Keys(fs) && k !in drop && Canonical(v, drop)
    ensures CanonicalFields(Insert(k, v, fs), drop)
  {
    if fs.Field? {
      if Before(fs.key, k) {
        InsertCanonical(k, v, fs.rest, drop);
        InsertKeys(k, v, fs.rest);
      } else {
        BeforeTotal(fs.key, k);
        forall j | j in Keys(fs) ensures Before(k, j) {
          if j != fs.key {
            BeforeTransitive(k, fs.key, j);
          }
        }
      }
    }
  }

  /** The canonical form is canonical and means the same. */
  lemma {:induction false} CanonSound(v: Value, drop: set<Text>)
    requires WellFormed(v)
    ensures Canonical(Canon(v, drop), drop)
    ensures MeaningOf(Canon(v, drop), drop) == MeaningOf(v, drop)
    decreases v
  {
    match v
    case Array(xs) => CanonItemsSound(xs, drop);
    case Object(fs) => CanonFieldsSound(fs, drop);
    case _ =>
  }

  lemma {:induction false} CanonItemsSound(xs: Items, drop: set<Text>)
    requires WellFormedItems(xs)
    ensures CanonicalItems(CanonItems(xs, drop), drop)
    ensures MeaningOfItems(CanonItems(xs, drop), drop) == MeaningOfItems(xs, drop)
    decreases xs
  {
    if xs.Item? {
      CanonSound(xs.head, drop);
      CanonItemsSound(xs.tail, drop);
    }
  }

  lemma {:induction false} CanonFieldsSound(fs: Fields, drop: set<Text>)
    requires WellFormedFields(fs)
    ensures Keys(Sort(CanonFields(fs, drop))) == Keys(fs) - drop
    ensures CanonicalFields(Sort(CanonFields(fs, drop)), drop)
    ensures MeaningOfFields(Sort(CanonFields(fs, drop)), drop) == MeaningOfFields(fs, drop)
    decreases fs
  {
    if fs.Field? {
      CanonFieldsSound(fs.rest, drop);
      if fs.key !in drop {
        CanonSound(fs.value, drop);
        var tail := Sort(CanonFields(fs.rest, drop));
        InsertCanonical(fs.key, Canon(fs.value, drop), tail, drop);
        InsertMeaning(fs.key, Canon(fs.value, drop), tail, drop);
        InsertKeys(fs.key, Canon(fs.value, drop), tail);
      }
    }
  }

  /** Canonical values that mean the same are the same value. */
  lemma {:induction false} CanonicalUnique(v: Value, w: Value, drop: set<Text>)
    requires Canonical(v, drop) && Canonical(w, drop)
    requires MeaningOf(v, drop) == MeaningOf(w, drop)
    ensures v == w
    decreases v
  {
    match v
    case Array(xs) => CanonicalItemsUnique(xs, w.items, drop);
    case Object(fs) => CanonicalFieldsUnique(fs, w.fields, drop);
    case _ =>
  }

  lemma {:induction false} CanonicalItemsUnique(xs: Items, ys: Items, drop: set<Text>)
    requires CanonicalItems(xs, drop) && CanonicalItems(ys, drop)
    requires MeaningOfItems(xs, drop) == MeaningOfItems(ys, drop)
    ensures xs == ys
    decreases xs
  {
    if xs.Item? {
      var m, n := MeaningOfItems(xs, drop), MeaningOfItems(ys, drop);
      assert MeaningOfItems(xs.tail, drop) == m[1..];
      assert MeaningOfItems(ys.tail, drop) == n[1..];
      CanonicalUnique(xs.head, ys.head, drop);
      CanonicalItemsUnique(xs.tail, ys.tail, drop);
    }
  }

  /** Two canonical objects that mean the same start with the same key. */
  lemma SameFirstKey(fs: Fields, gs: Fields, drop: set<Text>)
    requires CanonicalFields(fs, drop) && CanonicalFields(gs, drop)
    requires MeaningOfFields(fs, drop) == MeaningOfFields(gs, drop)
    ensures fs.Field? == gs.Field? && (fs.Field? ==> fs.key == gs.key)
  {
    MeaningKeys(fs, drop);
    MeaningKeys(gs, drop);
    assert gs.Field? ==> gs.key in MeaningOfFields(gs, drop).Keys;
    assert fs.Field? ==> fs.key in MeaningOfFields(fs, drop).Keys;
    if fs.Field? && gs.Field? {
      assert fs.key in Keys(gs) && gs.key in Keys(fs);
      BeforeTotal(fs.key, gs.key);
    }
  }

  /** The first entry, and the rest without it. */
  lemma FirstEntry(fs: Fields, drop: set<Text>)
    requires CanonicalFields(fs, drop) && fs.Field?
    ensures var m := MeaningOfFields(fs, drop);
            && fs.key in m && m[fs.key] == MeaningOf(fs.value, drop)
            && MeaningOfFields(fs.rest, drop) == m - {fs.key}
  {
    BeforeTotal(fs.key, fs.key);
    MeaningKeys(fs.rest, drop);
  }

  lemma {:induction false} CanonicalFieldsUnique(fs: Fields, gs: Fields, drop: set<Text>)
    requires CanonicalFields(fs, drop) && CanonicalFields(gs, drop)
    requires MeaningOfFields(fs, drop) == MeaningOfFields(gs, drop)
    ensures fs == gs
    decreases fs
  {
    SameFirstKey(fs, gs, drop);
    if fs.Field? {
      FirstEntry(fs, drop);
      FirstEntry(gs, drop);
      CanonicalUnique(fs.value, gs.value, drop);
      CanonicalFieldsUnique(fs.rest, gs.rest, drop);
    }
  }

  // ------------------------------------------------------------ main results

  /** The canonical text identifies the meaning, followed by anything that cannot
      continue a number. */
  lemma CanonTextDecodes(v: Value, w: Value, drop: set<Text>, a: Text, b: Text)
    requires WellFormed(v) && WellFormed(w) && Stops(a) && Stops(b)
    ensures CanonText(v, drop) + a == CanonText(w, drop) + b
       <==> MeaningOf(v, drop) == MeaningOf(w, drop) && a == b
  {
    CanonSound(v, drop);
    CanonSound(w, drop);
    var c, d := Canon(v, drop), Canon(w, drop);
    PrintThen(c, a);
    PrintThen(d, b);
    if CanonText(v, drop) + a == CanonText(w, drop) + b {
      CanonicalIsWellFormed(c, drop);
      CanonicalIsWellFormed(d, drop);
      PrintInjective(c, d, a, b);
    }
    if MeaningOf(v, drop) == MeaningOf(w, drop) {
      CanonicalUnique(c, d, drop);
    }
  }

  lemma PrependInjective(c: CodeUnit, x: Text, y: Text)
    ensures [c] + x == [c] + y <==> x == y
  {
    assert x == ([c] + x)[1..] && y == ([c] + y)[1..];
  }

  /** Two canonical texts joined by a separator identify both meanings. */
  lemma CanonPairDecodes(v: Value, x: Value, w: Value, y: Value, drop: set<Text>, sep: CodeUnit)
    requires WellFormed(v) && WellFormed(x) && WellFormed(w) && WellFormed(y) && !NumberUnit(sep)
    ensures CanonText(v, drop) + [sep] + CanonText(x, drop) == CanonText(w, drop) + [sep] + CanonText(y, drop)
       <==> MeaningOf(v, drop) == MeaningOf(w, drop) && MeaningOf(x, drop) == MeaningOf(y, drop)
  {
    var p, q := CanonText(x, drop), CanonText(y, drop);
    SameText(x, y, drop);
    PrependInjective(sep, p, q);
    Regroup(CanonText(v, drop), [sep], p);
    Regroup(CanonText(w, drop), [sep], q);
    CanonTextDecodes(v, w, drop, [sep] + p, [sep] + q);
  }

  lemma SameText(x: Value, y: Value, drop: set<Text>)
    requires WellFormed(x) && WellFormed(y)
    ensures CanonText(x, drop) == CanonText(y, drop) <==> MeaningOf(x, drop) == MeaningOf(y, drop)
  {
    var p, q := CanonText(x, drop), CanonText(y, drop);
    assert p + [] == p && q + [] == q;
    CanonTextDecodes(x, y, drop, [], []);
  }

  lemma Regroup(a: Text, b: Text, c: Text)
    ensures a + b + c == a + (b + c)
  {
  }
}
