/**
 * One audit row: the content that is hashed, its canonical text, and what the row hash
 * pins down.
 *
 * The digest is any collision-free function whose results are non-empty and hold no line
 * break.
 */
module AuditRow {
  import opened Common
  import opened Json
  import opened CanonicalJson

  datatype Row = Row(
    seqNo: int,
    orgId: Option<Text>,
    actor: Text,
    action: Text,
    target: Option<Text>,
    payload: Fields,
    createdAt: Text,
    prevHash: Option<Text>,
    rowHash: Text)

  // ------------------------------------------------------------- row content

  function Digits(n: nat): Text {
    if n < 10 then [48 + n] else Digits(n / 10) + [48 + n % 10]
  }

  function Decimal(n: int): Text {
    if n < 0 then [45] + Digits(-n) else Digits(n)
  }

  lemma {:induction false} DigitsAreNumber(n: nat)
    ensures Digits(n) != [] && forall i :: 0 <= i < |Digits(n)| ==> 48 <= Digits(n)[i] <= 57
  {
    if n >= 10 {
      DigitsAreNumber(n / 10);
    }
  }

  lemma {:induction false} DigitsInjective(m: nat, n: nat)
    requires Digits(m) == Digits(n)
    ensures m == n
  {
    DigitsAreNumber(m / 10);
    DigitsAreNumber(n / 10);
    if m >= 10 && n >= 10 {
      var x, y := Digits(m), Digits(n);
      assert Digits(m / 10) == x[..|x| - 1] && Digits(n / 10) == y[..|y| - 1];
      assert x[|x| - 1] == 48 + m % 10 && y[|y| - 1] == 48 + n % 10;
      DigitsInjective(m / 10, n / 10);
    } else {
      assert |Digits(m)| == 1 <==> m < 10;
      assert |Digits(n)| == 1 <==> n < 10;
    }
  }

  lemma DecimalInjective(m: int, n: int)
    ensures IsNumber(Decimal(m))
    ensures Decimal(m) == Decimal(n) ==> m == n
  {
    DigitsAreNumber(if m < 0 then -m else m);
    DigitsAreNumber(if n < 0 then -n else n);
    if Decimal(m) == Decimal(n) {
      assert Decimal(m)[0] == Decimal(n)[0];
      if m < 0 {
        assert Digits(-m) == Decimal(m)[1..] == Digits(-n);
        DigitsInjective(-m, -n);
      } else {
        DigitsInjective(m, n);
      }
    }
  }

  function Nullable(t: Option<Text>): Value {
    match t
    case None => Null
    case Some(s) => Str(s)
  }

  /** Building the sorted copy assigns `out[k]`, and for this key the assignment sets the
      prototype instead of adding a property: the hash never sees it. */
  const UNSEEN: set<Text> := {Lit("__proto__")}

  const SEQ: Text := Lit("seq")
  const ORG: Text := Lit("orgId")
  const ACTOR: Text := Lit("actor")
  const ACTION: Text := Lit("action")
  const TARGET: Text := Lit("target")
  const PAYLOAD: Text := Lit("payload")
  const CREATED: Text := Lit("createdAt")

  /** The part of a row that is hashed, as the values put into its content object. */
  datatype Content = Content(
    seqNo: Value, orgId: Value, actor: Text, action: Text, target: Value, payload: Value, createdAt: Text)

  function ContentOf(r: Row): Content {
    Content(Number(Decimal(r.seqNo)), Nullable(r.orgId), r.actor, r.action, Nullable(r.target), Object(r.payload),
            r.createdAt)
  }

  ghost predicate WellFormedContent(c: Content) {
    WellFormed(c.seqNo) && WellFormed(c.orgId) && WellFormed(c.target) && WellFormed(c.payload)
  }

  // The seven fields, last first.

  function Fields7(c: Content): Fields { Field(CREATED, Str(c.createdAt), NoFields) }

  function Fields6(c: Content): Fields { Field(PAYLOAD, c.payload, Fields7(c)) }

  function Fields5(c: Content): Fields { Field(TARGET, c.target, Fields6(c)) }

  function Fields4(c: Content): Fields { Field(ACTION, Str(c.action), Fields5(c)) }

  function Fields3(c: Content): Fields { Field(ACTOR, Str(c.actor), Fields4(c)) }

  function Fields2(c: Content): Fields { Field(ORG, c.orgId, Fields3(c)) }

  /** The object that is hashed. */
  function ContentValue(c: Content): Value {
    Object(Field(SEQ, c.seqNo, Fields2(c)))
  }

  predicate SameMeaning(v: Value, w: Value) {
    MeaningOf(v, UNSEEN) == MeaningOf(w, UNSEEN)
  }

  /** Equal as data, field by field. */
  predicate SameFields(c: Content, d: Content) {
    && SameMeaning(c.seqNo, d.seqNo) && SameMeaning(c.orgId, d.orgId) && c.actor == d.actor && c.action == d.action
    && SameMeaning(c.target, d.target) && SameMeaning(c.payload, d.payload) && c.createdAt == d.createdAt
  }

  /** Equal in everything hashed: payloads as data, up to key order and unseen keys. */
  predicate SameContent(r: Row, s: Row) {
    && r.seqNo == s.seqNo && r.orgId == s.orgId && r.actor == s.actor && r.action == s.action
    && r.target == s.target && r.createdAt == s.createdAt
    && MeaningOfFields(r.payload, UNSEEN) == MeaningOfFields(s.payload, UNSEEN)
  }

  predicate SameRow(r: Row, s: Row) {
    SameContent(r, s) && r.prevHash == s.prevHash && r.rowHash == s.rowHash
  }

  lemma SameRowFields(r: Row, s: Row)
    ensures SameFields(ContentOf(r), ContentOf(s)) <==> SameContent(r, s)
  {
    DecimalInjective(r.seqNo, s.seqNo);
  }

  lemma ContentKeysDiffer()
    ensures ORG != ACTOR && ACTION != TARGET && CREATED !in UNSEEN
  {
    assert ORG[0] == 111 && ACTOR[0] == 97;
    assert ACTION[0] == 97 && TARGET[0] == 116;
    assert CREATED[0] == 99 && Lit("__proto__")[0] == 95;
  }

  lemma RowContentWellFormed(r: Row)
    requires WellFormedFields(r.payload)
    ensures WellFormedContent(ContentOf(r))
  {
    DecimalInjective(r.seqNo, r.seqNo);
  }

  lemma ContentWellFormed(c: Content)
    requires WellFormedContent(c)
    ensures WellFormed(ContentValue(c))
  {
    ContentKeysDiffer();
    NewField(CREATED, Str(c.createdAt), NoFields);
    NewField(PAYLOAD, c.payload, Fields7(c));
    NewField(TARGET, c.target, Fields6(c));
    NewField(ACTION, Str(c.action), Fields5(c));
    NewField(ACTOR, Str(c.actor), Fields4(c));
    NewField(ORG, c.orgId, Fields3(c));
    NewField(SEQ, c.seqNo, Fields2(c));
  }

  lemma NewField(k: Text, v: Value, rest: Fields)
    requires k !in Keys(rest) && WellFormed(v) && WellFormedFields(rest)
    ensures WellFormedFields(Field(k, v, rest)) && Keys(Field(k, v, rest)) == {k} + Keys(rest)
  {
  }

  function ContentMap(c: Content): map<Text, Meaning> {
    map[CREATED := MString(c.createdAt)]
    [PAYLOAD := MeaningOf(c.payload, UNSEEN)]
    [TARGET := MeaningOf(c.target, UNSEEN)]
    [ACTION := MString(c.action)]
    [ACTOR := MString(c.actor)]
    [ORG := MeaningOf(c.orgId, UNSEEN)]
    [SEQ := MeaningOf(c.seqNo, UNSEEN)]
  }

  lemma FieldMeaning(k: Text, v: Value, rest: Fields, m: map<Text, Meaning>)
    requires k !in UNSEEN && MeaningOfFields(rest, UNSEEN) == m
    ensures MeaningOfFields(Field(k, v, rest), UNSEEN) == m[k := MeaningOf(v, UNSEEN)]
  {
  }

  lemma ContentMeansMap(c: Content)
    ensures MeaningOf(ContentValue(c), UNSEEN) == MObject(ContentMap(c))
  {
    ContentKeysDiffer();
    var m7 := map[CREATED := MString(c.createdAt)];
    var m6 := m7[PAYLOAD := MeaningOf(c.payload, UNSEEN)];
    var m5 := m6[TARGET := MeaningOf(c.target, UNSEEN)];
    var m4 := m5[ACTION := MString(c.action)];
    var m3 := m4[ACTOR := MString(c.actor)];
    var m2 := m3[ORG := MeaningOf(c.orgId, UNSEEN)];
    FieldMeaning(CREATED, Str(c.createdAt), NoFields, map[]);
    FieldMeaning(PAYLOAD, c.payload, Fields7(c), m7);
    FieldMeaning(TARGET, c.target, Fields6(c), m6);
    FieldMeaning(ACTION, Str(c.action), Fields5(c), m5);
    FieldMeaning(ACTOR, Str(c.actor), Fields4(c), m4);
    FieldMeaning(ORG, c.orgId, Fields3(c), m3);
    FieldMeaning(SEQ, c.seqNo, Fields2(c), m2);
  }

  /** The hashed object means the same exactly when each of its fields does. */
  lemma ContentMeaning(c: Content, d: Content)
    ensures SameMeaning(ContentValue(c), ContentValue(d)) <==> SameFields(c, d)
  {
    ContentMeansMap(c);
    ContentMeansMap(d);
    ContentKeysDiffer();
    var m, n := ContentMap(c), ContentMap(d);
    if m == n {
      assert m[SEQ] == n[SEQ] && m[ORG] == n[ORG] && m[ACTOR] == n[ACTOR] && m[ACTION] == n[ACTION];
      assert m[TARGET] == n[TARGET] && m[PAYLOAD] == n[PAYLOAD] && m[CREATED] == n[CREATED];
    }
  }

  // ------------------------------------------------------------- row hash

  ghost predicate DigestLike(hash: Text -> Text) {
    && (forall x, y :: hash(x) == hash(y) ==> x == y)
    && (forall x :: hash(x) != [] && 10 !in hash(x))
  }

  function PrevText(prev: Option<Text>): Text {
    if prev.None? then [] else prev.value
  }

  function ComputeHash(hash: Text -> Text, prev: Option<Text>, c: Content): Text {
    hash(PrevText(prev) + [10] + CanonText(ContentValue(c), UNSEEN))
  }

  function ComputeRowHash(hash: Text -> Text, prev: Option<Text>, r: Row): Text {
    ComputeHash(hash, prev, ContentOf(r))
  }

  ghost predicate LinkText(t: Text) {
    10 !in t
  }

  lemma SplitAtBreak(p: Text, q: Text, x: Text, y: Text)
    requires LinkText(p) && LinkText(q) && p + [10] + x == q + [10] + y
    ensures p == q && x == y
  {
    var s, t := p + [10] + x, q + [10] + y;
    assert s[|p|] == 10 && t[|q|] == 10;
    assert forall i :: 0 <= i < |p| ==> s[i] == p[i] && p[i] in p;
    assert forall i :: 0 <= i < |q| ==> t[i] == q[i] && q[i] in q;
    assert |p| == |q|;
    assert p == s[..|p|] && q == t[..|q|];
    assert x == s[|p| + 1..] && y == t[|q| + 1..];
  }

  /** A digest or nothing. */
  ghost predicate PrevLike(p: Option<Text>) {
    p.Some? ==> p.value != [] && LinkText(p.value)
  }

  /** A hash fixes the predecessor's hash and the content's fields, and is fixed by them. */
  lemma HashPins(hash: Text -> Text, p: Option<Text>, c: Content, q: Option<Text>, d: Content)
    requires DigestLike(hash) && PrevLike(p) && PrevLike(q) && WellFormedContent(c) && WellFormedContent(d)
    ensures ComputeHash(hash, p, c) == ComputeHash(hash, q, d) <==> p == q && SameFields(c, d)
  {
    ContentWellFormed(c);
    ContentWellFormed(d);
    ContentMeaning(c, d);
    var v, w := ContentValue(c), ContentValue(d);
    SameText(v, w, UNSEEN);
    if ComputeHash(hash, p, c) == ComputeHash(hash, q, d) {
      SplitAtBreak(PrevText(p), PrevText(q), CanonText(v, UNSEEN), CanonText(w, UNSEEN));
    }
  }

  /** The same for rows. */
  lemma RowHashPins(hash: Text -> Text, p: Option<Text>, r: Row, q: Option<Text>, s: Row)
    requires DigestLike(hash) && PrevLike(p) && PrevLike(q)
    requires WellFormedFields(r.payload) && WellFormedFields(s.payload)
    ensures ComputeRowHash(hash, p, r) == ComputeRowHash(hash, q, s) <==> p == q && SameContent(r, s)
  {
    RowContentWellFormed(r);
    RowContentWellFormed(s);
    SameRowFields(r, s);
    HashPins(hash, p, ContentOf(r), q, ContentOf(s));
  }

  /** The hash of a row from its predecessor's hash. */
  type RowHasher = (Option<Text>, Row) -> Text

  function Hasher(hash: Text -> Text): RowHasher {
    (prev, r) => ComputeRowHash(hash, prev, r)
  }

  /** What a chain needs of its row hash. */
  ghost predicate Pins(h: RowHasher) {
    && (forall p: Option<Text>, r: Row, q: Option<Text>, s: Row {:trigger h(p, r), h(q, s)} ::
          PrevLike(p) && PrevLike(q) && WellFormedFields(r.payload) && WellFormedFields(s.payload) ==>
            (h(p, r) == h(q, s) <==> p == q && SameContent(r, s)))
    && (forall p, r :: PrevLike(Some(h(p, r))))
  }

  /** The row hash of the audit log has it. */
  lemma HasherPins(hash: Text -> Text)
    requires DigestLike(hash)
    ensures Pins(Hasher(hash))
  {
    var h := Hasher(hash);
    forall p: Option<Text>, r: Row, q: Option<Text>, s: Row {:trigger h(p, r), h(q, s)}
      | PrevLike(p) && PrevLike(q) && WellFormedFields(r.payload) && WellFormedFields(s.payload)
      ensures h(p, r) == h(q, s) <==> p == q && SameContent(r, s)
    {
      RowHashPins(hash, p, r, q, s);
      HasherIs(hash, p, r);
      HasherIs(hash, q, s);
    }
  }

  lemma HasherIs(hash: Text -> Text, p: Option<Text>, r: Row)
    ensures Hasher(hash)(p, r) == ComputeRowHash(hash, p, r)
  {
  }

  /** Key order is not the only thing two agreeing rows may differ in: an own
      `__proto__` key in a payload leaves the hash as it was. */
  lemma UnseenKeyKeepsHash(hash: Text -> Text, p: Option<Text>, r: Row, v: Value)
    requires WellFormedFields(r.payload) && WellFormed(v) && Lit("__proto__") !in Keys(r.payload)
    ensures var edited := r.(payload := Field(Lit("__proto__"), v, r.payload));
            edited != r && ComputeRowHash(hash, p, edited) == ComputeRowHash(hash, p, r)
  {
    var edited := r.(payload := Field(Lit("__proto__"), v, r.payload));
    assert edited.payload != r.payload by {
      assert Lit("__proto__") in Keys(edited.payload);
    }
    RowContentWellFormed(r);
    RowContentWellFormed(edited);
    ContentWellFormed(ContentOf(r));
    ContentWellFormed(ContentOf(edited));
    SameRowFields(edited, r);
    ContentMeaning(ContentOf(edited), ContentOf(r));
    SameText(ContentValue(ContentOf(edited)), ContentValue(ContentOf(r)), UNSEEN);
  }
}
