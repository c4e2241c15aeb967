/**
 * Evidence bundles: an attestation and the audit rows as JSON, verified offline by an
 * auditor. The rows are revived from whatever JSON they are, field by field, with the
 * conversions of the language: a seq may be text, a date may be spelled in many ways, a
 * missing field is filled in. Signatures are an abstract check.
 */
module Evidence {
  import opened Common
  import opened Json
  import opened CanonicalJson
  import opened AuditRow
  import opened AuditChain

  // ----------------------------------------------------------------------- conversions

  /** A number, by the text it converts to; one that is not finite has no JSON form. */
  datatype Num = Finite(lexeme: Text) | NotFinite(name: Text)

  /** `Number(v)` and `String(v)`, which may throw (`None`), where the argument `None` is
      `undefined`; the ISO text of the date a text denotes, if any; and `x <= y` on numbers. */
  datatype Conversions = Conversions(
    number: Option<Value> -> Option<Num>, text: Option<Value> -> Option<Text>, date: Text -> Option<Text>,
    atMost: (Num, Num) -> bool)

  /** Whole numbers that a number holds exactly. */
  predicate Safe(n: int) {
    -0x1F_FFFF_FFFF_FFFF <= n <= 0x1F_FFFF_FFFF_FFFF
  }

  function Whole(n: int): Num {
    Finite(Decimal(n))
  }

  /** What the proofs use of the conversions. */
  ghost predicate Lawful(cv: Conversions) {
    && (forall v :: cv.number(v).Some? && cv.number(v).value.Finite? ==> IsNumber(cv.number(v).value.lexeme))
    && (forall n :: Safe(n) ==> cv.number(Some(Number(Decimal(n)))) == Some(Whole(n)))
    && (forall s :: cv.text(Some(Str(s))) == Some(s))
    && (forall m, n :: Safe(m) && Safe(n) ==> (cv.atMost(Whole(m), Whole(n)) <==> m <= n))
  }

  // -------------------------------------------------------------------- reviving rows

  /** A row after `reviveRows`: nothing checks that the fields copied over are text. */
  datatype Revived = Revived(
    seqNo: Num, orgId: Value, actor: Text, action: Text, target: Value, payload: Value, prevHash: Value,
    rowHash: Text, createdAt: Option<Text>)

  /** `v ?? other` */
  function OrElse(v: Option<Value>, other: Value): Value {
    if v.None? || v.value.Null? then other else v.value
  }

  /** `String(v ?? '')` */
  function TextOf(cv: Conversions, v: Option<Value>): Option<Text> {
    cv.text(Some(OrElse(v, Str([]))))
  }

  const PREV: Text := Lit("prevHash")
  const HASH: Text := Lit("rowHash")

  /** The fields of a row that are read; `None` is `undefined`. */
  datatype RawRow = RawRow(
    seqNo: Option<Value>, orgId: Option<Value>, actor: Option<Value>, action: Option<Value>, target: Option<Value>,
    payload: Option<Value>, prevHash: Option<Value>, rowHash: Option<Value>, createdAt: Option<Value>)

  function RawOf(fs: Fields): RawRow {
    RawRow(Get(fs, SEQ), Get(fs, ORG), Get(fs, ACTOR), Get(fs, ACTION), Get(fs, TARGET), Get(fs, PAYLOAD),
           Get(fs, PREV), Get(fs, HASH), Get(fs, CREATED))
  }

  /** One row; `None` if a conversion throws. */
  function ReviveRaw(cv: Conversions, raw: RawRow): Option<Revived> {
    var n, a, b := cv.number(raw.seqNo), TextOf(cv, raw.actor), TextOf(cv, raw.action);
    var h, c := TextOf(cv, raw.rowHash), cv.text(raw.createdAt);
    if n.None? || a.None? || b.None? || h.None? || c.None? then None
    else Some(Revived(
      n.value, OrElse(raw.orgId, Null), a.value, b.value, OrElse(raw.target, Null),
      OrElse(raw.payload, Object(NoFields)), OrElse(raw.prevHash, Null), h.value, cv.date(c.value)))
  }

  /** One element of the array; reading a field of `null` throws, and a value that is not an
      object has none of the fields. */
  function ReviveRow(cv: Conversions, v: Value): Option<Revived> {
    match v
    case Null => None
    case Object(fs) => ReviveRaw(cv, RawOf(fs))
    case _ => ReviveRaw(cv, RawOf(NoFields))
  }

  function ReviveItems(cv: Conversions, xs: Items): Option<seq<Revived>> {
    match xs
    case NoItems => Some([])
    case Item(v, rest) =>
      var r, rs := ReviveRow(cv, v), ReviveItems(cv, rest);
      if r.None? || rs.None? then None else Some([r.value] + rs.value)
  }

  const ROWS: Text := Lit("rows")

  /** The rows of an array, or of an object's `rows`; `None` is a thrown error. */
  function ReviveRows(cv: Conversions, input: Value): Option<seq<Revived>> {
    match input
    case Array(xs) => ReviveItems(cv, xs)
    case Object(fs) =>
      var rows := Get(fs, ROWS);
      if rows.Some? && rows.value.Array? then ReviveItems(cv, rows.value.items) else None
    case _ => None
  }

  // ------------------------------------------------------------------------- the walk

  /** A number that is not finite prints as null. */
  function NumValue(n: Num): Value {
    if n.Finite? then Number(n.lexeme) else Null
  }

  function RevivedContent(r: Revived): Content
    requires r.createdAt.Some?
  {
    Content(NumValue(r.seqNo), r.orgId, r.actor, r.action, r.target, r.payload, r.createdAt.value)
  }

  function PrevHash(rs: seq<Revived>, i: nat): Option<Text>
    requires i <= |rs|
  {
    if i == 0 then None else Some(rs[i - 1].rowHash)
  }

  function PrevSeq(rs: seq<Revived>, i: nat): Num
    requires i <= |rs|
  {
    if i == 0 then Whole(0) else rs[i - 1].seqNo
  }

  predicate LinkHolds(cv: Conversions, rs: seq<Revived>, i: nat, hash: Text -> Text)
    requires i < |rs| && rs[i].createdAt.Some?
  {
    && rs[i].prevHash == Nullable(PrevHash(rs, i))
    && ComputeHash(hash, PrevHash(rs, i), RevivedContent(rs[i])) == rs[i].rowHash
    && !cv.atMost(rs[i].seqNo, PrevSeq(rs, i))
  }

  /** What the walk finds at a row. Printing a date that is none throws. */
  datatype Step = Fine | Bad | NoDate

  function StepAt(cv: Conversions, rs: seq<Revived>, i: nat, hash: Text -> Text): Step
    requires i < |rs|
  {
    if rs[i].createdAt.None? then NoDate else if LinkHolds(cv, rs, i, hash) then Fine else Bad
  }

  function Steps(cv: Conversions, rs: seq<Revived>, hash: Text -> Text): seq<Step> {
    seq(|rs|, i requires 0 <= i < |rs| => StepAt(cv, rs, i, hash))
  }

  datatype Walked = Holds | BrokenAt(i: nat) | Threw

  /** The walk over the first `n` rows; after the first broken link nothing more is hashed. */
  function Walk(steps: seq<Step>, n: nat): (w: Walked)
    requires n <= |steps|
    ensures w.BrokenAt? ==> w.i < n
  {
    if n == 0 then Holds
    else
      var w := Walk(steps, n - 1);
      if !w.Holds? || steps[n - 1].Fine? then w
      else if steps[n - 1].Bad? then BrokenAt(n - 1)
      else Threw
  }

  /** The report prints the first and the last date, broken or not. */
  function Reported(cv: Conversions, rs: seq<Revived>, hash: Text -> Text): (w: Walked)
    ensures w.BrokenAt? ==> w.i < |rs|
  {
    if rs != [] && (rs[0].createdAt.None? || rs[|rs| - 1].createdAt.None?) then Threw
    else Walk(Steps(cv, rs, hash), |rs|)
  }

  lemma {:induction false} WalkHoldsIff(steps: seq<Step>, n: nat)
    requires n <= |steps|
    ensures Walk(steps, n).Holds? <==> forall i :: 0 <= i < n ==> steps[i].Fine?
  {
    if n > 0 {
      WalkHoldsIff(steps, n - 1);
    }
  }

  ghost predicate AllFine(cv: Conversions, rs: seq<Revived>, n: nat, hash: Text -> Text)
    requires n <= |rs|
  {
    forall i :: 0 <= i < n ==> StepAt(cv, rs, i, hash).Fine?
  }

  lemma ReportHoldsIff(cv: Conversions, rs: seq<Revived>, hash: Text -> Text)
    ensures Reported(cv, rs, hash).Holds? <==> AllFine(cv, rs, |rs|, hash)
  {
    var steps := Steps(cv, rs, hash);
    WalkHoldsIff(steps, |rs|);
    assert forall i :: 0 <= i < |rs| ==> steps[i] == StepAt(cv, rs, i, hash);
    if AllFine(cv, rs, |rs|, hash) && rs != [] {
      assert StepAt(cv, rs, 0, hash).Fine? && StepAt(cv, rs, |rs| - 1, hash).Fine?;
    }
  }

  // ------------------------------------------------------------------ building, verifying

  function ThreeFields(k: Text, v: Value, k': Text, v': Value, k'': Text, v'': Value, rest: Fields): Fields {
    Field(k, v, Field(k', v', Field(k'', v'', rest)))
  }

  /** The last three fields of a serialized row. */
  function LastFields(r: Row): Fields {
    ThreeFields(PREV, Nullable(r.prevHash), HASH, Str(r.rowHash), CREATED, Str(r.createdAt), NoFields)
  }

  /** The last six. */
  function LaterFields(r: Row): Fields {
    ThreeFields(ACTION, Str(r.action), TARGET, Nullable(r.target), PAYLOAD, Object(r.payload), LastFields(r))
  }

  function SerializeRow(r: Row): Value {
    Object(ThreeFields(SEQ, Number(Decimal(r.seqNo)), ORG, Nullable(r.orgId), ACTOR, Str(r.actor), LaterFields(r)))
  }

  function SerializeRows(rows: seq<Row>): Items {
    if rows == [] then NoItems else Item(SerializeRow(rows[0]), SerializeRows(rows[1..]))
  }

  datatype EvidenceBundle = EvidenceBundle(attestation: Attestation, rows: Value)

  function BuildEvidenceBundle(rows: seq<Row>, attestation: Attestation): EvidenceBundle {
    EvidenceBundle(attestation, Array(SerializeRows(rows)))
  }

  /** The out-of-band verification keys; an empty key counts as none. */
  datatype VerifyOptions = VerifyOptions(publicKeyPem: Option<Text>, hmacKey: Option<Text>)

  /** The two abstract signature checks. */
  datatype SignatureCheck = SignatureCheck(
    withPublicKey: (Attestation, Text) -> bool, withHmac: (Attestation, Text) -> bool)

  datatype Reason = Accepted | Unreadable | ChainBroken(at: Num) | NotAttested | BadSignature

  datatype Verdict =
    | Raised
    | Report(ok: bool, count: nat, chainIntact: bool, matches: bool, signed: bool, reason: Reason)

  predicate Given(key: Option<Text>) {
    key.Some? && key.value != []
  }

  predicate SignedBy(att: Attestation, opts: VerifyOptions, check: SignatureCheck) {
    if Given(opts.publicKeyPem) then check.withPublicKey(att, opts.publicKeyPem.value)
    else if Given(opts.hmacKey) then check.withHmac(att, opts.hmacKey.value)
    else false
  }

  function FirstHash(rs: seq<Revived>): Option<Text> {
    if rs == [] then None else Some(rs[0].rowHash)
  }

  predicate Matches(rs: seq<Revived>, att: ChainReport) {
    && att.verified && |rs| == att.count && FirstHash(rs) == att.firstHash
    && PrevHash(rs, |rs|) == att.lastHash
  }

  function VerifyEvidenceBundle(
    cv: Conversions, bundle: EvidenceBundle, opts: VerifyOptions, check: SignatureCheck, hash: Text -> Text): Verdict
  {
    match ReviveRows(cv, bundle.rows)
    case None => Report(false, 0, false, false, false, Unreadable)
    case Some(rs) =>
      var walked := Reported(cv, rs, hash);
      if walked.Threw? then Raised
      else
        var intact := walked.Holds?;
        var matches := intact && Matches(rs, bundle.attestation.chain);
        var signed := SignedBy(bundle.attestation, opts, check);
        var ok := intact && matches && signed;
        Report(ok, |rs|, intact, matches, signed,
          if ok then Accepted
          else if walked.BrokenAt? then ChainBroken(rs[walked.i].seqNo)
          else if !matches then NotAttested
          else BadSignature)
  }

  predicate IsAccepted(v: Verdict) {
    v.Report? && v.ok
  }

  // ----------------------------------------------------------------------- main results

  /** The revived row is the attested one, field by field; payloads as data. */
  predicate Revives(r: Revived, a: Row) {
    && r.seqNo == Whole(a.seqNo) && r.orgId == Nullable(a.orgId) && r.actor == a.actor && r.action == a.action
    && r.target == Nullable(a.target) && SameMeaning(r.payload, Object(a.payload))
    && r.prevHash == Nullable(a.prevHash) && r.rowHash == a.rowHash && r.createdAt == Some(a.createdAt)
  }

  ghost predicate RevivesAll(rs: seq<Revived>, attested: seq<Row>) {
    |rs| == |attested| && forall i :: 0 <= i < |rs| ==> Revives(rs[i], attested[i])
  }

  /** What revived rows are of well-formed JSON. */
  ghost predicate WellFormedRevived(rs: seq<Revived>) {
    forall i :: 0 <= i < |rs| ==>
      && WellFormed(rs[i].orgId) && WellFormed(rs[i].target) && WellFormed(rs[i].payload)
      && WellFormed(NumValue(rs[i].seqNo))
  }

  ghost predicate SafeRows(rows: seq<Row>) {
    forall i :: 0 <= i < |rows| ==> Safe(rows[i].seqNo)
  }

  lemma {:induction false} ItemsWellFormed(cv: Conversions, xs: Items)
    requires Lawful(cv) && WellFormedItems(xs) && ReviveItems(cv, xs).Some?
    ensures WellFormedRevived(ReviveItems(cv, xs).value)
  {
    if xs.Item? {
      ItemsWellFormed(cv, xs.tail);
    }
  }

  lemma RowsWellFormed(cv: Conversions, input: Value)
    requires Lawful(cv) && WellFormed(input) && ReviveRows(cv, input).Some?
    ensures WellFormedRevived(ReviveRows(cv, input).value)
  {
    match input
    case Array(xs) => ItemsWellFormed(cv, xs);
    case Object(fs) => ItemsWellFormed(cv, Get(fs, ROWS).value.items);
  }

  lemma SameScalars(v: Value, w: Value)
    requires SameMeaning(v, w) && (w.Null? || w.Str? || w.Number?)
    ensures v == w
  {
  }

  lemma SameNum(n: Num, k: int)
    requires SameMeaning(NumValue(n), Number(Decimal(k)))
    ensures n == Whole(k)
  {
    SameScalars(NumValue(n), Number(Decimal(k)));
  }

  /** For one row: equal as hashed data exactly when revived to it, apart from the hashes. */
  lemma FieldsRevive(r: Revived, a: Row)
    requires r.createdAt.Some?
    ensures SameFields(RevivedContent(r), ContentOf(a)) && r.prevHash == Nullable(a.prevHash) && r.rowHash == a.rowHash
       <==> Revives(r, a)
  {
    if SameFields(RevivedContent(r), ContentOf(a)) {
      SameNum(r.seqNo, a.seqNo);
      SameScalars(r.orgId, Nullable(a.orgId));
      SameScalars(r.target, Nullable(a.target));
    }
  }

  /** A linked row and an attested row with the same hash. */
  lemma LinkedRowIsAttested(cv: Conversions, rs: seq<Revived>, attested: seq<Row>, i: nat, hash: Text -> Text)
    requires DigestLike(hash) && WellFormedRevived(rs) && WellFormedRows(attested) && Intact(attested, Hasher(hash))
    requires i < |rs| && i < |attested| && AllFine(cv, rs, i + 1, hash) && rs[i].rowHash == attested[i].rowHash
    ensures Revives(rs[i], attested[i]) && PrevHash(rs, i) == PrevHashAt(attested, i)
  {
    var r, a := rs[i], attested[i];
    assert StepAt(cv, rs, i, hash).Fine? && Linked(attested, i, Hasher(hash));
    HasherIs(hash, PrevHashAt(attested, i), a);
    LinkedPrevLike(cv, rs, i, hash);
    AttestedPrevLike(attested, i, hash);
    RowContentWellFormed(a);
    HashPins(hash, PrevHash(rs, i), RevivedContent(r), PrevHashAt(attested, i), ContentOf(a));
    FieldsRevive(r, a);
  }

  /** Linked rows that end in the attested chain's last hash are the attested rows. */
  lemma {:induction false} LinkedIsAttested(
    cv: Conversions, rs: seq<Revived>, attested: seq<Row>, n: nat, hash: Text -> Text, i: nat)
    requires DigestLike(hash) && WellFormedRevived(rs) && WellFormedRows(attested)
    requires n <= |rs| && n <= |attested| && AllFine(cv, rs, n, hash) && Intact(attested, Hasher(hash))
    requires PrevHash(rs, n) == PrevHashAt(attested, n) && i < n
    ensures Revives(rs[i], attested[i])
    decreases n
  {
    LinkedRowIsAttested(cv, rs, attested, n - 1, hash);
    if i < n - 1 {
      LinkedIsAttested(cv, rs, attested, n - 1, hash, i);
    }
  }

  lemma LinkedPrevLike(cv: Conversions, rs: seq<Revived>, i: nat, hash: Text -> Text)
    requires DigestLike(hash) && i <= |rs| && AllFine(cv, rs, i, hash)
    ensures PrevLike(PrevHash(rs, i))
  {
    if i > 0 {
      assert StepAt(cv, rs, i - 1, hash).Fine?;
    }
  }

  lemma AttestedPrevLike(attested: seq<Row>, i: nat, hash: Text -> Text)
    requires DigestLike(hash) && i <= |attested| && Intact(attested, Hasher(hash))
    ensures PrevLike(PrevHashAt(attested, i))
  {
    HasherPins(hash);
    IntactPrevLike(attested, i, Hasher(hash));
  }

  /** And the attested rows are linked. */
  lemma AttestedIsLinked(cv: Conversions, rs: seq<Revived>, attested: seq<Row>, i: nat, hash: Text -> Text)
    requires Lawful(cv) && DigestLike(hash) && WellFormedRevived(rs) && WellFormedRows(attested) && SafeRows(attested)
    requires RevivesAll(rs, attested) && Intact(attested, Hasher(hash)) && i < |rs|
    ensures StepAt(cv, rs, i, hash).Fine?
  {
    var r, a := rs[i], attested[i];
    assert Revives(r, a) && Linked(attested, i, Hasher(hash));
    assert i > 0 ==> Revives(rs[i - 1], attested[i - 1]);
    assert PrevHash(rs, i) == PrevHashAt(attested, i) && PrevSeq(rs, i) == Whole(PrevSeqAt(attested, i));
    FieldsRevive(r, a);
    AttestedPrevLike(attested, i, hash);
    RowContentWellFormed(a);
    HasherIs(hash, PrevHashAt(attested, i), a);
    HashPins(hash, PrevHash(rs, i), RevivedContent(r), PrevHashAt(attested, i), ContentOf(a));
  }

  /** The revived rows hold and match the attestation exactly when they are the attested
      rows, and those were intact. */
  lemma RevivedMatchIff(cv: Conversions, rs: seq<Revived>, attested: seq<Row>, hash: Text -> Text)
    requires Lawful(cv) && DigestLike(hash) && WellFormedRevived(rs) && WellFormedRows(attested) && SafeRows(attested)
    ensures Reported(cv, rs, hash).Holds? && Matches(rs, AuditChain.Report(attested, Hasher(hash)))
       <==> Intact(attested, Hasher(hash)) && RevivesAll(rs, attested)
  {
    var h := Hasher(hash);
    VerifiedMeansIntact(attested, h);
    ReportHoldsIff(cv, rs, hash);
    if Reported(cv, rs, hash).Holds? && Matches(rs, AuditChain.Report(attested, h)) {
      forall i | 0 <= i < |rs| ensures Revives(rs[i], attested[i]) {
        LinkedIsAttested(cv, rs, attested, |rs|, hash, i);
      }
    }
    if Intact(attested, h) && RevivesAll(rs, attested) {
      forall i | 0 <= i < |rs| ensures StepAt(cv, rs, i, hash).Fine? {
        AttestedIsLinked(cv, rs, attested, i, hash);
      }
      assert rs != [] ==> Revives(rs[0], attested[0]) && Revives(rs[|rs| - 1], attested[|rs| - 1]);
    }
  }

  /** A bundle whose attestation was made of `attested` is accepted exactly when the signature
      holds, that chain was intact, and what the bundle carries revives, element by element,
      to those rows. */
  lemma EvidenceAcceptedIff(
    cv: Conversions, bundle: EvidenceBundle, attested: seq<Row>, opts: VerifyOptions, check: SignatureCheck,
    hash: Text -> Text)
    requires Lawful(cv) && DigestLike(hash) && WellFormed(bundle.rows) && WellFormedRows(attested) && SafeRows(attested)
    requires bundle.attestation.chain == AuditChain.Report(attested, Hasher(hash))
    ensures IsAccepted(VerifyEvidenceBundle(cv, bundle, opts, check, hash))
       <==> && SignedBy(bundle.attestation, opts, check) && Intact(attested, Hasher(hash))
            && ReviveRows(cv, bundle.rows).Some? && RevivesAll(ReviveRows(cv, bundle.rows).value, attested)
  {
    if ReviveRows(cv, bundle.rows).Some? {
      RowsWellFormed(cv, bundle.rows);
      RevivedMatchIff(cv, ReviveRows(cv, bundle.rows).value, attested, hash);
    }
  }

  predicate Missing(v: Option<Value>) {
    v.None? || v.value.Null?
  }

  predicate SpellsNullable(v: Option<Value>, t: Option<Text>) {
    if t.None? then Missing(v) else v == Some(Str(t.value))
  }

  predicate SpellsText(cv: Conversions, v: Option<Value>, t: Text) {
    if Missing(v) then t == [] else cv.text(v) == Some(t)
  }

  predicate SpellsPayload(v: Option<Value>, payload: Fields) {
    if Missing(v) then MeaningOfFields(payload, UNSEEN) == map[]
    else v.value.Object? && MeaningOfFields(v.value.fields, UNSEEN) == MeaningOfFields(payload, UNSEEN)
  }

  lemma NullableSpelled(v: Option<Value>, t: Option<Text>)
    ensures OrElse(v, Null) == Nullable(t) <==> SpellsNullable(v, t)
  {
  }

  lemma TextSpelled(cv: Conversions, v: Option<Value>, t: Text)
    requires Lawful(cv)
    ensures TextOf(cv, v) == Some(t) <==> SpellsText(cv, v, t)
  {
  }

  lemma PayloadSpelled(v: Option<Value>, payload: Fields)
    ensures SameMeaning(OrElse(v, Object(NoFields)), Object(payload)) <==> SpellsPayload(v, payload)
  {
  }

  /** The text of `v` denotes this date. */
  predicate SpellsDate(cv: Conversions, v: Option<Value>, t: Text) {
    cv.text(v).Some? && cv.date(cv.text(v).value) == Some(t)
  }

  /** Exactly these raw rows revive to an attested row: the seq converts to its number, the
      texts convert to its texts with a missing one read as empty, what may be null is its
      text or is null or missing, the payload is the same data with a missing one read as
      empty, and the date converts to its date. */
  lemma RawRevivesIff(cv: Conversions, raw: RawRow, a: Row)
    requires Lawful(cv)
    ensures ReviveRaw(cv, raw).Some? && Revives(ReviveRaw(cv, raw).value, a)
       <==> && cv.number(raw.seqNo) == Some(Whole(a.seqNo))
            && SpellsNullable(raw.orgId, a.orgId) && SpellsNullable(raw.target, a.target)
            && SpellsNullable(raw.prevHash, a.prevHash)
            && SpellsText(cv, raw.actor, a.actor) && SpellsText(cv, raw.action, a.action)
            && SpellsText(cv, raw.rowHash, a.rowHash)
            && SpellsPayload(raw.payload, a.payload)
            && SpellsDate(cv, raw.createdAt, a.createdAt)
  {
    NullableSpelled(raw.orgId, a.orgId);
    NullableSpelled(raw.target, a.target);
    NullableSpelled(raw.prevHash, a.prevHash);
    TextSpelled(cv, raw.actor, a.actor);
    TextSpelled(cv, raw.action, a.action);
    TextSpelled(cv, raw.rowHash, a.rowHash);
    PayloadSpelled(raw.payload, a.payload);
  }

  // ------------------------------------------------------------------ export, then verify

  lemma RowKeysDiffer()
    ensures |SEQ| == 3 && |ORG| == |ACTOR| == 5 && |ACTION| == |TARGET| == 6 && |PAYLOAD| == |HASH| == 7
    ensures |PREV| == 8 && |CREATED| == 9 && ORG != ACTOR && ACTION != TARGET && PAYLOAD != HASH
  {
    ContentKeysDiffer();
    assert PAYLOAD[0] == 112 && HASH[0] == 114;
  }

  lemma GetOne(k: Text, v: Value, rest: Fields, key: Text)
    ensures Get(Field(k, v, rest), key) == if key == k then Some(v) else Get(rest, key)
  {
  }

  lemma GetThree(k: Text, v: Value, k': Text, v': Value, k'': Text, v'': Value, rest: Fields, key: Text)
    ensures Get(ThreeFields(k, v, k', v', k'', v'', rest), key)
         == if key == k then Some(v) else if key == k' then Some(v')
            else if key == k'' then Some(v'') else Get(rest, key)
  {
    GetOne(k'', v'', rest, key);
    GetOne(k', v', Field(k'', v'', rest), key);
    GetOne(k, v, Field(k', v', Field(k'', v'', rest)), key);
  }

  /** Any field of a serialized row. */
  lemma SerializedField(r: Row, key: Text)
    ensures var v := Get(SerializeRow(r).fields, key);
            && (key == SEQ ==> v == Some(Number(Decimal(r.seqNo)))) && (key == ORG ==> v == Some(Nullable(r.orgId)))
            && (key == ACTOR ==> v == Some(Str(r.actor))) && (key == ACTION ==> v == Some(Str(r.action)))
            && (key == TARGET ==> v == Some(Nullable(r.target))) && (key == PAYLOAD ==> v == Some(Object(r.payload)))
            && (key == PREV ==> v == Some(Nullable(r.prevHash))) && (key == HASH ==> v == Some(Str(r.rowHash)))
            && (key == CREATED ==> v == Some(Str(r.createdAt)))
  {
    RowKeysDiffer();
    GetThree(SEQ, Number(Decimal(r.seqNo)), ORG, Nullable(r.orgId), ACTOR, Str(r.actor), LaterFields(r), key);
    GetThree(ACTION, Str(r.action), TARGET, Nullable(r.target), PAYLOAD, Object(r.payload), LastFields(r), key);
    GetThree(PREV, Nullable(r.prevHash), HASH, Str(r.rowHash), CREATED, Str(r.createdAt), NoFields, key);
  }

  /** The dates of the rows are in the form that dates print in. */
  ghost predicate DatesPrinted(cv: Conversions, rows: seq<Row>) {
    forall i :: 0 <= i < |rows| ==> cv.date(rows[i].createdAt) == Some(rows[i].createdAt)
  }

  lemma SerializedRaw(r: Row)
    ensures RawOf(SerializeRow(r).fields)
         == RawRow(Some(Number(Decimal(r.seqNo))), Some(Nullable(r.orgId)), Some(Str(r.actor)), Some(Str(r.action)),
                   Some(Nullable(r.target)), Some(Object(r.payload)), Some(Nullable(r.prevHash)), Some(Str(r.rowHash)),
                   Some(Str(r.createdAt)))
  {
    SerializedField(r, SEQ);
    SerializedField(r, ORG);
    SerializedField(r, ACTOR);
    SerializedField(r, ACTION);
    SerializedField(r, TARGET);
    SerializedField(r, PAYLOAD);
    SerializedField(r, PREV);
    SerializedField(r, HASH);
    SerializedField(r, CREATED);
  }

  lemma SerializedRowRevives(cv: Conversions, r: Row)
    requires Lawful(cv) && Safe(r.seqNo) && cv.date(r.createdAt) == Some(r.createdAt)
    ensures ReviveRow(cv, SerializeRow(r)).Some? && Revives(ReviveRow(cv, SerializeRow(r)).value, r)
  {
    SerializedRaw(r);
    RawRevivesIff(cv, RawOf(SerializeRow(r).fields), r);
  }

  lemma {:induction false} SerializedRowsRevive(cv: Conversions, rows: seq<Row>)
    requires Lawful(cv) && SafeRows(rows) && DatesPrinted(cv, rows)
    ensures ReviveItems(cv, SerializeRows(rows)).Some?
    ensures RevivesAll(ReviveItems(cv, SerializeRows(rows)).value, rows)
  {
    if rows != [] {
      SerializedRowsRevive(cv, rows[1..]);
      SerializedRowRevives(cv, rows[0]);
    }
  }

  lemma SerializedWellFormed(r: Row)
    requires WellFormedFields(r.payload)
    ensures WellFormed(SerializeRow(r))
  {
    RowKeysDiffer();
    RowContentWellFormed(r);
    NewThreeFields(PREV, Nullable(r.prevHash), HASH, Str(r.rowHash), CREATED, Str(r.createdAt), NoFields);
    NewThreeFields(ACTION, Str(r.action), TARGET, Nullable(r.target), PAYLOAD, Object(r.payload), LastFields(r));
    NewThreeFields(SEQ, Number(Decimal(r.seqNo)), ORG, Nullable(r.orgId), ACTOR, Str(r.actor), LaterFields(r));
  }

  lemma NewThreeFields(k: Text, v: Value, k': Text, v': Value, k'': Text, v'': Value, rest: Fields)
    requires k !in Keys(rest) && k' !in Keys(rest) && k'' !in Keys(rest) && k != k' && k != k'' && k' != k''
    requires WellFormed(v) && WellFormed(v') && WellFormed(v'') && WellFormedFields(rest)
    ensures WellFormedFields(ThreeFields(k, v, k', v', k'', v'', rest))
    ensures Keys(ThreeFields(k, v, k', v', k'', v'', rest)) == {k, k', k''} + Keys(rest)
  {
    NewField(k'', v'', rest);
    NewField(k', v', Field(k'', v'', rest));
    NewField(k, v, Field(k', v', Field(k'', v'', rest)));
  }

  lemma {:induction false} SerializedRowsWellFormed(rows: seq<Row>)
    requires WellFormedRows(rows)
    ensures WellFormedItems(SerializeRows(rows))
  {
    if rows != [] {
      SerializedRowsWellFormed(rows[1..]);
      SerializedWellFormed(rows[0]);
    }
  }

  /** Export and verification meet: a bundle built from an intact chain and its signed
      attestation is accepted. */
  lemma BuiltBundleIsAccepted(
    cv: Conversions, rows: seq<Row>, attestation: Attestation, opts: VerifyOptions, check: SignatureCheck,
    hash: Text -> Text)
    requires Lawful(cv) && DigestLike(hash) && WellFormedRows(rows) && SafeRows(rows) && DatesPrinted(cv, rows)
    requires Intact(rows, Hasher(hash)) && attestation.chain == AuditChain.Report(rows, Hasher(hash))
    requires SignedBy(attestation, opts, check)
    ensures IsAccepted(VerifyEvidenceBundle(cv, BuildEvidenceBundle(rows, attestation), opts, check, hash))
  {
    SerializedRowsRevive(cv, rows);
    SerializedRowsWellFormed(rows);
    EvidenceAcceptedIff(cv, BuildEvidenceBundle(rows, attestation), rows, opts, check, hash);
  }
}
