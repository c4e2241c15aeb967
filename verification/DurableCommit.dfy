/**
 * Durable config commits: many callers edit one document, each edit in a transaction that
 * also appends an audit row and a version row. Versions are claimed optimistically: the
 * next number is read from the snapshot and the primary key refuses a number already
 * taken; a call that lost that race tries once more.
 *
 * The model is a state machine. A transaction reads one snapshot and, if its inserts do not
 * collide, its row changes land on whatever the database holds by then. That a transaction
 * reads one snapshot is an assumption; `StatementSnapshots` is the machine without it.
 */
module DurableCommit {
  import opened Common

  // ------------------------------------------------------------- classifying errors

  /** What a driver error may carry: a code and a constraint name, on itself or its cause. */
  datatype Constraint = Text(name: string) | NotText

  datatype Error = Error(
    code: Option<string>, causeCode: Option<string>,
    constraint: Option<Constraint>, causeConstraint: Option<Constraint>)

  const UNIQUE_VIOLATION := "23505"
  const NAME_INDEX := "_workspace_name_idx"

  predicate EndsWith(s: string, suffix: string) {
    |s| >= |suffix| && s[|s| - |suffix|..] == suffix
  }

  predicate IsUniqueViolation(e: Error) {
    e.code == Some(UNIQUE_VIOLATION) || e.causeCode == Some(UNIQUE_VIOLATION)
  }

  predicate IsEntityNameConflict(e: Error) {
    var c := if e.constraint.Some? then e.constraint else e.causeConstraint;
    IsUniqueViolation(e) && c.Some? && c.value.Text? && EndsWith(c.value.name, NAME_INDEX)
  }

  // -------------------------------------------------------------------- the database

  /** The config tables, row by row. */
  type Doc = map<string, string>

  type Hasher = Doc -> nat

  datatype Version = Version(number: nat, doc: Doc, hash: nat, auditSeq: nat, call: nat, attempt: nat)

  /** An audit row; `call` is absent for rows written by anything else. */
  datatype AuditRow = AuditRow(seqNo: nat, hash: nat, call: Option<nat>)

  /** Tables in insertion order; `number` and `seqNo` are the primary keys. */
  datatype Db = Db(doc: Doc, versions: seq<Version>, audit: seq<AuditRow>)

  function CurrentVersion(vs: seq<Version>): nat {
    if vs == [] then 0 else Max(CurrentVersion(vs[..|vs| - 1]), vs[|vs| - 1].number)
  }

  function AuditHead(rows: seq<AuditRow>): nat {
    if rows == [] then 0 else Max(AuditHead(rows[..|rows| - 1]), rows[|rows| - 1].seqNo)
  }

  predicate VersionTaken(vs: seq<Version>, number: nat) {
    exists i :: 0 <= i < |vs| && vs[i].number == number
  }

  predicate SeqTaken(rows: seq<AuditRow>, seqNo: nat) {
    exists i :: 0 <= i < |rows| && rows[i].seqNo == seqNo
  }

  function Row(d: Doc, k: string): Option<string> {
    if k in d then Some(d[k]) else None
  }

  /** The rows a transaction changed, written over the database as it is at commit. */
  function Land(current: Doc, before: Doc, after: Doc): Doc {
    map k | k in current.Keys + after.Keys && Landed(current, before, after, k).Some?
      :: Landed(current, before, after, k).value
  }

  function Landed(current: Doc, before: Doc, after: Doc, k: string): Option<string> {
    if Row(after, k) != Row(before, k) then Row(after, k) else Row(current, k)
  }

  lemma LandRow(current: Doc, before: Doc, after: Doc, k: string)
    ensures Row(Land(current, before, after), k) == Landed(current, before, after, k)
  {
  }

  lemma SameRows(a: Doc, b: Doc)
    requires forall k :: Row(a, k) == Row(b, k)
    ensures a == b
  {
    forall k ensures k in a <==> k in b {
      assert Row(a, k) == Row(b, k);
    }
    forall k | k in a ensures a[k] == b[k] {
      assert Row(a, k) == Row(b, k);
    }
  }

  lemma LandOnSnapshot(before: Doc, after: Doc)
    ensures Land(before, before, after) == after
  {
    forall k ensures Row(Land(before, before, after), k) == Row(after, k) {
      LandRow(before, before, after, k);
    }
    SameRows(Land(before, before, after), after);
  }

  // ------------------------------------------------------------------------- the calls

  datatype Reason = Duplicate | Thrown(error: Error) | HydrateFailed(version: nat)

  datatype Phase =
    | Waiting(attempt: nat)
    | InTx(attempt: nat, snapshot: Db)
    | Committed(version: nat)
    | Hydrated(version: nat)
    | Done(version: nat)
    | Rejected(reason: Reason)

  /** An edit: what it makes of a document on each attempt (fresh ids may differ), or a
      failure. */
  type Edit = (nat, Doc) -> Option<Doc>

  datatype World = World(db: Db, edits: map<nat, Edit>, calls: map<nat, Phase>, signals: seq<nat>)

  datatype Event =
    | Begin(call: nat)
    | Commit(call: nat)
    | Abort(call: nat, error: Error)
    | Hydrate(call: nat, ok: bool)
    | Emit(call: nat, ok: bool)
    | OtherAudit(hash: nat)

  /** The rows a commit adds, from what the transaction read. */
  function NewAudit(h: Hasher, snap: Db, after: Doc, c: nat): AuditRow {
    AuditRow(AuditHead(snap.audit) + 1, h(after), Some(c))
  }

  function NewVersion(h: Hasher, snap: Db, after: Doc, c: nat, attempt: nat): Version {
    Version(CurrentVersion(snap.versions) + 1, after, h(after), AuditHead(snap.audit) + 1, c, attempt)
  }

  /** No insert of the transaction collides with a committed row. */
  predicate Fits(db: Db, snap: Db) {
    && !VersionTaken(db.versions, CurrentVersion(snap.versions) + 1)
    && !SeqTaken(db.audit, AuditHead(snap.audit) + 1)
  }

  function AfterCommit(h: Hasher, db: Db, snap: Db, after: Doc, c: nat, attempt: nat): Db {
    Db(Land(db.doc, snap.doc, after),
       db.versions + [NewVersion(h, snap, after, c, attempt)],
       db.audit + [NewAudit(h, snap, after, c)])
  }

  /** What a failed attempt leads to: a duplicate name is reported, another unique violation
      is retried once, anything else is thrown. */
  function AfterAbort(attempt: nat, e: Error): Phase {
    if attempt == 1 && IsEntityNameConflict(e) then Rejected(Duplicate)
    else if attempt == 1 && IsUniqueViolation(e) then Waiting(2)
    else Rejected(Thrown(e))
  }

  predicate Enabled(w: World, e: Event) {
    e.OtherAudit? ||
    (e.call in w.calls && e.call in w.edits &&
     match e
     case Begin(c) => w.calls[c].Waiting?
     case Commit(c) =>
       && w.calls[c].InTx? && w.edits[c](w.calls[c].attempt, w.calls[c].snapshot.doc).Some?
       && Fits(w.db, w.calls[c].snapshot)
     case Abort(c, _) => w.calls[c].InTx?
     case Hydrate(c, _) => w.calls[c].Committed?
     case Emit(c, _) => w.calls[c].Hydrated?
     case OtherAudit(_) => true)
  }

  function Next(h: Hasher, w: World, e: Event): World
    requires Enabled(w, e)
  {
    match e
    case Begin(c) => w.(calls := w.calls[c := InTx(w.calls[c].attempt, w.db)])
    case Commit(c) =>
      var t := w.calls[c];
      var after := w.edits[c](t.attempt, t.snapshot.doc).value;
      w.(db := AfterCommit(h, w.db, t.snapshot, after, c, t.attempt),
         calls := w.calls[c := Committed(CurrentVersion(t.snapshot.versions) + 1)])
    case Abort(c, err) => w.(calls := w.calls[c := AfterAbort(w.calls[c].attempt, err)])
    case Hydrate(c, ok) =>
      var v := w.calls[c].version;
      w.(calls := w.calls[c := if ok then Hydrated(v) else Rejected(HydrateFailed(v))])
    case Emit(c, ok) =>
      var v := w.calls[c].version;
      w.(calls := w.calls[c := Done(v)], signals := if ok then w.signals + [v] else w.signals)
    case OtherAudit(x) =>
      w.(db := w.db.(audit := w.db.audit + [AuditRow(AuditHead(w.db.audit) + 1, x, None)]))
  }

  /** Before anything ran: the calls wait for their first attempt. */
  ghost predicate Start(w: World) {
    && w.db.versions == [] && w.db.audit == [] && w.signals == [] && w.calls.Keys == w.edits.Keys
    && forall c :: c in w.calls ==> w.calls[c] == Waiting(1)
  }

  ghost predicate IsRun(h: Hasher, w: World, es: seq<Event>)
    decreases |es|, 0
  {
    es == [] || (IsRun(h, w, es[..|es| - 1]) && Enabled(After(h, w, es[..|es| - 1]), es[|es| - 1]))
  }

  ghost function After(h: Hasher, w: World, es: seq<Event>): World
    requires IsRun(h, w, es)
    decreases |es|, 1
  {
    if es == [] then w else Next(h, After(h, w, es[..|es| - 1]), es[|es| - 1])
  }

  // ------------------------------------------------------------ what every step keeps

  /** The document a table of versions ends in. */
  function Head(doc0: Doc, vs: seq<Version>): Doc {
    if vs == [] then doc0 else vs[|vs| - 1].doc
  }

  /** Row `i` is version `i + 1`: the edit of its call, applied to the version before. */
  ghost predicate VersionAt(h: Hasher, doc0: Doc, edits: map<nat, Edit>, db: Db, i: nat)
    requires i < |db.versions|
  {
    var v := db.versions[i];
    && v.number == i + 1 && v.hash == h(v.doc)
    && v.call in edits && edits[v.call](v.attempt, Head(doc0, db.versions[..i])) == Some(v.doc)
    && 1 <= v.attempt <= 2
    && 1 <= v.auditSeq <= |db.audit| && db.audit[v.auditSeq - 1] == AuditRow(v.auditSeq, v.hash, Some(v.call))
  }

  ghost predicate History(h: Hasher, doc0: Doc, edits: map<nat, Edit>, db: Db) {
    && db.doc == Head(doc0, db.versions)
    && (forall i :: 0 <= i < |db.versions| ==> VersionAt(h, doc0, edits, db, i))
    && (forall i :: 0 <= i < |db.audit| ==> db.audit[i].seqNo == i + 1)
  }

  /** How many rows a call has left. */
  function VersionsOf(vs: seq<Version>, c: nat): nat {
    if vs == [] then 0 else (if vs[0].call == c then 1 else 0) + VersionsOf(vs[1..], c)
  }

  function AuditOf(rows: seq<AuditRow>, c: nat): nat {
    if rows == [] then 0 else (if rows[0].call == Some(c) then 1 else 0) + AuditOf(rows[1..], c)
  }

  lemma {:induction false} VersionsPush(vs: seq<Version>, v: Version, c: nat)
    ensures VersionsOf(vs + [v], c) == VersionsOf(vs, c) + if v.call == c then 1 else 0
  {
    if vs == [] {
      assert vs + [v] == [v];
    } else {
      VersionsPush(vs[1..], v, c);
      assert (vs + [v])[1..] == vs[1..] + [v];
    }
  }

  lemma {:induction false} AuditPush(rows: seq<AuditRow>, r: AuditRow, c: nat)
    ensures AuditOf(rows + [r], c) == AuditOf(rows, c) + if r.call == Some(c) then 1 else 0
  {
    if rows == [] {
      assert rows + [r] == [r];
    } else {
      AuditPush(rows[1..], r, c);
      assert (rows + [r])[1..] == rows[1..] + [r];
    }
  }

  predicate HasCommitted(p: Phase) {
    p.Committed? || p.Hydrated? || p.Done? || (p.Rejected? && p.reason.HydrateFailed?)
  }

  function VersionOf(p: Phase): nat
    requires HasCommitted(p)
  {
    if p.Rejected? then p.reason.version else p.version
  }

  ghost predicate CallFits(db: Db, doc0: Doc, c: nat, p: Phase) {
    && VersionsOf(db.versions, c) == (if HasCommitted(p) then 1 else 0)
    && AuditOf(db.audit, c) == VersionsOf(db.versions, c)
    && (HasCommitted(p) ==> 1 <= VersionOf(p) <= |db.versions| && db.versions[VersionOf(p) - 1].call == c)
    && (p.Waiting? ==> 1 <= p.attempt <= 2)
    && (p.InTx? ==>
          && 1 <= p.attempt <= 2 && p.snapshot.versions <= db.versions && p.snapshot.audit <= db.audit
          && p.snapshot.doc == Head(doc0, p.snapshot.versions))
  }

  ghost predicate Inv(h: Hasher, doc0: Doc, w: World) {
    && w.calls.Keys == w.edits.Keys
    && History(h, doc0, w.edits, w.db)
    && (forall c :: c in w.calls ==> CallFits(w.db, doc0, c, w.calls[c]))
    && (forall i :: 0 <= i < |w.signals| ==> 1 <= w.signals[i] <= |w.db.versions|)
  }

  lemma {:induction false} VersionCount(vs: seq<Version>)
    requires forall i :: 0 <= i < |vs| ==> vs[i].number == i + 1
    ensures CurrentVersion(vs) == |vs|
  {
    if vs != [] {
      VersionCount(vs[..|vs| - 1]);
    }
  }

  lemma {:induction false} AuditCount(rows: seq<AuditRow>)
    requires forall i :: 0 <= i < |rows| ==> rows[i].seqNo == i + 1
    ensures AuditHead(rows) == |rows|
  {
    if rows != [] {
      AuditCount(rows[..|rows| - 1]);
    }
  }

  lemma Overtaken(vs: seq<Version>, n: nat, rows: seq<AuditRow>, m: nat)
    requires forall i :: 0 <= i < |vs| ==> vs[i].number == i + 1
    requires forall i :: 0 <= i < |rows| ==> rows[i].seqNo == i + 1
    ensures n < |vs| ==> VersionTaken(vs, n + 1)
    ensures m < |rows| ==> SeqTaken(rows, m + 1)
  {
    assert n < |vs| ==> vs[n].number == n + 1;
    assert m < |rows| ==> rows[m].seqNo == m + 1;
  }

  /** The heart of the protocol: a commit whose numbers are still free read a snapshot that
      nothing has overtaken. */
  lemma FreeNumberMeansCurrent(h: Hasher, doc0: Doc, edits: map<nat, Edit>, db: Db, snap: Db)
    requires History(h, doc0, edits, db) && snap.versions <= db.versions && snap.audit <= db.audit
    requires snap.doc == Head(doc0, snap.versions) && Fits(db, snap)
    ensures snap == db && CurrentVersion(snap.versions) == |db.versions| && AuditHead(snap.audit) == |db.audit|
  {
    forall i | 0 <= i < |db.versions| ensures db.versions[i].number == i + 1 {
      assert VersionAt(h, doc0, edits, db, i);
    }
    VersionCount(snap.versions);
    AuditCount(snap.audit);
    Overtaken(db.versions, |snap.versions|, db.audit, |snap.audit|);
  }

  lemma PrefixOfPush(vs: seq<Version>, v: Version, i: nat)
    requires i <= |vs|
    ensures (vs + [v])[..i] == vs[..i] && vs[..|vs|] == vs
  {
  }

  lemma CommitKeepsHistory(h: Hasher, doc0: Doc, edits: map<nat, Edit>, db: Db, after: Doc, c: nat, attempt: nat)
    requires History(h, doc0, edits, db) && Fits(db, db)
    requires c in edits && edits[c](attempt, db.doc) == Some(after) && 1 <= attempt <= 2
    ensures History(h, doc0, edits, AfterCommit(h, db, db, after, c, attempt))
  {
    FreeNumberMeansCurrent(h, doc0, edits, db, db);
    LandOnSnapshot(db.doc, after);
    var db' := AfterCommit(h, db, db, after, c, attempt);
    forall i | 0 <= i < |db'.versions| ensures VersionAt(h, doc0, edits, db', i) {
      PrefixOfPush(db.versions, NewVersion(h, db, after, c, attempt), i);
      if i < |db.versions| {
        assert VersionAt(h, doc0, edits, db, i);
      }
    }
  }

  /** What a commit does to one call's standing. */
  lemma CommitKeepsCall(h: Hasher, doc0: Doc, db: Db, after: Doc, c: nat, attempt: nat, d: nat, p: Phase)
    requires CallFits(db, doc0, d, p) && CurrentVersion(db.versions) == |db.versions| && (d == c ==> !HasCommitted(p))
    ensures CallFits(AfterCommit(h, db, db, after, c, attempt), doc0, d,
                     if d == c then Committed(|db.versions| + 1) else p)
  {
    VersionsPush(db.versions, NewVersion(h, db, after, c, attempt), d);
    AuditPush(db.audit, NewAudit(h, db, after, c), d);
  }

  lemma CommitKeepsInv(h: Hasher, doc0: Doc, w: World, c: nat)
    requires Inv(h, doc0, w) && Enabled(w, Commit(c))
    ensures Inv(h, doc0, Next(h, w, Commit(c)))
  {
    var t := w.calls[c];
    assert CallFits(w.db, doc0, c, t);
    FreeNumberMeansCurrent(h, doc0, w.edits, w.db, t.snapshot);
    var after := w.edits[c](t.attempt, t.snapshot.doc).value;
    CommitKeepsHistory(h, doc0, w.edits, w.db, after, c, t.attempt);
    var w' := Next(h, w, Commit(c));
    assert w'.db == AfterCommit(h, w.db, w.db, after, c, t.attempt);
    forall d | d in w'.calls ensures CallFits(w'.db, doc0, d, w'.calls[d]) {
      CommitKeepsCall(h, doc0, w.db, after, c, t.attempt, d, w.calls[d]);
    }
  }

  lemma OtherAuditKeepsCall(db: Db, doc0: Doc, r: AuditRow, d: nat, p: Phase)
    requires CallFits(db, doc0, d, p) && r.call.None?
    ensures CallFits(db.(audit := db.audit + [r]), doc0, d, p)
  {
    AuditPush(db.audit, r, d);
  }

  lemma OtherAuditKeepsHistory(h: Hasher, doc0: Doc, edits: map<nat, Edit>, db: Db, x: nat)
    requires History(h, doc0, edits, db)
    ensures History(h, doc0, edits, db.(audit := db.audit + [AuditRow(AuditHead(db.audit) + 1, x, None)]))
  {
    AuditCount(db.audit);
    var db' := db.(audit := db.audit + [AuditRow(AuditHead(db.audit) + 1, x, None)]);
    forall i | 0 <= i < |db'.versions| ensures VersionAt(h, doc0, edits, db', i) {
      assert VersionAt(h, doc0, edits, db, i);
    }
  }

  lemma OtherAuditKeepsInv(h: Hasher, doc0: Doc, w: World, x: nat)
    requires Inv(h, doc0, w)
    ensures Inv(h, doc0, Next(h, w, OtherAudit(x)))
  {
    OtherAuditKeepsHistory(h, doc0, w.edits, w.db, x);
    forall d | d in w.calls ensures CallFits(Next(h, w, OtherAudit(x)).db, doc0, d, w.calls[d]) {
      OtherAuditKeepsCall(w.db, doc0, AuditRow(AuditHead(w.db.audit) + 1, x, None), d, w.calls[d]);
    }
  }

  /** A call moving on, with the database as it is. */
  lemma MoveKeepsInv(h: Hasher, doc0: Doc, w: World, c: nat, p: Phase, signals: seq<nat>)
    requires Inv(h, doc0, w) && c in w.calls && CallFits(w.db, doc0, c, p)
    requires forall i :: 0 <= i < |signals| ==> 1 <= signals[i] <= |w.db.versions|
    ensures Inv(h, doc0, w.(calls := w.calls[c := p], signals := signals))
  {
  }

  lemma StepKeepsInv(h: Hasher, doc0: Doc, w: World, e: Event)
    requires Inv(h, doc0, w) && Enabled(w, e)
    ensures Inv(h, doc0, Next(h, w, e))
  {
    if e.OtherAudit? {
      OtherAuditKeepsInv(h, doc0, w, e.hash);
    } else if e.Commit? {
      CommitKeepsInv(h, doc0, w, e.call);
    } else {
      assert CallFits(w.db, doc0, e.call, w.calls[e.call]);
      var w' := Next(h, w, e);
      MoveFits(h, doc0, w, e);
      MoveKeepsInv(h, doc0, w, e.call, w'.calls[e.call], w'.signals);
      assert w' == w.(calls := w.calls[e.call := w'.calls[e.call]], signals := w'.signals);
    }
  }

  lemma MoveFits(h: Hasher, doc0: Doc, w: World, e: Event)
    requires Inv(h, doc0, w) && Enabled(w, e) && !e.OtherAudit? && !e.Commit?
    ensures var w' := Next(h, w, e);
            && e.call in w'.calls && CallFits(w.db, doc0, e.call, w'.calls[e.call])
            && forall i :: 0 <= i < |w'.signals| ==> 1 <= w'.signals[i] <= |w.db.versions|
  {
    assert CallFits(w.db, doc0, e.call, w.calls[e.call]);
  }

  lemma {:induction false} RunKeepsInv(h: Hasher, w: World, es: seq<Event>)
    requires Start(w) && IsRun(h, w, es)
    ensures Inv(h, w.db.doc, After(h, w, es)) && After(h, w, es).edits == w.edits
  {
    if es != [] {
      RunKeepsInv(h, w, es[..|es| - 1]);
      StepKeepsInv(h, w.db.doc, After(h, w, es[..|es| - 1]), es[|es| - 1]);
    }
  }

  // -------------------------------------------------------------------- main results

  /** In every run, versions are 1, 2, 3, ... with no gap or repeat, and each version's
      document is its call's edit applied to the version before, with that document's
      hash. */
  lemma VersionsAreTheEdits(h: Hasher, w: World, es: seq<Event>, i: nat)
    requires Start(w) && IsRun(h, w, es) && i < |After(h, w, es).db.versions|
    ensures var vs := After(h, w, es).db.versions;
            && vs[i].number == i + 1 && vs[i].hash == h(vs[i].doc) && vs[i].call in w.edits
            && w.edits[vs[i].call](vs[i].attempt, if i == 0 then w.db.doc else vs[i - 1].doc) == Some(vs[i].doc)
  {
    RunKeepsInv(h, w, es);
    var db := After(h, w, es).db;
    assert VersionAt(h, w.db.doc, w.edits, db, i);
    assert i > 0 ==> db.versions[..i][i - 1] == db.versions[i - 1];
  }

  /** The live document is the last version's, and each version has its audit row, with its
      hash and call. */
  lemma VersionsAreAudited(h: Hasher, w: World, es: seq<Event>, i: nat)
    requires Start(w) && IsRun(h, w, es) && i < |After(h, w, es).db.versions|
    ensures var db := After(h, w, es).db;
            var v := db.versions[i];
            && db.doc == db.versions[|db.versions| - 1].doc
            && 1 <= v.auditSeq <= |db.audit|
            && db.audit[v.auditSeq - 1] == AuditRow(v.auditSeq, v.hash, Some(v.call))
  {
    RunKeepsInv(h, w, es);
    assert VersionAt(h, w.db.doc, w.edits, After(h, w, es).db, i);
  }

  /** Each call commits at most once, and leaves a version and an audit row exactly when it
      got past its commit. So a rejected call leaves a trace exactly when it was rejected for
      a failed refresh of the read model, after the commit. */
  lemma RejectedLeavesTraceIff(h: Hasher, w: World, es: seq<Event>, c: nat)
    requires Start(w) && IsRun(h, w, es) && c in w.calls
    ensures c in After(h, w, es).calls
    ensures var w' := After(h, w, es);
            var p := w'.calls[c];
            && VersionsOf(w'.db.versions, c) <= 1
            && AuditOf(w'.db.audit, c) == VersionsOf(w'.db.versions, c)
            && (p.Rejected? ==> (VersionsOf(w'.db.versions, c) > 0 <==> p.reason.HydrateFailed?))
            && (p.Done? ==> VersionsOf(w'.db.versions, c) == 1)
  {
    RunKeepsInv(h, w, es);
    assert c in After(h, w, es).edits;
    assert CallFits(After(h, w, es).db, w.db.doc, c, After(h, w, es).calls[c]);
  }

  function Begins(es: seq<Event>, c: nat): nat {
    if es == [] then 0 else Begins(es[..|es| - 1], c) + if es[|es| - 1] == Begin(c) then 1 else 0
  }

  /** What a phase tells of the transactions started so far. */
  ghost predicate Tells(p: Phase, begins: nat) {
    && begins <= 2
    && (p.Waiting? ==> 1 <= p.attempt <= 2 && begins == p.attempt - 1)
    && (p.InTx? ==> begins == p.attempt)
  }

  lemma StepTells(h: Hasher, w: World, e: Event, c: nat, begins: nat)
    requires Enabled(w, e) && c in w.calls && Tells(w.calls[c], begins)
    ensures c in Next(h, w, e).calls
    ensures Tells(Next(h, w, e).calls[c], begins + if e == Begin(c) then 1 else 0)
  {
  }

  /** Each call starts at most two transactions. */
  lemma {:induction false} AtMostTwoAttempts(h: Hasher, w: World, es: seq<Event>, c: nat)
    requires Start(w) && IsRun(h, w, es) && c in w.calls
    ensures c in After(h, w, es).calls && Tells(After(h, w, es).calls[c], Begins(es, c))
    ensures Begins(es, c) <= 2
  {
    if es != [] {
      AtMostTwoAttempts(h, w, es[..|es| - 1], c);
      StepTells(h, After(h, w, es[..|es| - 1]), es[|es| - 1], c, Begins(es[..|es| - 1], c));
    }
  }

  /** A signal is only ever sent for a version that is in the store. */
  lemma SignalsFollowCommits(h: Hasher, w: World, es: seq<Event>, i: nat)
    requires Start(w) && IsRun(h, w, es) && i < |After(h, w, es).signals|
    ensures 1 <= After(h, w, es).signals[i] <= CurrentVersion(After(h, w, es).db.versions)
  {
    RunKeepsInv(h, w, es);
    var db := After(h, w, es).db;
    forall j | 0 <= j < |db.versions| ensures db.versions[j].number == j + 1 {
      assert VersionAt(h, w.db.doc, w.edits, db, j);
    }
    VersionCount(db.versions);
  }

  /** Any call whose edit works can be rejected although its edit became a version. */
  lemma RejectedWithTrace(h: Hasher, w: World, c: nat) returns (es: seq<Event>)
    requires Start(w) && c in w.calls && w.edits[c](1, w.db.doc).Some?
    ensures IsRun(h, w, es) && c in After(h, w, es).calls && After(h, w, es).calls[c] == Rejected(HydrateFailed(1))
    ensures VersionsOf(After(h, w, es).db.versions, c) == 1
  {
    var w1 := Extend(h, w, [], Begin(c));
    es := [] + [Begin(c)];
    assert !VersionTaken(w1.db.versions, 1) && !SeqTaken(w1.db.audit, 1);
    var w2 := Extend(h, w, es, Commit(c));
    es := es + [Commit(c)];
    assert w2.calls[c] == Committed(1);
    var w3 := Extend(h, w, es, Hydrate(c, false));
    es := es + [Hydrate(c, false)];
    RejectedLeavesTraceIff(h, w, es, c);
  }

  lemma Extend(h: Hasher, w: World, es: seq<Event>, e: Event) returns (w': World)
    requires IsRun(h, w, es) && Enabled(After(h, w, es), e)
    ensures IsRun(h, w, es + [e]) && w' == After(h, w, es + [e]) == Next(h, After(h, w, es), e)
  {
    assert (es + [e])[..|es|] == es;
    w' := Next(h, After(h, w, es), e);
  }

  // ------------------------------------------------------------------------ the writer

  lemma {:induction false} RunsJoin(h: Hasher, w: World, a: seq<Event>, b: seq<Event>)
    requires IsRun(h, w, a) && IsRun(h, After(h, w, a), b)
    ensures IsRun(h, w, a + b) && After(h, w, a + b) == After(h, After(h, w, a), b)
  {
    if b == [] {
      assert a + b == a;
    } else {
      RunsJoin(h, w, a, b[..|b| - 1]);
      assert (a + b)[..|a + b| - 1] == a + b[..|b| - 1];
    }
  }

  /** Nothing in `es` is a step of call `c`. */
  ghost predicate Others(es: seq<Event>, c: nat) {
    forall i :: 0 <= i < |es| ==> es[i].OtherAudit? || es[i].call != c
  }

  lemma {:induction false} OthersKeepPhase(h: Hasher, w: World, es: seq<Event>, c: nat)
    requires IsRun(h, w, es) && Others(es, c) && c in w.calls && c in w.edits
    ensures var w' := After(h, w, es);
            c in w'.calls && w'.calls[c] == w.calls[c] && w'.edits == w.edits
  {
    if es != [] {
      OthersKeepPhase(h, w, es[..|es| - 1], c);
    }
  }

  datatype Result = Ok(version: nat) | Threw(reason: Reason)

  /** What the surroundings do during one call: the steps of everyone else at each await,
      and which of its own awaits fail. */
  datatype Surroundings = Surroundings(
    meanwhile: (nat, World) -> seq<Event>, editError: Error, conflict: Error, fault: nat -> Option<Error>,
    hydrates: bool, emits: bool)

  ghost predicate Fair(h: Hasher, s: Surroundings, c: nat) {
    && IsUniqueViolation(s.conflict) && !IsEntityNameConflict(s.conflict)
    && forall n, w :: IsRun(h, w, s.meanwhile(n, w)) && Others(s.meanwhile(n, w), c)
  }

  class DurableConfigWriter {
    const hash: Hasher
    var world: World

    constructor (hash: Hasher, world: World)
      ensures this.hash == hash && this.world == world
    {
      this.hash, this.world := hash, world;
    }

    /** One own step of a call. */
    method Step(e: Event, ghost start: World, ghost before: seq<Event>) returns (ghost trace: seq<Event>)
      requires IsRun(hash, start, before) && world == After(hash, start, before) && Enabled(world, e)
      modifies this`world
      ensures trace == before + [e] && IsRun(hash, start, trace) && world == After(hash, start, trace)
      ensures world == Next(hash, old(world), e)
    {
      ghost var w' := Extend(hash, start, before, e);
      trace := before + [e];
      world := Next(hash, world, e);
    }

    /** An await: everyone else may step. */
    method Await(n: nat, s: Surroundings, c: nat, ghost start: World, ghost before: seq<Event>)
      returns (ghost trace: seq<Event>)
      requires IsRun(hash, start, before) && world == After(hash, start, before)
      requires Fair(hash, s, c) && c in world.calls && c in world.edits
      modifies this`world
      ensures before <= trace && IsRun(hash, start, trace) && world == After(hash, start, trace)
      ensures c in world.calls && world.calls[c] == old(world.calls[c]) && world.edits == old(world.edits)
    {
      var es := s.meanwhile(n, world);
      OthersKeepPhase(hash, world, es, c);
      RunsJoin(hash, start, before, es);
      trace := before + es;
      ghost var first := world;
      for i := 0 to |es|
        invariant IsRun(hash, first, es[..i]) && world == After(hash, first, es[..i])
        invariant IsRun(hash, first, es)
      {
        RunPrefix(hash, first, es, i + 1);
        assert es[..i + 1][..i] == es[..i];
        world := Next(hash, world, es[i]);
      }
      assert es[..|es|] == es;
    }

    /** One transaction: read a snapshot, run the edit, insert the audit and version rows. */
    method Attempt(c: nat, s: Surroundings, ghost start: World, ghost before: seq<Event>)
      returns (error: Option<Error>, ghost trace: seq<Event>)
      requires IsRun(hash, start, before) && world == After(hash, start, before)
      requires Fair(hash, s, c) && c in world.calls && c in world.edits && world.calls[c].Waiting?
      modifies this`world
      ensures before <= trace && IsRun(hash, start, trace) && world == After(hash, start, trace)
      ensures c in world.calls && world.edits == old(world.edits)
      ensures error.None? ==> world.calls[c].Committed?
      ensures error.Some? ==> world.calls[c] == AfterAbort(old(world.calls[c].attempt), error.value)
    {
      var attempt := world.calls[c].attempt;
      trace := Step(Begin(c), start, before);
      trace := Await(attempt, s, c, start, trace);
      var snapshot := world.calls[c].snapshot;
      var after := world.edits[c](attempt, snapshot.doc);
      error := if after.None? then Some(s.editError)
               else if !Fits(world.db, snapshot) then Some(s.conflict)
               else s.fault(attempt);
      if error.Some? {
        trace := Step(Abort(c, error.value), start, trace);
      } else {
        trace := Step(Event.Commit(c), start, trace);
      }
    }

    /** One durable commit with its single retry, then the refresh and the signal. Its steps,
        with everyone else's between them, are a run of the model, and it reports what its
        call came to. */
    method Commit(c: nat, s: Surroundings) returns (r: Result, ghost trace: seq<Event>)
      requires Fair(hash, s, c) && c in world.calls && c in world.edits && world.calls[c] == Waiting(1)
      modifies this`world
      ensures IsRun(hash, old(world), trace) && world == After(hash, old(world), trace)
      ensures c in world.calls
      ensures r.Ok? ==> world.calls[c] == Done(r.version)
      ensures r.Threw? ==> world.calls[c] == Rejected(r.reason)
    {
      ghost var start := world;
      var error: Option<Error>;
      error, trace := Attempt(c, s, start, []);
      if error.Some? {
        if IsEntityNameConflict(error.value) {
          return Threw(Duplicate), trace;
        }
        if !IsUniqueViolation(error.value) {
          return Threw(Thrown(error.value)), trace;
        }
        error, trace := Attempt(c, s, start, trace);
        if error.Some? {
          return Threw(Thrown(error.value)), trace;
        }
      }
      trace := Await(3, s, c, start, trace);
      var version := world.calls[c].version;
      trace := Step(Hydrate(c, s.hydrates), start, trace);
      if !s.hydrates {
        return Threw(HydrateFailed(version)), trace;
      }
      trace := Await(4, s, c, start, trace);
      trace := Step(Emit(c, s.emits), start, trace);
      return Ok(version), trace;
    }
  }

  lemma {:induction false} RunPrefix(h: Hasher, w: World, es: seq<Event>, n: nat)
    requires IsRun(h, w, es) && n <= |es|
    ensures IsRun(h, w, es[..n])
  {
    if n == |es| {
      assert es[..n] == es;
    } else {
      RunPrefix(h, w, es[..|es| - 1], n);
      assert es[..|es| - 1][..n] == es[..n];
    }
  }
}
