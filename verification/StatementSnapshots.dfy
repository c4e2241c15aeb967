/**
 * Durable config commits when every statement of a transaction reads a fresh snapshot, which
 * is what a transaction gets that asks for no isolation level.
 *
 * A transaction runs its edit, exports the document query by query, takes the audit lock,
 * reads the next version number and commits. The lock is held to the end, so the number is
 * always free and nothing fails; but other transactions commit between the queries and the
 * lock, and then the recorded document is not the live one.
 */
module StatementSnapshots {
  import opened Common
  import D = DurableCommit

  type Doc = D.Doc

  /** Which of the export's `count` queries reads a row. */
  datatype Layout = Layout(count: nat, query: string -> nat)

  ghost predicate Covers(l: Layout) {
    forall k :: l.query(k) < l.count
  }

  /** What a transaction's edit read, and what it made of it. */
  datatype Work = Work(attempt: nat, read: Doc, edited: Doc)

  /** The edit changed this row. */
  predicate Own(t: Work, k: string) {
    D.Row(t.edited, k) != D.Row(t.read, k)
  }

  /** What a transaction sees, and what it leaves: its own rows over the committed ones. */
  function Seen(committed: Doc, t: Work): Doc {
    D.Land(committed, t.read, t.edited)
  }

  datatype Phase =
    | Waiting(attempt: nat)
    | Exporting(t: Work, exported: Doc, n: nat)
    | Locked(t: Work, exported: Doc, auditSeq: nat)
    | Numbered(t: Work, exported: Doc, auditSeq: nat, number: nat)
    | Committed(version: nat)
    | Rejected

  datatype World = World(db: D.Db, edits: map<nat, D.Edit>, calls: map<nat, Phase>, lock: Option<nat>)

  datatype Event =
    | Edit(call: nat)
    | Query(call: nat)
    | Lock(call: nat)
    | ReadVersion(call: nat)
    | Commit(call: nat)
    | Abort(call: nat, error: D.Error)
    | OtherAudit(hash: nat)

  predicate Holds(p: Phase) {
    p.Locked? || p.Numbered?
  }

  predicate InTx(p: Phase) {
    p.Exporting? || Holds(p)
  }

  predicate Enabled(l: Layout, w: World, e: Event) {
    if e.OtherAudit? then w.lock.None?
    else
      && e.call in w.calls && e.call in w.edits
      && var p := w.calls[e.call];
         match e
         case Edit(c) => p.Waiting? && w.edits[c](p.attempt, w.db.doc).Some?
         case Query(_) => p.Exporting? && p.n < l.count
         case Lock(_) => p.Exporting? && p.n == l.count && w.lock.None?
         case ReadVersion(_) => p.Locked?
         case Commit(_) =>
           && p.Numbered? && !D.VersionTaken(w.db.versions, p.number)
           && !D.SeqTaken(w.db.audit, p.auditSeq)
         case Abort(_, _) => InTx(p) || p.Waiting?
         case OtherAudit(_) => true
  }

  /** The rows of query `n`, as seen now, put into the export. */
  function Added(l: Layout, n: nat, exported: Doc, seen: Doc): Doc {
    map k | k in exported.Keys + seen.Keys && (if l.query(k) == n then k in seen else k in exported)
      :: if l.query(k) == n then seen[k] else exported[k]
  }

  function AfterCommit(h: D.Hasher, db: D.Db, p: Phase, c: nat): D.Db
    requires p.Numbered?
  {
    D.Db(Seen(db.doc, p.t),
         db.versions + [D.Version(p.number, p.exported, h(p.exported), p.auditSeq, c, p.t.attempt)],
         db.audit + [D.AuditRow(p.auditSeq, h(p.exported), Some(c))])
  }

  function AttemptOf(p: Phase): nat
    requires InTx(p) || p.Waiting?
  {
    if p.Waiting? then p.attempt else p.t.attempt
  }

  function AfterAbort(attempt: nat, e: D.Error): Phase {
    if D.AfterAbort(attempt, e).Waiting? then Waiting(2) else Rejected
  }

  function Next(l: Layout, h: D.Hasher, w: World, e: Event): World
    requires Enabled(l, w, e)
  {
    match e
    case Edit(c) =>
      var attempt := w.calls[c].attempt;
      var t := Work(attempt, w.db.doc, w.edits[c](attempt, w.db.doc).value);
      w.(calls := w.calls[c := Exporting(t, map[], 0)])
    case Query(c) =>
      var p := w.calls[c];
      w.(calls := w.calls[c := Exporting(p.t, Added(l, p.n, p.exported, Seen(w.db.doc, p.t)), p.n + 1)])
    case Lock(c) =>
      var p := w.calls[c];
      w.(calls := w.calls[c := Locked(p.t, p.exported, D.AuditHead(w.db.audit) + 1)], lock := Some(c))
    case ReadVersion(c) =>
      var p := w.calls[c];
      w.(calls := w.calls[c := Numbered(p.t, p.exported, p.auditSeq, D.CurrentVersion(w.db.versions) + 1)])
    case Commit(c) =>
      var p := w.calls[c];
      w.(db := AfterCommit(h, w.db, p, c), calls := w.calls[c := Committed(p.number)], lock := None)
    case Abort(c, err) =>
      var p := w.calls[c];
      w.(calls := w.calls[c := AfterAbort(AttemptOf(p), err)], lock := if Holds(p) then None else w.lock)
    case OtherAudit(x) =>
      w.(db := w.db.(audit := w.db.audit + [D.AuditRow(D.AuditHead(w.db.audit) + 1, x, None)]))
  }

  ghost predicate Start(w: World) {
    && w.db.versions == [] && w.db.audit == [] && w.lock.None? && w.calls.Keys == w.edits.Keys
    && forall c :: c in w.calls ==> w.calls[c] == Waiting(1)
  }

  ghost predicate IsRun(l: Layout, h: D.Hasher, w: World, es: seq<Event>)
    decreases |es|, 0
  {
    es == []
    || (IsRun(l, h, w, es[..|es| - 1]) && Enabled(l, After(l, h, w, es[..|es| - 1]), es[|es| - 1]))
  }

  ghost function After(l: Layout, h: D.Hasher, w: World, es: seq<Event>): World
    requires IsRun(l, h, w, es)
    decreases |es|, 1
  {
    if es == [] then w else Next(l, h, After(l, h, w, es[..|es| - 1]), es[|es| - 1])
  }

  /** The live document before event `i` of a run. */
  ghost function DocAt(l: Layout, h: D.Hasher, w: World, es: seq<Event>, i: nat): Doc
    requires IsRun(l, h, w, es) && i <= |es|
    decreases |es|
  {
    if i == |es| then After(l, h, w, es).db.doc else DocAt(l, h, w, es[..|es| - 1], i)
  }

  // ------------------------------------------------------- the number is always free

  ghost predicate Audited(h: D.Hasher, v: D.Version, audit: seq<D.AuditRow>) {
    && v.hash == h(v.doc) && 1 <= v.auditSeq <= |audit|
    && audit[v.auditSeq - 1] == D.AuditRow(v.auditSeq, v.hash, Some(v.call))
  }

  /** Versions and audit rows are numbered 1, 2, 3, ... */
  ghost predicate Numbers(db: D.Db) {
    && (forall i :: 0 <= i < |db.versions| ==> db.versions[i].number == i + 1)
    && (forall i :: 0 <= i < |db.audit| ==> db.audit[i].seqNo == i + 1)
  }

  ghost predicate PhaseFits(db: D.Db, lock: Option<nat>, c: nat, p: Phase) {
    && (Holds(p) <==> lock == Some(c))
    && (Holds(p) ==> p.auditSeq == |db.audit| + 1)
    && (p.Numbered? ==> p.number == |db.versions| + 1)
  }

  ghost predicate Inv(h: D.Hasher, w: World) {
    && w.calls.Keys == w.edits.Keys && Numbers(w.db)
    && (forall i :: 0 <= i < |w.db.versions| ==> Audited(h, w.db.versions[i], w.db.audit))
    && forall c :: c in w.calls ==> PhaseFits(w.db, w.lock, c, w.calls[c])
  }

  lemma Counts(db: D.Db)
    requires Numbers(db)
    ensures D.CurrentVersion(db.versions) == |db.versions| && D.AuditHead(db.audit) == |db.audit|
  {
    D.VersionCount(db.versions);
    D.AuditCount(db.audit);
  }

  lemma StepKeepsInv(l: Layout, h: D.Hasher, w: World, e: Event)
    requires Inv(h, w) && Enabled(l, w, e)
    ensures Inv(h, Next(l, h, w, e))
  {
    Counts(w.db);
    if !e.OtherAudit? {
      assert PhaseFits(w.db, w.lock, e.call, w.calls[e.call]);
    }
    var w' := Next(l, h, w, e);
    forall c | c in w'.calls ensures PhaseFits(w'.db, w'.lock, c, w'.calls[c]) {
      assert PhaseFits(w.db, w.lock, c, w.calls[c]);
    }
    forall i | 0 <= i < |w'.db.versions| ensures Audited(h, w'.db.versions[i], w'.db.audit) {
      assert i < |w.db.versions| ==> Audited(h, w.db.versions[i], w.db.audit);
    }
  }

  lemma {:induction false} RunKeepsInv(l: Layout, h: D.Hasher, w: World, es: seq<Event>)
    requires Start(w) && IsRun(l, h, w, es)
    ensures Inv(h, After(l, h, w, es)) && After(l, h, w, es).edits == w.edits
  {
    if es != [] {
      RunKeepsInv(l, h, w, es[..|es| - 1]);
      StepKeepsInv(l, h, After(l, h, w, es[..|es| - 1]), es[|es| - 1]);
    }
  }

  /** No transaction ever loses the race for its version number: whoever has read one can
      commit it. So under statement snapshots a stale transaction is not refused. */
  lemma NumberIsAlwaysFree(l: Layout, h: D.Hasher, w: World, es: seq<Event>, c: nat)
    requires Start(w) && IsRun(l, h, w, es) && c in After(l, h, w, es).calls && After(l, h, w, es).calls[c].Numbered?
    ensures Enabled(l, After(l, h, w, es), Commit(c))
  {
    RunKeepsInv(l, h, w, es);
    var w' := After(l, h, w, es);
    assert PhaseFits(w'.db, w'.lock, c, w'.calls[c]);
  }

  /** Versions are still 1, 2, 3, ... each with its document's hash and its audit row. */
  lemma VersionsAreNumbered(l: Layout, h: D.Hasher, w: World, es: seq<Event>, i: nat)
    requires Start(w) && IsRun(l, h, w, es) && i < |After(l, h, w, es).db.versions|
    ensures var db := After(l, h, w, es).db;
            && db.versions[i].number == i + 1 && Audited(h, db.versions[i], db.audit)
  {
    RunKeepsInv(l, h, w, es);
  }

  // ------------------------------------------------------------- what a transaction saw

  /** Where the call's last edit ran, or -1. */
  function LastEdit(es: seq<Event>, c: nat): int {
    if es == [] then -1
    else if es[|es| - 1] == Edit(c) then |es| - 1
    else LastEdit(es[..|es| - 1], c)
  }

  lemma AddedRow(l: Layout, n: nat, exported: Doc, seen: Doc, k: string)
    ensures D.Row(Added(l, n, exported, seen), k) == if l.query(k) == n then D.Row(seen, k) else D.Row(exported, k)
  {
  }

  function Queries(l: Layout, p: Phase): nat
    requires InTx(p)
  {
    if p.Exporting? then p.n else l.count
  }

  /** Query `i` ran at event `at[i]`, after the edit and after the queries before it. */
  ghost predicate QueriedAt(es: seq<Event>, c: nat, at: seq<nat>) {
    && (forall i :: 0 <= i < |at| ==> LastEdit(es, c) < at[i] < |es| && es[at[i]] == Query(c))
    && (forall i, j :: 0 <= i < j < |at| ==> at[i] < at[j])
  }

  /** Each exported row is the transaction's own, or what was live when its query ran. */
  ghost predicate Exports(
    l: Layout, h: D.Hasher, w: World, es: seq<Event>, t: Work, exported: Doc, at: seq<nat>)
    requires IsRun(l, h, w, es) && forall i :: 0 <= i < |at| ==> at[i] < |es|
  {
    forall k :: l.query(k) < |at| ==>
      D.Row(exported, k) == D.Landed(DocAt(l, h, w, es, at[l.query(k)]), t.read, t.edited, k)
  }

  ghost predicate Traced(l: Layout, h: D.Hasher, w: World, es: seq<Event>, c: nat, p: Phase, at: seq<nat>)
    requires IsRun(l, h, w, es)
  {
    && InTx(p) && |at| == Queries(l, p) && QueriedAt(es, c, at) && 0 <= LastEdit(es, c) < |es|
    && p.t.read == DocAt(l, h, w, es, LastEdit(es, c))
    && c in w.edits && w.edits[c](p.t.attempt, p.t.read) == Some(p.t.edited)
    && Exports(l, h, w, es, p.t, p.exported, at)
  }

  /** One more event that is not the call's. */
  lemma TracedLater(l: Layout, h: D.Hasher, w: World, es: seq<Event>, c: nat, p: Phase, p': Phase, at: seq<nat>)
    requires es != [] && IsRun(l, h, w, es) && Traced(l, h, w, es[..|es| - 1], c, p, at)
    requires es[|es| - 1] != Edit(c) && InTx(p') && p'.t == p.t && p'.exported == p.exported
    requires Queries(l, p') == Queries(l, p)
    ensures Traced(l, h, w, es, c, p', at)
  {
  }

  lemma TracedQuery(l: Layout, h: D.Hasher, w: World, es: seq<Event>, c: nat, p: Phase, at: seq<nat>)
    requires es != [] && IsRun(l, h, w, es) && Traced(l, h, w, es[..|es| - 1], c, p, at)
    requires es[|es| - 1] == Query(c) && p.Exporting?
    ensures var m := es[..|es| - 1];
            var exported := Added(l, p.n, p.exported, Seen(After(l, h, w, m).db.doc, p.t));
            Traced(l, h, w, es, c, Exporting(p.t, exported, p.n + 1), at + [|m|])
  {
    var m := es[..|es| - 1];
    var live, at' := After(l, h, w, m).db.doc, at + [|m|];
    assert DocAt(l, h, w, es, |m|) == live;
    forall k | l.query(k) < |at'|
      ensures D.Row(Added(l, p.n, p.exported, Seen(live, p.t)), k)
           == D.Landed(DocAt(l, h, w, es, at'[l.query(k)]), p.t.read, p.t.edited, k)
    {
      AddedRow(l, p.n, p.exported, Seen(live, p.t), k);
      D.LandRow(live, p.t.read, p.t.edited, k);
    }
  }

  lemma TracedEdit(l: Layout, h: D.Hasher, w: World, es: seq<Event>, c: nat)
    requires es != [] && IsRun(l, h, w, es) && es[|es| - 1] == Edit(c)
    requires After(l, h, w, es[..|es| - 1]).edits == w.edits
    ensures Traced(l, h, w, es, c, After(l, h, w, es).calls[c], [])
  {
    assert DocAt(l, h, w, es, |es| - 1) == After(l, h, w, es[..|es| - 1]).db.doc;
  }

  /** How a call got where it is by the last event of a run. */
  lemma CameFrom(l: Layout, h: D.Hasher, w: World, e: Event, c: nat)
    requires Enabled(l, w, e) && c in w.calls && e != Edit(c)
    requires c in Next(l, h, w, e).calls && InTx(Next(l, h, w, e).calls[c])
    ensures InTx(w.calls[c])
    ensures var p, p' := w.calls[c], Next(l, h, w, e).calls[c];
            if e == Query(c) then
              p.Exporting? && p' == Exporting(p.t, Added(l, p.n, p.exported, Seen(w.db.doc, p.t)), p.n + 1)
            else p'.t == p.t && p'.exported == p.exported && Queries(l, p') == Queries(l, p)
  {
  }

  lemma {:induction false} WorkIsTraced(l: Layout, h: D.Hasher, w: World, es: seq<Event>, c: nat)
    returns (at: seq<nat>)
    requires Start(w) && IsRun(l, h, w, es) && c in After(l, h, w, es).calls && InTx(After(l, h, w, es).calls[c])
    ensures Traced(l, h, w, es, c, After(l, h, w, es).calls[c], at)
    decreases |es|
  {
    assert es != [];
    var m, e := es[..|es| - 1], es[|es| - 1];
    RunKeepsInv(l, h, w, m);
    if e == Edit(c) {
      TracedEdit(l, h, w, es, c);
      return [];
    }
    var w' := After(l, h, w, m);
    CameFrom(l, h, w', e, c);
    at := WorkIsTraced(l, h, w, m, c);
    if e == Query(c) {
      TracedQuery(l, h, w, es, c, w'.calls[c], at);
      at := at + [|m|];
    } else {
      TracedLater(l, h, w, es, c, w'.calls[c], After(l, h, w, es).calls[c], at);
    }
  }

  // ------------------------------------------------------------------------ main results

  /** The rows the edit left alone are as they were when their queries ran. */
  ghost predicate Undisturbed(l: Layout, h: D.Hasher, w: World, es: seq<Event>, t: Work, at: seq<nat>)
    requires Covers(l) && IsRun(l, h, w, es) && |at| == l.count && forall i :: 0 <= i < |at| ==> at[i] < |es|
  {
    forall k :: !Own(t, k) ==> D.Row(DocAt(l, h, w, es, at[l.query(k)]), k) == D.Row(DocAt(l, h, w, es, |es|), k)
  }

  lemma ExportIsLiveIff(l: Layout, h: D.Hasher, w: World, es: seq<Event>, t: Work, exported: Doc, at: seq<nat>)
    requires Covers(l) && IsRun(l, h, w, es) && |at| == l.count && forall i :: 0 <= i < |at| ==> at[i] < |es|
    requires Exports(l, h, w, es, t, exported, at)
    ensures exported == Seen(DocAt(l, h, w, es, |es|), t) <==> Undisturbed(l, h, w, es, t, at)
  {
    var live := DocAt(l, h, w, es, |es|);
    forall k ensures D.Row(Seen(live, t), k) == D.Landed(live, t.read, t.edited, k) {
      D.LandRow(live, t.read, t.edited, k);
    }
    if Undisturbed(l, h, w, es, t, at) {
      forall k ensures D.Row(exported, k) == D.Row(Seen(live, t), k) {
        assert D.Row(exported, k) == D.Landed(DocAt(l, h, w, es, at[l.query(k)]), t.read, t.edited, k);
      }
      D.SameRows(exported, Seen(live, t));
    } else {
      var k :| !Own(t, k) && D.Row(DocAt(l, h, w, es, at[l.query(k)]), k) != D.Row(live, k);
      assert D.Row(exported, k) == D.Landed(DocAt(l, h, w, es, at[l.query(k)]), t.read, t.edited, k);
      assert D.Row(Seen(live, t), k) == D.Row(live, k);
    }
  }

  /** What a call's commit does, at the end of a run. */
  lemma CommitRecords(l: Layout, h: D.Hasher, w: World, es: seq<Event>, c: nat)
    requires IsRun(l, h, w, es) && es != [] && es[|es| - 1] == Commit(c)
    ensures var p := After(l, h, w, es[..|es| - 1]).calls[c];
            && p.Numbered? && After(l, h, w, es).db == AfterCommit(h, After(l, h, w, es[..|es| - 1]).db, p, c)
  {
  }

  /** At every commit of every run: the recorded document is the live one exactly when, for
      every row that the call's own edit left alone, what was live when the export read it
      is live still. `t` is what the call's last edit read and made, and `at` tells when each
      query of the export ran. */
  lemma RecordedIsLiveIff(l: Layout, h: D.Hasher, w: World, es: seq<Event>, c: nat) returns (t: Work, at: seq<nat>)
    requires Covers(l) && Start(w) && IsRun(l, h, w, es) && es != [] && es[|es| - 1] == Commit(c)
    ensures var before, db := es[..|es| - 1], After(l, h, w, es).db;
            && c in w.edits && w.edits[c](t.attempt, t.read) == Some(t.edited)
            && 0 <= LastEdit(before, c) < |before| && t.read == DocAt(l, h, w, before, LastEdit(before, c))
            && |at| == l.count && QueriedAt(before, c, at)
            && db.versions != [] && db.versions[|db.versions| - 1].attempt == t.attempt
            && (db.versions[|db.versions| - 1].doc == db.doc <==> Undisturbed(l, h, w, before, t, at))
  {
    var m := es[..|es| - 1];
    CommitRecords(l, h, w, es, c);
    var p := After(l, h, w, m).calls[c];
    at := WorkIsTraced(l, h, w, m, c);
    t := p.t;
    ExportIsLiveIff(l, h, w, m, t, p.exported, at);
  }

  // --------------------------------------------------- commits that nobody overtakes

  /** No commit from event `from` on. */
  ghost predicate NoCommitSince(es: seq<Event>, from: int) {
    forall i :: from <= i < |es| && 0 <= i ==> !es[i].Commit?
  }

  lemma {:induction false} DocStays(l: Layout, h: D.Hasher, w: World, es: seq<Event>, from: int, i: nat)
    requires IsRun(l, h, w, es) && NoCommitSince(es, from) && from <= i <= |es| && 0 <= from < |es|
    ensures DocAt(l, h, w, es, i) == DocAt(l, h, w, es, |es|)
    decreases |es|
  {
    if i < |es| {
      var m := es[..|es| - 1];
      if from < |m| {
        DocStays(l, h, w, m, from, i);
      }
      assert DocAt(l, h, w, m, |m|) == After(l, h, w, m).db.doc;
    }
  }

  /** A call during whose transaction nobody commits records its edit of the document before
      it, and that is the live one. */
  lemma UndisturbedCommit(l: Layout, h: D.Hasher, w: World, es: seq<Event>, c: nat)
    requires Covers(l) && Start(w) && IsRun(l, h, w, es) && es != [] && es[|es| - 1] == Commit(c)
    requires NoCommitSince(es[..|es| - 1], LastEdit(es[..|es| - 1], c))
    ensures var before, db := After(l, h, w, es[..|es| - 1]).db, After(l, h, w, es).db;
            && db.versions != [] && var v := db.versions[|db.versions| - 1];
            && v.doc == db.doc && v.call == c && c in w.edits && w.edits[c](v.attempt, before.doc) == Some(v.doc)
  {
    var m := es[..|es| - 1];
    CommitRecords(l, h, w, es, c);
    var p := After(l, h, w, m).calls[c];
    var at := WorkIsTraced(l, h, w, m, c);
    var e0 := LastEdit(m, c);
    DocStays(l, h, w, m, e0, e0);
    assert p.t.read == After(l, h, w, m).db.doc;
    forall i | 0 <= i < |at| ensures DocAt(l, h, w, m, at[i]) == DocAt(l, h, w, m, |m|) {
      DocStays(l, h, w, m, e0, at[i]);
    }
    ExportIsLiveIff(l, h, w, m, p.t, p.exported, at);
    D.LandOnSnapshot(p.t.read, p.t.edited);
  }

  /** No call commits during another's transaction that commits too. */
  ghost predicate Serial(es: seq<Event>) {
    es == []
    || (Serial(es[..|es| - 1])
        && (es[|es| - 1].Commit? ==> NoCommitSince(es[..|es| - 1], LastEdit(es[..|es| - 1], es[|es| - 1].call))))
  }

  /** Each version is its call's edit of the version before, and the last one is live. */
  ghost predicate EditsInTurn(doc0: Doc, edits: map<nat, D.Edit>, db: D.Db) {
    && db.doc == D.Head(doc0, db.versions)
    && forall i :: 0 <= i < |db.versions| ==> EditAt(doc0, edits, db.versions, i)
  }

  ghost predicate EditAt(doc0: Doc, edits: map<nat, D.Edit>, vs: seq<D.Version>, i: nat)
    requires i < |vs|
  {
    vs[i].call in edits && edits[vs[i].call](vs[i].attempt, D.Head(doc0, vs[..i])) == Some(vs[i].doc)
  }

  lemma EditsPush(doc0: Doc, edits: map<nat, D.Edit>, db: D.Db, db': D.Db)
    requires EditsInTurn(doc0, edits, db) && |db'.versions| == |db.versions| + 1 && db.versions <= db'.versions
    requires var v := db'.versions[|db.versions|];
             v.doc == db'.doc && v.call in edits && edits[v.call](v.attempt, db.doc) == Some(v.doc)
    ensures EditsInTurn(doc0, edits, db')
  {
    forall i | 0 <= i < |db'.versions| ensures EditAt(doc0, edits, db'.versions, i) {
      assert db'.versions[..i] == db.versions[..i];
      if i < |db.versions| {
        assert EditAt(doc0, edits, db.versions, i);
      } else {
        assert db.versions[..i] == db.versions;
      }
    }
  }

  /** When no call commits during another's transaction, the versions are the edits in turn
      and the live document is the last one, just as with one snapshot per transaction. */
  lemma {:induction false} SerialVersionsAreTheEdits(l: Layout, h: D.Hasher, w: World, es: seq<Event>)
    requires Covers(l) && Start(w) && IsRun(l, h, w, es) && Serial(es)
    ensures EditsInTurn(w.db.doc, w.edits, After(l, h, w, es).db)
  {
    if es != [] {
      var m, e := es[..|es| - 1], es[|es| - 1];
      SerialVersionsAreTheEdits(l, h, w, m);
      if e.Commit? {
        UndisturbedCommit(l, h, w, es, e.call);
        CommitRecords(l, h, w, es, e.call);
        EditsPush(w.db.doc, w.edits, After(l, h, w, m).db, After(l, h, w, es).db);
      }
    }
  }

  // ------------------------------------------------------------------- a stale version

  lemma Extend(l: Layout, h: D.Hasher, w: World, es: seq<Event>, e: Event) returns (w': World)
    requires IsRun(l, h, w, es) && Enabled(l, After(l, h, w, es), e)
    ensures IsRun(l, h, w, es + [e]) && w' == After(l, h, w, es + [e]) == Next(l, h, After(l, h, w, es), e)
  {
    assert (es + [e])[..|es|] == es;
    w' := Next(l, h, After(l, h, w, es), e);
  }

  /** The remaining queries of an export, with nothing in between. */
  lemma {:induction false} QueryOn(l: Layout, h: D.Hasher, w: World, es: seq<Event>, c: nat)
    returns (es': seq<Event>, exported: Doc)
    requires IsRun(l, h, w, es) && c in After(l, h, w, es).calls && c in After(l, h, w, es).edits
    requires After(l, h, w, es).calls[c].Exporting? && After(l, h, w, es).calls[c].n <= l.count
    ensures IsRun(l, h, w, es')
    ensures var m := After(l, h, w, es);
            var p := m.calls[c];
            && After(l, h, w, es') == m.(calls := m.calls[c := Exporting(p.t, exported, l.count)])
            && forall k :: D.Row(exported, k) ==
                 if p.n <= l.query(k) < l.count then D.Row(Seen(m.db.doc, p.t), k) else D.Row(p.exported, k)
    decreases l.count - After(l, h, w, es).calls[c].n
  {
    var m := After(l, h, w, es);
    var p := m.calls[c];
    if p.n == l.count {
      assert m.calls[c := p] == m.calls;
      return es, p.exported;
    }
    var w' := Extend(l, h, w, es, Query(c));
    es', exported := QueryOn(l, h, w, es + [Query(c)], c);
    assert w'.calls[c := Exporting(p.t, exported, l.count)] == m.calls[c := Exporting(p.t, exported, l.count)];
    forall k ensures D.Row(exported, k) ==
                 if p.n <= l.query(k) < l.count then D.Row(Seen(m.db.doc, p.t), k) else D.Row(p.exported, k)
    {
      AddedRow(l, p.n, p.exported, Seen(m.db.doc, p.t), k);
    }
  }

  /** A call edits and exports, with nothing in between: it exports its edit. */
  lemma EditAndExport(l: Layout, h: D.Hasher, w: World, es: seq<Event>, c: nat, edited: Doc) returns (es': seq<Event>)
    requires Covers(l) && IsRun(l, h, w, es) && Enabled(l, After(l, h, w, es), Edit(c))
    requires var m := After(l, h, w, es); m.edits[c](m.calls[c].attempt, m.db.doc) == Some(edited)
    ensures IsRun(l, h, w, es')
    ensures var m := After(l, h, w, es);
            After(l, h, w, es') == m.(calls := m.calls[c :=
              Exporting(Work(m.calls[c].attempt, m.db.doc, edited), edited, l.count)])
  {
    var m := After(l, h, w, es);
    var t := Work(m.calls[c].attempt, m.db.doc, edited);
    var w' := Extend(l, h, w, es, Edit(c));
    var exported;
    es', exported := QueryOn(l, h, w, es + [Edit(c)], c);
    D.LandOnSnapshot(m.db.doc, edited);
    forall k ensures D.Row(exported, k) == D.Row(edited, k) {
      assert l.query(k) < l.count;
    }
    D.SameRows(exported, edited);
    assert w'.calls[c := Exporting(t, edited, l.count)] == m.calls[c := Exporting(t, edited, l.count)];
  }

  /** A call that has exported takes the lock and its number and commits. */
  lemma LockAndCommit(l: Layout, h: D.Hasher, w: World, es: seq<Event>, c: nat) returns (es': seq<Event>)
    requires Start(w) && IsRun(l, h, w, es) && Enabled(l, After(l, h, w, es), Lock(c))
    ensures IsRun(l, h, w, es')
    ensures var m, m' := After(l, h, w, es), After(l, h, w, es');
            var p := m.calls[c];
            && m'.db.doc == Seen(m.db.doc, p.t) && m'.lock.None? && m'.edits == m.edits
            && |m'.db.versions| == |m.db.versions| + 1 && m'.db.versions[|m.db.versions|].doc == p.exported
            && m'.calls.Keys == m.calls.Keys && forall d :: d in m.calls && d != c ==> m'.calls[d] == m.calls[d]
  {
    var w1 := Extend(l, h, w, es, Lock(c));
    es' := es + [Lock(c)];
    var w2 := Extend(l, h, w, es', ReadVersion(c));
    es' := es' + [ReadVersion(c)];
    NumberIsAlwaysFree(l, h, w, es', c);
    var w3 := Extend(l, h, w, es', Commit(c));
    es' := es' + [Commit(c)];
  }

  /** Stale versions do get recorded: whenever one call's edit changes a row that another's
      leaves alone, some run ends with the other's document as the last version, without
      that change, while the live document has it. Both calls commit and none is retried. */
  lemma StaleVersionRecorded(l: Layout, h: D.Hasher, w: World, c: nat, d: nat, mine: Doc, rival: Doc, k: string)
    returns (es: seq<Event>)
    requires Covers(l) && Start(w) && c in w.calls && d in w.calls && c != d
    requires w.edits[c](1, w.db.doc) == Some(mine) && w.edits[d](1, w.db.doc) == Some(rival)
    requires D.Row(mine, k) == D.Row(w.db.doc, k) != D.Row(rival, k)
    ensures IsRun(l, h, w, es) && |After(l, h, w, es).db.versions| == 2
    ensures var db := After(l, h, w, es).db;
            db.versions[1].doc == mine && D.Row(db.doc, k) == D.Row(rival, k) != D.Row(mine, k)
  {
    es := EditAndExport(l, h, w, [], c, mine);
    var t := Work(1, w.db.doc, mine);
    es := EditAndExport(l, h, w, es, d, rival);
    es := LockAndCommit(l, h, w, es, d);
    D.LandOnSnapshot(w.db.doc, rival);
    assert After(l, h, w, es).db.doc == rival && After(l, h, w, es).calls[c] == Exporting(t, mine, l.count);
    es := LockAndCommit(l, h, w, es, c);
    D.LandRow(rival, w.db.doc, mine, k);
  }
}
