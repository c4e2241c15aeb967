/**
 * The tamper-evident audit log: rows linked by a hash, the incremental walker that checks
 * the links, and the anchored checkpoints that expose a rewrite.
 */
module AuditChain {
  import opened Common
  import opened Json
  import opened AuditRow

  function PrevHashAt(rows: seq<Row>, i: nat): Option<Text>
    requires i <= |rows|
  {
    if i == 0 then None else Some(rows[i - 1].rowHash)
  }

  function PrevSeqAt(rows: seq<Row>, i: nat): int
    requires i <= |rows|
  {
    if i == 0 then 0 else rows[i - 1].seqNo
  }

  predicate Linked(rows: seq<Row>, i: nat, h: RowHasher)
    requires i < |rows|
  {
    && rows[i].prevHash == PrevHashAt(rows, i)
    && rows[i].rowHash == h(PrevHashAt(rows, i), rows[i])
    && rows[i].seqNo > PrevSeqAt(rows, i)
  }

  /** Every row carries the hash of itself and its predecessor, with ascending seqs. */
  predicate Intact(rows: seq<Row>, h: RowHasher) {
    forall i :: 0 <= i < |rows| ==> Linked(rows, i, h)
  }

  ghost predicate WellFormedRows(rows: seq<Row>) {
    forall i :: 0 <= i < |rows| ==> WellFormedFields(rows[i].payload)
  }

  lemma IntactPrevLike(rows: seq<Row>, i: nat, h: RowHasher)
    requires Intact(rows, h) && Pins(h) && i <= |rows|
    ensures PrevLike(PrevHashAt(rows, i))
  {
    if i > 0 {
      assert Linked(rows, i - 1, h);
    }
  }

  /** Two intact chains that meet in one row hash are the same chain up to it. */
  lemma {:induction false} HashPinsHistory(a: seq<Row>, i: nat, b: seq<Row>, j: nat, h: RowHasher)
    requires Pins(h) && Intact(a, h) && Intact(b, h)
    requires WellFormedRows(a) && WellFormedRows(b)
    requires i < |a| && j < |b| && a[i].rowHash == b[j].rowHash
    ensures i == j
    ensures forall k :: 0 <= k <= i ==> SameRow(a[k], b[k])
  {
    assert Linked(a, i, h) && Linked(b, j, h);
    IntactPrevLike(a, i, h);
    IntactPrevLike(b, j, h);
    assert h(PrevHashAt(a, i), a[i]) == h(PrevHashAt(b, j), b[j]);
    if i > 0 {
      HashPinsHistory(a, i - 1, b, j - 1, h);
    }
  }

  // --------------------------------------------------------------- the walker

  datatype ChainReport = ChainReport(
    verified: bool,
    count: nat,
    firstSeq: Option<int>,
    lastSeq: Option<int>,
    firstHash: Option<Text>,
    lastHash: Option<Text>,
    firstAt: Option<Text>,
    lastAt: Option<Text>,
    brokenAtSeq: Option<int>)

  /** The first row whose link does not hold, among the first `n`. */
  function FirstBroken(rows: seq<Row>, n: nat, h: RowHasher): (k: Option<nat>)
    requires n <= |rows|
    ensures k.Some? ==> k.value < n
  {
    if n == 0 then None
    else
      var k := FirstBroken(rows, n - 1, h);
      if k.None? && !Linked(rows, n - 1, h) then Some(n - 1) else k
  }

  lemma {:induction false} FirstBrokenMeaning(rows: seq<Row>, n: nat, h: RowHasher)
    requires n <= |rows|
    ensures var k := FirstBroken(rows, n, h);
            var m := if k.None? then n else k.value;
            && (forall i :: 0 <= i < m ==> Linked(rows, i, h))
            && (k.Some? ==> !Linked(rows, k.value, h))
  {
    if n > 0 {
      FirstBrokenMeaning(rows, n - 1, h);
    }
  }

  lemma VerifiedMeansIntact(rows: seq<Row>, h: RowHasher)
    ensures FirstBroken(rows, |rows|, h).None? <==> Intact(rows, h)
    ensures Report(rows, h).verified <==> Intact(rows, h)
  {
    FirstBrokenMeaning(rows, |rows|, h);
  }

  function Report(rows: seq<Row>, h: RowHasher): ChainReport {
    var n := |rows|;
    var broken := FirstBroken(rows, n, h);
    ChainReport(
      broken.None?,
      n,
      if n == 0 then None else Some(rows[0].seqNo),
      if n == 0 then None else Some(rows[n - 1].seqNo),
      if n == 0 then None else Some(rows[0].rowHash),
      if n == 0 then None else Some(rows[n - 1].rowHash),
      if n == 0 then None else Some(rows[0].createdAt),
      if n == 0 then None else Some(rows[n - 1].createdAt),
      if broken.None? then None else Some(rows[broken.value].seqNo))
  }

  lemma {:induction false} FirstBrokenPrefix(rows: seq<Row>, more: seq<Row>, n: nat, h: RowHasher)
    requires n <= |rows|
    ensures FirstBroken(rows + more, n, h) == FirstBroken(rows, n, h)
  {
    if n > 0 {
      FirstBrokenPrefix(rows, more, n - 1, h);
    }
  }

  /** One more row breaks the chain exactly when its own link does not hold. */
  lemma FirstBrokenPush(rows: seq<Row>, row: Row, h: RowHasher)
    ensures var before := FirstBroken(rows, |rows|, h);
            var prev := PrevHashAt(rows, |rows|);
            FirstBroken(rows + [row], |rows| + 1, h) ==
              if before.Some? then before
              else if row.prevHash == prev && h(prev, row) == row.rowHash
                && row.seqNo > PrevSeqAt(rows, |rows|) then None
              else Some(|rows|)
  {
    FirstBrokenPrefix(rows, [row], |rows|, h);
  }

  /** Checks a chain row by row; after the first broken link it only counts. */
  class AuditChainWalker {
    const h: RowHasher
    var prev: Option<Text>
    var prevSeq: int
    var count: nat
    var first: Option<Row>
    var last: Option<Row>
    var brokenAtSeq: Option<int>
    ghost var fed: seq<Row>

    ghost predicate Valid()
      reads this
    {
      var broken := FirstBroken(fed, |fed|, h);
      && count == |fed|
      && first == (if fed == [] then None else Some(fed[0]))
      && last == (if fed == [] then None else Some(fed[|fed| - 1]))
      && brokenAtSeq == (if broken.None? then None else Some(fed[broken.value].seqNo))
      && (broken.None? ==> prev == PrevHashAt(fed, |fed|) && prevSeq == PrevSeqAt(fed, |fed|))
    }

    constructor (h: RowHasher)
      ensures Valid() && fed == [] && this.h == h
    {
      this.h := h;
      prev, prevSeq, count, first, last, brokenAtSeq := None, 0, 0, None, None, None;
      fed := [];
    }

    method Push(row: Row)
      requires Valid()
      modifies this
      ensures Valid() && fed == old(fed) + [row]
    {
      FirstBrokenPush(fed, row, h);
      fed := fed + [row];
      count := count + 1;
      if first == None {
        first := Some(row);
      }
      last := Some(row);
      if brokenAtSeq != None {
        return;
      }
      var linkBroken := row.prevHash != prev || h(prev, row) != row.rowHash;
      var seqBroken := row.seqNo <= prevSeq;
      if linkBroken || seqBroken {
        brokenAtSeq := Some(row.seqNo);
        return;
      }
      prev := Some(row.rowHash);
      prevSeq := row.seqNo;
    }

    method ReportNow() returns (r: ChainReport)
      requires Valid()
      ensures r == Report(fed, h)
    {
      r := ChainReport(
        brokenAtSeq == None,
        count,
        if first == None then None else Some(first.value.seqNo),
        if last == None then None else Some(last.value.seqNo),
        if first == None then None else Some(first.value.rowHash),
        if last == None then None else Some(last.value.rowHash),
        if first == None then None else Some(first.value.createdAt),
        if last == None then None else Some(last.value.createdAt),
        brokenAtSeq);
    }
  }

  method VerifyAuditChain(rows: seq<Row>, h: RowHasher) returns (r: ChainReport)
    ensures r == Report(rows, h)
    ensures r.verified <==> Intact(rows, h)
  {
    var walker := new AuditChainWalker(h);
    for i := 0 to |rows|
      invariant fresh(walker) && walker.Valid() && walker.fed == rows[..i] && walker.h == h
    {
      walker.Push(rows[i]);
    }
    assert rows[..|rows|] == rows;
    r := walker.ReportNow();
    VerifiedMeansIntact(rows, h);
  }

  // ------------------------------------------------------------------ anchors

  /** A signed checkpoint of a chain. */
  datatype Attestation = Attestation(chain: ChainReport, signature: Text)

  datatype RewriteConflict = RewriteConflict(lastSeq: int, anchoredHash: Text, currentHash: Option<Text>)

  datatype RewriteReport = RewriteReport(ok: bool, anchors: nat, conflicts: seq<RewriteConflict>)

  /** The hash the current rows hold for a seq; the last row wins. */
  function HashAt(rows: seq<Row>, s: int): (h: Option<Text>)
    ensures h.Some? ==> exists j :: 0 <= j < |rows| && rows[j].seqNo == s && rows[j].rowHash == h.value
    ensures h.None? ==> forall j :: 0 <= j < |rows| ==> rows[j].seqNo != s
  {
    if rows == [] then None
    else
      var n := |rows| - 1;
      if rows[n].seqNo == s then Some(rows[n].rowHash) else HashAt(rows[..n], s)
  }

  /** What one checkpoint says against the current rows; a checkpoint of an empty chain
      says nothing. */
  function ConflictOf(chain: ChainReport, rows: seq<Row>): Option<RewriteConflict> {
    if chain.lastSeq.None? || chain.lastHash.None? || HashAt(rows, chain.lastSeq.value) == chain.lastHash then None
    else Some(RewriteConflict(chain.lastSeq.value, chain.lastHash.value, HashAt(rows, chain.lastSeq.value)))
  }

  /** What the first `n` checkpoints say. */
  function Conflicts(anchored: seq<Attestation>, n: nat, rows: seq<Row>): seq<RewriteConflict>
    requires n <= |anchored|
  {
    if n == 0 then []
    else
      match ConflictOf(anchored[n - 1].chain, rows)
      case Some(c) => Conflicts(anchored, n - 1, rows) + [c]
      case None => Conflicts(anchored, n - 1, rows)
  }

  method DetectChainRewrite(anchored: seq<Attestation>, rows: seq<Row>) returns (r: RewriteReport)
    ensures r.conflicts == Conflicts(anchored, |anchored|, rows)
    ensures r.ok == (r.conflicts == []) && r.anchors == |anchored|
  {
    var bySeq: map<int, Text> := map[];
    for i := 0 to |rows|
      invariant forall s :: s in bySeq <==> HashAt(rows[..i], s).Some?
      invariant forall s :: s in bySeq ==> HashAt(rows[..i], s) == Some(bySeq[s])
    {
      assert rows[..i + 1][..i] == rows[..i];
      bySeq := bySeq[rows[i].seqNo := rows[i].rowHash];
    }
    assert rows[..|rows|] == rows;
    var conflicts: seq<RewriteConflict> := [];
    for i := 0 to |anchored|
      invariant conflicts == Conflicts(anchored, i, rows)
    {
      var chain := anchored[i].chain;
      if chain.lastSeq == None || chain.lastHash == None {
        continue;
      }
      var currentHash := if chain.lastSeq.value in bySeq then Some(bySeq[chain.lastSeq.value]) else None;
      if currentHash != chain.lastHash {
        conflicts := conflicts + [RewriteConflict(chain.lastSeq.value, chain.lastHash.value, currentHash)];
      }
    }
    r := RewriteReport(conflicts == [], |anchored|, conflicts);
  }

  /** The rows of `past` are still the first rows of `rows`. */
  predicate Extends(rows: seq<Row>, past: seq<Row>) {
    |past| <= |rows| && forall k :: 0 <= k < |past| ==> SameRow(rows[k], past[k])
  }

  lemma {:induction false} AscendingSeqs(rows: seq<Row>, i: nat, j: nat, h: RowHasher)
    requires Intact(rows, h) && i < j < |rows|
    ensures rows[i].seqNo < rows[j].seqNo
  {
    assert Linked(rows, j, h);
    if i < j - 1 {
      AscendingSeqs(rows, i, j - 1, h);
    }
  }

  lemma HashAtIntact(rows: seq<Row>, i: nat, h: RowHasher)
    requires Intact(rows, h) && i < |rows|
    ensures HashAt(rows, rows[i].seqNo) == Some(rows[i].rowHash)
  {
    var j :| 0 <= j < |rows| && rows[j].seqNo == rows[i].seqNo
             && HashAt(rows, rows[i].seqNo) == Some(rows[j].rowHash);
    if i < j { AscendingSeqs(rows, i, j, h); }
    if j < i { AscendingSeqs(rows, j, i, h); }
  }

  /** One checkpoint raises no conflict exactly when the chain it was taken of is still
      the history of the current one. */
  lemma AnchorMatches(rows: seq<Row>, past: seq<Row>, h: RowHasher)
    requires Pins(h) && Intact(rows, h) && Intact(past, h)
    requires WellFormedRows(rows) && WellFormedRows(past)
    ensures ConflictOf(Report(past, h), rows).None? <==> Extends(rows, past)
  {
    if past != [] {
      var last := |past| - 1;
      if HashAt(rows, past[last].seqNo) == Some(past[last].rowHash) {
        var j :| 0 <= j < |rows| && rows[j].seqNo == past[last].seqNo && rows[j].rowHash == past[last].rowHash;
        HashPinsHistory(rows, j, past, last, h);
      }
      if Extends(rows, past) {
        assert SameRow(rows[last], past[last]);
        HashAtIntact(rows, last, h);
      }
    }
  }

  /** `anchored` are checkpoints taken of the chains `pasts`. */
  ghost predicate Checkpoints(anchored: seq<Attestation>, pasts: seq<seq<Row>>, h: RowHasher) {
    |anchored| == |pasts| &&
    forall i :: 0 <= i < |pasts| ==>
      Intact(pasts[i], h) && WellFormedRows(pasts[i]) && anchored[i].chain == Report(pasts[i], h)
  }

  /** One checkpoint: no conflict exactly when the chain extends its past. */
  lemma CleanMeansExtendsOne(
    anchored: seq<Attestation>, i: nat, pasts: seq<seq<Row>>, rows: seq<Row>, h: RowHasher)
    requires Pins(h) && Intact(rows, h) && WellFormedRows(rows)
    requires Checkpoints(anchored, pasts, h) && i < |anchored|
    ensures ConflictOf(anchored[i].chain, rows).None? <==> Extends(rows, pasts[i])
  {
    AnchorMatches(rows, pasts[i], h);
  }

  lemma {:induction false} ConflictShows(anchored: seq<Attestation>, n: nat, rows: seq<Row>, i: nat)
    requires i < n <= |anchored| && ConflictOf(anchored[i].chain, rows).Some?
    ensures |Conflicts(anchored, n, rows)| > 0
  {
    if i < n - 1 {
      ConflictShows(anchored, n - 1, rows, i);
    }
  }

  lemma {:induction false} NoConflict(anchored: seq<Attestation>, n: nat, rows: seq<Row>)
    requires n <= |anchored| && forall i :: 0 <= i < n ==> ConflictOf(anchored[i].chain, rows).None?
    ensures |Conflicts(anchored, n, rows)| == 0
  {
    if n > 0 {
      NoConflict(anchored, n - 1, rows);
    }
  }

  /** A clean rewrite check on an intact chain: it extends every anchored chain. And a
      chain that only grew never raises a conflict. */
  lemma CleanMeansExtends(
    anchored: seq<Attestation>, n: nat, pasts: seq<seq<Row>>, rows: seq<Row>, h: RowHasher)
    requires Pins(h) && Intact(rows, h) && WellFormedRows(rows)
    requires Checkpoints(anchored, pasts, h) && n <= |anchored|
    ensures Conflicts(anchored, n, rows) == [] <==> forall i :: 0 <= i < n ==> Extends(rows, pasts[i])
  {
    if forall i :: 0 <= i < n ==> ConflictOf(anchored[i].chain, rows).None? {
      NoConflict(anchored, n, rows);
    } else {
      var i :| 0 <= i < n && ConflictOf(anchored[i].chain, rows).Some?;
      ConflictShows(anchored, n, rows, i);
    }
    forall i | 0 <= i < n ensures ConflictOf(anchored[i].chain, rows).None? <==> Extends(rows, pasts[i]) {
      CleanMeansExtendsOne(anchored, i, pasts, rows, h);
    }
  }

  function PadStart(t: Text, width: nat): Text
    decreases width - |t|
  {
    if |t| >= width then t else PadStart([48] + t, width)
  }

  /** The sink key of a checkpoint: its head seq, 0 for an empty chain. */
  function KeyFor(att: Attestation): Text {
    PadStart(Decimal(if att.chain.lastSeq.None? then 0 else att.chain.lastSeq.value), 12)
  }

  function Published(sink: map<Text, Attestation>, att: Attestation): map<Text, Attestation> {
    if KeyFor(att) in sink then sink else sink[KeyFor(att) := att]
  }

  function PublishedAll(sink: map<Text, Attestation>, atts: seq<Attestation>): map<Text, Attestation> {
    if atts == [] then sink else Published(PublishedAll(sink, atts[..|atts| - 1]), atts[|atts| - 1])
  }

  class InMemoryAnchor {
    var byKey: map<Text, Attestation>

    constructor ()
      ensures byKey == map[]
    {
      byKey := map[];
    }

    /** The first checkpoint of a head is kept; publishing that head again changes nothing. */
    method Publish(att: Attestation) returns (id: Text)
      modifies this
      ensures byKey == Published(old(byKey), att) && id == KeyFor(att)
    {
      id := KeyFor(att);
      if id !in byKey {
        byKey := byKey[id := att];
      }
    }
  }

  lemma {:induction false} PublishedKeeps(sink: map<Text, Attestation>, atts: seq<Attestation>, k: Text)
    requires k in sink
    ensures k in PublishedAll(sink, atts) && PublishedAll(sink, atts)[k] == sink[k]
  {
    if atts != [] {
      PublishedKeeps(sink, atts[..|atts| - 1], k);
    }
  }

  /** Every checkpoint of the sink is in the listing. */
  ghost predicate Lists(listed: seq<Attestation>, sink: map<Text, Attestation>) {
    forall k :: k in sink ==> sink[k] in listed
  }

  lemma FirstOfHeadIsListed(
    sink: map<Text, Attestation>, att: Attestation, later: seq<Attestation>, listed: seq<Attestation>)
    requires KeyFor(att) !in sink && Lists(listed, PublishedAll(Published(sink, att), later))
    ensures att in listed
  {
    var first := Published(sink, att);
    var k := KeyFor(att);
    assert k in first && first[k] == att;
    PublishedKeeps(first, later, k);
  }

  /** Once a chain is the first anchored at its head, no later publication hides a rewrite
      of it: if any listing of the sink is clean against an intact chain, that chain still
      extends it. */
  lemma AnchoredChainStaysPinned(
    sink: map<Text, Attestation>, att: Attestation, past: seq<Row>, later: seq<Attestation>,
    listed: seq<Attestation>, rows: seq<Row>, h: RowHasher)
    requires Pins(h) && Intact(past, h) && Intact(rows, h) && WellFormedRows(past) && WellFormedRows(rows)
    requires att.chain == Report(past, h)
    requires KeyFor(att) !in sink && Lists(listed, PublishedAll(Published(sink, att), later))
    requires Conflicts(listed, |listed|, rows) == []
    ensures Extends(rows, past)
  {
    FirstOfHeadIsListed(sink, att, later, listed);
    var i :| 0 <= i < |listed| && listed[i] == att;
    CleanListingIsCleanEach(listed, |listed|, i, rows);
    AnchorMatches(rows, past, h);
  }

  lemma {:induction false} CleanListingIsCleanEach(anchored: seq<Attestation>, n: nat, i: nat, rows: seq<Row>)
    requires i < n <= |anchored| && Conflicts(anchored, n, rows) == []
    ensures ConflictOf(anchored[i].chain, rows).None?
  {
    if i < n - 1 {
      CleanListingIsCleanEach(anchored, n - 1, i, rows);
    }
  }
}
