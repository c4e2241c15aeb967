/**
 * Mirroring the durable audit chain to write-once storage in signed batches.
 *
 * A run is a sequence of events: rows are appended, `ship` is called (also while a call
 * is in flight), the process restarts, and each `await` of a call completes or fails. A
 * put stores the object and returns, stores nothing and throws, or stores the object and
 * throws all the same; the cursor moves only when it returns.
 */
module WormShipper {
  import opened Common
  import opened Json
  import opened AuditRow
  import opened AuditTail

  datatype Batch = Batch(firstSeq: int, lastSeq: int, rows: seq<Row>, batchHash: Text, signature: Text)

  /** Batch hash, signer and verifier. */
  datatype Crypto = Crypto(hash: seq<Row> -> Text, sign: Text -> Text, check: (Text, Text) -> bool)

  ghost predicate Sound(c: Crypto) {
    forall t :: c.check(t, c.sign(t))
  }

  function BuildBatch(rows: seq<Row>, c: Crypto): Batch
    requires rows != []
  {
    Batch(rows[0].seqNo, rows[|rows| - 1].seqNo, rows, c.hash(rows), c.sign(c.hash(rows)))
  }

  // ------------------------------------------------------- verifying a mirror

  predicate Authentic(b: Batch, c: Crypto) {
    c.hash(b.rows) == b.batchHash && c.check(b.batchHash, b.signature)
  }

  function Flatten(bs: seq<Batch>): seq<Row> {
    if bs == [] then [] else bs[0].rows + Flatten(bs[1..])
  }

  lemma {:induction false} FlattenJoin(a: seq<Batch>, b: seq<Batch>)
    ensures Flatten(a + b) == Flatten(a) + Flatten(b)
  {
    if a == [] {
      assert a + b == b;
    } else {
      FlattenJoin(a[1..], b);
      assert (a + b)[1..] == a[1..] + b;
      RowsRegroup(a[0].rows, Flatten(a[1..]), Flatten(b));
    }
  }

  lemma RowsRegroup(a: seq<Row>, b: seq<Row>, c: seq<Row>)
    ensures a + (b + c) == a + b + c
  {
  }

  lemma FlattenPush(a: seq<Batch>, b: Batch)
    ensures Flatten(a + [b]) == Flatten(a) + b.rows
  {
    FlattenJoin(a, [b]);
    assert b.rows + [] == b.rows;
  }

  function LastHash(rows: seq<Row>): Option<Text> {
    if rows == [] then None else Some(rows[|rows| - 1].rowHash)
  }

  function LastSeq(rows: seq<Row>): int {
    if rows == [] then 0 else rows[|rows| - 1].seqNo
  }

  /** The row points at the row before it and has the next seq. */
  predicate LinkAt(rows: seq<Row>, i: nat)
    requires i < |rows|
  {
    if i == 0 then rows[i].prevHash == None
    else rows[i].prevHash == Some(rows[i - 1].rowHash) && rows[i].seqNo == rows[i - 1].seqNo + 1
  }

  predicate Chained(rows: seq<Row>) {
    forall i :: 0 <= i < |rows| ==> LinkAt(rows, i)
  }

  /** Batches that are authentic and together form one unbroken chain. */
  predicate Genuine(bs: seq<Batch>, c: Crypto) {
    (forall i :: 0 <= i < |bs| ==> Authentic(bs[i], c)) && Chained(Flatten(bs))
  }

  function InsertByFirst(b: Batch, sorted: seq<Batch>): seq<Batch> {
    if sorted == [] then [b]
    else if b.firstSeq <= sorted[0].firstSeq then [b] + sorted
    else [sorted[0]] + InsertByFirst(b, sorted[1..])
  }

  /** Stable sort by first seq. */
  function SortByFirst(bs: seq<Batch>): seq<Batch> {
    if bs == [] then [] else InsertByFirst(bs[0], SortByFirst(bs[1..]))
  }

  /** Ascending first seqs. */
  predicate InOrder(bs: seq<Batch>) {
    |bs| <= 1 || (bs[0].firstSeq <= bs[1].firstSeq && InOrder(bs[1..]))
  }

  lemma {:induction false} SortKeepsOrder(bs: seq<Batch>)
    requires InOrder(bs)
    ensures SortByFirst(bs) == bs
  {
    if bs != [] {
      SortKeepsOrder(bs[1..]);
      assert bs == [bs[0]] + bs[1..];
    }
  }

  lemma FlattenPrefix(bs: seq<Batch>, i: nat)
    requires i <= |bs|
    ensures Flatten(bs[..i]) <= Flatten(bs)
  {
    FlattenJoin(bs[..i], bs[i..]);
    assert bs[..i] + bs[i..] == bs;
  }

  lemma ChainedPrefix(rows: seq<Row>, part: seq<Row>)
    requires part <= rows && Chained(rows)
    ensures Chained(part)
  {
    forall i | 0 <= i < |part| ensures LinkAt(part, i) {
      assert LinkAt(rows, i);
    }
  }

  lemma NextBatch(bs: seq<Batch>, i: nat)
    requires i < |bs|
    ensures Flatten(bs[..i + 1]) == Flatten(bs[..i]) + bs[i].rows
  {
    FlattenPush(bs[..i], bs[i]);
    assert bs[..i] + [bs[i]] == bs[..i + 1];
  }

  datatype MirrorResult = MirrorResult(ok: bool, rows: nat, lastSeq: int)

  /** What the walk remembers of the rows it has passed. */
  datatype Walk = Walk(prevHash: Option<Text>, expectedSeq: Option<int>, count: nat, lastSeq: int)

  function WalkOf(rows: seq<Row>): Walk {
    Walk(LastHash(rows), if rows == [] then None else Some(LastSeq(rows) + 1), |rows|, LastSeq(rows))
  }

  predicate Follows(w: Walk, r: Row) {
    (w.expectedSeq == None || w.expectedSeq == Some(r.seqNo)) && r.prevHash == w.prevHash
  }

  lemma ChainedPush(rows: seq<Row>, r: Row)
    requires Chained(rows)
    ensures Chained(rows + [r]) <==> Follows(WalkOf(rows), r)
    ensures WalkOf(rows + [r]) == Walk(Some(r.rowHash), Some(r.seqNo + 1), |rows| + 1, r.seqNo)
  {
    var all := rows + [r];
    assert LinkAt(all, |rows|) <==> Follows(WalkOf(rows), r);
    forall i | 0 <= i < |rows| ensures LinkAt(all, i) {
      assert LinkAt(rows, i);
    }
  }

  lemma BrokenRow(bs: seq<Batch>, i: nat, j: nat)
    requires i < |bs| && j < |bs[i].rows|
    requires !Chained(Flatten(bs[..i]) + bs[i].rows[..j + 1])
    ensures !Chained(Flatten(bs))
  {
    NextBatch(bs, i);
    FlattenPrefix(bs, i + 1);
    var part := Flatten(bs[..i]) + bs[i].rows[..j + 1];
    assert part <= Flatten(bs[..i]) + bs[i].rows;
    if Chained(Flatten(bs)) {
      ChainedPrefix(Flatten(bs), part);
    }
  }

  /** The rows of one batch, after the rows `before`. */
  method WalkBatch(rows: seq<Row>, from: Walk, ghost before: seq<Row>) returns (ok: bool, w: Walk, ghost at: nat)
    requires Chained(before) && from == WalkOf(before)
    ensures ok ==> Chained(before + rows) && w == WalkOf(before + rows)
    ensures !ok ==> at < |rows| && !Chained(before + rows[..at + 1])
  {
    w, at := from, 0;
    assert before + rows[..0] == before;
    for j := 0 to |rows|
      invariant Chained(before + rows[..j]) && w == WalkOf(before + rows[..j])
    {
      ChainedPush(before + rows[..j], rows[j]);
      assert before + rows[..j] + [rows[j]] == before + rows[..j + 1];
      if !Follows(w, rows[j]) {
        return false, w, j;
      }
      w := Walk(Some(rows[j].rowHash), Some(rows[j].seqNo + 1), w.count + 1, rows[j].seqNo);
    }
    assert rows[..|rows|] == rows;
    ok := true;
  }

  /** One batch of the walk: its own check, then its rows. */
  method CheckBatch(batches: seq<Batch>, i: nat, c: Crypto, w: Walk) returns (ok: bool, w': Walk)
    requires i < |batches| && Chained(Flatten(batches[..i])) && w == WalkOf(Flatten(batches[..i]))
    ensures ok ==> Authentic(batches[i], c) && Chained(Flatten(batches[..i + 1]))
    ensures ok ==> w' == WalkOf(Flatten(batches[..i + 1]))
    ensures !ok ==> !Genuine(batches, c)
  {
    var batch := batches[i];
    if c.hash(batch.rows) != batch.batchHash || !c.check(batch.batchHash, batch.signature) {
      assert !Authentic(batches[i], c);
      return false, w;
    }
    ghost var at;
    ok, w', at := WalkBatch(batch.rows, w, Flatten(batches[..i]));
    if !ok {
      BrokenRow(batches, i, at);
    }
    NextBatch(batches, i);
  }

  /** Accepts exactly the genuine mirrors, and reports where an accepted one ends. */
  method VerifyMirrorChain(mirror: seq<Batch>, c: Crypto) returns (r: MirrorResult)
    ensures r.ok <==> Genuine(SortByFirst(mirror), c)
    ensures r.ok ==> r.rows == |Flatten(SortByFirst(mirror))| && r.lastSeq == LastSeq(Flatten(SortByFirst(mirror)))
  {
    var batches := SortByFirst(mirror);
    var w := Walk(None, None, 0, 0);
    for i := 0 to |batches|
      invariant Chained(Flatten(batches[..i])) && w == WalkOf(Flatten(batches[..i]))
      invariant forall k :: 0 <= k < i ==> Authentic(batches[k], c)
    {
      var ok, w' := CheckBatch(batches, i, c, w);
      if !ok {
        return MirrorResult(false, w'.count, w'.lastSeq);
      }
      w := w';
    }
    assert batches[..|batches|] == batches;
    return MirrorResult(true, w.count, w.lastSeq);
  }

  // ------------------------------------------------------------------ the runs

  /** Object keys are the batch's seq window: storing the same window again replaces it. */
  function PutObject(mirror: seq<Batch>, b: Batch): seq<Batch> {
    if mirror == [] then [b]
    else if mirror[0].firstSeq == b.firstSeq && mirror[0].lastSeq == b.lastSeq then [b] + mirror[1..]
    else [mirror[0]] + PutObject(mirror[1..], b)
  }

  datatype Phase = Idle | Resolving | Reading | Shipping(pending: seq<Row>, at: nat)

  datatype PutOutcome = Stored | LostAndThrew | StoredAndThrew

  /** The durable chain, the mirror, and the fields of the one shipper. A call is in
      flight exactly when the phase is not idle. */
  datatype World = World(
    chain: seq<Row>, mirror: seq<Batch>, lastShippedSeq: int, resolved: bool, phase: Phase)

  datatype Event =
    | Append(row: Row)
    | Ship
    | Resolve(ok: bool)
    | Read(rows: seq<Row>)
    | ReadFails
    | Put(put: PutOutcome)
    | Restart

  ghost predicate Enabled(w: World, e: Event) {
    match e
    case Append(r) => r.seqNo == |w.chain| + 1 && r.prevHash == LastHash(w.chain)
    case Resolve(_) => w.phase.Resolving?
    case Read(rows) => w.phase.Reading? && ReadsTail(rows, w.chain, w.lastShippedSeq)
    case ReadFails => w.phase.Reading?
    case Put(_) => w.phase.Shipping? && w.phase.at < |w.phase.pending|
    case _ => true
  }

  function NextPhase(pending: seq<Row>, at: nat, max: nat): Phase {
    if at + max < |pending| then Shipping(pending, at + max) else Idle
  }

  /** What a put leads to when `chunk` is next. */
  function AfterPut(w: World, chunk: seq<Row>, put: PutOutcome, c: Crypto, max: nat): World
    requires w.phase.Shipping? && chunk != []
  {
    var mirror := PutObject(w.mirror, BuildBatch(chunk, c));
    match put
    case LostAndThrew => w.(phase := Idle)
    case StoredAndThrew => w.(mirror := mirror, phase := Idle)
    case Stored =>
      w.(mirror := mirror, lastShippedSeq := LastSeq(chunk), phase := NextPhase(w.phase.pending, w.phase.at, max))
  }

  /** One event. `Resolve(false)` is a storage error while listing or reading objects. */
  ghost function Next(w: World, e: Event, c: Crypto, max: nat): World
    requires Enabled(w, e) && max >= 1
  {
    match e
    case Append(r) => w.(chain := w.chain + [r])
    case Ship => if w.phase.Idle? then w.(phase := Resolving) else w
    case Resolve(ok) =>
      if w.resolved then w.(phase := Reading)
      else if ok && Genuine(SortByFirst(w.mirror), c) then
        w.(lastShippedSeq := LastSeq(Flatten(SortByFirst(w.mirror))), resolved := true, phase := Reading)
      else w.(phase := Idle)
    case Read(rows) =>
      var pending := Pending(rows, w.lastShippedSeq);
      w.(phase := if pending == [] then Idle else Shipping(pending, 0))
    case ReadFails => w.(phase := Idle)
    case Put(put) => AfterPut(w, Chunk(w.phase.pending, w.phase.at, max), put, c, max)
    case Restart => w.(lastShippedSeq := 0, resolved := false, phase := Idle)
  }

  /** The states of a run, each from the one before by an enabled event. */
  ghost predicate IsRun(ws: seq<World>, es: seq<Event>, c: Crypto, max: nat)
    requires max >= 1
  {
    && |ws| == |es| + 1
    && forall i :: 0 <= i < |es| ==> Enabled(ws[i], es[i]) && ws[i + 1] == Next(ws[i], es[i], c, max)
  }

  ghost predicate Fresh(w: World) {
    w.chain == [] && w.mirror == [] && w.lastShippedSeq == 0 && !w.resolved && w.phase.Idle?
  }

  // ------------------------------------------------------- what every step keeps

  predicate Durable(chain: seq<Row>) {
    Gapless(chain) && Chained(chain)
  }

  /** A signed batch of consecutive rows of the chain. */
  ghost predicate Copy(b: Batch, chain: seq<Row>, c: Crypto) {
    b.rows != [] && Slice(chain, b.firstSeq - 1, b.rows) && b == BuildBatch(b.rows, c)
  }

  ghost predicate AllCopies(mirror: seq<Batch>, chain: seq<Row>, c: Crypto) {
    forall b :: b in mirror ==> Copy(b, chain, c)
  }

  ghost predicate Inv(w: World, c: Crypto) {
    && Durable(w.chain) && AllCopies(w.mirror, w.chain, c)
    && (w.resolved ==> 0 <= w.lastShippedSeq <= |w.chain|)
    && (w.phase.Reading? || w.phase.Shipping? ==> w.resolved)
    && (w.phase.Shipping? ==>
          Slice(w.chain, w.lastShippedSeq - w.phase.at, w.phase.pending) && w.phase.at < |w.phase.pending|)
  }

  lemma CopyWindow(b: Batch, chain: seq<Row>, c: Crypto)
    requires Gapless(chain) && Copy(b, chain, c)
    ensures 1 <= b.firstSeq && b.lastSeq == b.firstSeq - 1 + |b.rows| <= |chain| && LastSeq(b.rows) == b.lastSeq
    ensures b.rows[0].seqNo == b.firstSeq
  {
    SliceAt(chain, b.firstSeq - 1, b.rows, |b.rows| - 1);
  }

  /** Two copies with the same seq window are the same object. */
  lemma SameWindow(a: Batch, b: Batch, chain: seq<Row>, c: Crypto)
    requires Gapless(chain) && Copy(a, chain, c) && Copy(b, chain, c)
    requires a.firstSeq == b.firstSeq && a.lastSeq == b.lastSeq
    ensures a == b
  {
    CopyWindow(a, chain, c);
    CopyWindow(b, chain, c);
    SliceSame(chain, a.firstSeq - 1, a.rows, b.rows);
  }

  /** Storing a copy adds it, or finds it there already. */
  lemma {:induction false} PutObjectIs(mirror: seq<Batch>, b: Batch, chain: seq<Row>, c: Crypto)
    requires Gapless(chain) && AllCopies(mirror, chain, c) && Copy(b, chain, c)
    ensures PutObject(mirror, b) == if b in mirror then mirror else mirror + [b]
  {
    if mirror == [] {
    } else {
      assert mirror[0] in mirror;
      if mirror[0].firstSeq == b.firstSeq && mirror[0].lastSeq == b.lastSeq {
        SameWindow(mirror[0], b, chain, c);
      } else {
        PutObjectIs(mirror[1..], b, chain, c);
        assert mirror == [mirror[0]] + mirror[1..];
        assert mirror + [b] == [mirror[0]] + (mirror[1..] + [b]);
      }
    }
  }

  lemma {:induction false} InsertHas(b: Batch, sorted: seq<Batch>, x: Batch)
    ensures x in InsertByFirst(b, sorted) <==> x == b || x in sorted
  {
    if sorted != [] {
      InsertHas(b, sorted[1..], x);
      assert sorted == [sorted[0]] + sorted[1..];
    }
  }

  lemma {:induction false} SortHas(bs: seq<Batch>, x: Batch)
    ensures x in SortByFirst(bs) <==> x in bs
  {
    if bs != [] {
      SortHas(bs[1..], x);
      InsertHas(bs[0], SortByFirst(bs[1..]), x);
      assert bs == [bs[0]] + bs[1..];
    }
  }

  lemma SortedCopies(mirror: seq<Batch>, chain: seq<Row>, c: Crypto)
    requires AllCopies(mirror, chain, c)
    ensures AllCopies(SortByFirst(mirror), chain, c)
  {
    forall b | b in SortByFirst(mirror) ensures Copy(b, chain, c) {
      SortHas(mirror, b);
    }
  }

  lemma LastOfFlatten(bs: seq<Batch>)
    requires bs != [] && bs[|bs| - 1].rows != []
    ensures LastSeq(Flatten(bs)) == bs[|bs| - 1].rows[|bs[|bs| - 1].rows| - 1].seqNo
  {
    var last := bs[|bs| - 1];
    FlattenPush(bs[..|bs| - 1], last);
    assert bs[..|bs| - 1] + [last] == bs;
  }

  /** Whatever copies a mirror holds, it ends inside the chain. */
  lemma MirrorEndsInChain(mirror: seq<Batch>, chain: seq<Row>, c: Crypto)
    requires Gapless(chain) && AllCopies(mirror, chain, c)
    ensures 0 <= LastSeq(Flatten(SortByFirst(mirror))) <= |chain|
  {
    var bs := SortByFirst(mirror);
    SortedCopies(mirror, chain, c);
    if bs != [] {
      assert bs[|bs| - 1] in bs;
      CopyWindow(bs[|bs| - 1], chain, c);
      LastOfFlatten(bs);
    }
  }

  lemma BatchWindow(chain: seq<Row>, n: int, chunk: seq<Row>, c: Crypto)
    requires Gapless(chain) && chunk != [] && Slice(chain, n, chunk)
    ensures var b := BuildBatch(chunk, c);
            Copy(b, chain, c) && b.firstSeq == n + 1 && b.lastSeq == LastSeq(chunk) == n + |chunk| <= |chain|
  {
    SliceAt(chain, n, chunk, 0);
    SliceAt(chain, n, chunk, |chunk| - 1);
  }

  /** The next chunk is the chain's rows from the cursor on. */
  lemma NextChunk(w: World, c: Crypto, max: nat) returns (chunk: seq<Row>)
    requires max >= 1 && Inv(w, c) && w.phase.Shipping?
    ensures chunk == Chunk(w.phase.pending, w.phase.at, max) && chunk != []
    ensures |chunk| == ChunkSize(w.phase.pending, w.phase.at, max) && Slice(w.chain, w.lastShippedSeq, chunk)
    ensures var b := BuildBatch(chunk, c);
            && Copy(b, w.chain, c) && b.firstSeq == w.lastShippedSeq + 1
            && b.lastSeq == LastSeq(chunk) == w.lastShippedSeq + |chunk|
            && PutObject(w.mirror, b) == if b in w.mirror then w.mirror else w.mirror + [b]
  {
    var p, at := w.phase.pending, w.phase.at;
    ChunkIsSlice(w.chain, w.lastShippedSeq - at, p, at, max);
    chunk := Chunk(p, at, max);
    BatchWindow(w.chain, w.lastShippedSeq, chunk, c);
    PutObjectIs(w.mirror, BuildBatch(chunk, c), w.chain, c);
  }

  lemma PutStep(w: World, put: PutOutcome, c: Crypto, max: nat)
    requires max >= 1 && Inv(w, c) && Enabled(w, Put(put))
    ensures Inv(Next(w, Put(put), c, max), c) && w.mirror <= Next(w, Put(put), c, max).mirror
  {
    var chunk := NextChunk(w, c, max);
  }

  lemma CopiesGrow(mirror: seq<Batch>, chain: seq<Row>, r: Row, c: Crypto)
    requires AllCopies(mirror, chain, c)
    ensures AllCopies(mirror, chain + [r], c)
  {
    forall b | b in mirror ensures Copy(b, chain + [r], c) {
      SliceGrows(chain, b.firstSeq - 1, b.rows, r);
    }
  }

  lemma AppendStep(w: World, r: Row, c: Crypto, max: nat)
    requires max >= 1 && Inv(w, c) && Enabled(w, Append(r))
    ensures Inv(Next(w, Append(r), c, max), c)
  {
    ChainedPush(w.chain, r);
    CopiesGrow(w.mirror, w.chain, r, c);
    if w.phase.Shipping? {
      SliceGrows(w.chain, w.lastShippedSeq - w.phase.at, w.phase.pending, r);
    }
  }

  lemma ReadStep(w: World, rows: seq<Row>, c: Crypto, max: nat)
    requires max >= 1 && Inv(w, c) && Enabled(w, Read(rows))
    ensures Inv(Next(w, Read(rows), c, max), c)
    ensures |Pending(rows, w.lastShippedSeq)| == |w.chain| - w.lastShippedSeq
  {
    PendingIsSlice(rows, w.chain, w.lastShippedSeq);
  }

  lemma StepKeepsInv(w: World, e: Event, c: Crypto, max: nat)
    requires max >= 1 && Inv(w, c) && Enabled(w, e)
    ensures Inv(Next(w, e, c, max), c)
    ensures w.mirror <= Next(w, e, c, max).mirror
  {
    match e
    case Append(r) => AppendStep(w, r, c, max);
    case Resolve(ok) => MirrorEndsInChain(w.mirror, w.chain, c);
    case Read(rows) => ReadStep(w, rows, c, max);
    case Put(put) => PutStep(w, put, c, max);
    case _ =>
  }

  lemma {:induction false} InvAlways(ws: seq<World>, es: seq<Event>, c: Crypto, max: nat, i: nat)
    requires max >= 1 && IsRun(ws, es, c, max) && Fresh(ws[0]) && i < |ws|
    ensures Inv(ws[i], c)
  {
    if i > 0 {
      InvAlways(ws, es, c, max, i - 1);
      StepKeepsInv(ws[i - 1], es[i - 1], c, max);
    }
  }

  /** What is in the mirror stays there, whatever puts throw. */
  lemma {:induction false} MirrorOnlyGrows(ws: seq<World>, es: seq<Event>, c: Crypto, max: nat, i: nat, j: nat)
    requires max >= 1 && IsRun(ws, es, c, max) && Fresh(ws[0]) && i <= j < |ws|
    ensures ws[i].mirror <= ws[j].mirror
  {
    if i < j {
      MirrorOnlyGrows(ws, es, c, max, i, j - 1);
      InvAlways(ws, es, c, max, j - 1);
      StepKeepsInv(ws[j - 1], es[j - 1], c, max);
    }
  }

  // --------------------------------------------------------------- whole mirrors

  /** The batches' seq windows follow one another from after `from` to `n`. */
  predicate Windows(mirror: seq<Batch>, from: int, n: int) {
    if mirror == [] then from == n
    else mirror[0].firstSeq == from + 1 <= mirror[0].lastSeq && Windows(mirror[1..], mirror[0].lastSeq, n)
  }

  function Shipped(mirror: seq<Batch>): int {
    if mirror == [] then 0 else mirror[|mirror| - 1].lastSeq
  }

  /** The mirror holds, batch after batch, the first rows of the chain. */
  ghost predicate Whole(mirror: seq<Batch>, chain: seq<Row>) {
    var n := Shipped(mirror);
    0 <= n <= |chain| && Flatten(mirror) == chain[..n] && Windows(mirror, 0, n)
  }

  lemma {:induction false} WindowsInOrder(mirror: seq<Batch>, from: int, n: int)
    requires Windows(mirror, from, n)
    ensures from <= n && InOrder(mirror) && n == (if mirror == [] then from else mirror[|mirror| - 1].lastSeq)
    ensures forall i :: 0 <= i < |mirror| ==> from < mirror[i].firstSeq <= mirror[i].lastSeq <= n
  {
    if mirror != [] {
      WindowsInOrder(mirror[1..], mirror[0].lastSeq, n);
      assert forall i :: 0 < i < |mirror| ==> mirror[i] == mirror[1..][i - 1];
    }
  }

  lemma {:induction false} WindowsPush(mirror: seq<Batch>, from: int, n: int, b: Batch)
    requires Windows(mirror, from, n) && b.firstSeq == n + 1 <= b.lastSeq
    ensures Windows(mirror + [b], from, b.lastSeq)
  {
    if mirror == [] {
      assert mirror + [b] == [b];
    } else {
      WindowsPush(mirror[1..], mirror[0].lastSeq, n, b);
      assert (mirror + [b])[1..] == mirror[1..] + [b];
    }
  }

  lemma WholeGrows(mirror: seq<Batch>, chain: seq<Row>, r: Row)
    requires Whole(mirror, chain)
    ensures Whole(mirror, chain + [r])
  {
    assert (chain + [r])[..Shipped(mirror)] == chain[..Shipped(mirror)];
  }

  lemma PrefixThenSlice(chain: seq<Row>, n: int, chunk: seq<Row>)
    requires Slice(chain, n, chunk)
    ensures 0 <= n && n + |chunk| <= |chain| && chain[..n] + chunk == chain[..n + |chunk|]
  {
    SliceIs(chain, n, chunk);
  }

  /** Storing the chain's next rows extends the mirrored prefix by exactly them. */
  lemma WholePush(mirror: seq<Batch>, chain: seq<Row>, chunk: seq<Row>, c: Crypto)
    requires Gapless(chain) && Whole(mirror, chain) && chunk != [] && Slice(chain, Shipped(mirror), chunk)
    ensures var b := BuildBatch(chunk, c);
            b !in mirror && Whole(mirror + [b], chain) && Shipped(mirror + [b]) == Shipped(mirror) + |chunk|
  {
    var b, n := BuildBatch(chunk, c), Shipped(mirror);
    BatchWindow(chain, n, chunk, c);
    WindowsInOrder(mirror, 0, n);
    WindowsPush(mirror, 0, n, b);
    FlattenPush(mirror, b);
    PrefixThenSlice(chain, n, chunk);
  }

  /** A whole mirror passes its own integrity check. */
  lemma WholeIsGenuine(mirror: seq<Batch>, chain: seq<Row>, c: Crypto)
    requires Sound(c) && Durable(chain) && Whole(mirror, chain) && AllCopies(mirror, chain, c)
    ensures SortByFirst(mirror) == mirror && Genuine(mirror, c)
    ensures Flatten(mirror) <= chain && LastSeq(Flatten(mirror)) == Shipped(mirror)
  {
    WindowsInOrder(mirror, 0, Shipped(mirror));
    SortKeepsOrder(mirror);
    ChainedPrefix(chain, Flatten(mirror));
    forall i | 0 <= i < |mirror| ensures Authentic(mirror[i], c) {
      assert Copy(mirror[i], chain, c);
    }
  }

  // -------------------------------------------------------------- broken mirrors

  /** How many batches start at row `first`. */
  function StartsAt(bs: seq<Batch>, first: int): nat {
    if bs == [] then 0 else (if bs[0].firstSeq == first then 1 else 0) + StartsAt(bs[1..], first)
  }

  /** Two batches start at the same row. */
  ghost predicate Broken(mirror: seq<Batch>) {
    exists first :: StartsAt(mirror, first) >= 2
  }

  lemma {:induction false} StartsJoin(a: seq<Batch>, b: seq<Batch>, first: int)
    ensures StartsAt(a + b, first) == StartsAt(a, first) + StartsAt(b, first)
  {
    if a == [] {
      assert a + b == b;
    } else {
      StartsJoin(a[1..], b, first);
      assert (a + b)[1..] == a[1..] + b;
    }
  }

  lemma BrokenStays(mirror: seq<Batch>, mirror': seq<Batch>)
    requires Broken(mirror) && mirror <= mirror'
    ensures Broken(mirror')
  {
    var first :| StartsAt(mirror, first) >= 2;
    StartsJoin(mirror, mirror'[|mirror|..], first);
    assert mirror + mirror'[|mirror|..] == mirror';
  }

  lemma {:induction false} InsertStarts(b: Batch, sorted: seq<Batch>, first: int)
    ensures StartsAt(InsertByFirst(b, sorted), first) == StartsAt([b], first) + StartsAt(sorted, first)
  {
    if sorted != [] && b.firstSeq > sorted[0].firstSeq {
      InsertStarts(b, sorted[1..], first);
    }
  }

  lemma {:induction false} SortStarts(bs: seq<Batch>, first: int)
    ensures StartsAt(SortByFirst(bs), first) == StartsAt(bs, first)
  {
    if bs != [] {
      SortStarts(bs[1..], first);
      InsertStarts(bs[0], SortByFirst(bs[1..]), first);
    }
  }

  ghost predicate SeqsFrom(rows: seq<Row>, n: int) {
    forall i :: 0 <= i < |rows| ==> rows[i].seqNo == n + i
  }

  lemma {:induction false} ChainedSeq(rows: seq<Row>, i: nat)
    requires Chained(rows) && i < |rows|
    ensures rows[i].seqNo == rows[0].seqNo + i
  {
    if i > 0 {
      ChainedSeq(rows, i - 1);
      assert LinkAt(rows, i);
    }
  }

  lemma ChainedSeqs(rows: seq<Row>)
    requires Chained(rows) && rows != []
    ensures SeqsFrom(rows, rows[0].seqNo)
  {
    forall i | 0 <= i < |rows| ensures rows[i].seqNo == rows[0].seqNo + i {
      ChainedSeq(rows, i);
    }
  }

  lemma SeqsRest(a: seq<Row>, b: seq<Row>, n: int)
    requires SeqsFrom(a + b, n)
    ensures SeqsFrom(b, n + |a|) && (a != [] ==> a[0].seqNo == n)
  {
    forall i | 0 <= i < |b| ensures b[i].seqNo == n + |a| + i {
      assert (a + b)[|a| + i] == b[i];
    }
    assert a != [] ==> (a + b)[0] == a[0];
  }

  /** In a chain of rows no two batches start at the same row. */
  lemma {:induction false} StartsOnce(bs: seq<Batch>, n: int, first: int)
    requires forall b :: b in bs ==> b.rows != [] && b.rows[0].seqNo == b.firstSeq
    requires SeqsFrom(Flatten(bs), n)
    ensures StartsAt(bs, first) <= 1 && (StartsAt(bs, first) == 1 ==> n <= first)
  {
    if bs != [] {
      assert bs[0] in bs && forall b :: b in bs[1..] ==> b in bs;
      SeqsRest(bs[0].rows, Flatten(bs[1..]), n);
      StartsOnce(bs[1..], n + |bs[0].rows|, first);
    }
  }

  /** A mirror with two batches from the same row on does not verify. */
  lemma BrokenIsNotGenuine(mirror: seq<Batch>, chain: seq<Row>, c: Crypto)
    requires Gapless(chain) && AllCopies(mirror, chain, c) && Broken(mirror)
    ensures !Genuine(SortByFirst(mirror), c)
  {
    var first :| StartsAt(mirror, first) >= 2;
    var bs := SortByFirst(mirror);
    SortStarts(mirror, first);
    SortedCopies(mirror, chain, c);
    forall b | b in bs ensures b.rows != [] && b.rows[0].seqNo == b.firstSeq {
      CopyWindow(b, chain, c);
    }
    assert bs[0] in bs;
    if Chained(Flatten(bs)) {
      ChainedSeqs(Flatten(bs));
      StartsOnce(bs, Flatten(bs)[0].seqNo, first);
    }
  }

  // ------------------------------------------------------- when the mirror breaks

  predicate Landing(e: Event) {
    e == Put(Stored) || e == Put(StoredAndThrew)
  }

  function AheadAfter(w: World, e: Event, ahead: Option<seq<Row>>, max: nat): Option<seq<Row>> {
    match e
    case Put(put) =>
      if put.LostAndThrew? then ahead
      else if put.StoredAndThrew? && w.phase.Shipping? && w.phase.at <= |w.phase.pending| then
        Some(Chunk(w.phase.pending, w.phase.at, max))
      else None
    case Restart => None
    case _ => ahead
  }

  /** Before event `i`: the rows of a batch that was stored although its put threw, if since
      then nothing was stored and the process did not restart. The cursor is behind it. */
  ghost function Ahead(ws: seq<World>, es: seq<Event>, max: nat, i: nat): Option<seq<Row>>
    requires i <= |es| < |ws|
  {
    if i == 0 then None else AheadAfter(ws[i - 1], es[i - 1], Ahead(ws, es, max, i - 1), max)
  }

  /** How long the chain was when it was last read before event `i`. */
  ghost function LastRead(ws: seq<World>, es: seq<Event>, i: nat): nat
    requires i <= |es| < |ws|
  {
    if i == 0 then 0 else if es[i - 1].Read? then |ws[i - 1].chain| else LastRead(ws, es, i - 1)
  }

  /** A put stores a batch that is longer than the stored one it should repeat: that one was
      not full, and the chain had grown past it when it was last read. */
  predicate ClashesWith(e: Event, ahead: Option<seq<Row>>, lastRead: nat, max: nat) {
    Landing(e) && ahead.Some? && |ahead.value| < max && LastSeq(ahead.value) < lastRead
  }

  ghost predicate Clashes(ws: seq<World>, es: seq<Event>, max: nat, k: nat)
    requires k < |es| < |ws|
  {
    ClashesWith(es[k], Ahead(ws, es, max, k), LastRead(ws, es, k), max)
  }

  /** The cursor is at the end of the mirror, or just before a batch that is ahead of it. */
  ghost predicate CursorFits(w: World, ahead: Option<seq<Row>>, lastRead: nat, max: nat) {
    var n := Shipped(w.mirror);
    match ahead
    case None => w.resolved ==> w.lastShippedSeq == n
    case Some(rows) =>
      && w.resolved && w.mirror != [] && 1 <= |rows| <= max && w.lastShippedSeq == n - |rows|
      && w.mirror[|w.mirror| - 1].rows == rows && LastSeq(rows) == n
      && (w.phase.Shipping? ==> w.phase.at == 0 && w.lastShippedSeq + |w.phase.pending| == lastRead >= n)
  }

  ghost predicate Intact(w: World, ahead: Option<seq<Row>>, lastRead: nat, max: nat) {
    Whole(w.mirror, w.chain) && CursorFits(w, ahead, lastRead, max)
  }

  /** A put from a cursor that is level with the mirror. */
  lemma LevelPut(w: World, put: PutOutcome, lastRead: nat, c: Crypto, max: nat)
    requires max >= 1 && Inv(w, c) && Enabled(w, Put(put)) && Intact(w, None, lastRead, max)
    ensures Intact(Next(w, Put(put), c, max), AheadAfter(w, Put(put), None, max), lastRead, max)
  {
    var chunk := NextChunk(w, c, max);
    WholePush(w.mirror, w.chain, chunk, c);
  }

  lemma AheadBatch(w: World, rows: seq<Row>, lastRead: nat, c: Crypto, max: nat)
    requires Inv(w, c) && Intact(w, Some(rows), lastRead, max)
    ensures var last := w.mirror[|w.mirror| - 1];
            && last in w.mirror && last == BuildBatch(rows, c) && last.firstSeq == w.lastShippedSeq + 1
            && Slice(w.chain, w.lastShippedSeq, rows)
  {
    var last := w.mirror[|w.mirror| - 1];
    assert last in w.mirror && Copy(last, w.chain, c);
    CopyWindow(last, w.chain, c);
  }

  /** Behind a full batch, or one that the chain has not grown past, the next batch is it. */
  lemma NextIsAhead(w: World, rows: seq<Row>, lastRead: nat, c: Crypto, max: nat)
    requires max >= 1 && Inv(w, c) && w.phase.Shipping? && Intact(w, Some(rows), lastRead, max)
    requires |rows| == max || lastRead <= LastSeq(rows)
    ensures Chunk(w.phase.pending, w.phase.at, max) == rows && PutObject(w.mirror, BuildBatch(rows, c)) == w.mirror
    ensures |rows| == ChunkSize(w.phase.pending, 0, max)
  {
    var chunk := NextChunk(w, c, max);
    AheadBatch(w, rows, lastRead, c, max);
    SliceSame(w.chain, w.lastShippedSeq, chunk, rows);
  }

  /** A put from a cursor that is behind a stored batch, which it repeats. */
  lemma RepeatingPut(w: World, put: PutOutcome, rows: seq<Row>, lastRead: nat, c: Crypto, max: nat)
    requires max >= 1 && Inv(w, c) && Enabled(w, Put(put)) && Intact(w, Some(rows), lastRead, max)
    requires |rows| == max || lastRead <= LastSeq(rows)
    ensures Intact(Next(w, Put(put), c, max), AheadAfter(w, Put(put), Some(rows), max), lastRead, max)
  {
    NextIsAhead(w, rows, lastRead, c, max);
  }

  /** A put from a cursor that is behind a stored batch, with more rows than that has. */
  lemma ClashingPut(w: World, e: Event, rows: seq<Row>, lastRead: nat, c: Crypto, max: nat)
    requires max >= 1 && Inv(w, c) && Enabled(w, e) && Intact(w, Some(rows), lastRead, max)
    requires ClashesWith(e, Some(rows), lastRead, max)
    ensures Broken(Next(w, e, c, max).mirror)
  {
    var chunk := NextChunk(w, c, max);
    AheadBatch(w, rows, lastRead, c, max);
    var last, front, b := w.mirror[|w.mirror| - 1], w.mirror[..|w.mirror| - 1], BuildBatch(chunk, c);
    WindowsInOrder(w.mirror, 0, Shipped(w.mirror));
    assert b !in w.mirror;
    TwoStarts(front, last, b);
    assert front + [last] == w.mirror;
  }

  lemma TwoStarts(front: seq<Batch>, a: Batch, b: Batch)
    requires a.firstSeq == b.firstSeq
    ensures Broken(front + [a] + [b])
  {
    StartsJoin(front + [a], [b], b.firstSeq);
    StartsJoin(front, [a], b.firstSeq);
    assert StartsAt(front + [a] + [b], b.firstSeq) >= 2;
  }

  lemma ResolvedCursor(w: World, ok: bool, c: Crypto, max: nat)
    requires Sound(c) && max >= 1 && Inv(w, c) && Enabled(w, Resolve(ok)) && Whole(w.mirror, w.chain)
    ensures var w' := Next(w, Resolve(ok), c, max);
            w'.mirror == w.mirror && w'.chain == w.chain && !w'.phase.Shipping?
            && (w.resolved ==> w'.lastShippedSeq == w.lastShippedSeq && w'.resolved)
            && (!w.resolved && w'.resolved ==> w'.lastShippedSeq == Shipped(w.mirror))
  {
    WholeIsGenuine(w.mirror, w.chain, c);
  }

  /** A step that stores nothing. */
  lemma QuietStep(w: World, e: Event, ahead: Option<seq<Row>>, lastRead: nat, c: Crypto, max: nat)
    requires Sound(c) && max >= 1 && Inv(w, c) && Enabled(w, e) && Intact(w, ahead, lastRead, max) && !e.Put?
    ensures Intact(Next(w, e, c, max), AheadAfter(w, e, ahead, max), if e.Read? then |w.chain| else lastRead, max)
  {
    match e
    case Append(r) => WholeGrows(w.mirror, w.chain, r);
    case Resolve(ok) => ResolvedCursor(w, ok, c, max);
    case Read(rows) => ReadStep(w, rows, c, max);
    case _ =>
  }

  /** One step of an intact world: it breaks the mirror exactly when it clashes. */
  lemma IntactStep(w: World, e: Event, ahead: Option<seq<Row>>, lastRead: nat, c: Crypto, max: nat)
    requires Sound(c) && max >= 1 && Inv(w, c) && Enabled(w, e) && Intact(w, ahead, lastRead, max)
    ensures if ClashesWith(e, ahead, lastRead, max) then Broken(Next(w, e, c, max).mirror)
            else Intact(Next(w, e, c, max), AheadAfter(w, e, ahead, max),
                        if e.Read? then |w.chain| else lastRead, max)
  {
    if !e.Put? {
      QuietStep(w, e, ahead, lastRead, c, max);
    } else if ahead.None? {
      LevelPut(w, e.put, lastRead, c, max);
    } else if ClashesWith(e, ahead, lastRead, max) {
      ClashingPut(w, e, ahead.value, lastRead, c, max);
    } else if e.put != LostAndThrew {
      RepeatingPut(w, e.put, ahead.value, lastRead, c, max);
    }
  }

  /** No put before event `i` clashed. */
  ghost predicate NoClash(ws: seq<World>, es: seq<Event>, max: nat, i: nat)
    requires i <= |es| < |ws|
  {
    forall k :: 0 <= k < i ==> !Clashes(ws, es, max, k)
  }

  lemma {:induction false} IntactUntilClash(ws: seq<World>, es: seq<Event>, c: Crypto, max: nat, i: nat)
    requires Sound(c) && max >= 1 && IsRun(ws, es, c, max) && Fresh(ws[0]) && i < |ws|
    ensures if NoClash(ws, es, max, i) then Intact(ws[i], Ahead(ws, es, max, i), LastRead(ws, es, i), max)
            else Broken(ws[i].mirror)
  {
    if i > 0 {
      var w, e := ws[i - 1], es[i - 1];
      IntactUntilClash(ws, es, c, max, i - 1);
      InvAlways(ws, es, c, max, i - 1);
      StepKeepsInv(w, e, c, max);
      assert NoClash(ws, es, max, i) <==> NoClash(ws, es, max, i - 1) && !Clashes(ws, es, max, i - 1);
      if NoClash(ws, es, max, i - 1) {
        IntactStep(w, e, Ahead(ws, es, max, i - 1), LastRead(ws, es, i - 1), c, max);
      } else {
        BrokenStays(w.mirror, ws[i].mirror);
      }
    }
  }

  // ------------------------------------------------------------------ main results

  /** In every run, the mirror verifies exactly as long as no put clashed: each batch that was
      stored by a put that threw was full, or the chain had not grown past it when it was read
      for the next put that stored something, or the process restarted before that put. A
      mirror that verifies is a prefix of the chain; one that was broken stays so for good. */
  lemma MirrorIsGenuineIff(ws: seq<World>, es: seq<Event>, c: Crypto, max: nat, i: nat)
    requires Sound(c) && max >= 1 && IsRun(ws, es, c, max) && Fresh(ws[0]) && i < |ws|
    ensures Genuine(SortByFirst(ws[i].mirror), c) <==> NoClash(ws, es, max, i)
    ensures Genuine(SortByFirst(ws[i].mirror), c) ==> Flatten(SortByFirst(ws[i].mirror)) <= ws[i].chain
  {
    IntactUntilClash(ws, es, c, max, i);
    InvAlways(ws, es, c, max, i);
    if NoClash(ws, es, max, i) {
      WholeIsGenuine(ws[i].mirror, ws[i].chain, c);
    } else {
      BrokenIsNotGenuine(ws[i].mirror, ws[i].chain, c);
    }
  }

  lemma {:induction false} AtomicPutsNeverClash(ws: seq<World>, es: seq<Event>, max: nat, i: nat)
    requires i <= |es| < |ws| && forall k :: 0 <= k < i ==> es[k] != Put(StoredAndThrew)
    ensures Ahead(ws, es, max, i).None? && NoClash(ws, es, max, i)
  {
    if i > 0 {
      AtomicPutsNeverClash(ws, es, max, i - 1);
    }
  }

  /** With puts that store and return or do neither, in every reachable state the mirror, as a
      verifier reads it, is a prefix of the chain, and a resolved cursor is that prefix's last
      seq: no gap, no repeat, no reorder. */
  lemma MirrorIsAlwaysPrefix(ws: seq<World>, es: seq<Event>, c: Crypto, max: nat, i: nat)
    requires Sound(c) && max >= 1 && IsRun(ws, es, c, max) && Fresh(ws[0]) && i < |ws|
    requires forall k :: 0 <= k < i ==> es[k] != Put(StoredAndThrew)
    ensures Genuine(SortByFirst(ws[i].mirror), c)
    ensures Flatten(SortByFirst(ws[i].mirror)) <= ws[i].chain
    ensures ws[i].resolved ==> ws[i].lastShippedSeq == LastSeq(Flatten(SortByFirst(ws[i].mirror)))
  {
    AtomicPutsNeverClash(ws, es, max, i);
    IntactUntilClash(ws, es, c, max, i);
    InvAlways(ws, es, c, max, i);
    WholeIsGenuine(ws[i].mirror, ws[i].chain, c);
  }

  // ------------------------------------------------------------- a run that breaks it

  lemma Extend(ws: seq<World>, es: seq<Event>, e: Event, c: Crypto, max: nat) returns (ws': seq<World>, es': seq<Event>)
    requires max >= 1 && IsRun(ws, es, c, max) && Enabled(ws[|es|], e)
    ensures IsRun(ws', es', c, max) && ws'[0] == ws[0] && |es'| == |es| + 1
    ensures ws'[|es'|] == Next(ws[|es|], e, c, max)
  {
    ws', es' := ws + [Next(ws[|es|], e, c, max)], es + [e];
  }

  /** A call that resolves (or has) its cursor, reads the chain and stores one batch. */
  lemma CallOnce(
    ws: seq<World>, es: seq<Event>, rows: seq<Row>, put: PutOutcome, c: Crypto, max: nat)
    returns (ws': seq<World>, es': seq<Event>)
    requires Sound(c) && max >= 1 && IsRun(ws, es, c, max) && ws[|es|].phase.Idle? && ws[|es|].lastShippedSeq == 0
    requires ws[|es|].resolved || ws[|es|].mirror == []
    requires rows != [] && ReadsTail(rows, ws[|es|].chain, 0) && Pending(rows, 0) == rows
    ensures IsRun(ws', es', c, max) && ws'[0] == ws[0] && |es'| > |es|
    ensures ws'[|es'|] == AfterPut(World(ws[|es|].chain, ws[|es|].mirror, 0, true, Shipping(rows, 0)),
                                   Chunk(rows, 0, max), put, c, max)
  {
    ws', es' := Extend(ws, es, Ship, c, max);
    assert Genuine([], c);
    ws', es' := Extend(ws', es', Resolve(true), c, max);
    ws', es' := Extend(ws', es', Read(rows), c, max);
    ws', es' := Extend(ws', es', Put(put), c, max);
  }

  lemma ReadOne(a: Row, max: nat)
    requires a.seqNo == 1 && max >= 1
    ensures ReadsTail([a], [a], 0) && Pending([a], 0) == [a] && Chunk([a], 0, max) == [a]
  {
    assert [a][1..] == [] && [a][0..] == [a];
    assert Filter([a], 0) == [a] && Sort([a]) == [a];
  }

  lemma ReadTwo(a: Row, b: Row, max: nat)
    requires a.seqNo == 1 && b.seqNo == 2 && max >= 2
    ensures ReadsTail([a, b], [a, b], 0) && Pending([a, b], 0) == [a, b] && Chunk([a, b], 0, max) == [a, b]
  {
    assert [a, b][1..] == [b] && [b][1..] == [] && [a, b][0..] == [a, b];
    assert Filter([b], 0) == [b] && Sort([b]) == [b];
    assert Filter([a, b], 0) == [a, b];
  }

  lemma TwoObjects(one: Batch, both: Batch)
    requires one.firstSeq == both.firstSeq && one.lastSeq != both.lastSeq
    ensures PutObject([], one) == [one] && PutObject([one], both) == [one, both] && Broken([one, both])
  {
    assert [one][1..] == [];
    TwoStarts([], one, both);
    assert [] + [one] + [both] == [one, both];
  }

  /** Such a run exists: one row is stored by a put that throws, a second row is appended, and
      the next call stores both under another key. */
  lemma ClashingRun(a: Row, b: Row, c: Crypto, max: nat) returns (ws: seq<World>, es: seq<Event>)
    requires Sound(c) && max >= 2
    requires a.seqNo == 1 && a.prevHash.None? && b.seqNo == 2 && b.prevHash == Some(a.rowHash)
    ensures IsRun(ws, es, c, max) && Fresh(ws[0])
    ensures ws[|es|].chain == [a, b] && !Genuine(SortByFirst(ws[|es|].mirror), c)
  {
    var one, both := BuildBatch([a], c), BuildBatch([a, b], c);
    TwoObjects(one, both);
    ws, es := [World([], [], 0, false, Idle)], [];
    ws, es := Extend(ws, es, Append(a), c, max);
    assert ws[|es|] == World([a], [], 0, false, Idle);
    ReadOne(a, max);
    ws, es := CallOnce(ws, es, [a], StoredAndThrew, c, max);
    assert ws[|es|] == World([a], [one], 0, true, Idle);
    ws, es := Extend(ws, es, Append(b), c, max);
    assert ws[|es|] == World([a, b], [one], 0, true, Idle);
    ReadTwo(a, b, max);
    ws, es := CallOnce(ws, es, [a, b], Stored, c, max);
    InvAlways(ws, es, c, max, |es|);
    BrokenIsNotGenuine(ws[|es|].mirror, ws[|es|].chain, c);
  }

  // ---------------------------------------------------------------- the shipper

  datatype ShipResult = ShipResult(shipped: nat, lastSeq: int) | Threw

  /** Which `await` of a call fails, if any; a put is named by the pending row it starts at, and
      may store its object although it fails. */
  datatype Fault = NoFault | ResolveFault | ReadFault | PutFault(at: nat, landed: bool)

  /** The state after a sequence of events, if each was enabled in turn. */
  ghost function After(w: World, es: seq<Event>, c: Crypto, max: nat): Option<World>
    requires max >= 1
    decreases |es|
  {
    if es == [] then Some(w)
    else
      var before := After(w, es[..|es| - 1], c, max);
      if before.Some? && Enabled(before.value, es[|es| - 1]) then Some(Next(before.value, es[|es| - 1], c, max))
      else None
  }

  lemma AfterThen(w: World, es: seq<Event>, m: World, e: Event, c: Crypto, max: nat)
    requires max >= 1 && After(w, es, c, max) == Some(m) && Enabled(m, e)
    ensures After(w, es + [e], c, max) == Some(Next(m, e, c, max))
  {
    assert (es + [e])[..|es|] == es;
  }

  lemma {:induction false} TraceKeepsInv(w: World, es: seq<Event>, m: World, c: Crypto, max: nat)
    requires max >= 1 && Inv(w, c) && After(w, es, c, max) == Some(m)
    ensures Inv(m, c)
  {
    if es != [] {
      var before := After(w, es[..|es| - 1], c, max).value;
      TraceKeepsInv(w, es[..|es| - 1], before, c, max);
      StepKeepsInv(before, es[|es| - 1], c, max);
    }
  }

  class WormShipper {
    const crypto: Crypto
    const batchMax: nat
    var mirror: seq<Batch>
    var lastShippedSeq: int
    var resolved: bool
    var inFlight: bool

    ghost function Now(chain: seq<Row>, phase: Phase): World
      reads this
    {
      World(chain, mirror, lastShippedSeq, resolved, phase)
    }

    /** Where a call starts: at its cursor, or where the mirror ends. */
    ghost function Cursor(): int
      reads this
    {
      if resolved then lastShippedSeq else LastSeq(Flatten(SortByFirst(mirror)))
    }

    constructor (crypto: Crypto, batchMax: nat, mirror: seq<Batch>)
      ensures this.crypto == crypto && this.batchMax == batchMax && this.mirror == mirror
      ensures lastShippedSeq == 0 && !resolved && !inFlight
    {
      this.crypto, this.batchMax, this.mirror := crypto, batchMax, mirror;
      lastShippedSeq, resolved, inFlight := 0, false, false;
    }

    /** One `ship` call, run to its end; `read` is the backend and `fault` the failing
        await. Its effect is a sequence of enabled events, so calls one after another are a
        run of the model. A mirror that does not verify is refused. */
    method Ship(ghost chain: seq<Row>, read: int -> seq<Row>, fault: Fault)
      returns (r: ShipResult, ghost trace: seq<Event>)
      requires batchMax >= 1 && !inFlight && Inv(Now(chain, Idle), crypto)
      requires forall since :: 0 <= since <= |chain| ==> ReadsTail(read(since), chain, since)
      modifies this
      ensures After(old(Now(chain, Idle)), trace, crypto, batchMax) == Some(Now(chain, Idle)) && !inFlight
      ensures Inv(Now(chain, Idle), crypto)
      ensures r.ShipResult? ==> r.lastSeq == lastShippedSeq == |chain| && r.shipped == |chain| - old(Cursor())
      ensures !old(resolved) && !Genuine(SortByFirst(old(mirror)), crypto) ==> r.Threw? && mirror == old(mirror)
      ensures fault.NoFault? && (old(resolved) || Genuine(SortByFirst(old(mirror)), crypto)) ==> r.ShipResult?
    {
      ghost var start := Now(chain, Idle);
      inFlight := true;
      AfterThen(start, [], start, Event.Ship, crypto, batchMax);
      trace := [] + [Event.Ship];
      var ok;
      ok, trace := ResolveCursor(chain, fault, start, trace);
      if !ok {
        r := Threw;
      } else if fault.ReadFault? {
        AfterThen(start, trace, Now(chain, Reading), ReadFails, crypto, batchMax);
        trace := trace + [ReadFails];
        r := Threw;
      } else {
        r, trace := ShipTail(chain, read, fault, start, trace);
      }
      inFlight := false;
      TraceKeepsInv(start, trace, Now(chain, Idle), crypto, batchMax);
    }

    /** Finds the cursor from the mirror itself, once. */
    method ResolveCursor(ghost chain: seq<Row>, fault: Fault, ghost start: World, ghost before: seq<Event>)
      returns (ok: bool, ghost trace: seq<Event>)
      requires batchMax >= 1 && After(start, before, crypto, batchMax) == Some(Now(chain, Resolving))
      modifies this`lastShippedSeq, this`resolved
      ensures ok <==> old(resolved) || (!fault.ResolveFault? && Genuine(SortByFirst(mirror), crypto))
      ensures ok ==> resolved && lastShippedSeq == old(Cursor())
      ensures After(start, trace, crypto, batchMax) == Some(Now(chain, if ok then Reading else Idle))
    {
      ghost var w := Now(chain, Resolving);
      ghost var answered := resolved || !fault.ResolveFault?;
      AfterThen(start, before, w, Resolve(answered), crypto, batchMax);
      trace := before + [Resolve(answered)];
      if resolved {
        return true, trace;
      }
      if fault.ResolveFault? {
        return false, trace;
      }
      var res := VerifyMirrorChain(mirror, crypto);
      ok := res.ok;
      if ok {
        lastShippedSeq := res.lastSeq;
        resolved := true;
      }
    }

    /** Reads the rows past the cursor and ships them batch by batch. */
    method ShipTail(
      ghost chain: seq<Row>, read: int -> seq<Row>, fault: Fault, ghost start: World, ghost before: seq<Event>)
      returns (r: ShipResult, ghost trace: seq<Event>)
      requires batchMax >= 1 && Inv(start, crypto)
      requires forall since :: 0 <= since <= |chain| ==> ReadsTail(read(since), chain, since)
      requires After(start, before, crypto, batchMax) == Some(Now(chain, Reading))
      modifies this`mirror, this`lastShippedSeq
      ensures After(start, trace, crypto, batchMax) == Some(Now(chain, Idle))
      ensures r.ShipResult? ==> r.lastSeq == lastShippedSeq == |chain| && r.shipped == |chain| - old(lastShippedSeq)
      ensures fault.NoFault? ==> r.ShipResult?
    {
      ghost var w := Now(chain, Reading);
      TraceKeepsInv(start, before, w, crypto, batchMax);
      var rows := read(lastShippedSeq);
      var pending := Pending(rows, lastShippedSeq);
      ReadStep(w, rows, crypto, batchMax);
      AfterThen(start, before, w, Read(rows), crypto, batchMax);
      trace := before + [Read(rows)];
      r, trace := ShipPending(chain, pending, fault, start, trace);
    }

    /** The batch loop of `ship`. */
    method ShipPending(
      ghost chain: seq<Row>, pending: seq<Row>, fault: Fault, ghost start: World, ghost before: seq<Event>)
      returns (r: ShipResult, ghost trace: seq<Event>)
      requires batchMax >= 1 && Inv(start, crypto)
      requires After(start, before, crypto, batchMax)
            == Some(Now(chain, if pending == [] then Idle else Shipping(pending, 0)))
      modifies this`mirror, this`lastShippedSeq
      ensures After(start, trace, crypto, batchMax) == Some(Now(chain, Idle))
      ensures r.ShipResult? ==> r.lastSeq == lastShippedSeq == old(lastShippedSeq) + |pending| && r.shipped == |pending|
      ensures fault.NoFault? ==> r.ShipResult?
    {
      trace := before;
      var i, shipped := 0, 0;
      ghost var phase := if pending == [] then Idle else Shipping(pending, 0);
      while i < |pending|
        invariant phase == if i < |pending| then Shipping(pending, i) else Idle
        invariant shipped == if i < |pending| then i else |pending|
        invariant lastShippedSeq == old(lastShippedSeq) + shipped
        invariant After(start, trace, crypto, batchMax) == Some(Now(chain, phase))
        decreases |pending| - i
      {
        var size;
        if fault.PutFault? && fault.at == i {
          var put := if fault.landed then StoredAndThrew else LostAndThrew;
          size, trace, phase := PutChunk(chain, pending, i, put, start, trace);
          return Threw, trace;
        }
        size, trace, phase := PutChunk(chain, pending, i, Stored, start, trace);
        shipped := shipped + size;
        i := i + batchMax;
      }
      return ShipResult(shipped, lastShippedSeq), trace;
    }

    /** Builds, signs and stores one batch, and advances the cursor past it if the put
        returns. */
    method PutChunk(
      ghost chain: seq<Row>, pending: seq<Row>, i: nat, put: PutOutcome, ghost start: World, ghost before: seq<Event>)
      returns (size: nat, ghost trace: seq<Event>, ghost phase: Phase)
      requires batchMax >= 1 && i < |pending| && Inv(start, crypto)
      requires After(start, before, crypto, batchMax) == Some(Now(chain, Shipping(pending, i)))
      modifies this`mirror, this`lastShippedSeq
      ensures size == if i + batchMax < |pending| then batchMax else |pending| - i
      ensures phase == if put.Stored? then NextPhase(pending, i, batchMax) else Idle
      ensures After(start, trace, crypto, batchMax) == Some(Now(chain, phase))
      ensures lastShippedSeq == old(lastShippedSeq) + if put.Stored? then size else 0
      ensures put.LostAndThrew? ==> mirror == old(mirror)
      ensures !put.LostAndThrew? ==> BuildBatch(Chunk(pending, i, batchMax), crypto) in mirror
    {
      ghost var w := Now(chain, Shipping(pending, i));
      TraceKeepsInv(start, before, w, crypto, batchMax);
      ghost var rows := NextChunk(w, crypto, batchMax);
      AfterThen(start, before, w, Put(put), crypto, batchMax);
      trace, phase := before + [Put(put)], if put.Stored? then NextPhase(pending, i, batchMax) else Idle;
      var chunk := Chunk(pending, i, batchMax);
      size := |chunk|;
      if !put.LostAndThrew? {
        mirror := PutObject(mirror, BuildBatch(chunk, crypto));
      }
      if put.Stored? {
        lastShippedSeq := LastSeq(chunk);
      }
      assert Now(chain, phase) == AfterPut(w, rows, put, crypto, batchMax);
    }
  }
}
