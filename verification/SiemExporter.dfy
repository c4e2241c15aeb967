/**
 * Streaming new audit rows to a SIEM. Unlike a WORM put, a send may be received and still
 * be reported as failed, and the batch is then sent again, so rows may arrive twice.
 *
 * A run starts when the cursor has been seeded from the chain head, and lasts as long as
 * the process.
 */
module SiemExporter {
  import opened Common
  import opened AuditRow
  import opened AuditTail

  datatype Phase = Idle | Reading | Sending(pending: seq<Row>, at: nat)

  /** What becomes of one send. */
  datatype Sent = Delivered | LostAndThrew | DeliveredAndThrew

  /** The chain, the exporter's cursor and phase, and everything the SIEM received. */
  datatype World = World(chain: seq<Row>, cursor: int, phase: Phase, received: seq<Row>)

  datatype Event = Append(row: Row) | Export | Read(rows: seq<Row>) | ReadFails | Send(sent: Sent)

  ghost predicate Enabled(w: World, e: Event) {
    match e
    case Append(r) => r.seqNo == |w.chain| + 1
    case Export => true
    case Read(rows) => w.phase.Reading? && ReadsTail(rows, w.chain, w.cursor)
    case ReadFails => w.phase.Reading?
    case Send(_) => w.phase.Sending? && w.phase.at < |w.phase.pending|
  }

  ghost function Next(w: World, e: Event, max: nat): World
    requires Enabled(w, e) && max >= 1
  {
    match e
    case Append(r) => w.(chain := w.chain + [r])
    case Export => if w.phase.Idle? then w.(phase := Reading) else w
    case Read(rows) =>
      var pending := Pending(rows, w.cursor);
      w.(phase := if pending == [] then Idle else Sending(pending, 0))
    case ReadFails => w.(phase := Idle)
    case Send(sent) =>
      var chunk := Chunk(w.phase.pending, w.phase.at, max);
      var received := if sent.LostAndThrew? then w.received else w.received + chunk;
      if !sent.Delivered? then w.(received := received, phase := Idle)
      else
        var at := w.phase.at + max;
        w.(received := received,
           cursor := chunk[|chunk| - 1].seqNo,
           phase := if at < |w.phase.pending| then Sending(w.phase.pending, at) else Idle)
  }

  ghost predicate IsRun(ws: seq<World>, es: seq<Event>, max: nat)
    requires max >= 1
  {
    && |ws| == |es| + 1
    && forall i :: 0 <= i < |es| ==> Enabled(ws[i], es[i]) && ws[i + 1] == Next(ws[i], es[i], max)
  }

  ghost predicate Seeded(w: World) {
    Gapless(w.chain) && w.cursor == |w.chain| && w.phase.Idle? && w.received == []
  }

  // ------------------------------------------------ what the consumer sees

  predicate HasSeq(rows: seq<Row>, s: int) {
    exists i :: 0 <= i < |rows| && rows[i].seqNo == s
  }

  /** What the consumer keeps when the next row arrives. */
  function Keep(kept: seq<Row>, r: Row): seq<Row> {
    if HasSeq(kept, r.seqNo) then kept else kept + [r]
  }

  function KeepAll(kept: seq<Row>, rows: seq<Row>): seq<Row>
    decreases |rows|
  {
    if rows == [] then kept else KeepAll(Keep(kept, rows[0]), rows[1..])
  }

  /** A consumer that drops every row whose seq it has already kept. */
  function Deduped(received: seq<Row>): seq<Row> { KeepAll([], received) }

  lemma {:induction false} KeepAllJoin(kept: seq<Row>, a: seq<Row>, b: seq<Row>)
    ensures KeepAll(kept, a + b) == KeepAll(KeepAll(kept, a), b)
    decreases |a|
  {
    if a == [] {
      assert a + b == b;
    } else {
      KeepAllJoin(Keep(kept, a[0]), a[1..], b);
      assert (a + b)[1..] == a[1..] + b;
    }
  }

  lemma SliceHasSeq(chain: seq<Row>, from: int, part: seq<Row>, s: int)
    requires Gapless(chain) && Slice(chain, from, part)
    ensures HasSeq(part, s) <==> from < s <= from + |part|
  {
    if from < s <= from + |part| {
      SliceAt(chain, from, part, s - 1 - from);
      assert part[s - 1 - from].seqNo == s;
    }
    if HasSeq(part, s) {
      var i :| 0 <= i < |part| && part[i].seqNo == s;
      SliceAt(chain, from, part, i);
    }
  }

  lemma KeepSlice(chain: seq<Row>, seed: int, kept: seq<Row>, r: Row)
    requires Gapless(chain) && Slice(chain, seed, kept)
    requires seed < r.seqNo <= seed + |kept| + 1 && r.seqNo <= |chain| && chain[r.seqNo - 1] == r
    ensures Slice(chain, seed, Keep(kept, r)) && seed + |Keep(kept, r)| == Max(seed + |kept|, r.seqNo)
  {
    SliceHasSeq(chain, seed, kept, r.seqNo);
    if r.seqNo == seed + |kept| + 1 {
      SlicePush(chain, seed, kept, r);
    }
  }

  /** A received batch that starts no later than the kept slice ends extends that slice to
      the further of the two ends. */
  lemma {:induction false} BatchExtends(chain: seq<Row>, kept: seq<Row>, seed: int, cursor: int, chunk: seq<Row>)
    requires Gapless(chain) && 0 <= seed <= cursor <= seed + |kept|
    requires Slice(chain, seed, kept) && Slice(chain, cursor, chunk)
    ensures Slice(chain, seed, KeepAll(kept, chunk))
    ensures seed + |KeepAll(kept, chunk)| == Max(seed + |kept|, cursor + |chunk|)
    decreases |chunk|
  {
    if chunk != [] {
      KeepSlice(chain, seed, kept, chunk[0]);
      BatchExtends(chain, Keep(kept, chunk[0]), seed, cursor + 1, chunk[1..]);
    }
  }

  // ------------------------------------------------------------- the invariant

  function High(w: World, seed: int): int {
    seed + |Deduped(w.received)|
  }

  /** Without repeats, the received rows are the chain from the seed to the cursor or on. */
  ghost predicate Covers(chain: seq<Row>, seed: int, cursor: int, received: seq<Row>) {
    0 <= seed <= cursor <= seed + |Deduped(received)| && Slice(chain, seed, Deduped(received))
  }

  ghost predicate Inv(w: World, seed: int) {
    && Gapless(w.chain)
    && Covers(w.chain, seed, w.cursor, w.received)
    && (w.phase.Sending? ==>
          w.phase.at < |w.phase.pending| && Slice(w.chain, w.cursor - w.phase.at, w.phase.pending))
  }

  lemma BatchCovers(chain: seq<Row>, received: seq<Row>, seed: int, cursor: int, chunk: seq<Row>)
    requires Gapless(chain) && Covers(chain, seed, cursor, received) && Slice(chain, cursor, chunk)
    ensures Covers(chain, seed, cursor, received + chunk)
    ensures Covers(chain, seed, cursor + |chunk|, received + chunk)
  {
    BatchExtends(chain, Deduped(received), seed, cursor, chunk);
    KeepAllJoin([], received, chunk);
  }

  /** The next batch: the chain's rows right after the cursor. */
  lemma NextChunk(w: World, max: nat, seed: int) returns (chunk: seq<Row>)
    requires max >= 1 && Inv(w, seed) && w.phase.Sending? && w.phase.at < |w.phase.pending|
    ensures chunk == Chunk(w.phase.pending, w.phase.at, max) && chunk != []
    ensures |chunk| == ChunkSize(w.phase.pending, w.phase.at, max) && Slice(w.chain, w.cursor, chunk)
    ensures chunk[|chunk| - 1].seqNo == w.cursor + |chunk|
  {
    var p, at := w.phase.pending, w.phase.at;
    ChunkIsSlice(w.chain, w.cursor - at, p, at, max);
    chunk := Chunk(p, at, max);
    SliceAt(w.chain, w.cursor, chunk, |chunk| - 1);
  }

  function NextPhase(pending: seq<Row>, at: nat, max: nat): Phase {
    if at + max < |pending| then Sending(pending, at + max) else Idle
  }

  /** What a send leads to. */
  ghost function AfterSend(w: World, chunk: seq<Row>, sent: Sent, max: nat): World
    requires w.phase.Sending?
  {
    World(w.chain,
          if sent.Delivered? then w.cursor + |chunk| else w.cursor,
          if sent.Delivered? then NextPhase(w.phase.pending, w.phase.at, max) else Idle,
          if sent.LostAndThrew? then w.received else w.received + chunk)
  }

  lemma SendLeadsTo(w: World, sent: Sent, max: nat, seed: int) returns (chunk: seq<Row>)
    requires max >= 1 && Inv(w, seed) && Enabled(w, Send(sent))
    ensures chunk == Chunk(w.phase.pending, w.phase.at, max) && chunk != []
    ensures |chunk| == ChunkSize(w.phase.pending, w.phase.at, max)
    ensures chunk[|chunk| - 1].seqNo == w.cursor + |chunk| && Slice(w.chain, w.cursor, chunk)
    ensures Next(w, Send(sent), max) == AfterSend(w, chunk, sent, max)
  {
    chunk := NextChunk(w, max, seed);
  }

  lemma AfterDeliveryKeepsInv(w: World, chunk: seq<Row>, max: nat, seed: int)
    requires max >= 1 && Inv(w, seed) && w.phase.Sending?
    requires |chunk| == ChunkSize(w.phase.pending, w.phase.at, max)
    requires Covers(w.chain, seed, w.cursor + |chunk|, w.received + chunk)
    ensures Inv(AfterSend(w, chunk, Delivered, max), seed)
  {
    var w' := AfterSend(w, chunk, Delivered, max);
    if w'.phase.Sending? {
      assert w'.cursor - w'.phase.at == w.cursor - w.phase.at;
    }
  }

  lemma AfterSendKeepsInv(w: World, chunk: seq<Row>, sent: Sent, max: nat, seed: int)
    requires max >= 1 && Inv(w, seed) && w.phase.Sending? && Slice(w.chain, w.cursor, chunk)
    requires |chunk| == ChunkSize(w.phase.pending, w.phase.at, max)
    ensures Inv(AfterSend(w, chunk, sent, max), seed)
  {
    BatchCovers(w.chain, w.received, seed, w.cursor, chunk);
    if sent.Delivered? {
      AfterDeliveryKeepsInv(w, chunk, max, seed);
    }
  }

  /** A send, received or not, keeps the received rows contiguous up to repeats. */
  lemma SendKeepsInv(w: World, sent: Sent, max: nat, seed: int)
    requires max >= 1 && Inv(w, seed) && Enabled(w, Send(sent))
    ensures Inv(Next(w, Send(sent), max), seed)
    ensures w.cursor <= Next(w, Send(sent), max).cursor
  {
    var chunk := SendLeadsTo(w, sent, max, seed);
    AfterSendKeepsInv(w, chunk, sent, max, seed);
  }

  lemma AppendKeepsInv(w: World, r: Row, max: nat, seed: int)
    requires max >= 1 && Inv(w, seed) && Enabled(w, Append(r))
    ensures Inv(Next(w, Append(r), max), seed)
  {
    SliceGrows(w.chain, seed, Deduped(w.received), r);
    if w.phase.Sending? {
      SliceGrows(w.chain, w.cursor - w.phase.at, w.phase.pending, r);
    }
  }

  lemma ReadKeepsInv(w: World, rows: seq<Row>, max: nat, seed: int)
    requires max >= 1 && Inv(w, seed) && Enabled(w, Read(rows))
    ensures Inv(Next(w, Read(rows), max), seed)
  {
    PendingIsSlice(rows, w.chain, w.cursor);
    var pending := Pending(rows, w.cursor);
    assert Next(w, Read(rows), max) == w.(phase := if pending == [] then Idle else Sending(pending, 0));
  }

  lemma StepKeepsInv(w: World, e: Event, max: nat, seed: int)
    requires max >= 1 && Inv(w, seed) && Enabled(w, e)
    ensures Inv(Next(w, e, max), seed)
    ensures w.cursor <= Next(w, e, max).cursor
  {
    match e
    case Append(r) => AppendKeepsInv(w, r, max, seed);
    case Read(rows) => ReadKeepsInv(w, rows, max, seed);
    case Send(sent) => SendKeepsInv(w, sent, max, seed);
    case _ =>
  }

  lemma {:induction false} InvAlways(ws: seq<World>, es: seq<Event>, max: nat, i: nat)
    requires max >= 1 && IsRun(ws, es, max) && Seeded(ws[0]) && i < |ws|
    ensures Inv(ws[i], ws[0].cursor)
  {
    if i > 0 {
      InvAlways(ws, es, max, i - 1);
      StepKeepsInv(ws[i - 1], es[i - 1], max, ws[0].cursor);
    }
  }

  /** At-least-once and ordered, in every reachable state: dropping repeats, the SIEM holds
      a contiguous slice of the chain that starts right after the seed and reaches at
      least the cursor. */
  lemma ReceivedIsContiguous(ws: seq<World>, es: seq<Event>, max: nat, i: nat)
    requires max >= 1 && IsRun(ws, es, max) && Seeded(ws[0]) && i < |ws|
    ensures var seed, high := ws[0].cursor, High(ws[i], ws[0].cursor);
            seed <= ws[i].cursor <= high <= |ws[i].chain| && Deduped(ws[i].received) == ws[i].chain[seed..high]
  {
    InvAlways(ws, es, max, i);
    SliceIs(ws[i].chain, ws[0].cursor, Deduped(ws[i].received));
  }

  /** The cursor never goes back. */
  lemma {:induction false} CursorNeverDecreases(ws: seq<World>, es: seq<Event>, max: nat, i: nat, j: nat)
    requires max >= 1 && IsRun(ws, es, max) && Seeded(ws[0]) && i <= j < |ws|
    ensures ws[i].cursor <= ws[j].cursor
  {
    if i < j {
      CursorNeverDecreases(ws, es, max, i, j - 1);
      InvAlways(ws, es, max, j - 1);
      StepKeepsInv(ws[j - 1], es[j - 1], max, ws[0].cursor);
    }
  }

  // --------------------------------------------------------------- the exporter

  datatype ExportResult = ExportResult(exported: nat, lastSeq: int) | Threw

  ghost function After(w: World, es: seq<Event>, max: nat): Option<World>
    requires max >= 1
    decreases |es|
  {
    if es == [] then Some(w)
    else
      var before := After(w, es[..|es| - 1], max);
      if before.Some? && Enabled(before.value, es[|es| - 1]) then Some(Next(before.value, es[|es| - 1], max))
      else None
  }

  lemma AfterThen(w: World, es: seq<Event>, m: World, e: Event, max: nat)
    requires max >= 1 && After(w, es, max) == Some(m) && Enabled(m, e)
    ensures After(w, es + [e], max) == Some(Next(m, e, max))
  {
    assert (es + [e])[..|es|] == es;
  }

  lemma {:induction false} TraceKeepsInv(w: World, es: seq<Event>, m: World, max: nat, seed: int)
    requires max >= 1 && Inv(w, seed) && After(w, es, max) == Some(m)
    ensures Inv(m, seed)
  {
    if es != [] {
      var before := After(w, es[..|es| - 1], max).value;
      TraceKeepsInv(w, es[..|es| - 1], before, max, seed);
      StepKeepsInv(before, es[|es| - 1], max, seed);
    }
  }

  /** A send at the end of a trace. */
  lemma TraceSend(start: World, before: seq<Event>, w: World, sent: Sent, max: nat, seed: int) returns (chunk: seq<Row>)
    requires max >= 1 && Inv(start, seed) && After(start, before, max) == Some(w) && Enabled(w, Send(sent))
    ensures chunk == Chunk(w.phase.pending, w.phase.at, max) && chunk != []
    ensures |chunk| == ChunkSize(w.phase.pending, w.phase.at, max)
    ensures chunk[|chunk| - 1].seqNo == w.cursor + |chunk|
    ensures After(start, before + [Send(sent)], max) == Some(AfterSend(w, chunk, sent, max))
  {
    TraceKeepsInv(start, before, w, max, seed);
    chunk := SendLeadsTo(w, sent, max, seed);
    AfterThen(start, before, w, Send(sent), max);
  }

  /** The SIEM's answer to each send, by the pending row it starts at. */
  type Sink = nat -> Sent

  class SiemExporter {
    const batchMax: nat
    var cursor: int
    var inFlight: bool
    var received: seq<Row>

    ghost function Now(chain: seq<Row>, phase: Phase): World
      reads this
    {
      World(chain, cursor, phase, received)
    }

    constructor (batchMax: nat)
      ensures this.batchMax == batchMax && cursor == 0 && !inFlight && received == []
    {
      this.batchMax := batchMax;
      cursor, inFlight, received := 0, false, [];
    }

    /** Skips the backlog: with the head aggregate when there is one, else with the
        greatest seq of all rows. */
    method SeedFromHead(headSeq: Option<int>, rows: seq<Row>)
      modifies this`cursor
      ensures headSeq.Some? ==> cursor == headSeq.value
      ensures headSeq.None? ==> cursor >= 0 && (forall i :: 0 <= i < |rows| ==> rows[i].seqNo <= cursor)
      ensures headSeq.None? ==> cursor == 0 || HasSeq(rows, cursor)
    {
      if headSeq.Some? {
        cursor := headSeq.value;
        return;
      }
      var max := 0;
      for i := 0 to |rows|
        invariant max >= 0 && (forall k :: 0 <= k < i ==> rows[k].seqNo <= max)
        invariant max == 0 || HasSeq(rows, max)
      {
        if rows[i].seqNo > max {
          max := rows[i].seqNo;
        }
      }
      cursor := max;
    }

    /** One `export` call, run to its end. Its effect is a sequence of enabled events. */
    method Export(ghost chain: seq<Row>, ghost seed: int, read: int -> seq<Row>, readFails: bool, sink: Sink)
      returns (r: ExportResult, ghost trace: seq<Event>)
      requires batchMax >= 1 && !inFlight && Inv(Now(chain, Idle), seed)
      requires forall since :: 0 <= since <= |chain| ==> ReadsTail(read(since), chain, since)
      modifies this
      ensures After(old(Now(chain, Idle)), trace, batchMax) == Some(Now(chain, Idle)) && !inFlight
      ensures Inv(Now(chain, Idle), seed)
      ensures r.ExportResult? ==> r.lastSeq == cursor == |chain| && r.exported == |chain| - old(cursor)
      ensures !readFails && (forall k :: sink(k).Delivered?) ==> r.ExportResult?
    {
      ghost var start := Now(chain, Idle);
      inFlight := true;
      AfterThen(start, [], start, Event.Export, batchMax);
      trace := [] + [Event.Export];
      if readFails {
        AfterThen(start, trace, Now(chain, Reading), ReadFails, batchMax);
        trace := trace + [ReadFails];
        r := Threw;
      } else {
        r, trace := SendTail(chain, seed, read, sink, start, trace);
      }
      inFlight := false;
      TraceKeepsInv(start, trace, Now(chain, Idle), batchMax, seed);
    }

    /** Reads the rows past the cursor and sends them. */
    method SendTail(
      ghost chain: seq<Row>, ghost seed: int, read: int -> seq<Row>, sink: Sink, ghost start: World,
      ghost before: seq<Event>)
      returns (r: ExportResult, ghost trace: seq<Event>)
      requires batchMax >= 1 && Inv(start, seed) && After(start, before, batchMax) == Some(Now(chain, Reading))
      requires forall since :: 0 <= since <= |chain| ==> ReadsTail(read(since), chain, since)
      modifies this`cursor, this`received
      ensures After(start, trace, batchMax) == Some(Now(chain, Idle))
      ensures r.ExportResult? ==> r.lastSeq == cursor == |chain| && r.exported == |chain| - old(cursor)
      ensures (forall k :: sink(k).Delivered?) ==> r.ExportResult?
    {
      ghost var w := Now(chain, Reading);
      TraceKeepsInv(start, before, w, batchMax, seed);
      var rows := read(cursor);
      var pending := Pending(rows, cursor);
      PendingIsSlice(rows, chain, cursor);
      AfterThen(start, before, w, Read(rows), batchMax);
      trace := before + [Read(rows)];
      r, trace := SendPending(chain, seed, pending, sink, start, trace);
    }

    /** The batch loop of `export`. */
    method SendPending(
      ghost chain: seq<Row>, ghost seed: int, pending: seq<Row>, sink: Sink, ghost start: World,
      ghost before: seq<Event>)
      returns (r: ExportResult, ghost trace: seq<Event>)
      requires batchMax >= 1 && Inv(start, seed)
      requires After(start, before, batchMax) == Some(Now(chain, if pending == [] then Idle else Sending(pending, 0)))
      modifies this`cursor, this`received
      ensures After(start, trace, batchMax) == Some(Now(chain, Idle))
      ensures r.ExportResult? ==> r.exported == |pending| && r.lastSeq == cursor == old(cursor) + |pending|
      ensures (forall k :: sink(k).Delivered?) ==> r.ExportResult?
    {
      trace := before;
      var i := 0;
      ghost var phase := if pending == [] then Idle else Sending(pending, 0);
      while i < |pending|
        invariant phase == if i < |pending| then Sending(pending, i) else Idle
        invariant cursor == old(cursor) + (if i < |pending| then i else |pending|)
        invariant After(start, trace, batchMax) == Some(Now(chain, phase))
        decreases |pending| - i
      {
        var ok;
        ok, trace, phase := SendChunk(chain, seed, pending, i, sink(i), start, trace);
        if !ok {
          return Threw, trace;
        }
        i := i + batchMax;
      }
      return ExportResult(|pending|, cursor), trace;
    }

    /** Sends one batch, and advances the cursor only when the send returned. */
    method SendChunk(
      ghost chain: seq<Row>, ghost seed: int, pending: seq<Row>, i: nat, sent: Sent, ghost start: World,
      ghost before: seq<Event>)
      returns (ok: bool, ghost trace: seq<Event>, ghost phase: Phase)
      requires batchMax >= 1 && i < |pending| && Inv(start, seed)
      requires After(start, before, batchMax) == Some(Now(chain, Sending(pending, i)))
      modifies this`cursor, this`received
      ensures ok == sent.Delivered?
      ensures phase == if ok && i + batchMax < |pending| then Sending(pending, i + batchMax) else Idle
      ensures After(start, trace, batchMax) == Some(Now(chain, phase))
      ensures ok ==> cursor == old(cursor) + if i + batchMax < |pending| then batchMax else |pending| - i
    {
      ghost var w := Now(chain, Sending(pending, i));
      ghost var rows := TraceSend(start, before, w, sent, batchMax, seed);
      ok := sent.Delivered?;
      trace, phase := before + [Send(sent)], if ok then NextPhase(pending, i, batchMax) else Idle;
      var chunk := Chunk(pending, i, batchMax);
      if !sent.LostAndThrew? {
        received := received + chunk;
      }
      if ok {
        cursor := chunk[|chunk| - 1].seqNo;
      }
      assert Now(chain, phase) == AfterSend(w, rows, sent, batchMax);
    }
  }
}
