/**
 * Reading the tail of the durable audit chain. Both exporters ask the backend for the
 * rows past their cursor and still filter and sort what comes back, in case a backend
 * returns too much or out of order.
 */
module AuditTail {
  import opened AuditRow

  /** The durable chain: seqs 1, 2, 3, ... each row pointing at its predecessor. */
  predicate Gapless(chain: seq<Row>) {
    forall i :: 0 <= i < |chain| ==> chain[i].seqNo == i + 1
  }

  function Filter(rows: seq<Row>, since: int): seq<Row> {
    if rows == [] then []
    else (if rows[0].seqNo > since then [rows[0]] else []) + Filter(rows[1..], since)
  }

  function Insert(x: Row, sorted: seq<Row>): seq<Row> {
    if sorted == [] || x.seqNo <= sorted[0].seqNo then [x] + sorted
    else [sorted[0]] + Insert(x, sorted[1..])
  }

  function Sort(rows: seq<Row>): seq<Row> {
    if rows == [] then [] else Insert(rows[0], Sort(rows[1..]))
  }

  /** The rows past `since`, in seq order. */
  function Pending(rows: seq<Row>, since: int): seq<Row> {
    Sort(Filter(rows, since))
  }

  /** What a backend may answer: every chain row past the cursor once, in any order, and
      possibly older rows too. */
  ghost predicate ReadsTail(rows: seq<Row>, chain: seq<Row>, since: int) {
    0 <= since <= |chain| && multiset(Filter(rows, since)) == multiset(chain[since..])
  }

  ghost predicate Ascending(rows: seq<Row>) {
    rows != [] ==> (forall r :: r in rows[1..] ==> rows[0].seqNo <= r.seqNo) && Ascending(rows[1..])
  }

  lemma {:induction false} InsertHolds(x: Row, sorted: seq<Row>)
    ensures multiset(Insert(x, sorted)) == multiset{x} + multiset(sorted)
  {
    if !(sorted == [] || x.seqNo <= sorted[0].seqNo) {
      InsertHolds(x, sorted[1..]);
      assert sorted == [sorted[0]] + sorted[1..];
    }
  }

  lemma {:induction false} InsertSorts(x: Row, sorted: seq<Row>)
    requires Ascending(sorted)
    ensures Ascending(Insert(x, sorted))
  {
    if sorted == [] || x.seqNo <= sorted[0].seqNo {
      assert ([x] + sorted)[1..] == sorted;
    } else {
      var t := Insert(x, sorted[1..]);
      InsertSorts(x, sorted[1..]);
      InsertHolds(x, sorted[1..]);
      assert ([sorted[0]] + t)[1..] == t;
      forall r | r in t ensures sorted[0].seqNo <= r.seqNo {
        assert r in multiset(t);
      }
    }
  }

  lemma {:induction false} SortSorts(rows: seq<Row>)
    ensures Ascending(Sort(rows)) && multiset(Sort(rows)) == multiset(rows)
  {
    if rows != [] {
      SortSorts(rows[1..]);
      InsertSorts(rows[0], Sort(rows[1..]));
      InsertHolds(rows[0], Sort(rows[1..]));
      assert rows == [rows[0]] + rows[1..];
    }
  }

  /** The strictly ascending slice of the chain from index `at`. */
  lemma {:induction false} SortedIsUnique(xs: seq<Row>, chain: seq<Row>, at: nat)
    requires Gapless(chain) && at <= |chain|
    requires Ascending(xs) && multiset(xs) == multiset(chain[at..])
    ensures xs == chain[at..]
    decreases |xs|
  {
    var ys := chain[at..];
    SameSize(xs, ys);
    if xs != [] {
      assert xs[0] in multiset(ys) && ys[0] in multiset(xs);
      HeadIsNext(xs, chain, at);
      assert multiset(xs[1..]) == multiset(chain[at + 1..]) by {
        WithoutHead(xs);
        WithoutHead(ys);
        assert chain[at + 1..] == ys[1..];
      }
      SortedIsUnique(xs[1..], chain, at + 1);
      HeadAndRest(chain, at);
      assert xs == [xs[0]] + xs[1..];
    }
  }

  lemma SameSize(xs: seq<Row>, ys: seq<Row>)
    requires multiset(xs) == multiset(ys)
    ensures |xs| == |ys|
  {
    assert |multiset(xs)| == |xs| && |multiset(ys)| == |ys|;
  }

  lemma HeadAndRest(chain: seq<Row>, at: nat)
    requires at < |chain|
    ensures chain[at..] == [chain[at]] + chain[at + 1..]
  {
  }

  lemma WithoutHead(xs: seq<Row>)
    requires xs != []
    ensures multiset(xs[1..]) == multiset(xs) - multiset{xs[0]}
  {
    assert xs == [xs[0]] + xs[1..];
  }

  lemma HeadIsNext(xs: seq<Row>, chain: seq<Row>, at: int)
    requires Gapless(chain) && 0 <= at < |chain| && Ascending(xs) && xs != [] && xs[0] in chain[at..] && chain[at] in xs
    ensures xs[0] == chain[at]
  {
    var i :| 0 <= i < |chain[at..]| && chain[at..][i] == xs[0];
    assert xs[0] == chain[at + i];
    var j :| 0 <= j < |xs| && xs[j] == chain[at];
    assert xs[0].seqNo <= xs[j].seqNo;
  }

  /** Whatever order the backend answers in, the pending rows are the chain's tail. */
  lemma PendingIsTail(rows: seq<Row>, chain: seq<Row>, since: int)
    requires Gapless(chain) && ReadsTail(rows, chain, since)
    ensures Pending(rows, since) == chain[since..]
  {
    SortSorts(Filter(rows, since));
    SortedIsUnique(Pending(rows, since), chain, since);
  }

  // ----------------------------------------------------------------- slices and chunks

  /** `part` is the chain's rows from index `from`. */
  ghost predicate Slice(chain: seq<Row>, from: int, part: seq<Row>)
    decreases |part|
  {
    0 <= from && from + |part| <= |chain|
    && (part != [] ==> part[0] == chain[from] && Slice(chain, from + 1, part[1..]))
  }

  lemma {:induction false} SliceIs(chain: seq<Row>, from: int, part: seq<Row>)
    ensures Slice(chain, from, part)
       <==> 0 <= from && from + |part| <= |chain| && part == chain[from..from + |part|]
    decreases |part|
  {
    if part != [] {
      SliceIs(chain, from + 1, part[1..]);
      assert part == [part[0]] + part[1..];
      assert 0 <= from && from + |part| <= |chain| ==>
          chain[from..from + |part|] == [chain[from]] + chain[from + 1..from + |part|];
    }
  }

  lemma {:induction false} SlicePush(chain: seq<Row>, from: int, part: seq<Row>, r: Row)
    requires Slice(chain, from, part) && from + |part| < |chain| && chain[from + |part|] == r
    ensures Slice(chain, from, part + [r])
    decreases |part|
  {
    if part == [] {
      assert part + [r] == [r];
    } else {
      SlicePush(chain, from + 1, part[1..], r);
      assert (part + [r])[1..] == part[1..] + [r];
    }
  }

  lemma {:induction false} SliceGrows(chain: seq<Row>, from: int, part: seq<Row>, r: Row)
    requires Slice(chain, from, part)
    ensures Slice(chain + [r], from, part)
    decreases |part|
  {
    if part != [] {
      SliceGrows(chain, from + 1, part[1..], r);
    }
  }

  lemma {:induction false} SliceAt(chain: seq<Row>, from: int, part: seq<Row>, i: nat)
    requires Slice(chain, from, part) && i < |part|
    ensures 0 <= from && from + |part| <= |chain| && part[i] == chain[from + i]
    decreases |part|
  {
    if i > 0 {
      SliceAt(chain, from + 1, part[1..], i - 1);
    }
  }

  lemma SliceOfSlice(chain: seq<Row>, from: int, part: seq<Row>, a: nat, b: nat)
    requires Slice(chain, from, part) && a <= b <= |part|
    ensures Slice(chain, from + a, part[a..b])
  {
    forall k | 0 <= k < b - a ensures part[a..b][k] == chain[from + a..from + b][k] {
      SliceAt(chain, from, part, a + k);
    }
    assert part[a..b] == chain[from + a..from + b];
    SliceIs(chain, from + a, part[a..b]);
  }

  lemma {:induction false} SliceSame(chain: seq<Row>, from: int, a: seq<Row>, b: seq<Row>)
    requires Slice(chain, from, a) && Slice(chain, from, b) && |a| == |b|
    ensures a == b
    decreases |a|
  {
    if a != [] {
      SliceSame(chain, from + 1, a[1..], b[1..]);
      assert a == [a[0]] + a[1..] && b == [b[0]] + b[1..];
    }
  }

  /** What is pending is the rest of the chain. */
  lemma PendingIsSlice(rows: seq<Row>, chain: seq<Row>, since: int)
    requires Gapless(chain) && ReadsTail(rows, chain, since)
    ensures Slice(chain, since, Pending(rows, since)) && |Pending(rows, since)| == |chain| - since
  {
    PendingIsTail(rows, chain, since);
    SliceIs(chain, since, Pending(rows, since));
  }

  /** The next batch of the pending rows. */
  function Chunk(pending: seq<Row>, at: nat, max: nat): seq<Row>
    requires at <= |pending|
  {
    if at + max <= |pending| then pending[at..at + max] else pending[at..]
  }

  function ChunkSize(pending: seq<Row>, at: nat, max: nat): int {
    if at + max <= |pending| then max else |pending| - at
  }

  lemma ChunkIsSlice(chain: seq<Row>, from: int, pending: seq<Row>, at: nat, max: nat)
    requires Slice(chain, from, pending) && at < |pending| && max >= 1
    ensures var chunk := Chunk(pending, at, max);
            chunk != [] && Slice(chain, from + at, chunk) && |chunk| == ChunkSize(pending, at, max)
  {
    var k := ChunkSize(pending, at, max);
    assert Chunk(pending, at, max) == pending[at..at + k];
    SliceOfSlice(chain, from, pending, at, at + k);
  }
}
