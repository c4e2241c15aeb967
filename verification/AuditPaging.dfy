/**
 * Browsing the audit trail page by page, newest first: each answer carries the cursor for the
 * next request, and rows may be appended between requests.
 */
module AuditPaging {
  import opened Common

  datatype Event = Event(seqNo: int, body: string)

  // ---------------------------------------------------------------------------- one page

  /** The requested limit, held between 1 and 500; 100 if none (or zero) was given. It need
      not be a whole number. */
  function Limit(raw: Option<real>): (l: real)
    ensures 1.0 <= l <= 500.0
  {
    var n := if raw.None? || raw.value == 0.0 then 100.0 else raw.value;
    if n < 1.0 then 1.0 else if n > 500.0 then 500.0 else n
  }

  predicate Selects(before: Option<int>, e: Event) { before.None? || e.seqNo < before.value }

  function Filter(rows: seq<Event>, before: Option<int>): seq<Event> {
    if rows == [] then []
    else
      var rest := Filter(rows[..|rows| - 1], before);
      if Selects(before, rows[|rows| - 1]) then rest + [rows[|rows| - 1]] else rest
  }

  function Insert(sorted: seq<Event>, e: Event): seq<Event> {
    if sorted == [] || sorted[|sorted| - 1].seqNo >= e.seqNo then sorted + [e]
    else Insert(sorted[..|sorted| - 1], e) + [sorted[|sorted| - 1]]
  }

  /** Newest first. */
  function Sort(rows: seq<Event>): seq<Event> {
    if rows == [] then [] else Insert(Sort(rows[..|rows| - 1]), rows[|rows| - 1])
  }

  function Take(rows: seq<Event>, n: nat): seq<Event> { if n <= |rows| then rows[..n] else rows }

  /** A page: `slice` drops the fraction of its limit. */
  function Page(rows: seq<Event>, before: Option<int>, limit: real): seq<Event>
    requires limit >= 1.0
  {
    Take(Sort(Filter(rows, before)), limit.Floor)
  }

  /** A cursor only after a page of exactly the limit. */
  function NextCursor(page: seq<Event>, limit: real): Option<int> {
    if page != [] && |page| as real == limit then Some(page[|page| - 1].seqNo) else None
  }

  // ------------------------------------------------------------------------------ the walk

  /** Following the cursors; `chains` is the trail at each request. Also says whether the walk
      came to its end. */
  function Walk(chains: seq<seq<Event>>, before: Option<int>, limit: real): (seq<Event>, bool)
    requires limit >= 1.0
  {
    if chains == [] then ([], false)
    else
      var page := Page(chains[0], before, limit);
      var next := NextCursor(page, limit);
      if next.None? then (page, true)
      else
        var r := Walk(chains[1..], next, limit);
        (page + r.0, r.1)
  }

  ghost predicate UniqueSeqs(rows: seq<Event>) {
    forall i, j :: 0 <= i < j < |rows| ==> rows[i].seqNo != rows[j].seqNo
  }

  /** What is there stays, and what comes is newer. */
  ghost predicate Appends(rows: seq<Event>, more: seq<Event>) {
    rows <= more && forall i, j :: 0 <= i < |rows| <= j < |more| ==> rows[i].seqNo < more[j].seqNo
  }

  ghost predicate Grows(first: seq<Event>, chains: seq<seq<Event>>) {
    forall k :: 0 <= k < |chains| ==> Appends(first, chains[k])
  }

  // -------------------------------------------------------------------------------- sorting

  ghost predicate Descending(s: seq<Event>) {
    forall i, j :: 0 <= i < j < |s| ==> s[i].seqNo > s[j].seqNo
  }

  lemma {:induction false} InsertHas(sorted: seq<Event>, e: Event)
    ensures multiset(Insert(sorted, e)) == multiset(sorted) + multiset{e}
  {
    if !(sorted == [] || sorted[|sorted| - 1].seqNo >= e.seqNo) {
      InsertHas(sorted[..|sorted| - 1], e);
      assert sorted == sorted[..|sorted| - 1] + [sorted[|sorted| - 1]];
    }
  }

  /** A page order is a reordering: every row as often as it was. */
  lemma {:induction false} SortHas(rows: seq<Event>)
    ensures multiset(Sort(rows)) == multiset(rows)
  {
    if rows != [] {
      SortHas(rows[..|rows| - 1]);
      InsertHas(Sort(rows[..|rows| - 1]), rows[|rows| - 1]);
      assert rows == rows[..|rows| - 1] + [rows[|rows| - 1]];
    }
  }

  lemma SortMembers(rows: seq<Event>, e: Event)
    ensures e in Sort(rows) <==> e in rows
  {
    SortHas(rows);
    assert e in Sort(rows) <==> e in multiset(Sort(rows));
    assert e in rows <==> e in multiset(rows);
  }

  lemma {:induction false} InsertDescends(sorted: seq<Event>, e: Event)
    requires Descending(sorted) && forall i :: 0 <= i < |sorted| ==> sorted[i].seqNo != e.seqNo
    ensures Descending(Insert(sorted, e))
  {
    if !(sorted == [] || sorted[|sorted| - 1].seqNo >= e.seqNo) {
      var init, last := sorted[..|sorted| - 1], sorted[|sorted| - 1];
      InsertDescends(init, e);
      var inner := Insert(init, e);
      InsertHas(init, e);
      forall i | 0 <= i < |inner| ensures inner[i].seqNo > last.seqNo {
        assert inner[i] in multiset(inner);
        assert inner[i] == e || inner[i] in init;
      }
    }
  }

  lemma {:induction false} SortDescends(rows: seq<Event>)
    requires UniqueSeqs(rows)
    ensures Descending(Sort(rows))
  {
    if rows != [] {
      var init, last := rows[..|rows| - 1], rows[|rows| - 1];
      SortDescends(init);
      forall i | 0 <= i < |Sort(init)| ensures Sort(init)[i].seqNo != last.seqNo {
        SortMembers(init, Sort(init)[i]);
        var j :| 0 <= j < |init| && init[j] == Sort(init)[i];
      }
      InsertDescends(Sort(init), last);
    }
  }

  /** Sorted sequences with the same rows are the same. */
  lemma {:induction false} DescendingIsUnique(a: seq<Event>, b: seq<Event>)
    requires Descending(a) && Descending(b) && forall e :: e in a <==> e in b
    ensures a == b
  {
    assert b != [] ==> b[0] in b;
    if a != [] {
      assert a[0] in b;
      assert b[0] in a;
      assert a[0] == b[0];
      forall e ensures e in a[1..] <==> e in b[1..] {
        assert e in a <==> e in b;
        TailHas(a, e);
        TailHas(b, e);
      }
      DescendingIsUnique(a[1..], b[1..]);
      assert a == [a[0]] + a[1..] && b == [b[0]] + b[1..];
    }
  }

  lemma TailHas(a: seq<Event>, e: Event)
    requires Descending(a) && a != []
    ensures e in a[1..] <==> e in a && e != a[0]
  {
    if e in a && e != a[0] {
      var i :| 0 <= i < |a| && a[i] == e;
      assert a[1..][i - 1] == e;
    }
    if e in a[1..] {
      var i :| 0 <= i < |a[1..]| && a[1..][i] == e;
      assert a[i + 1] == e;
    }
  }

  lemma {:induction false} FilterHas(rows: seq<Event>, before: Option<int>, e: Event)
    ensures e in Filter(rows, before) <==> e in rows && Selects(before, e)
  {
    if rows != [] {
      FilterHas(rows[..|rows| - 1], before, e);
      assert rows == rows[..|rows| - 1] + [rows[|rows| - 1]];
    }
  }

  lemma {:induction false} FilterUnique(rows: seq<Event>, before: Option<int>)
    requires UniqueSeqs(rows)
    ensures UniqueSeqs(Filter(rows, before))
  {
    if rows != [] {
      var init, last := rows[..|rows| - 1], rows[|rows| - 1];
      FilterUnique(init, before);
      var rest := Filter(init, before);
      forall i | 0 <= i < |rest| ensures rest[i].seqNo != last.seqNo {
        FilterHas(init, before, rest[i]);
        var j :| 0 <= j < |init| && init[j] == rest[i];
      }
    }
  }

  // ------------------------------------------------------------------ where a cursor leads

  lemma {:induction false} FilterAll(rows: seq<Event>)
    ensures Filter(rows, None) == rows
  {
    if rows != [] {
      FilterAll(rows[..|rows| - 1]);
    }
  }

  lemma RestHas(s: seq<Event>, n: nat, e: Event)
    requires Descending(s) && 0 < n <= |s|
    ensures e in s[n..] <==> e in s && e.seqNo < s[n - 1].seqNo
  {
    if e in s {
      var j :| 0 <= j < |s| && s[j] == e;
      assert j >= n ==> s[n..][j - n] == e;
    }
    if e in s[n..] {
      var j :| 0 <= j < |s[n..]| && s[n..][j] == e;
      assert s[j + n] == e;
    }
  }

  /** Below a seq of the first rows there is nothing that was appended later. */
  lemma BelowIsOld(first: seq<Event>, chain: seq<Event>, at: Event, e: Event)
    requires Appends(first, chain) && at in first
    ensures e in chain && e.seqNo < at.seqNo <==> e in first && e.seqNo < at.seqNo
  {
    var k :| 0 <= k < |first| && first[k] == at;
    if e in chain && e.seqNo < at.seqNo {
      var i :| 0 <= i < |chain| && chain[i] == e;
      assert i < |first| && first[i] == e;
    }
    if e in first {
      var i :| 0 <= i < |first| && first[i] == e;
      assert chain[i] == e;
    }
  }

  /** After the first `n` rows, the cursor selects the rest, whatever was appended since. */
  lemma CursorSelectsRest(first: seq<Event>, chain: seq<Event>, n: nat)
    requires UniqueSeqs(first) && UniqueSeqs(chain) && Appends(first, chain) && 0 < n <= |Sort(first)|
    ensures Sort(Filter(chain, Some(Sort(first)[n - 1].seqNo))) == Sort(first)[n..]
  {
    var s := Sort(first);
    var cursor := Some(s[n - 1].seqNo);
    SortDescends(first);
    FilterUnique(chain, cursor);
    SortDescends(Filter(chain, cursor));
    SortMembers(first, s[n - 1]);
    forall e ensures e in Sort(Filter(chain, cursor)) <==> e in s[n..] {
      SortMembers(Filter(chain, cursor), e);
      FilterHas(chain, cursor, e);
      BelowIsOld(first, chain, s[n - 1], e);
      SortMembers(first, e);
      RestHas(s, n, e);
    }
    DescendingIsUnique(Sort(Filter(chain, cursor)), s[n..]);
  }

  // ------------------------------------------------------------------------- main results

  predicate Whole(limit: real) { limit.Floor as real == limit }

  lemma SortSize(rows: seq<Event>)
    ensures |Sort(rows)| == |rows|
  {
    SortHas(rows);
    assert |multiset(Sort(rows))| == |Sort(rows)| && |multiset(rows)| == |rows|;
  }

  /** One request: the last page, or a full page and the cursor after it. */
  lemma WalkStep(chains: seq<seq<Event>>, before: Option<int>, limit: real, l: nat, s: seq<Event>)
    requires limit == l as real && l >= 1 && chains != [] && Sort(Filter(chains[0], before)) == s
    ensures |s| < l ==> Walk(chains, before, limit) == (s, true)
    ensures |s| >= l ==>
              var r := Walk(chains[1..], Some(s[l - 1].seqNo), limit);
              Walk(chains, before, limit) == (s[..l] + r.0, r.1)
  {
    FullPage(s, limit, l);
  }

  lemma FullPage(s: seq<Event>, limit: real, l: nat)
    requires limit == l as real && l >= 1
    ensures limit.Floor == l
    ensures |s| < l ==> Take(s, l) == s && NextCursor(s, limit).None?
    ensures |s| >= l ==> Take(s, l) == s[..l] && NextCursor(s[..l], limit) == Some(s[l - 1].seqNo)
  {
  }

  /** The trail at each request: what the first one saw, and newer rows. */
  ghost predicate Trail(first: seq<Event>, chains: seq<seq<Event>>) {
    UniqueSeqs(first) && Grows(first, chains) && forall k :: 0 <= k < |chains| ==> UniqueSeqs(chains[k])
  }

  /** Every cursor within `s` selects what follows it there. */
  ghost predicate Leads(s: seq<Event>, chain: seq<Event>) {
    forall n :: 0 < n <= |s| ==> RestAfter(s, chain, n)
  }

  ghost predicate RestAfter(s: seq<Event>, chain: seq<Event>, n: nat)
    requires 0 < n <= |s|
  {
    Sort(Filter(chain, Some(s[n - 1].seqNo))) == s[n..]
  }

  lemma TrailLeads(first: seq<Event>, chains: seq<seq<Event>>, k: nat)
    requires Trail(first, chains) && k < |chains|
    ensures Leads(Sort(first), chains[k])
  {
    forall n | 0 < n <= |Sort(first)| ensures RestAfter(Sort(first), chains[k], n) {
      CursorSelectsRest(first, chains[k], n);
    }
  }

  lemma NextPage(s: seq<Event>, n: nat, l: nat)
    requires 0 < l && n + l <= |s|
    ensures s[n..][l - 1] == s[n + l - 1] && s[n..][..l] + s[n + l..] == s[n..]
  {
  }

  /** From the cursor after `n` rows, enough requests give exactly the rest. */
  lemma {:induction false} WalkGivesRest(s: seq<Event>, chains: seq<seq<Event>>, n: nat, limit: real, l: nat)
    requires limit == l as real && l >= 1 && 0 < n <= |s| && |chains| > |s| - n
    requires forall k :: 0 <= k < |chains| ==> Leads(s, chains[k])
    ensures Walk(chains, Some(s[n - 1].seqNo), limit) == (s[n..], true)
    decreases |chains|
  {
    assert RestAfter(s, chains[0], n);
    WalkStep(chains, Some(s[n - 1].seqNo), limit, l, s[n..]);
    if |s[n..]| >= l {
      NextPage(s, n, l);
      WalkGivesRest(s, chains[1..], n + l, limit, l);
    }
  }

  /** Following the cursor from the first page visits every row that was there at the first
      request exactly once, newest first, and ends, whatever is appended meanwhile. */
  lemma WalkVisitsAll(chains: seq<seq<Event>>, limit: real)
    requires limit >= 1.0 && Whole(limit) && chains != [] && Trail(chains[0], chains) && |chains| > |chains[0]|
    ensures Walk(chains, None, limit) == (Sort(chains[0]), true)
    ensures Descending(Sort(chains[0])) && multiset(Sort(chains[0])) == multiset(chains[0])
  {
    var first := chains[0];
    SortHas(first);
    SortDescends(first);
    var l := limit.Floor;
    assert Walk(chains, None, limit) == (Sort(first), true) by {
      WalkFromTheTop(chains, Sort(first), limit, l);
    }
  }

  lemma Rejoin(s: seq<Event>, n: nat)
    requires n <= |s|
    ensures s[..n] + s[n..] == s
  {
  }

  lemma WalkFromTheTop(chains: seq<seq<Event>>, s: seq<Event>, limit: real, l: nat)
    requires limit == l as real && l >= 1 && chains != [] && Trail(chains[0], chains) && |chains| > |chains[0]|
    requires s == Sort(chains[0])
    ensures Walk(chains, None, limit) == (s, true)
  {
    SortSize(chains[0]);
    FilterAll(chains[0]);
    WalkStep(chains, None, limit, l, s);
    if |s| >= l {
      forall k | 0 <= k < |chains[1..]| ensures Leads(s, chains[1..][k]) {
        TrailLeads(chains[0], chains, k + 1);
      }
      Rejoin(s, l);
      WalkGivesRest(s, chains[1..], l, limit, l);
    }
  }

  /** With a limit that is not whole no page ever has "the limit" of rows: the walk stops
      after one page. So it is complete exactly when the limit is whole or one page is
      enough. */
  lemma WalkIsCompleteIff(chains: seq<seq<Event>>, limit: real)
    requires limit >= 1.0 && chains != [] && Trail(chains[0], chains) && |chains| > |chains[0]|
    ensures Walk(chains, None, limit).0 == Sort(chains[0]) <==> Whole(limit) || |chains[0]| <= limit.Floor
  {
    if Whole(limit) {
      WalkVisitsAll(chains, limit);
    } else {
      FilterAll(chains[0]);
      SortSize(chains[0]);
      var page := Page(chains[0], None, limit);
      assert |page| as real != limit by {
        assert (|page| as real).Floor == |page|;
      }
    }
  }

  /** In terms of the request: the walk is complete exactly when no limit was given, or a whole
      one, or one outside the range it is held to, or one page is enough. */
  lemma RequestedWalkIsCompleteIff(chains: seq<seq<Event>>, raw: Option<real>)
    requires chains != [] && Trail(chains[0], chains) && |chains| > |chains[0]|
    ensures Walk(chains, None, Limit(raw)).0 == Sort(chains[0])
       <==> || raw.None? || Whole(raw.value) || raw.value < 1.0 || raw.value > 500.0
            || |chains[0]| <= raw.value.Floor
  {
    WalkIsCompleteIff(chains, Limit(raw));
  }
}
