/**
 * The guard against replayed sign-in assertions: a bounded set of seen ids with their expiry,
 * in insertion order. It implements the rule of section 4.1.4.5 of SAML V2.0 Profiles that a
 * bearer assertion is used once.
 */
module ReplayGuard {
  import opened Common

  datatype Entry = Entry(id: string, until: int)

  type Guard = seq<Entry>

  datatype Call = Call(id: string, expiresAt: int, now: int)

  function Get(g: Guard, id: string): Option<int> {
    if g == [] then None else if g[0].id == id then Some(g[0].until) else Get(g[1..], id)
  }

  /** Setting a known id keeps its place; a new one goes last. */
  function Put(g: Guard, e: Entry): Guard {
    if g == [] then [e] else if g[0].id == e.id then [e] + g[1..] else [g[0]] + Put(g[1..], e)
  }

  /** The entries that have not expired. */
  function Live(g: Guard, now: int): Guard {
    if g == [] then [] else (if g[0].until <= now then [] else [g[0]]) + Live(g[1..], now)
  }

  /** When full, drop what expired; when still full, drop the first entry. */
  function Swept(g: Guard, now: int, max: nat): Guard {
    if |g| < max then g
    else
      var live := Live(g, now);
      if |live| >= max && live != [] then live[1..] else live
  }

  /** Live entries have to be dropped. */
  predicate Overfull(g: Guard, now: int, max: nat) { |g| >= max && |Live(g, now)| >= max }

  /** Is `id` a replay for this guard? */
  predicate Known(g: Guard, id: string, now: int) {
    var until := Get(g, id);
    until.Some? && until.value > now
  }

  function Recorded(g: Guard, c: Call): Guard {
    if Known(g, c.id, c.now) then g else Put(g, Entry(c.id, c.expiresAt))
  }

  function Step(g: Guard, c: Call, max: nat): Guard { Recorded(Swept(g, c.now, max), c) }

  function After(cs: seq<Call>, max: nat): Guard {
    if cs == [] then [] else Step(After(cs[..|cs| - 1], max), cs[|cs| - 1], max)
  }

  /** The answer to call `i`: true for a replay. */
  predicate Seen(cs: seq<Call>, i: nat, max: nat)
    requires i < |cs|
  {
    Known(Swept(After(cs[..i], max), cs[i].now, max), cs[i].id, cs[i].now)
  }

  /** A guard that never sweeps. */
  function AfterUnswept(cs: seq<Call>): Guard {
    if cs == [] then [] else Recorded(AfterUnswept(cs[..|cs| - 1]), cs[|cs| - 1])
  }

  predicate SeenUnswept(cs: seq<Call>, i: nat)
    requires i < |cs|
  {
    Known(AfterUnswept(cs[..i]), cs[i].id, cs[i].now)
  }

  // ------------------------------------------------------------------------------ bounded

  lemma PutSize(g: Guard, e: Entry)
    ensures |g| <= |Put(g, e)| <= |g| + 1
  {
  }

  lemma LiveSize(g: Guard, now: int)
    ensures |Live(g, now)| <= |g|
  {
  }

  /** The guard never holds more than `max` entries, for any clock. */
  lemma {:induction false} SizeIsBounded(cs: seq<Call>, max: nat)
    requires max >= 1
    ensures |After(cs, max)| <= max
  {
    if cs != [] {
      var g, c := After(cs[..|cs| - 1], max), cs[|cs| - 1];
      SizeIsBounded(cs[..|cs| - 1], max);
      LiveSize(g, c.now);
      PutSize(Swept(g, c.now, max), Entry(c.id, c.expiresAt));
    }
  }

  /** With a capacity of zero it does: the bound holds exactly for `max >= 1`. */
  lemma ZeroCapacityHoldsOne(c: Call)
    ensures |After([c], 0)| == 1
  {
    assert [c][..0] == [];
    assert After([c][..0], 0) == [];
  }

  // ------------------------------------------------------------------------- look-ups

  lemma {:induction false} GetPut(g: Guard, e: Entry, id: string)
    ensures Get(Put(g, e), id) == if id == e.id then Some(e.until) else Get(g, id)
  {
    if g != [] {
      GetPut(g[1..], e, id);
      if g[0].id != e.id {
        assert Put(g, e)[1..] == Put(g[1..], e);
      }
    }
  }

  ghost predicate Unique(g: Guard) {
    if g == [] then true else Get(g[1..], g[0].id).None? && Unique(g[1..])
  }

  lemma {:induction false} PutUnique(g: Guard, e: Entry)
    requires Unique(g)
    ensures Unique(Put(g, e))
  {
    if g != [] {
      if g[0].id == e.id {
        assert ([e] + g[1..])[1..] == g[1..];
      } else {
        PutUnique(g[1..], e);
        GetPut(g[1..], e, g[0].id);
        assert Put(g, e)[1..] == Put(g[1..], e);
      }
    }
  }

  lemma {:induction false} GetLive(g: Guard, now: int, id: string)
    requires Unique(g)
    ensures Get(Live(g, now), id) == (var u := Get(g, id); if u.Some? && u.value > now then u else None)
  {
    if g != [] {
      GetLive(g[1..], now, id);
      if g[0].until > now {
        assert Live(g, now)[1..] == Live(g[1..], now);
      } else {
        assert Live(g, now) == Live(g[1..], now);
      }
    }
  }

  lemma {:induction false} LiveUnique(g: Guard, now: int)
    requires Unique(g)
    ensures Unique(Live(g, now))
  {
    if g != [] {
      LiveUnique(g[1..], now);
      GetLive(g[1..], now, g[0].id);
      if g[0].until > now {
        assert Live(g, now)[1..] == Live(g[1..], now);
      } else {
        assert Live(g, now) == Live(g[1..], now);
      }
    }
  }

  lemma StepUnique(g: Guard, c: Call, max: nat)
    requires Unique(g)
    ensures Unique(Swept(g, c.now, max)) && Unique(Step(g, c, max))
  {
    LiveUnique(g, c.now);
    PutUnique(Swept(g, c.now, max), Entry(c.id, c.expiresAt));
  }

  lemma {:induction false} AfterUnique(cs: seq<Call>, max: nat)
    ensures Unique(After(cs, max))
  {
    if cs != [] {
      AfterUnique(cs[..|cs| - 1], max);
      StepUnique(After(cs[..|cs| - 1], max), cs[|cs| - 1], max);
    }
  }

  // ----------------------------------------------------------------- sweeping is invisible

  ghost predicate ClockForward(cs: seq<Call>) {
    forall i, j :: 0 <= i < j < |cs| ==> cs[i].now <= cs[j].now
  }

  /** No call finds the guard full of live entries. */
  ghost predicate NoLiveEviction(cs: seq<Call>, max: nat) {
    forall i :: 0 <= i < |cs| ==> !Overfull(After(cs[..i], max), cs[i].now, max)
  }

  /** Sweeping has only lost ids that expired. */
  ghost predicate Agree(g: Guard, all: Guard, now: int) {
    forall id :: Get(g, id) == Get(all, id)
              || (Get(g, id).None? && Get(all, id).Some? && Get(all, id).value <= now)
  }

  lemma SweptAgrees(g: Guard, all: Guard, now: int, later: int, max: nat)
    requires Unique(g) && Agree(g, all, now) && now <= later && !Overfull(g, later, max)
    ensures Agree(Swept(g, later, max), all, later)
  {
    forall id ensures Get(Swept(g, later, max), id) == Get(all, id)
        || (Get(Swept(g, later, max), id).None? && Get(all, id).Some? && Get(all, id).value <= later)
    {
      GetLive(g, later, id);
      assert Get(g, id) == Get(all, id) || (Get(g, id).None? && Get(all, id).Some? && Get(all, id).value <= now);
    }
  }

  lemma RecordedAgrees(g: Guard, all: Guard, c: Call)
    requires Agree(g, all, c.now)
    ensures Known(g, c.id, c.now) == Known(all, c.id, c.now)
    ensures Agree(Recorded(g, c), Recorded(all, c), c.now)
  {
    assert Get(g, c.id) == Get(all, c.id)
        || (Get(g, c.id).None? && Get(all, c.id).Some? && Get(all, c.id).value <= c.now);
    forall id ensures Get(Recorded(g, c), id) == Get(Recorded(all, c), id)
        || (Get(Recorded(g, c), id).None? && Get(Recorded(all, c), id).Some?
            && Get(Recorded(all, c), id).value <= c.now)
    {
      GetPut(g, Entry(c.id, c.expiresAt), id);
      GetPut(all, Entry(c.id, c.expiresAt), id);
      assert Get(g, id) == Get(all, id) || (Get(g, id).None? && Get(all, id).Some? && Get(all, id).value <= c.now);
    }
  }

  lemma {:induction false} RunAgrees(cs: seq<Call>, n: nat, max: nat)
    requires ClockForward(cs) && NoLiveEviction(cs, max) && n < |cs|
    ensures Agree(Swept(After(cs[..n], max), cs[n].now, max), AfterUnswept(cs[..n]), cs[n].now)
    decreases n
  {
    AfterUnique(cs[..n], max);
    var g, all := After(cs[..n], max), AfterUnswept(cs[..n]);
    if n == 0 {
      assert Agree(g, all, cs[n].now);
      SweptAgrees(g, all, cs[n].now, cs[n].now, max);
    } else {
      RunAgrees(cs, n - 1, max);
      assert cs[..n][..n - 1] == cs[..n - 1];
      RecordedAgrees(Swept(After(cs[..n - 1], max), cs[n - 1].now, max), AfterUnswept(cs[..n - 1]), cs[n - 1]);
      SweptAgrees(g, all, cs[n - 1].now, cs[n].now, max);
    }
  }

  /** As long as no live entry is evicted, sweeping never changes an answer. */
  lemma SweepingIsInvisible(cs: seq<Call>, i: nat, max: nat)
    requires ClockForward(cs) && NoLiveEviction(cs, max) && i < |cs|
    ensures Seen(cs, i, max) == SeenUnswept(cs, i)
  {
    RunAgrees(cs, i, max);
    RecordedAgrees(Swept(After(cs[..i], max), cs[i].now, max), AfterUnswept(cs[..i]), cs[i]);
  }

  // -------------------------------------------------------------------------- accepted once

  /** An accepted id stays recorded with its expiry until it is over. */
  lemma {:induction false} StaysRecorded(cs: seq<Call>, i: nat, n: nat)
    requires ClockForward(cs) && i < n <= |cs| && !SeenUnswept(cs, i)
    requires forall k :: i < k < n ==> cs[k].now < cs[i].expiresAt
    ensures Get(AfterUnswept(cs[..n]), cs[i].id) == Some(cs[i].expiresAt)
    decreases n
  {
    var m := n - 1;
    assert cs[..n][..m] == cs[..m];
    GetPut(AfterUnswept(cs[..m]), Entry(cs[m].id, cs[m].expiresAt), cs[i].id);
    if i < m {
      StaysRecorded(cs, i, m);
    }
  }

  /** On runs where no live entry is evicted, an id that was accepted is a replay until the
      expiry recorded for it. */
  lemma AcceptedOnce(cs: seq<Call>, i: nat, j: nat, max: nat)
    requires ClockForward(cs) && NoLiveEviction(cs, max) && i < j < |cs| && cs[i].id == cs[j].id
    requires !Seen(cs, i, max) && cs[j].now < cs[i].expiresAt
    ensures Seen(cs, j, max)
  {
    SweepingIsInvisible(cs, i, max);
    SweepingIsInvisible(cs, j, max);
    forall k | i < k < j ensures cs[k].now < cs[i].expiresAt {
      assert cs[k].now <= cs[j].now;
    }
    StaysRecorded(cs, i, j);
  }

  /** No more calls than capacity: then nothing live is evicted. */
  lemma FewCallsEvictNothing(cs: seq<Call>, max: nat)
    requires |cs| <= max
    ensures NoLiveEviction(cs, max)
  {
    forall i | 0 <= i < |cs| ensures !Overfull(After(cs[..i], max), cs[i].now, max) {
      SizeByCalls(cs[..i], max);
    }
  }

  lemma {:induction false} SizeByCalls(cs: seq<Call>, max: nat)
    ensures |After(cs, max)| <= |cs|
  {
    if cs != [] {
      var g, c := After(cs[..|cs| - 1], max), cs[|cs| - 1];
      SizeByCalls(cs[..|cs| - 1], max);
      LiveSize(g, c.now);
      PutSize(Swept(g, c.now, max), Entry(c.id, c.expiresAt));
    }
  }

  // ------------------------------------------------------------------- what is forgotten

  /** A sweep drops this live id: the guard is full of live entries, and of those it was the
      one inserted first. */
  predicate Evicts(g: Guard, now: int, max: nat, id: string) {
    Overfull(g, now, max) && Live(g, now) != [] && Live(g, now)[0].id == id
  }

  /** Exactly the first of the live entries of an overfull guard is forgotten by a sweep, and
      not the one that expires first; every other live id is still known. */
  lemma SweepForgetsIff(g: Guard, now: int, max: nat, id: string)
    requires Unique(g)
    ensures Known(g, id, now) && !Known(Swept(g, now, max), id, now) <==> Evicts(g, now, max, id)
    ensures Known(Swept(g, now, max), id, now) ==> Get(Swept(g, now, max), id) == Get(g, id)
  {
    GetLive(g, now, id);
    LiveUnique(g, now);
  }

  /** In any state of any run, a guard full of live entries accepts at once the very id that it
      has to make room by forgetting. */
  lemma FullGuardAcceptsReplay(cs: seq<Call>, c: Call, max: nat)
    requires Evicts(After(cs, max), c.now, max, c.id)
    ensures Known(After(cs, max), c.id, c.now) && !Seen(cs + [c], |cs|, max)
  {
    assert (cs + [c])[..|cs|] == cs;
    AfterUnique(cs, max);
    SweepForgetsIff(After(cs, max), c.now, max, c.id);
  }

  /** The smallest case: a guard with one place accepts the same live assertion twice running. */
  lemma OnePlaceAcceptsTwice(c: Call, again: Call)
    requires again.id == c.id && c.now <= again.now < c.expiresAt
    ensures !Seen([c, again], 0, 1) && !Seen([c, again], 1, 1)
  {
    var g := [Entry(c.id, c.expiresAt)];
    assert [c, again][..0] == [] && [c, again][..1] == [c] && [c][..0] == [];
    assert After([c], 1) == g && Live(g, again.now) == g;
  }

  /** Call `k` evicts this id. */
  predicate EvictsAt(cs: seq<Call>, k: nat, max: nat, id: string)
    requires k < |cs|
  {
    Evicts(After(cs[..k], max), cs[k].now, max, id)
  }

  /** Some call after `i` and before `n` evicts this id. */
  ghost predicate EvictedSince(cs: seq<Call>, i: nat, n: nat, max: nat, id: string)
    requires i < n <= |cs|
  {
    exists k :: i < k < n && EvictsAt(cs, k, max, id)
  }

  lemma EvictedPush(cs: seq<Call>, i: nat, n: nat, max: nat, id: string)
    requires i < n < |cs|
    ensures EvictedSince(cs, i, n + 1, max, id) <==> EvictedSince(cs, i, n, max, id) || EvictsAt(cs, n, max, id)
  {
  }

  /** Call `i`'s record in a guard: there, unless it was evicted since. */
  ghost predicate RecordFits(g: Guard, c: Call, evicted: bool) {
    Get(g, c.id) == if evicted then None else Some(c.expiresAt)
  }

  lemma {:induction false} SweptAbsent(g: Guard, now: int, max: nat, id: string)
    requires Unique(g) && Get(g, id).None?
    ensures Get(Swept(g, now, max), id).None?
  {
    GetLive(g, now, id);
    LiveUnique(g, now);
  }

  /** What call `n` does to another call's record, once it has swept. */
  lemma RecordLater(g: Guard, c: Call, max: nat, id: string)
    requires Unique(g) && (c.id == id ==> Known(Swept(g, c.now, max), id, c.now))
    ensures Get(Step(g, c, max), id) == Get(Swept(g, c.now, max), id)
  {
    GetPut(Swept(g, c.now, max), Entry(c.id, c.expiresAt), id);
  }

  /** What a sweep does to a live record. */
  lemma SweptRecord(g: Guard, now: int, max: nat, id: string, until: int)
    requires Unique(g) && Get(g, id) == Some(until) && until > now
    ensures Get(Swept(g, now, max), id) == if Evicts(g, now, max, id) then None else Some(until)
  {
    SweepForgetsIff(g, now, max, id);
    GetLive(g, now, id);
    LiveUnique(g, now);
  }

  lemma JustRecorded(cs: seq<Call>, i: nat, max: nat)
    requires i < |cs| && !Seen(cs, i, max)
    ensures RecordFits(After(cs[..i + 1], max), cs[i], false)
  {
    assert cs[..i + 1][..i] == cs[..i];
    GetPut(Swept(After(cs[..i], max), cs[i].now, max), Entry(cs[i].id, cs[i].expiresAt), cs[i].id);
  }

  /** One call later, for a record that has not expired. */
  lemma RecordFitsLater(g: Guard, first: Call, c: Call, max: nat, evicted: bool)
    requires Unique(g) && RecordFits(g, first, evicted) && c.now < first.expiresAt
    requires c.id == first.id ==> Known(Swept(g, c.now, max), c.id, c.now)
    ensures RecordFits(Swept(g, c.now, max), first, evicted || Evicts(g, c.now, max, first.id))
    ensures RecordFits(Step(g, c, max), first, evicted || Evicts(g, c.now, max, first.id))
  {
    RecordLater(g, c, max, first.id);
    SweptFits(g, first, c.now, max, evicted);
  }

  lemma SweptFits(g: Guard, first: Call, now: int, max: nat, evicted: bool)
    requires Unique(g) && RecordFits(g, first, evicted) && now < first.expiresAt
    ensures RecordFits(Swept(g, now, max), first, evicted || Evicts(g, now, max, first.id))
  {
    if evicted {
      SweptAbsent(g, now, max, first.id);
    } else {
      SweptRecord(g, now, max, first.id, first.expiresAt);
    }
  }

  lemma {:induction false} RecordFitsUntil(cs: seq<Call>, i: nat, n: nat, max: nat)
    requires i < n <= |cs| && !Seen(cs, i, max)
    requires forall k :: i < k < n ==> cs[k].now < cs[i].expiresAt && (cs[k].id == cs[i].id ==> Seen(cs, k, max))
    ensures RecordFits(After(cs[..n], max), cs[i], EvictedSince(cs, i, n, max, cs[i].id))
    decreases n
  {
    var m := n - 1;
    if i == m {
      JustRecorded(cs, i, max);
    } else {
      RecordFitsUntil(cs, i, m, max);
      AfterUnique(cs[..m], max);
      EvictedPush(cs, i, m, max, cs[i].id);
      assert cs[..n][..m] == cs[..m];
      RecordFitsLater(After(cs[..m], max), cs[i], cs[m], max, EvictedSince(cs, i, m, max, cs[i].id));
    }
  }

  /** In every run and for every capacity: an id that was accepted and comes again before the
      expiry recorded for it, with no acceptance in between, is accepted again exactly when
      one of the calls since then, itself included, evicted it from a guard full of live
      entries. */
  lemma AcceptedAgainIff(cs: seq<Call>, i: nat, j: nat, max: nat)
    requires ClockForward(cs) && i < j < |cs| && cs[i].id == cs[j].id
    requires !Seen(cs, i, max) && cs[j].now < cs[i].expiresAt
    requires forall k :: i < k < j && cs[k].id == cs[i].id ==> Seen(cs, k, max)
    ensures !Seen(cs, j, max) <==> EvictedSince(cs, i, j + 1, max, cs[i].id)
  {
    forall k | i < k < j ensures cs[k].now < cs[i].expiresAt {
      assert cs[k].now <= cs[j].now;
    }
    RecordFitsUntil(cs, i, j, max);
    AfterUnique(cs[..j], max);
    EvictedPush(cs, i, j, max, cs[i].id);
    SweptFits(After(cs[..j], max), cs[i], cs[j].now, max, EvictedSince(cs, i, j, max, cs[i].id));
  }

  // ------------------------------------------------------------------------------ the guard

  class AssertionGuard {
    const max: nat
    var seenUntil: Guard

    constructor (max: nat)
      ensures this.max == max && seenUntil == []
    {
      this.max, seenUntil := max, [];
    }

    method Sweep(now: int)
      modifies this
      ensures seenUntil == Swept(old(seenUntil), now, max)
    {
      if |seenUntil| < max {
        return;
      }
      var all, kept: Guard := seenUntil, [];
      var i := |all|;
      while i > 0
        invariant 0 <= i <= |all| && kept == Live(all[i..], now)
      {
        i := i - 1;
        assert all[i..][1..] == all[i + 1..];
        if all[i].until > now {
          kept := [all[i]] + kept;
        }
      }
      assert all[0..] == all;
      seenUntil := kept;
      if |seenUntil| >= max && |seenUntil| > 0 {
        seenUntil := seenUntil[1..];
      }
    }

    /** Records an id; true for a replay. `cs` is every call before this one. */
    method Check(id: string, expiresAt: int, now: int, ghost cs: seq<Call>) returns (replay: bool)
      requires seenUntil == After(cs, max)
      modifies this
      ensures var all := cs + [Call(id, expiresAt, now)];
              seenUntil == After(all, max) && replay == Seen(all, |cs|, max)
      ensures max >= 1 ==> |seenUntil| <= max
    {
      ghost var all := cs + [Call(id, expiresAt, now)];
      assert all[..|cs|] == cs;
      if max >= 1 {
        SizeIsBounded(all, max);
      }
      Sweep(now);
      var until := Get(seenUntil, id);
      if until.Some? && until.value > now {
        return true;
      }
      seenUntil := Put(seenUntil, Entry(id, expiresAt));
      return false;
    }
  }
}
