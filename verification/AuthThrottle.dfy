/**
 * The per-address limiter in front of the unauthenticated auth endpoints: a counter per
 * address that restarts with the first request at or after its reset time, and a purge of
 * expired counters once there are many.
 */
module AuthThrottle {
  import opened Common

  const PURGE_ABOVE := 20_000

  datatype Bucket = Bucket(count: nat, resetAt: int)

  type Buckets = map<string, Bucket>

  datatype Request = Request(ip: string, now: int)

  function Lookup(bs: Buckets, ip: string): Option<Bucket> {
    if ip in bs then Some(bs[ip]) else None
  }

  predicate Fresh(b: Option<Bucket>, now: int) { b.None? || b.value.resetAt <= now }

  /** Count a request, in a new bucket if the last one is over. */
  function Touch(b: Option<Bucket>, now: int, window: int): Bucket {
    if Fresh(b, now) then Bucket(1, now + window) else b.value.(count := b.value.count + 1)
  }

  function Purged(bs: Buckets, now: int): Buckets {
    if |bs| > PURGE_ABOVE then map ip | ip in bs && bs[ip].resetAt > now :: bs[ip] else bs
  }

  function Hit(bs: Buckets, r: Request, window: int): Buckets {
    var p := Purged(bs, r.now);
    p[r.ip := Touch(Lookup(p, r.ip), r.now, window)]
  }

  /** The buckets after a sequence of requests. */
  function After(rs: seq<Request>, window: int): Buckets {
    if rs == [] then map[] else Hit(After(rs[..|rs| - 1], window), rs[|rs| - 1], window)
  }

  /** The same without ever purging. */
  function AfterUnpurged(rs: seq<Request>, window: int): Buckets {
    if rs == [] then map[]
    else
      var bs, r := AfterUnpurged(rs[..|rs| - 1], window), rs[|rs| - 1];
      bs[r.ip := Touch(Lookup(bs, r.ip), r.now, window)]
  }

  /** Is the last request let in? */
  predicate Admitted(rs: seq<Request>, window: int, max: nat)
    requires rs != []
  {
    var b := Lookup(After(rs, window), rs[|rs| - 1].ip);
    b.Some? && b.value.count <= max
  }

  predicate AdmittedUnpurged(rs: seq<Request>, window: int, max: nat)
    requires rs != []
  {
    var b := Lookup(AfterUnpurged(rs, window), rs[|rs| - 1].ip);
    b.Some? && b.value.count <= max
  }

  ghost predicate ClockForward(rs: seq<Request>) {
    forall i, j :: 0 <= i < j < |rs| ==> rs[i].now <= rs[j].now
  }

  // ------------------------------------------------------------------ purging is invisible

  /** Purging has only lost buckets that are over. */
  ghost predicate Agree(purged: Buckets, all: Buckets, now: int) {
    forall ip :: Lookup(purged, ip) == Lookup(all, ip)
              || (ip !in purged && ip in all && all[ip].resetAt <= now)
  }

  lemma AgreeLater(purged: Buckets, all: Buckets, now: int, later: int)
    requires Agree(purged, all, now) && now <= later
    ensures Agree(purged, all, later) && Agree(Purged(purged, later), all, later)
  {
    forall ip ensures Lookup(Purged(purged, later), ip) == Lookup(all, ip)
              || (ip !in Purged(purged, later) && ip in all && all[ip].resetAt <= later)
    {
      assert Lookup(purged, ip) == Lookup(all, ip) || (ip !in purged && ip in all && all[ip].resetAt <= now);
    }
    forall ip
      ensures Lookup(purged, ip) == Lookup(all, ip) || (ip !in purged && ip in all && all[ip].resetAt <= later)
    {
      assert Lookup(purged, ip) == Lookup(all, ip) || (ip !in purged && ip in all && all[ip].resetAt <= now);
    }
  }

  lemma {:induction false} PurgedAgrees(rs: seq<Request>, window: int)
    requires ClockForward(rs) && rs != []
    ensures Agree(After(rs, window), AfterUnpurged(rs, window), rs[|rs| - 1].now)
    ensures Lookup(After(rs, window), rs[|rs| - 1].ip) == Lookup(AfterUnpurged(rs, window), rs[|rs| - 1].ip)
  {
    var init, r := rs[..|rs| - 1], rs[|rs| - 1];
    var some, all := After(init, window), AfterUnpurged(init, window);
    if init == [] {
      assert Agree(some, all, r.now);
    } else {
      PurgedAgrees(init, window);
      AgreeLater(some, all, init[|init| - 1].now, r.now);
    }
    AgreeLater(some, all, r.now, r.now);
    var p := Purged(some, r.now);
    assert Lookup(p, r.ip) == Lookup(all, r.ip) || (r.ip !in p && r.ip in all && all[r.ip].resetAt <= r.now);
    assert Touch(Lookup(p, r.ip), r.now, window) == Touch(Lookup(all, r.ip), r.now, window);
    forall ip ensures Lookup(After(rs, window), ip) == Lookup(AfterUnpurged(rs, window), ip)
              || (ip !in After(rs, window) && ip in AfterUnpurged(rs, window)
                  && AfterUnpurged(rs, window)[ip].resetAt <= r.now)
    {
      assert Lookup(p, ip) == Lookup(all, ip) || (ip !in p && ip in all && all[ip].resetAt <= r.now);
    }
  }

  /** Purging never changes an answer, for any requests on a clock that does not run
      backwards. */
  lemma PurgingIsInvisible(rs: seq<Request>, window: int, max: nat)
    requires ClockForward(rs) && rs != []
    ensures Admitted(rs, window, max) == AdmittedUnpurged(rs, window, max)
  {
    PurgedAgrees(rs, window);
  }

  // --------------------------------------------------------------------------- the bound

  predicate Within(t: int, from: int, window: int) { from <= t <= from + window }

  /** How many requests of an address are let in from `from` to `from + window`, both
      included. */
  function Admissions(rs: seq<Request>, window: int, max: nat, ip: string, from: int): nat {
    if rs == [] then 0
    else
      var r := rs[|rs| - 1];
      Admissions(rs[..|rs| - 1], window, max, ip, from)
      + if r.ip == ip && Within(r.now, from, window) && Admitted(rs, window, max) then 1 else 0
  }

  /** The same count, split at the address's current bucket. */
  datatype Tally = Tally(bucket: Option<Bucket>, before: nat, during: nat)

  function Counted(t: Tally, now: int, window: int, max: nat, from: int): Tally {
    var b := Touch(t.bucket, now, window);
    var one := if Within(now, from, window) && b.count <= max then 1 else 0;
    if Fresh(t.bucket, now) then Tally(Some(b), t.before + t.during, one) else Tally(Some(b), t.before, t.during + one)
  }

  function TallyOf(rs: seq<Request>, window: int, max: nat, ip: string, from: int): Tally {
    if rs == [] then Tally(None, 0, 0)
    else
      var t, r := TallyOf(rs[..|rs| - 1], window, max, ip, from), rs[|rs| - 1];
      if r.ip == ip then Counted(t, r.now, window, max, from) else t
  }

  lemma {:induction false} TallyIsRight(rs: seq<Request>, window: int, max: nat, ip: string, from: int)
    requires ClockForward(rs)
    ensures var t := TallyOf(rs, window, max, ip, from);
            && t.bucket == Lookup(AfterUnpurged(rs, window), ip)
            && t.before + t.during == Admissions(rs, window, max, ip, from)
  {
    if rs != [] {
      TallyIsRight(rs[..|rs| - 1], window, max, ip, from);
      PurgingIsInvisible(rs, window, max);
    }
  }

  /** At most a bucketful before the current bucket and one during it; if anything counted
      before, the current bucket opened after `from`, so the next one opens too late. */
  ghost predicate Bounded(t: Tally, window: int, max: nat, from: int, now: int) {
    && t.before <= max && t.during <= max
    && (t.bucket.None? ==> t.before == t.during == 0)
    && (t.bucket.Some? ==>
          && t.bucket.value.resetAt <= now + window && t.during <= t.bucket.value.count
          && (t.before > 0 ==> t.bucket.value.resetAt > from + window)
          && (t.during > 0 ==> t.bucket.value.resetAt > from))
  }

  lemma CountedIsBounded(t: Tally, last: int, now: int, window: int, max: nat, from: int)
    requires window > 0 && last <= now && Bounded(t, window, max, from, last)
    ensures Bounded(Counted(t, now, window, max, from), window, max, from, now)
         || (now > from + window && t.before + t.during <= 2 * max)
  {
  }

  lemma {:induction false} LateCountsNothing(
    rs: seq<Request>, window: int, max: nat, ip: string, from: int, n: nat)
    requires ClockForward(rs) && n < |rs| && rs[n].now > from + window
    ensures Admissions(rs, window, max, ip, from) == Admissions(rs[..n], window, max, ip, from)
    decreases |rs|
  {
    var init := rs[..|rs| - 1];
    if n < |init| {
      LateCountsNothing(init, window, max, ip, from, n);
      assert init[..n] == rs[..n];
    } else {
      assert init == rs[..n];
    }
  }

  lemma {:induction false} TallyBounded(rs: seq<Request>, window: int, max: nat, ip: string, from: int)
    requires ClockForward(rs) && window > 0 && rs != [] && rs[|rs| - 1].now <= from + window
    ensures Bounded(TallyOf(rs, window, max, ip, from), window, max, from, rs[|rs| - 1].now)
  {
    var init, r := rs[..|rs| - 1], rs[|rs| - 1];
    if init == [] {
      CountedIsBounded(Tally(None, 0, 0), r.now, r.now, window, max, from);
    } else {
      TallyBounded(init, window, max, ip, from);
      CountedIsBounded(TallyOf(init, window, max, ip, from), init[|init| - 1].now, r.now, window, max, from);
    }
  }

  /** The requests up to the last one that is not past the interval. */
  lemma {:induction false} Cut(rs: seq<Request>, limit: int) returns (n: nat)
    requires ClockForward(rs)
    ensures n <= |rs| && (n < |rs| ==> rs[n].now > limit) && (n > 0 ==> rs[n - 1].now <= limit)
  {
    n := |rs|;
    if rs != [] && rs[|rs| - 1].now > limit {
      n := Cut(rs[..|rs| - 1], limit);
    }
  }

  /** In any interval of one window, ends included, an address is let in at most twice the
      maximum. */
  lemma AtMostTwiceTheMaximum(rs: seq<Request>, window: int, max: nat, ip: string, from: int)
    requires ClockForward(rs) && window > 0
    ensures Admissions(rs, window, max, ip, from) <= 2 * max
  {
    var n := Cut(rs, from + window);
    if n < |rs| {
      LateCountsNothing(rs, window, max, ip, from, n);
    } else {
      assert rs[..n] == rs;
    }
    if n > 0 {
      TallyBounded(rs[..n], window, max, ip, from);
    }
    TallyIsRight(rs[..n], window, max, ip, from);
  }

  // --------------------------------------------------- the bound is met, and needs a window

  function Repeat(r: Request, n: nat): seq<Request> { seq(n, i => r) }

  lemma {:induction false} FirstBurst(ip: string, n: nat, window: int, max: nat)
    requires window > 0 && 0 < n <= max
    ensures TallyOf(Repeat(Request(ip, 0), n), window, max, ip, 0) == Tally(Some(Bucket(n, window)), 0, n)
  {
    var rs := Repeat(Request(ip, 0), n);
    assert rs[..|rs| - 1] == Repeat(Request(ip, 0), n - 1);
    if n > 1 {
      FirstBurst(ip, n - 1, window, max);
    }
  }

  lemma {:induction false} SecondBurst(ip: string, n: nat, window: int, max: nat)
    requires window > 0 && 0 < n <= max
    ensures TallyOf(Repeat(Request(ip, 0), max) + Repeat(Request(ip, window), n), window, max, ip, 0)
         == Tally(Some(Bucket(n, 2 * window)), max, n)
  {
    var first := Repeat(Request(ip, 0), max);
    var rs := first + Repeat(Request(ip, window), n);
    assert rs[..|rs| - 1] == first + Repeat(Request(ip, window), n - 1);
    if n > 1 {
      SecondBurst(ip, n - 1, window, max);
    } else {
      assert rs[..|rs| - 1] == first;
      FirstBurst(ip, max, window, max);
    }
  }

  /** The bound is met: a bucketful when the window opens and another when it has just passed,
      `2 * max` admissions within one window. */
  lemma TwiceTheMaximumIsReached(ip: string, window: int, max: nat)
    requires window > 0 && max > 0
    ensures exists rs :: ClockForward(rs) && Admissions(rs, window, max, ip, 0) == 2 * max
  {
    var rs := Repeat(Request(ip, 0), max) + Repeat(Request(ip, window), max);
    SecondBurst(ip, max, window, max);
    TallyIsRight(rs, window, max, ip, 0);
  }

  /** With no window at all nothing is ever limited. */
  lemma {:induction false} NoWindowNoLimit(rs: seq<Request>, window: int, max: nat)
    requires window <= 0 && max > 0 && rs != [] && ClockForward(rs)
    ensures Admitted(rs, window, max)
    ensures forall ip :: ip in AfterUnpurged(rs, window) ==> AfterUnpurged(rs, window)[ip].resetAt <= rs[|rs| - 1].now
  {
    var init := rs[..|rs| - 1];
    if init != [] {
      NoWindowNoLimit(init, window, max);
    }
    assert Fresh(Lookup(AfterUnpurged(init, window), rs[|rs| - 1].ip), rs[|rs| - 1].now);
    PurgingIsInvisible(rs, window, max);
  }

  // --------------------------------------------------------------------------- the limiter

  class Throttle {
    const maxPerWindow: nat
    const windowMs: int
    var buckets: Buckets

    constructor (maxPerWindow: nat, windowMs: int)
      ensures this.maxPerWindow == maxPerWindow && this.windowMs == windowMs && buckets == After([], windowMs)
    {
      this.maxPerWindow, this.windowMs, buckets := maxPerWindow, windowMs, map[];
    }

    /** Drops every bucket that is over. */
    method Purge(now: int)
      modifies this`buckets
      ensures buckets == map ip | ip in old(buckets) && old(buckets)[ip].resetAt > now :: old(buckets)[ip]
    {
      var left := buckets.Keys;
      while left != {}
        invariant left <= old(buckets).Keys
        invariant buckets
               == map ip | ip in old(buckets) && (ip in left || old(buckets)[ip].resetAt > now) :: old(buckets)[ip]
      {
        var ip :| ip in left;
        if buckets[ip].resetAt <= now {
          buckets := buckets - {ip};
        }
        left := left - {ip};
      }
    }

    /** Answers a request; `rs` is everything asked before. */
    method Admit(ip: string, now: int, ghost rs: seq<Request>) returns (ok: bool)
      requires buckets == After(rs, windowMs)
      modifies this
      ensures buckets == After(rs + [Request(ip, now)], windowMs)
      ensures ok == Admitted(rs + [Request(ip, now)], windowMs, maxPerWindow)
    {
      AfterPush(rs, Request(ip, now), windowMs);
      if |buckets| > PURGE_ABOVE {
        Purge(now);
      }
      var b := Bucket(0, now + windowMs);
      if ip in buckets && buckets[ip].resetAt > now {
        b := buckets[ip];
      }
      b := b.(count := b.count + 1);
      buckets := buckets[ip := b];
      return b.count <= maxPerWindow;
    }
  }

  lemma AfterPush(rs: seq<Request>, r: Request, window: int)
    ensures After(rs + [r], window) == Hit(After(rs, window), r, window)
  {
    assert (rs + [r])[..|rs|] == rs;
  }
}
