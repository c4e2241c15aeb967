/**
 * Budget alerts: a notice when a scope's utilization crosses each configured level, once per
 * level and window, and one for the hard rejection. What was announced is kept per scope in
 * insertion order, and the oldest scope is evicted when too many are tracked.
 */
module BudgetAlerts {
  import opened Common

  const MAX_TRACKED_SCOPES := 50_000

  datatype Entry = Entry(scope: string, window: string, highest: real)

  type State = seq<Entry>

  datatype Event = Event(scope: string, window: string, level: real, hard: bool)

  // ----------------------------------------------------------------- the tracked scopes

  function Find(st: State, scope: string): Option<Entry> {
    if st == [] then None
    else if st[0].scope == scope then Some(st[0])
    else Find(st[1..], scope)
  }

  function Delete(st: State, scope: string): State {
    if st == [] then []
    else if st[0].scope == scope then Delete(st[1..], scope)
    else [st[0]] + Delete(st[1..], scope)
  }

  /** Setting a tracked scope keeps its place; a new one goes last. */
  function Put(st: State, e: Entry): State {
    if st == [] then [e]
    else if st[0].scope == e.scope then [e] + st[1..]
    else [st[0]] + Put(st[1..], e)
  }

  function Highest(st: State, scope: string, window: string): real {
    match Find(st, scope)
    case Some(e) => if e.window == window then e.highest else 0.0
    case None => 0.0
  }

  /** Looking a scope up forgets it if its window rolled. */
  function LookedUp(st: State, scope: string, window: string): State {
    match Find(st, scope)
    case Some(e) => if e.window == window then st else Delete(st, scope)
    case None => st
  }

  function Remember(st: State, scope: string, window: string, highest: real): State {
    var kept := if Find(st, scope).None? && |st| >= MAX_TRACKED_SCOPES then st[1..] else st;
    Put(kept, Entry(scope, window, highest))
  }

  // -------------------------------------------------------------------------- the calls

  datatype Call =
    | Check(scope: string, used: real, cap: real, window: string)
    | Exceeded(scope: string, used: real, cap: real, window: string)

  function Utilization(c: Call): real
    requires c.cap > 0.0
  {
    c.used / c.cap
  }

  /** The first `n` levels of a check: fire those that are reached and above `last`. */
  function Fire(st: State, levels: seq<real>, n: nat, scope: string, window: string, u: real, last: real)
    : (State, seq<Event>)
    requires n <= |levels|
  {
    if n == 0 then (st, [])
    else
      var r := Fire(st, levels, n - 1, scope, window, u, last);
      var t := levels[n - 1];
      if u >= t && t > last then (Remember(r.0, scope, window, t), r.1 + [Event(scope, window, t, false)]) else r
  }

  function Step(levels: seq<real>, st: State, c: Call): (State, seq<Event>) {
    if c.cap <= 0.0 then (st, [])
    else match c
      case Check(scope, _, _, window) =>
        if levels == [] then (st, [])
        else if Utilization(c) < levels[0] then (Delete(st, scope), [])
        else
          Fire(LookedUp(st, scope, window), levels, |levels|, scope, window, Utilization(c), Highest(st, scope, window))
      case Exceeded(scope, _, _, window) =>
        if Highest(st, scope, window) >= 1.0 then (LookedUp(st, scope, window), [])
        else (Remember(LookedUp(st, scope, window), scope, window, 1.0), [Event(scope, window, 1.0, true)])
  }

  function Run(levels: seq<real>, st: State, calls: seq<Call>): (State, seq<Event>) {
    if calls == [] then (st, [])
    else
      var r := Run(levels, st, calls[..|calls| - 1]);
      var s := Step(levels, r.0, calls[|calls| - 1]);
      (s.0, r.1 + s.1)
  }

  // ------------------------------------------------------------------- looking scopes up

  lemma {:induction false} FindDelete(st: State, scope: string, s: string)
    ensures Find(Delete(st, scope), s) == if s == scope then None else Find(st, s)
  {
    if st != [] {
      FindDelete(st[1..], scope, s);
      if st[0].scope != scope {
        assert Delete(st, scope)[1..] == Delete(st[1..], scope);
      }
    }
  }

  lemma {:induction false} FindPut(st: State, e: Entry, s: string)
    ensures Find(Put(st, e), s) == if s == e.scope then Some(e) else Find(st, s)
  {
    if st != [] {
      FindPut(st[1..], e, s);
      if st[0].scope != e.scope {
        assert Put(st, e)[1..] == Put(st[1..], e);
      }
    }
  }

  ghost function Scopes(st: State): set<string> { set i | 0 <= i < |st| :: st[i].scope }

  ghost predicate Unique(st: State) {
    if st == [] then true else st[0].scope !in Scopes(st[1..]) && Unique(st[1..])
  }

  lemma ScopesCons(e: Entry, st: State)
    ensures Scopes([e] + st) == {e.scope} + Scopes(st)
  {
    forall i | 0 <= i < |st| ensures ([e] + st)[i + 1] == st[i] {
    }
    assert ([e] + st)[0] == e;
    forall s | s in {e.scope} + Scopes(st) ensures s in Scopes([e] + st) {
      if s in Scopes(st) {
        var i :| 0 <= i < |st| && st[i].scope == s;
        assert ([e] + st)[i + 1].scope == s;
      }
    }
  }

  lemma Uncons(st: State)
    requires st != []
    ensures st == [st[0]] + st[1..] && Scopes(st) == {st[0].scope} + Scopes(st[1..])
  {
    assert st == [st[0]] + st[1..];
    ScopesCons(st[0], st[1..]);
  }

  lemma {:induction false} UniqueSize(st: State)
    requires Unique(st)
    ensures |Scopes(st)| == |st|
  {
    if st != [] {
      Uncons(st);
      UniqueSize(st[1..]);
    }
  }

  lemma {:induction false} FindIff(st: State, s: string)
    ensures Find(st, s).Some? <==> s in Scopes(st)
  {
    if st != [] {
      Uncons(st);
      FindIff(st[1..], s);
    }
  }

  lemma {:induction false} DeleteUnique(st: State, scope: string)
    requires Unique(st)
    ensures Unique(Delete(st, scope)) && Scopes(Delete(st, scope)) <= Scopes(st)
  {
    if st != [] {
      Uncons(st);
      DeleteUnique(st[1..], scope);
      if st[0].scope != scope {
        ScopesCons(st[0], Delete(st[1..], scope));
        assert Delete(st, scope)[1..] == Delete(st[1..], scope);
      }
    }
  }

  lemma {:induction false} PutUnique(st: State, e: Entry)
    requires Unique(st)
    ensures Unique(Put(st, e)) && Scopes(Put(st, e)) == Scopes(st) + {e.scope}
  {
    if st == [] {
      assert Put(st, e)[1..] == [] && Scopes(st) == {};
      ScopesCons(e, []);
      assert [e] + [] == [e];
    } else {
      Uncons(st);
      if st[0].scope == e.scope {
        ScopesCons(e, st[1..]);
        assert ([e] + st[1..])[1..] == st[1..];
      } else {
        PutUnique(st[1..], e);
        ScopesCons(st[0], Put(st[1..], e));
        assert Put(st, e)[1..] == Put(st[1..], e);
      }
    }
  }

  // -------------------------------------------------------------------------- no eviction

  /** Scopes are tracked once, and come from a set that fits. */
  ghost predicate Room(st: State, all: set<string>) {
    Unique(st) && Scopes(st) <= all && |all| <= MAX_TRACKED_SCOPES
  }

  lemma SubsetSize(a: set<string>, b: set<string>)
    requires a <= b
    ensures |a| <= |b| && (|a| == |b| ==> a == b)
  {
    if a != b {
      assert |b - a| == |b| - |a|;
    }
  }

  /** With room for everyone, remembering one scope does not touch another. */
  lemma RememberFinds(st: State, all: set<string>, scope: string, window: string, highest: real, s: string)
    requires Room(st, all) && scope in all
    ensures Find(Remember(st, scope, window, highest), s)
         == if s == scope then Some(Entry(scope, window, highest)) else Find(st, s)
    ensures Room(Remember(st, scope, window, highest), all)
  {
    UniqueSize(st);
    FindIff(st, scope);
    SubsetSize(Scopes(st), all);
    FindPut(st, Entry(scope, window, highest), s);
    PutUnique(st, Entry(scope, window, highest));
  }

  lemma LookedUpFinds(st: State, all: set<string>, scope: string, window: string, s: string)
    requires Room(st, all)
    ensures s != scope ==> Find(LookedUp(st, scope, window), s) == Find(st, s)
    ensures Highest(LookedUp(st, scope, window), scope, window) == Highest(st, scope, window)
    ensures Find(LookedUp(st, scope, window), scope).Some? ==>
              Find(LookedUp(st, scope, window), scope) == Find(st, scope)
              && Find(st, scope).value.window == window
    ensures Room(LookedUp(st, scope, window), all)
  {
    FindDelete(st, scope, s);
    FindDelete(st, scope, scope);
    DeleteUnique(st, scope);
  }

  // ------------------------------------------------------------------ one scope's events

  function Of(events: seq<Event>, s: string): seq<Event> {
    if events == [] then []
    else if events[0].scope == s then [events[0]] + Of(events[1..], s)
    else Of(events[1..], s)
  }

  lemma {:induction false} OfJoin(a: seq<Event>, b: seq<Event>, s: string)
    ensures Of(a + b, s) == Of(a, s) + Of(b, s)
  {
    if a == [] {
      assert a + b == b;
    } else {
      OfJoin(a[1..], b, s);
      assert (a + b)[1..] == a[1..] + b && (a + b)[0] == a[0];
      assert [a[0]] + (Of(a[1..], s) + Of(b, s)) == [a[0]] + Of(a[1..], s) + Of(b, s);
    }
  }

  lemma OfPush(events: seq<Event>, e: Event, s: string)
    ensures Of(events + [e], s) == Of(events, s) + if e.scope == s then [e] else []
  {
    OfJoin(events, [e], s);
  }

  ghost predicate GoodLevels(levels: seq<real>) {
    && (forall i :: 0 <= i < |levels| ==> 0.0 < levels[i] <= 1.0)
    && (forall i, j :: 0 <= i < j < |levels| ==> levels[i] < levels[j])
  }

  /** Level `t` was announced as a soft crossing. */
  ghost predicate Fired(log: seq<Event>, t: real) {
    exists i :: 0 <= i < |log| && log[i].level == t && !log[i].hard
  }

  /** No rejection announced so far. */
  ghost predicate Soft(log: seq<Event>) {
    forall i :: 0 <= i < |log| ==> !log[i].hard
  }

  /** The highest level announced in this window. */
  ghost function Top(log: seq<Event>): real {
    if log == [] then 0.0 else log[|log| - 1].level
  }

  ghost predicate GoodEvent(levels: seq<real>, e: Event, s: string, w: string) {
    e.scope == s && e.window == w && 0.0 < e.level <= 1.0 && (if e.hard then e.level == 1.0 else e.level in levels)
  }

  /** A scope's events in one window: each above the one before, and no configured level
      skipped by a soft crossing while there was no rejection. */
  ghost predicate Chain(levels: seq<real>, s: string, w: string, log: seq<Event>) {
    if log == [] then true
    else
      var init, e := log[..|log| - 1], log[|log| - 1];
      Chain(levels, s, w, init) && Follows(levels, s, w, init, e)
  }

  ghost predicate Follows(levels: seq<real>, s: string, w: string, log: seq<Event>, e: Event) {
    && GoodEvent(levels, e, s, w) && e.level > Top(log)
    && (!e.hard ==> forall i :: 0 <= i < |levels| && Top(log) < levels[i] <= e.level ==> levels[i] == e.level)
  }

  /** The tracked entry records where the events stand. */
  ghost predicate Told(levels: seq<real>, st: State, s: string, w: string, log: seq<Event>) {
    Highest(st, s, w) == Top(log) && Chain(levels, s, w, log)
  }

  lemma ChainPush(levels: seq<real>, s: string, w: string, log: seq<Event>, e: Event)
    ensures Chain(levels, s, w, log + [e]) <==> Chain(levels, s, w, log) && Follows(levels, s, w, log, e)
  {
    assert (log + [e])[..|log|] == log;
  }

  /** So the levels rise, each is in range, and after a rejection none can follow. */
  lemma {:induction false} ChainRises(levels: seq<real>, s: string, w: string, log: seq<Event>, i: nat)
    requires Chain(levels, s, w, log) && i < |log|
    ensures GoodEvent(levels, log[i], s, w) && log[i].level <= Top(log) <= 1.0
    ensures forall j :: 0 <= j < i ==> log[j].level < log[i].level
    decreases |log|
  {
    var init := log[..|log| - 1];
    if i < |init| {
      assert init[i] == log[i];
      ChainRises(levels, s, w, init, i);
      assert forall j :: 0 <= j < i ==> init[j] == log[j];
    } else if |init| > 0 {
      forall j | 0 <= j < i ensures log[j].level < log[i].level {
        assert init[j] == log[j];
        ChainRises(levels, s, w, init, j);
      }
    }
  }

  /** And without a rejection every configured level up to the top fired. */
  lemma {:induction false} ChainFires(levels: seq<real>, s: string, w: string, log: seq<Event>, t: real)
    requires Chain(levels, s, w, log) && Soft(log) && t in levels && 0.0 < t <= Top(log)
    ensures Fired(log, t)
  {
    if log != [] {
      var init, e := log[..|log| - 1], log[|log| - 1];
      if t <= Top(init) {
        ChainFires(levels, s, w, init, t);
        var j :| 0 <= j < |init| && init[j].level == t && !init[j].hard;
        assert log[j] == init[j];
      } else {
        var i :| 0 <= i < |levels| && levels[i] == t;
        assert log[|log| - 1].level == t;
      }
    }
  }

  /** How far the levels loop of a check gets. */
  lemma {:induction false} FireTop(levels: seq<real>, st: State, n: nat, s: string, w: string, u: real, log: seq<Event>)
    requires GoodLevels(levels) && n <= |levels|
    ensures var r := Fire(st, levels, n, s, w, u, Top(log));
            var top := Top(log + r.1);
            && Top(log) <= top && (top > Top(log) ==> n > 0 && top <= levels[n - 1])
            && (forall j :: 0 <= j < n && levels[j] <= u ==> levels[j] <= top)
  {
    if n == 0 {
      assert log + [] == log;
    } else {
      FireTop(levels, st, n - 1, s, w, u, log);
      var r := Fire(st, levels, n - 1, s, w, u, Top(log));
      var e := Event(s, w, levels[n - 1], false);
      assert log + (r.1 + [e]) == (log + r.1) + [e];
    }
  }

  lemma {:induction false} FireIsSoft(levels: seq<real>, st: State, n: nat, s: string, w: string, u: real, last: real)
    requires n <= |levels|
    ensures Soft(Fire(st, levels, n, s, w, u, last).1)
  {
    if n > 0 {
      FireIsSoft(levels, st, n - 1, s, w, u, last);
    }
  }

  /** The levels loop of a check. */
  lemma {:induction false} FireTells(
    levels: seq<real>, st: State, n: nat, s: string, w: string, u: real, log: seq<Event>, all: set<string>)
    requires GoodLevels(levels) && n <= |levels| && Room(st, all) && s in all && Told(levels, st, s, w, log)
    ensures var r := Fire(st, levels, n, s, w, u, Top(log));
            Room(r.0, all) && Told(levels, r.0, s, w, log + r.1)
  {
    if n == 0 {
      assert log + [] == log;
    } else {
      FireTells(levels, st, n - 1, s, w, u, log, all);
      FireTop(levels, st, n - 1, s, w, u, log);
      var r := Fire(st, levels, n - 1, s, w, u, Top(log));
      var t := levels[n - 1];
      if u >= t && t > Top(log) {
        assert Top(log + r.1) < t;
        FireOne(levels, r.0, n - 1, s, w, u, log + r.1, all);
        assert log + (r.1 + [Event(s, w, t, false)]) == (log + r.1) + [Event(s, w, t, false)];
      }
    }
  }

  /** Firing the next level on top of all lower ones. */
  lemma FireOne(levels: seq<real>, st: State, n: nat, s: string, w: string, u: real, log: seq<Event>, all: set<string>)
    requires GoodLevels(levels) && n < |levels| && Room(st, all) && s in all && Told(levels, st, s, w, log)
    requires Top(log) < levels[n] <= u && forall j :: 0 <= j < n && levels[j] <= u ==> levels[j] <= Top(log)
    ensures var st' := Remember(st, s, w, levels[n]);
            Room(st', all) && Told(levels, st', s, w, log + [Event(s, w, levels[n], false)])
  {
    RememberFinds(st, all, s, w, levels[n], s);
    ChainPush(levels, s, w, log, Event(s, w, levels[n], false));
  }

  /** Firing is about one scope only. */
  lemma {:induction false} FireFrame(
    levels: seq<real>, st: State, n: nat, scope: string, w: string, u: real, last: real, s: string, all: set<string>)
    requires n <= |levels| && Room(st, all) && scope in all
    ensures var r := Fire(st, levels, n, scope, w, u, last);
            && Room(r.0, all)
            && (s != scope ==> Find(r.0, s) == Find(st, s) && Of(r.1, s) == [])
            && (s == scope ==> Of(r.1, s) == r.1)
  {
    if n > 0 {
      FireFrame(levels, st, n - 1, scope, w, u, last, s, all);
      var r := Fire(st, levels, n - 1, scope, w, u, last);
      var t := levels[n - 1];
      RememberFinds(r.0, all, scope, w, t, s);
      OfPush(r.1, Event(scope, w, t, false), s);
    }
  }

  lemma ExceededFrame(levels: seq<real>, st: State, c: Call, s: string, all: set<string>)
    requires Room(st, all) && c.scope in all && c.Exceeded?
    ensures var r := Step(levels, st, c);
            Room(r.0, all) && (s != c.scope ==> Find(r.0, s) == Find(st, s) && Of(r.1, s) == [])
  {
    LookedUpFinds(st, all, c.scope, c.window, s);
    RememberFinds(LookedUp(st, c.scope, c.window), all, c.scope, c.window, 1.0, s);
  }

  lemma CheckFrame(levels: seq<real>, st: State, c: Call, s: string, all: set<string>)
    requires Room(st, all) && c.scope in all && c.Check?
    ensures var r := Step(levels, st, c);
            Room(r.0, all) && (s != c.scope ==> Find(r.0, s) == Find(st, s) && Of(r.1, s) == [])
  {
    if c.cap > 0.0 && levels != [] {
      if Utilization(c) < levels[0] {
        FindDelete(st, c.scope, s);
        DeleteUnique(st, c.scope);
      } else {
        LookedUpFinds(st, all, c.scope, c.window, s);
        FireFrame(levels, LookedUp(st, c.scope, c.window), |levels|, c.scope, c.window, Utilization(c),
                  Highest(st, c.scope, c.window), s, all);
      }
    }
  }

  /** A call about another scope. */
  lemma StepFrame(levels: seq<real>, st: State, c: Call, s: string, all: set<string>)
    requires Room(st, all) && c.scope in all
    ensures var r := Step(levels, st, c);
            Room(r.0, all) && (s != c.scope ==> Find(r.0, s) == Find(st, s) && Of(r.1, s) == [])
  {
    match c
    case Check(_, _, _, _) => CheckFrame(levels, st, c, s, all);
    case Exceeded(_, _, _, _) => ExceededFrame(levels, st, c, s, all);
  }

  /** Calls that keep a scope in one window and at or above its lowest level. */
  predicate Steady(levels: seq<real>, c: Call, s: string, w: string) {
    c.scope == s && c.cap > 0.0 ==>
      c.window == w && (c.Check? && levels != [] ==> Utilization(c) >= levels[0])
  }

  lemma OwnCheckTells(levels: seq<real>, st: State, c: Call, log: seq<Event>, all: set<string>)
    requires GoodLevels(levels) && levels != [] && Room(st, all) && c.scope in all && c.Check? && c.cap > 0.0
    requires Utilization(c) >= levels[0] && Told(levels, st, c.scope, c.window, log)
    ensures var r := Step(levels, st, c);
            && Told(levels, r.0, c.scope, c.window, log + Of(r.1, c.scope))
            && (forall j :: 0 <= j < |levels| && levels[j] <= Utilization(c) ==>
                  levels[j] <= Top(log + Of(r.1, c.scope)))
            && (Soft(log) ==> Soft(log + Of(r.1, c.scope)))
  {
    var l := LookedUp(st, c.scope, c.window);
    LookedUpFinds(st, all, c.scope, c.window, c.scope);
    FireTells(levels, l, |levels|, c.scope, c.window, Utilization(c), log, all);
    FireTop(levels, l, |levels|, c.scope, c.window, Utilization(c), log);
    FireIsSoft(levels, l, |levels|, c.scope, c.window, Utilization(c), Top(log));
    FireFrame(levels, l, |levels|, c.scope, c.window, Utilization(c), Top(log), c.scope, all);
  }

  lemma OwnExceededTells(levels: seq<real>, st: State, c: Call, log: seq<Event>, all: set<string>)
    requires GoodLevels(levels) && Room(st, all) && c.scope in all && c.Exceeded? && c.cap > 0.0
    requires Told(levels, st, c.scope, c.window, log)
    ensures var r := Step(levels, st, c);
            Told(levels, r.0, c.scope, c.window, log + Of(r.1, c.scope)) && Top(log + Of(r.1, c.scope)) == 1.0
  {
    var l := LookedUp(st, c.scope, c.window);
    LookedUpFinds(st, all, c.scope, c.window, c.scope);
    var e := Event(c.scope, c.window, 1.0, true);
    if Top(log) < 1.0 {
      RememberFinds(l, all, c.scope, c.window, 1.0, c.scope);
      ChainPush(levels, c.scope, c.window, log, e);
      OfPush([], e, c.scope);
      assert [] + [e] == [e];
    } else {
      assert log + [] == log;
      ChainRises(levels, c.scope, c.window, log, |log| - 1);
    }
  }

  lemma StepTells(levels: seq<real>, st: State, c: Call, s: string, w: string, log: seq<Event>, all: set<string>)
    requires GoodLevels(levels) && Room(st, all) && c.scope in all && Steady(levels, c, s, w)
    requires Told(levels, st, s, w, log)
    ensures var r := Step(levels, st, c);
            Room(r.0, all) && Told(levels, r.0, s, w, log + Of(r.1, s))
  {
    StepFrame(levels, st, c, s, all);
    assert log + [] == log;
    if c.scope == s && c.cap > 0.0 {
      if c.Exceeded? {
        OwnExceededTells(levels, st, c, log, all);
      } else if levels != [] {
        OwnCheckTells(levels, st, c, log, all);
      }
    }
  }

  /** A stretch of calls about a scope in one window, from a state where nothing was announced
      for that window yet, with room for all scopes. */
  ghost predicate Stretch(levels: seq<real>, st: State, calls: seq<Call>, s: string, w: string, all: set<string>) {
    && GoodLevels(levels) && Room(st, all) && Highest(st, s, w) == 0.0
    && (forall i :: 0 <= i < |calls| ==> calls[i].scope in all && Steady(levels, calls[i], s, w))
  }

  ghost function LogOf(levels: seq<real>, st: State, calls: seq<Call>, s: string): seq<Event> {
    Of(Run(levels, st, calls).1, s)
  }

  lemma {:induction false} RunTells(
    levels: seq<real>, st: State, calls: seq<Call>, s: string, w: string, all: set<string>)
    requires Stretch(levels, st, calls, s, w, all)
    ensures Room(Run(levels, st, calls).0, all)
    ensures Told(levels, Run(levels, st, calls).0, s, w, LogOf(levels, st, calls, s))
  {
    if calls != [] {
      var init, c := calls[..|calls| - 1], calls[|calls| - 1];
      RunTells(levels, st, init, s, w, all);
      var r := Run(levels, st, init);
      StepTells(levels, r.0, c, s, w, LogOf(levels, st, init, s), all);
      OfJoin(r.1, Step(levels, r.0, c).1, s);
    }
  }

  // ------------------------------------------------------------------------ main results

  /** Within a stretch the announced levels of a scope strictly increase, so each fires at
      most once; there is at most one rejection event; and every level announced is a
      configured one, or 1 for the rejection. */
  lemma LevelsFireOnce(levels: seq<real>, st: State, calls: seq<Call>, s: string, w: string, all: set<string>)
    requires Stretch(levels, st, calls, s, w, all)
    ensures var log := LogOf(levels, st, calls, s);
            && (forall i, j :: 0 <= i < j < |log| ==> log[i].level < log[j].level)
            && (forall i, j :: 0 <= i < j < |log| ==> !(log[i].hard && log[j].hard))
            && (forall i :: 0 <= i < |log| ==> if log[i].hard then log[i].level == 1.0 else log[i].level in levels)
  {
    RunTells(levels, st, calls, s, w, all);
    var log := LogOf(levels, st, calls, s);
    forall i | 0 <= i < |log|
      ensures GoodEvent(levels, log[i], s, w) && forall j :: 0 <= j < i ==> log[j].level < log[i].level
    {
      ChainRises(levels, s, w, log, i);
    }
  }

  predicate Rejects(c: Call, s: string) { c.Exceeded? && c.scope == s && c.cap > 0.0 }

  lemma {:induction false} NoRejectionIsSoft(
    levels: seq<real>, st: State, calls: seq<Call>, s: string, w: string, all: set<string>)
    requires Stretch(levels, st, calls, s, w, all) && forall i :: 0 <= i < |calls| ==> !Rejects(calls[i], s)
    ensures Soft(LogOf(levels, st, calls, s))
  {
    if calls != [] {
      var init, c := calls[..|calls| - 1], calls[|calls| - 1];
      NoRejectionIsSoft(levels, st, init, s, w, all);
      RunTells(levels, st, init, s, w, all);
      var r := Run(levels, st, init);
      OfJoin(r.1, Step(levels, r.0, c).1, s);
      StepFrame(levels, r.0, c, s, all);
      var log := LogOf(levels, st, init, s);
      assert log + [] == log;
      if c.scope == s && c.cap > 0.0 && levels != [] {
        OwnCheckTells(levels, r.0, c, log, all);
      }
    }
  }

  /** Every level a check reaches before the first rejection has been announced by the end of
      that check. */
  lemma ReachedLevelsFire(
    levels: seq<real>, st: State, calls: seq<Call>, s: string, w: string, all: set<string>, n: nat, t: real)
    requires Stretch(levels, st, calls, s, w, all) && n < |calls|
    requires calls[n].Check? && calls[n].scope == s && calls[n].cap > 0.0
    requires forall i :: 0 <= i < n ==> !Rejects(calls[i], s)
    requires t in levels && Utilization(calls[n]) >= t
    ensures Fired(LogOf(levels, st, calls[..n + 1], s), t)
  {
    var init, c := calls[..n], calls[n];
    assert calls[..n + 1][..n] == init;
    RunTells(levels, st, init, s, w, all);
    NoRejectionIsSoft(levels, st, init, s, w, all);
    var r := Run(levels, st, init);
    OwnCheckTells(levels, r.0, c, LogOf(levels, st, init, s), all);
    OfJoin(r.1, Step(levels, r.0, c).1, s);
    var i :| 0 <= i < |levels| && levels[i] == t;
    ChainFires(levels, s, w, LogOf(levels, st, calls[..n + 1], s), t);
  }

  /** A rejection is never silent: by the end of that call level 1 has been announced, by the
      rejection itself or by an earlier check that reached it. */
  lemma RejectionIsAnnounced(
    levels: seq<real>, st: State, calls: seq<Call>, s: string, w: string, all: set<string>, n: nat)
    requires Stretch(levels, st, calls, s, w, all) && n < |calls| && Rejects(calls[n], s)
    ensures var log := LogOf(levels, st, calls[..n + 1], s);
            log != [] && log[|log| - 1].level == 1.0
  {
    var init, c := calls[..n], calls[n];
    assert calls[..n + 1][..n] == init;
    RunTells(levels, st, init, s, w, all);
    var r := Run(levels, st, init);
    OwnExceededTells(levels, r.0, c, LogOf(levels, st, init, s), all);
    OfJoin(r.1, Step(levels, r.0, c).1, s);
  }

  // ------------------------------------------------------------------- repeated levels

  function EventsAt(es: seq<Event>, t: real): nat {
    if es == [] then 0 else (if es[0].level == t then 1 else 0) + EventsAt(es[1..], t)
  }

  lemma {:induction false} EventsPush(es: seq<Event>, e: Event, t: real)
    ensures EventsAt(es + [e], t) == EventsAt(es, t) + if e.level == t then 1 else 0
  {
    if es == [] {
      assert es + [e] == [e];
    } else {
      EventsPush(es[1..], e, t);
      assert (es + [e])[1..] == es[1..] + [e];
    }
  }

  lemma MultisetPush(s: seq<real>, n: nat)
    requires n < |s|
    ensures multiset(s[..n + 1]) == multiset(s[..n]) + multiset{s[n]}
  {
    assert s[..n + 1] == s[..n] + [s[n]];
  }

  lemma {:induction false} FireCounts(
    st: State, levels: seq<real>, n: nat, scope: string, window: string, u: real, last: real, t: real)
    requires n <= |levels|
    ensures EventsAt(Fire(st, levels, n, scope, window, u, last).1, t)
         == if u >= t && t > last then multiset(levels[..n])[t] else 0
  {
    if n > 0 {
      FireCounts(st, levels, n - 1, scope, window, u, last, t);
      MultisetPush(levels, n - 1);
      EventsPush(Fire(st, levels, n - 1, scope, window, u, last).1, Event(scope, window, levels[n - 1], false), t);
    }
  }

  // -------------------------------------------------------------------------- the alerter

  function InsertLevel(sorted: seq<real>, t: real): seq<real> {
    if sorted == [] || sorted[|sorted| - 1] <= t then sorted + [t]
    else InsertLevel(sorted[..|sorted| - 1], t) + [sorted[|sorted| - 1]]
  }

  /** The configured thresholds in (0, 1], ascending. */
  function Levels(thresholds: seq<real>): seq<real> {
    if thresholds == [] then []
    else
      var rest := Levels(thresholds[..|thresholds| - 1]);
      var t := thresholds[|thresholds| - 1];
      if 0.0 < t <= 1.0 then InsertLevel(rest, t) else rest
  }

  lemma {:induction false} InsertLevelGood(sorted: seq<real>, t: real)
    requires GoodLevels(sorted) && 0.0 < t <= 1.0 && t !in sorted
    ensures GoodLevels(InsertLevel(sorted, t))
    ensures forall x :: x in InsertLevel(sorted, t) <==> x in sorted || x == t
  {
    if sorted != [] {
      var init, last := sorted[..|sorted| - 1], sorted[|sorted| - 1];
      assert sorted == init + [last];
      InsertLevelGood(init, t);
      if last > t {
        var inner := InsertLevel(init, t);
        forall i | 0 <= i < |inner| ensures inner[i] < last {
          assert inner[i] in inner;
        }
      } else {
        assert last != t;
      }
    }
  }

  /** Distinct thresholds give levels fit for the guarantees above. */
  lemma {:induction false} LevelsGood(thresholds: seq<real>)
    requires forall i, j :: 0 <= i < j < |thresholds| ==> thresholds[i] != thresholds[j]
    ensures GoodLevels(Levels(thresholds))
    ensures forall x :: x in Levels(thresholds) <==> x in thresholds && 0.0 < x <= 1.0
  {
    if thresholds != [] {
      var init, t := thresholds[..|thresholds| - 1], thresholds[|thresholds| - 1];
      assert thresholds == init + [t];
      LevelsGood(init);
      assert t !in init;
      if 0.0 < t <= 1.0 {
        InsertLevelGood(Levels(init), t);
      }
    }
  }

  lemma {:induction false} InsertLevelHolds(sorted: seq<real>, t: real)
    ensures multiset(InsertLevel(sorted, t)) == multiset(sorted) + multiset{t}
  {
    if sorted != [] && sorted[|sorted| - 1] > t {
      var init, last := sorted[..|sorted| - 1], sorted[|sorted| - 1];
      InsertLevelHolds(init, t);
      assert sorted == init + [last];
    }
  }

  ghost predicate NonDecreasing(s: seq<real>) {
    forall i, j :: 0 <= i < j < |s| ==> s[i] <= s[j]
  }

  lemma {:induction false} InsertLevelSorts(sorted: seq<real>, t: real)
    requires NonDecreasing(sorted)
    ensures NonDecreasing(InsertLevel(sorted, t))
  {
    if sorted != [] && sorted[|sorted| - 1] > t {
      var init, last := sorted[..|sorted| - 1], sorted[|sorted| - 1];
      InsertLevelSorts(init, t);
      InsertLevelHolds(init, t);
      var inner := InsertLevel(init, t);
      forall i | 0 <= i < |inner| ensures inner[i] <= last {
        assert inner[i] in multiset(inner);
        assert inner[i] == t || inner[i] in init;
      }
    }
  }

  /** The levels are the thresholds in (0, 1], each as often as it is configured, ascending. */
  lemma {:induction false} LevelsHold(thresholds: seq<real>)
    ensures NonDecreasing(Levels(thresholds))
    ensures forall t :: multiset(Levels(thresholds))[t] == if 0.0 < t <= 1.0 then multiset(thresholds)[t] else 0
  {
    if thresholds != [] {
      var init, t := thresholds[..|thresholds| - 1], thresholds[|thresholds| - 1];
      LevelsHold(init);
      assert thresholds == init + [t];
      InsertLevelHolds(Levels(init), t);
      InsertLevelSorts(Levels(init), t);
    }
  }

  /** A check announces a level it reaches, and that is above what was announced before, as
      often as the level is configured, and no other level: once exactly when the thresholds
      do not repeat it. */
  lemma FiresAsOftenAsConfigured(thresholds: seq<real>, st: State, c: Call, t: real)
    requires c.Check? && c.cap > 0.0
    ensures EventsAt(Step(Levels(thresholds), st, c).1, t)
         == if 0.0 < t <= 1.0 && Utilization(c) >= t && t > Highest(st, c.scope, c.window)
            then multiset(thresholds)[t] else 0
  {
    var levels, u, last := Levels(thresholds), Utilization(c), Highest(st, c.scope, c.window);
    LevelsHold(thresholds);
    assert multiset(levels)[t] == if 0.0 < t <= 1.0 then multiset(thresholds)[t] else 0;
    FireCounts(LookedUp(st, c.scope, c.window), levels, |levels|, c.scope, c.window, u, last, t);
    assert levels[..|levels|] == levels;
    if levels != [] && u < levels[0] && u >= t {
      BelowLowest(levels, t);
    }
  }

  lemma BelowLowest(levels: seq<real>, t: real)
    requires NonDecreasing(levels) && levels != [] && t < levels[0]
    ensures multiset(levels)[t] == 0
  {
    assert t !in levels;
  }

  class BudgetAlerter {
    const thresholds: seq<real>
    var state: State
    var events: seq<Event>

    constructor (thresholds: seq<real>)
      ensures this.thresholds == Levels(thresholds) && state == [] && events == []
    {
      this.thresholds := Levels(thresholds);
      state, events := [], [];
    }

    method Current(scope: string, window: string) returns (last: real)
      modifies this`state
      ensures last == Highest(old(state), scope, window) && state == LookedUp(old(state), scope, window)
    {
      var st := Find(state, scope);
      if st.None? {
        return 0.0;
      }
      if st.value.window != window {
        state := Delete(state, scope);
        return 0.0;
      }
      return st.value.highest;
    }

    method Record(scope: string, window: string, highest: real)
      modifies this`state
      ensures state == Remember(old(state), scope, window, highest)
    {
      if Find(state, scope).None? && |state| >= MAX_TRACKED_SCOPES {
        state := state[1..];
      }
      state := Put(state, Entry(scope, window, highest));
    }

    method CheckBudget(scope: string, used: real, cap: real, window: string)
      modifies this`state, this`events
      ensures var r := Step(thresholds, old(state), Check(scope, used, cap, window));
              state == r.0 && events == old(events) + r.1
    {
      if |thresholds| == 0 || cap <= 0.0 {
        return;
      }
      var utilization := used / cap;
      if utilization < thresholds[0] {
        state := Delete(state, scope);
        return;
      }
      var last := Current(scope, window);
      ghost var looked := state;
      for i := 0 to |thresholds|
        invariant var r := Fire(looked, thresholds, i, scope, window, utilization, last);
                  state == r.0 && events == old(events) + r.1
      {
        if utilization >= thresholds[i] && thresholds[i] > last {
          events := events + [Event(scope, window, thresholds[i], false)];
          Record(scope, window, thresholds[i]);
        }
      }
    }

    method BudgetExceeded(scope: string, used: real, cap: real, window: string)
      modifies this`state, this`events
      ensures var r := Step(thresholds, old(state), Exceeded(scope, used, cap, window));
              state == r.0 && events == old(events) + r.1
    {
      if cap <= 0.0 {
        return;
      }
      var last := Current(scope, window);
      if last >= 1.0 {
        return;
      }
      events := events + [Event(scope, window, 1.0, true)];
      Record(scope, window, 1.0);
    }
  }
}
