/**
 * Config propagation to one gateway replica, as a state machine whose steps lie between
 * awaits. The control plane commits versions and may signal them; signals are lost,
 * repeated and reordered at will. The replica's watcher reacts to signals, polls,
 * reconnects and retry timers, and all of them feed one chain of reconciles, which run one
 * at a time and may fail.
 *
 * A reconcile reads the document in several queries with no transaction around them, so the
 * model reads it section by section: an applied document is one version per section.
 */
module ConfigPropagation {
  import opened Common

  datatype Signal = Signal(v: nat, origin: string)

  /** A reconcile in progress: the version its caller will record, and the sections read. */
  datatype Run = Run(target: nat, read: seq<nat>)

  /** A finished reconcile whose caller has not resumed yet. */
  datatype Outcome = Outcome(target: nat, ok: bool)

  datatype Replica = Replica(
    lastVersion: nat,
    gate: nat,
    stopped: bool,
    retryArmed: bool,
    applied: seq<nat>,
    polls: seq<nat>,
    resyncs: nat,
    resyncReads: seq<nat>,
    queue: seq<nat>,
    running: Option<Run>,
    finished: seq<Outcome>)

  datatype World = World(version: nat, emitted: set<Signal>, r: Replica)

  datatype Event =
    | Commit
    | Emit(sig: Signal)
    | Deliver(sig: Signal)
    | PollTick
    | PollResume(i: nat)
    | StartResync
    | ResyncRead(ok: bool)
    | ResyncResume(i: nat)
    | JobStart
    | JobRead
    | JobFail
    | JobSwap
    | CallerResume(i: nat)
    | RetryFires
    | Stop

  function Removed<T>(s: seq<T>, i: nat): seq<T>
    requires i < |s|
  {
    s[..i] + s[i + 1..]
  }

  // ---------------------------------------------------------------- the watcher's steps

  /** The gate lets a signal through when it is foreign and newer than what was applied. */
  predicate ShouldAccept(gate: nat, own: string, sig: Signal) {
    sig.origin != own && sig.v > gate
  }

  function Delivered(r: Replica, own: string, sig: Signal): Replica {
    if ShouldAccept(r.gate, own, sig) then r.(queue := r.queue + [sig.v]) else r
  }

  /** The poll's guard: the store is ahead of what this watcher recorded. */
  predicate Ahead(r: Replica, read: nat) {
    read > r.lastVersion
  }

  /** After its version read, a poll resyncs only if the store is ahead. */
  function PollResumed(r: Replica, i: nat): Replica
    requires i < |r.polls|
  {
    var m := r.(polls := Removed(r.polls, i));
    if Ahead(r, r.polls[i]) then m.(resyncs := m.resyncs + 1) else m
  }

  /** After its version read, a resync queues a reconcile. */
  function ResyncResumed(r: Replica, i: nat): Replica
    requires i < |r.resyncReads|
  {
    r.(resyncReads := Removed(r.resyncReads, i), queue := r.queue + [r.resyncReads[i]])
  }

  /** The caller of a reconcile advances its cursors on success, else arms the retry. */
  function CallerResumed(r: Replica, i: nat): Replica
    requires i < |r.finished|
  {
    var o := r.finished[i];
    var m := r.(finished := Removed(r.finished, i));
    if o.ok then m.(gate := Max(m.gate, o.target), lastVersion := Max(m.lastVersion, o.target))
    else if m.stopped || m.retryArmed then m
    else m.(retryArmed := true)
  }

  function RetryFired(r: Replica): Replica {
    r.(retryArmed := false, resyncs := r.resyncs + 1)
  }

  // -------------------------------------------------------------- the reconciler's steps

  function JobStarted(r: Replica): Replica
    requires r.queue != []
  {
    r.(queue := r.queue[1..], running := Some(Run(r.queue[0], [])))
  }

  function SectionRead(r: Replica, version: nat): Replica
    requires r.running.Some?
  {
    r.(running := Some(r.running.value.(read := r.running.value.read + [version])))
  }

  function JobFailed(r: Replica): Replica
    requires r.running.Some?
  {
    r.(running := None, finished := r.finished + [Outcome(r.running.value.target, false)])
  }

  function Swapped(r: Replica): Replica
    requires r.running.Some?
  {
    r.(running := None, applied := r.running.value.read,
       finished := r.finished + [Outcome(r.running.value.target, true)])
  }

  // ------------------------------------------------------------------------- the machine

  predicate Enabled(w: World, e: Event) {
    match e
    case Commit => true
    case Emit(sig) => 1 <= sig.v <= w.version
    case Deliver(sig) => sig in w.emitted
    case PollTick => !w.r.stopped
    case PollResume(i) => i < |w.r.polls|
    case StartResync => true
    case ResyncRead(_) => w.r.resyncs > 0
    case ResyncResume(i) => i < |w.r.resyncReads|
    case JobStart => w.r.running.None? && w.r.queue != []
    case JobRead => w.r.running.Some? && |w.r.running.value.read| < |w.r.applied|
    case JobFail => w.r.running.Some?
    case JobSwap => w.r.running.Some? && |w.r.running.value.read| == |w.r.applied|
    case CallerResume(i) => i < |w.r.finished|
    case RetryFires => w.r.retryArmed
    case Stop => true
  }

  function Next(w: World, own: string, e: Event): World
    requires Enabled(w, e)
  {
    match e
    case Commit => w.(version := w.version + 1)
    case Emit(sig) => w.(emitted := w.emitted + {sig})
    case Deliver(sig) => w.(r := Delivered(w.r, own, sig))
    case PollTick => w.(r := w.r.(polls := w.r.polls + [w.version]))
    case PollResume(i) => w.(r := PollResumed(w.r, i))
    case StartResync => w.(r := w.r.(resyncs := w.r.resyncs + 1))
    case ResyncRead(ok) =>
      w.(r := w.r.(resyncs := w.r.resyncs - 1,
                   resyncReads := if ok then w.r.resyncReads + [w.version] else w.r.resyncReads))
    case ResyncResume(i) => w.(r := ResyncResumed(w.r, i))
    case JobStart => w.(r := JobStarted(w.r))
    case JobRead => w.(r := SectionRead(w.r, w.version))
    case JobFail => w.(r := JobFailed(w.r))
    case JobSwap => w.(r := Swapped(w.r))
    case CallerResume(i) => w.(r := CallerResumed(w.r, i))
    case RetryFires => w.(r := RetryFired(w.r))
    case Stop => w.(r := w.r.(stopped := true, retryArmed := false))
  }

  /** A replica that just booted, at whatever version the store is by then. Its boot config
      counts as version 0 in every section. */
  ghost predicate Start(w: World) {
    && w.r.lastVersion == 0 && w.r.gate == 0 && !w.r.stopped && !w.r.retryArmed
    && w.r.polls == [] && w.r.resyncs == 0 && w.r.resyncReads == [] && w.r.queue == []
    && w.r.running.None? && w.r.finished == []
    && (forall i :: 0 <= i < |w.r.applied| ==> w.r.applied[i] == 0)
    && (forall s :: s in w.emitted ==> s.v <= w.version)
  }

  ghost predicate IsRun(w: World, own: string, es: seq<Event>)
    decreases |es|, 0
  {
    es == [] || (IsRun(w, own, es[..|es| - 1]) && Enabled(After(w, own, es[..|es| - 1]), es[|es| - 1]))
  }

  ghost function After(w: World, own: string, es: seq<Event>): World
    requires IsRun(w, own, es)
    decreases |es|, 1
  {
    if es == [] then w else Next(After(w, own, es[..|es| - 1]), own, es[|es| - 1])
  }

  // ----------------------------------------------------------------- what every step keeps

  ghost predicate AtMost(s: seq<nat>, v: nat) {
    forall i :: 0 <= i < |s| ==> s[i] <= v
  }

  ghost predicate AtLeast(s: seq<nat>, v: nat) {
    forall i :: 0 <= i < |s| ==> s[i] >= v
  }

  /** Section by section, `b` is no older than `a`, as far as `b` goes. */
  ghost predicate NoOlder(a: seq<nat>, b: seq<nat>) {
    |b| <= |a| && forall i :: 0 <= i < |b| ==> a[i] <= b[i]
  }

  /** What runs: its target was committed, every section read is at least the target and no
      older than the section applied now. */
  ghost predicate RunFits(w: World, run: Run) {
    && run.target <= w.version && AtMost(run.read, w.version) && AtLeast(run.read, run.target)
    && NoOlder(w.r.applied, run.read)
  }

  ghost predicate OutcomeFits(w: World, o: Outcome) {
    o.ok ==> AtLeast(w.r.applied, o.target)
  }

  ghost predicate Inv(w: World) {
    && AtMost(w.r.applied, w.version)
    && AtLeast(w.r.applied, w.r.lastVersion) && AtLeast(w.r.applied, w.r.gate)
    && AtMost(w.r.resyncReads, w.version) && AtMost(w.r.queue, w.version)
    && (w.r.running.Some? ==> RunFits(w, w.r.running.value))
    && (forall i :: 0 <= i < |w.r.finished| ==> OutcomeFits(w, w.r.finished[i]))
    && (forall s :: s in w.emitted ==> s.v <= w.version)
  }

  lemma OutcomesStay(w: World, w': World)
    requires Inv(w) && |w.r.applied| == |w'.r.applied| && NoOlder(w.r.applied, w'.r.applied)
    ensures forall i :: 0 <= i < |w.r.finished| ==> OutcomeFits(w', w.r.finished[i])
  {
    forall i | 0 <= i < |w.r.finished| ensures OutcomeFits(w', w.r.finished[i]) {
      assert OutcomeFits(w, w.r.finished[i]);
    }
  }

  /** What a step of the reconciler keeps. */
  lemma JobKeepsInv(w: World, own: string, e: Event)
    requires Inv(w) && Enabled(w, e) && (e.JobStart? || e.JobRead? || e.JobFail? || e.JobSwap?)
    ensures var w' := Next(w, own, e);
            Inv(w') && |w'.r.applied| == |w.r.applied| && NoOlder(w.r.applied, w'.r.applied)
  {
    OutcomesStay(w, Next(w, own, e));
    assert e.JobStart? ==> w.r.queue[0] <= w.version;
  }

  lemma CallerKeepsInv(w: World, own: string, i: nat)
    requires Inv(w) && Enabled(w, CallerResume(i))
    ensures Inv(Next(w, own, CallerResume(i)))
  {
    assert OutcomeFits(w, w.r.finished[i]);
    OutcomesStay(w, Next(w, own, CallerResume(i)));
  }

  /** Every step keeps the invariant and never makes an applied section older. */
  lemma StepKeepsInv(w: World, own: string, e: Event)
    requires Inv(w) && Enabled(w, e)
    ensures var w' := Next(w, own, e);
            && Inv(w') && w.version <= w'.version
            && |w'.r.applied| == |w.r.applied| && NoOlder(w.r.applied, w'.r.applied)
  {
    if e.JobStart? || e.JobRead? || e.JobFail? || e.JobSwap? {
      JobKeepsInv(w, own, e);
    } else if e.CallerResume? {
      CallerKeepsInv(w, own, e.i);
    } else {
      OutcomesStay(w, Next(w, own, e));
    }
  }

  lemma {:induction false} RunKeepsInv(w: World, own: string, es: seq<Event>)
    requires Inv(w) && IsRun(w, own, es)
    ensures var w' := After(w, own, es);
            && Inv(w') && w.version <= w'.version
            && |w'.r.applied| == |w.r.applied| && NoOlder(w.r.applied, w'.r.applied)
  {
    if es != [] {
      RunKeepsInv(w, own, es[..|es| - 1]);
      StepKeepsInv(After(w, own, es[..|es| - 1]), own, es[|es| - 1]);
    }
  }

  lemma StartFits(w: World)
    requires Start(w)
    ensures Inv(w)
  {
  }

  // ------------------------------------------------------------------------ main results

  /** In every interleaving, no section of the applied document is ever older than it was at
      any earlier point of the run. */
  lemma AppliedNeverGoesBack(w: World, own: string, es: seq<Event>, n: nat)
    requires Start(w) && IsRun(w, own, es) && n <= |es|
    ensures IsRun(w, own, es[..n])
    ensures var early, late := After(w, own, es[..n]).r.applied, After(w, own, es).r.applied;
            |early| == |late| && forall i :: 0 <= i < |late| ==> early[i] <= late[i]
    decreases |es|
  {
    StartFits(w);
    if n == |es| {
      assert es[..n] == es;
    } else {
      var m := es[..|es| - 1];
      assert m[..n] == es[..n];
      AppliedNeverGoesBack(w, own, m, n);
      RunKeepsInv(w, own, m);
      StepKeepsInv(After(w, own, m), own, es[|es| - 1]);
    }
  }

  /** The applied document is never below the watcher's cursors. So a replica that is behind
      the store in any section passes the poll's guard, and a foreign signal that is dropped
      as already seen is already applied. */
  lemma AppliedCoversCursors(w: World, own: string, es: seq<Event>)
    requires Start(w) && IsRun(w, own, es)
    ensures var r := After(w, own, es).r;
            && (forall i :: 0 <= i < |r.applied| ==> r.applied[i] >= r.lastVersion && r.applied[i] >= r.gate)
            && (forall i, read :: 0 <= i < |r.applied| && r.applied[i] < read ==> Ahead(r, read))
            && (forall i, sig: Signal :: 0 <= i < |r.applied| && sig.origin != own && !ShouldAccept(r.gate, own, sig)
                  ==> r.applied[i] >= sig.v)
  {
    StartFits(w);
    RunKeepsInv(w, own, es);
  }

  /** Nothing is applied before it is committed. */
  lemma AppliedWasCommitted(w: World, own: string, es: seq<Event>, i: nat)
    requires Start(w) && IsRun(w, own, es) && i < |After(w, own, es).r.applied|
    ensures After(w, own, es).r.applied[i] <= After(w, own, es).version
  {
    StartFits(w);
    RunKeepsInv(w, own, es);
  }

  // ------------------------------------------------------------------------- convergence

  ghost predicate Quiet(es: seq<Event>) {
    forall i :: 0 <= i < |es| ==> es[i] != Commit
  }

  /** Whatever a reconcile has read so far is current. */
  ghost predicate ReadsCurrent(w: World) {
    w.r.running.Some? ==> AtLeast(w.r.running.value.read, w.version)
  }

  lemma {:induction false} QuietStaysCurrent(w: World, own: string, es: seq<Event>)
    requires Inv(w) && IsRun(w, own, es) && Quiet(es)
    ensures After(w, own, es).version == w.version
    ensures ReadsCurrent(w) ==> ReadsCurrent(After(w, own, es))
  {
    if es != [] {
      QuietStaysCurrent(w, own, es[..|es| - 1]);
    }
  }

  lemma {:induction false} RunSplit(w: World, own: string, es: seq<Event>, n: nat)
    requires IsRun(w, own, es) && n <= |es|
    ensures IsRun(w, own, es[..n]) && IsRun(After(w, own, es[..n]), own, es[n..])
    ensures After(After(w, own, es[..n]), own, es[n..]) == After(w, own, es)
  {
    if n == |es| {
      assert es[..n] == es && es[n..] == [];
    } else {
      var m := es[..|es| - 1];
      RunSplit(w, own, m, n);
      assert m[..n] == es[..n] && es[n..][..|es[n..]| - 1] == m[n..];
    }
  }

  lemma SwapConverges(a: World, own: string, es: seq<Event>)
    requires Inv(a) && ReadsCurrent(a) && IsRun(a, own, es) && Quiet(es) && es != [] && es[|es| - 1] == JobSwap
    ensures AtLeast(After(a, own, es).r.applied, a.version)
  {
    QuietStaysCurrent(a, own, es[..|es| - 1]);
  }

  lemma StartReadsNothing(w: World, own: string, es: seq<Event>)
    requires IsRun(w, own, es) && es != [] && es[|es| - 1] == JobStart
    ensures ReadsCurrent(After(w, own, es))
  {
  }

  /** From a current reconcile on, the first swap brings everything up to date for good. */
  lemma CurrentConverges(a: World, own: string, es: seq<Event>, n: nat)
    requires Inv(a) && ReadsCurrent(a) && IsRun(a, own, es) && Quiet(es) && 0 < n <= |es| && es[n - 1] == JobSwap
    ensures AtLeast(After(a, own, es).r.applied, a.version)
  {
    RunSplit(a, own, es, n);
    SwapConverges(a, own, es[..n]);
    RunKeepsInv(a, own, es[..n]);
    RunKeepsInv(After(a, own, es[..n]), own, es[n..]);
  }

  /** Once commits stop, any reconcile that starts and succeeds brings every section to the
      store's version, whatever else happens around it, and there it stays. */
  lemma QuietRunConverges(w: World, own: string, es: seq<Event>, started: nat, swapped: nat)
    requires Inv(w) && IsRun(w, own, es) && Quiet(es)
    requires started < swapped < |es| && es[started] == JobStart && es[swapped] == JobSwap
    ensures var w' := After(w, own, es);
            forall i :: 0 <= i < |w'.r.applied| ==> w'.r.applied[i] == w'.version
  {
    var first, rest := es[..started + 1], es[started + 1..];
    RunSplit(w, own, es, started + 1);
    StartReadsNothing(w, own, first);
    RunKeepsInv(w, own, first);
    var a := After(w, own, first);
    CurrentConverges(a, own, rest, swapped - started);
    QuietStaysCurrent(a, own, rest);
    RunKeepsInv(w, own, es);
  }

  // ----------------------------------------------------------- one version, or a torn one

  /** All sections are of one version. */
  ghost predicate OneVersion(sections: seq<nat>) {
    forall i, j :: 0 <= i < |sections| && 0 <= j < |sections| ==> sections[i] == sections[j]
  }

  /** A commit between a section read and the end of `es`. */
  ghost predicate Overtaken(es: seq<Event>) {
    exists i, j :: 0 <= i < j < |es| && es[i] == JobRead && es[j] == Commit
  }

  /** A commit between two section reads of `es`. */
  ghost predicate Torn(es: seq<Event>) {
    exists i, j, k :: 0 <= i < j < k < |es| && es[i] == JobRead && es[j] == Commit && es[k] == JobRead
  }

  lemma OvertakenPush(es: seq<Event>, e: Event)
    ensures Overtaken(es + [e]) <==> Overtaken(es) || (e == Commit && JobRead in es)
  {
    var all := es + [e];
    assert all[|es|] == e;
    if Overtaken(es) {
      var i, j :| 0 <= i < j < |es| && es[i] == JobRead && es[j] == Commit;
      assert all[i] == JobRead && all[j] == Commit;
    }
    if e == Commit && JobRead in es {
      var i :| 0 <= i < |es| && es[i] == JobRead;
      assert all[i] == JobRead;
    }
    if Overtaken(all) {
      var i, j :| 0 <= i < j < |all| && all[i] == JobRead && all[j] == Commit;
      assert all[i] == es[i];
      assert j < |es| ==> all[j] == es[j];
    }
  }

  lemma TornStays(es: seq<Event>, e: Event)
    requires Torn(es) || (e == JobRead && Overtaken(es))
    ensures Torn(es + [e])
  {
    var all := es + [e];
    if Torn(es) {
      var i, j, k :| 0 <= i < j < k < |es| && es[i] == JobRead && es[j] == Commit && es[k] == JobRead;
      assert all[i] == JobRead && all[j] == Commit && all[k] == JobRead;
    } else {
      var i, j :| 0 <= i < j < |es| && es[i] == JobRead && es[j] == Commit;
      assert all[i] == JobRead && all[j] == Commit && all[|es|] == JobRead;
    }
  }

  lemma TornBefore(es: seq<Event>, e: Event)
    requires Torn(es + [e])
    ensures Torn(es) || (e == JobRead && Overtaken(es))
  {
    var all := es + [e];
    var i, j, k :| 0 <= i < j < k < |all| && all[i] == JobRead && all[j] == Commit && all[k] == JobRead;
    assert es[i] == JobRead && es[j] == Commit;
    assert k < |es| ==> es[k] == JobRead;
  }

  lemma TornPush(es: seq<Event>, e: Event)
    ensures Torn(es + [e]) <==> Torn(es) || (e == JobRead && Overtaken(es))
  {
    if Torn(es + [e]) {
      TornBefore(es, e);
    } else if Torn(es) || (e == JobRead && Overtaken(es)) {
      TornStays(es, e);
    }
  }

  /** Nothing in `es` ends a reconcile. */
  ghost predicate Unended(es: seq<Event>) {
    forall i :: 0 <= i < |es| ==> es[i] != JobFail && es[i] != JobSwap
  }

  /** What the sections read so far tell of the events since the reconcile started. */
  ghost predicate ReadsTell(read: seq<nat>, version: nat, es: seq<Event>) {
    && (read != [] <==> JobRead in es)
    && (OneVersion(read) <==> !Torn(es))
    && (read != [] && OneVersion(read) ==> read[0] <= version && (read[0] < version <==> Overtaken(es)))
  }

  lemma OneVersionPush(read: seq<nat>, v: nat)
    ensures OneVersion(read + [v]) <==> OneVersion(read) && (read == [] || read[0] == v)
  {
    var all := read + [v];
    assert all[|read|] == v;
    if OneVersion(all) {
      forall i, j | 0 <= i < |read| && 0 <= j < |read| ensures read[i] == read[j] {
        assert read[i] == all[i] && read[j] == all[j];
      }
      assert read != [] ==> all[0] == read[0];
    }
  }

  lemma ReadsTellMore(read: seq<nat>, version: nat, es: seq<Event>, e: Event)
    requires ReadsTell(read, version, es)
    ensures ReadsTell(if e == JobRead then read + [version] else read,
                      if e == Commit then version + 1 else version, es + [e])
  {
    OvertakenPush(es, e);
    TornPush(es, e);
    OneVersionPush(read, version);
    assert JobRead in es + [e] <==> JobRead in es || e == JobRead;
  }

  /** One step while a reconcile runs on. */
  lemma RunningStep(w: World, own: string, e: Event)
    requires Enabled(w, e) && w.r.running.Some? && e != JobFail && e != JobSwap
    ensures var w', read := Next(w, own, e), w.r.running.value.read;
            && w'.r.running.Some? && w'.version == (if e == Commit then w.version + 1 else w.version)
            && w'.r.running.value.read == if e == JobRead then read + [w.version] else read
  {
  }

  /** The same over the last event of a run. */
  lemma RunningMore(w: World, own: string, m: seq<Event>, e: Event)
    requires Enabled(w, e) && w.r.running.Some? && e != JobFail && e != JobSwap
    requires ReadsTell(w.r.running.value.read, w.version, m)
    ensures Next(w, own, e).r.running.Some?
    ensures ReadsTell(Next(w, own, e).r.running.value.read, Next(w, own, e).version, m + [e])
  {
    RunningStep(w, own, e);
    ReadsTellMore(w.r.running.value.read, w.version, m, e);
  }

  lemma NothingRead(v: nat)
    ensures ReadsTell([], v, [])
  {
  }

  lemma {:induction false} RunningTells(a: World, own: string, es: seq<Event>)
    requires a.r.running.Some? && a.r.running.value.read == [] && IsRun(a, own, es) && Unended(es)
    ensures After(a, own, es).r.running.Some?
    ensures ReadsTell(After(a, own, es).r.running.value.read, After(a, own, es).version, es)
  {
    if es == [] {
      NothingRead(a.version);
    } else {
      var m, e := es[..|es| - 1], es[|es| - 1];
      assert m + [e] == es;
      RunningTells(a, own, m);
      RunningMore(After(a, own, m), own, m, e);
    }
  }

  /** A reconcile that has read nothing yet and then swaps. */
  lemma SwapTells(a: World, own: string, es: seq<Event>)
    requires a.r.running.Some? && a.r.running.value.read == [] && IsRun(a, own, es + [JobSwap]) && Unended(es)
    ensures OneVersion(After(a, own, es + [JobSwap]).r.applied) <==> !Torn(es)
  {
    assert (es + [JobSwap])[..|es|] == es;
    RunningTells(a, own, es);
  }

  lemma StartedEmpty(w: World, own: string, es: seq<Event>)
    requires IsRun(w, own, es) && es != [] && es[|es| - 1] == JobStart
    ensures After(w, own, es).r.running.Some? && After(w, own, es).r.running.value.read == []
  {
  }

  lemma CutJob(es: seq<Event>, started: nat, swapped: nat)
    requires started < swapped < |es| && es[started] == JobStart && es[swapped] == JobSwap
    ensures es[..swapped + 1][started + 1..] == es[started + 1..swapped] + [JobSwap]
    ensures |es[..swapped + 1][..started + 1]| == started + 1 && es[..swapped + 1][..started + 1][started] == JobStart
  {
  }

  /** The run up to a reconcile's start, then its reads and its swap. */
  lemma JobTells(w: World, own: string, first: seq<Event>, seen: seq<Event>)
    requires IsRun(w, own, first) && first != [] && first[|first| - 1] == JobStart
    requires IsRun(After(w, own, first), own, seen + [JobSwap]) && Unended(seen)
    ensures OneVersion(After(After(w, own, first), own, seen + [JobSwap]).r.applied) <==> !Torn(seen)
  {
    StartedEmpty(w, own, first);
    SwapTells(After(w, own, first), own, seen);
  }

  /** A reconcile that starts at event `started` and swaps at `swapped` applies sections of one
      version exactly when no commit lies between two of its section reads. */
  lemma AppliedIsOneVersionIff(w: World, own: string, es: seq<Event>, started: nat, swapped: nat)
    requires IsRun(w, own, es) && started < swapped < |es| && es[started] == JobStart && es[swapped] == JobSwap
    requires Unended(es[started + 1..swapped])
    ensures IsRun(w, own, es[..swapped + 1])
    ensures OneVersion(After(w, own, es[..swapped + 1]).r.applied) <==> !Torn(es[started + 1..swapped])
  {
    var upto := es[..swapped + 1];
    RunSplit(w, own, es, swapped + 1);
    RunSplit(w, own, upto, started + 1);
    CutJob(es, started, swapped);
    JobTells(w, own, upto[..started + 1], es[started + 1..swapped]);
  }

  /** The last swap of a run, if there is one, and the start of its reconcile. */
  ghost predicate LastSwap(es: seq<Event>, started: nat, swapped: nat) {
    && started < swapped < |es| && es[started] == JobStart && es[swapped] == JobSwap
    && Unended(es[started + 1..swapped]) && forall i :: swapped < i < |es| ==> es[i] != JobSwap
  }

  /** A reconcile that runs after a step was started by it or ran before it. */
  lemma RanBefore(w: World, own: string, e: Event)
    requires Enabled(w, e) && Next(w, own, e).r.running.Some? && e != JobStart
    ensures w.r.running.Some? && e != JobFail && e != JobSwap
  {
  }

  lemma UnendedPush(es: seq<Event>, n: nat)
    requires n < |es| && es[|es| - 1] != JobFail && es[|es| - 1] != JobSwap && Unended(es[..|es| - 1][n..])
    ensures Unended(es[n..])
  {
    forall i | 0 <= i < |es[n..]| ensures es[n..][i] != JobFail && es[n..][i] != JobSwap {
      if n + i < |es| - 1 {
        assert es[..|es| - 1][n..][i] == es[n..][i];
      }
    }
  }

  /** The start of the reconcile that is running. */
  lemma {:induction false} RunningStarted(w: World, own: string, es: seq<Event>) returns (started: nat)
    requires w.r.running.None? && IsRun(w, own, es) && After(w, own, es).r.running.Some?
    ensures started < |es| && es[started] == JobStart && Unended(es[started + 1..])
  {
    var m, e := es[..|es| - 1], es[|es| - 1];
    if e == JobStart {
      return |m|;
    }
    RanBefore(After(w, own, m), own, e);
    started := RunningStarted(w, own, m);
    UnendedPush(es, started + 1);
  }

  lemma {:induction false} FindLastSwap(w: World, own: string, es: seq<Event>)
    returns (started: nat, swapped: nat)
    requires w.r.running.None? && IsRun(w, own, es) && JobSwap in es
    ensures LastSwap(es, started, swapped)
  {
    var m, e := es[..|es| - 1], es[|es| - 1];
    assert m + [e] == es;
    if e == JobSwap {
      swapped := |m|;
      started := RunningStarted(w, own, m);
      assert es[started + 1..swapped] == m[started + 1..];
    } else {
      started, swapped := FindLastSwap(w, own, m);
      assert es[started + 1..swapped] == m[started + 1..swapped];
    }
  }

  lemma {:induction false} OnlySwapsApply(w: World, own: string, es: seq<Event>)
    requires IsRun(w, own, es) && forall i :: 0 <= i < |es| ==> es[i] != JobSwap
    ensures After(w, own, es).r.applied == w.r.applied
  {
    if es != [] {
      OnlySwapsApply(w, own, es[..|es| - 1]);
    }
  }

  /** What the last swap applied is still applied. */
  lemma AppliedSinceSwap(w: World, own: string, es: seq<Event>, started: nat, swapped: nat)
    requires IsRun(w, own, es) && LastSwap(es, started, swapped)
    ensures IsRun(w, own, es[..swapped + 1])
    ensures After(w, own, es).r.applied == After(w, own, es[..swapped + 1]).r.applied
  {
    RunSplit(w, own, es, swapped + 1);
    OnlySwapsApply(After(w, own, es[..swapped + 1]), own, es[swapped + 1..]);
  }

  lemma LastStep(w: World, own: string, es: seq<Event>)
    requires IsRun(w, own, es) && es != []
    ensures var m := After(w, own, es[..|es| - 1]);
            IsRun(m, own, [es[|es| - 1]]) && After(m, own, [es[|es| - 1]]) == After(w, own, es)
  {
    RunSplit(w, own, es, |es| - 1);
    assert es[|es| - 1..] == [es[|es| - 1]];
  }

  /** In every reachable state the applied document is the boot one, or it was read by the
      last reconcile that swapped, and is of one version exactly when no commit lies between
      two of that reconcile's section reads. */
  lemma LiveIsOneVersionIff(w: World, own: string, es: seq<Event>) returns (started: nat, swapped: nat)
    requires Start(w) && IsRun(w, own, es)
    ensures JobSwap !in es ==> After(w, own, es).r.applied == w.r.applied && OneVersion(w.r.applied)
    ensures JobSwap in es ==>
              && LastSwap(es, started, swapped)
              && (OneVersion(After(w, own, es).r.applied) <==> !Torn(es[started + 1..swapped]))
  {
    started, swapped := 0, 0;
    if JobSwap !in es {
      OnlySwapsApply(w, own, es);
    } else {
      started, swapped := FindLastSwap(w, own, es);
      AppliedIsOneVersionIff(w, own, es, started, swapped);
      AppliedSinceSwap(w, own, es, started, swapped);
    }
  }

  /** A reconcile reads `n` more sections, with nothing in between. */
  lemma {:induction false} ReadOn(w: World, own: string, es: seq<Event>, n: nat) returns (es': seq<Event>)
    requires IsRun(w, own, es) && After(w, own, es).r.running.Some?
    requires |After(w, own, es).r.running.value.read| + n <= |After(w, own, es).r.applied|
    ensures IsRun(w, own, es') && After(w, own, es').version == After(w, own, es).version
    ensures After(w, own, es').r.running.Some? && After(w, own, es').r.applied == After(w, own, es).r.applied
    ensures var before, read := After(w, own, es).r.running.value.read, After(w, own, es').r.running.value.read;
            |read| == |before| + n && before <= read
            && forall i :: |before| <= i < |read| ==> read[i] == After(w, own, es).version
    decreases n
  {
    es' := es;
    if n > 0 {
      var w' := Extend(w, own, es, JobRead);
      es' := ReadOn(w, own, es + [JobRead], n - 1);
    }
  }

  /** A replica that resyncs right after its start has a reconcile running. */
  lemma FirstJob(w: World, own: string) returns (es: seq<Event>)
    requires Start(w)
    ensures IsRun(w, own, es) && After(w, own, es).version == w.version
    ensures After(w, own, es).r.applied == w.r.applied && After(w, own, es).r.running == Some(Run(w.version, []))
  {
    var w1 := Extend(w, own, [], StartResync);
    es := [] + [StartResync];
    var w2 := Extend(w, own, es, ResyncRead(true));
    assert w2.r.resyncReads == [w.version];
    es := es + [ResyncRead(true)];
    var w3 := Extend(w, own, es, ResyncResume(0));
    assert w3.r.queue == [w.version];
    es := es + [ResyncResume(0)];
    var w4 := Extend(w, own, es, JobStart);
    es := es + [JobStart];
  }

  /** Torn documents do get applied: from every start, for every place between two sections, a
      run applies the sections before it at one version and those after it at the next. */
  lemma TornDocumentApplied(w: World, own: string, n: nat) returns (es: seq<Event>)
    requires Start(w) && 0 < n < |w.r.applied|
    ensures IsRun(w, own, es) && |After(w, own, es).r.applied| == |w.r.applied|
    ensures var applied := After(w, own, es).r.applied;
            forall i :: 0 <= i < |applied| ==> applied[i] == if i < n then w.version else w.version + 1
  {
    es := FirstJob(w, own);
    es := ReadOn(w, own, es, n);
    var w1 := Extend(w, own, es, Commit);
    es := es + [Commit];
    es := ReadOn(w, own, es, |w.r.applied| - n);
    var w2 := Extend(w, own, es, JobSwap);
    es := es + [JobSwap];
  }

  // ------------------------------------------------------------------------ no lost work

  ghost predicate Has(s: seq<nat>, t: nat) {
    exists i :: 0 <= i < |s| && s[i] >= t
  }

  ghost predicate HasOutcome(s: seq<Outcome>, t: nat) {
    exists i :: 0 <= i < |s| && s[i].target >= t
  }

  /** Something under way will still lead to a reconcile for version `t` or later, or is
      waiting to record one. */
  ghost predicate Pending(r: Replica, t: nat) {
    || r.retryArmed || r.resyncs > 0 || Has(r.resyncReads, t) || Has(r.queue, t)
    || (r.running.Some? && r.running.value.target >= t) || HasOutcome(r.finished, t)
  }

  /** Version `t` is recorded or being worked on. */
  ghost predicate Cared(w: World, t: nat) {
    t <= w.version && (t <= w.r.gate || Pending(w.r, t))
  }

  /** Every event but a stop and a failed version read. */
  predicate Benign(e: Event) { !e.Stop? && e != ResyncRead(false) }

  lemma HasPush(s: seq<nat>, x: nat, t: nat)
    ensures Has(s + [x], t) <==> Has(s, t) || x >= t
  {
    if Has(s, t) {
      var i :| 0 <= i < |s| && s[i] >= t;
      assert (s + [x])[i] >= t;
    }
    assert (s + [x])[|s|] == x;
  }

  lemma HasOutcomePush(s: seq<Outcome>, x: Outcome, t: nat)
    ensures HasOutcome(s + [x], t) <==> HasOutcome(s, t) || x.target >= t
  {
    if HasOutcome(s, t) {
      var i :| 0 <= i < |s| && s[i].target >= t;
      assert (s + [x])[i].target >= t;
    }
    assert (s + [x])[|s|] == x;
  }

  lemma HasRemoved(s: seq<nat>, i: nat, t: nat)
    requires i < |s| && Has(s, t)
    ensures Has(Removed(s, i), t) || s[i] >= t
  {
    var k :| 0 <= k < |s| && s[k] >= t;
    if k != i {
      assert Removed(s, i)[if k < i then k else k - 1] == s[k];
    }
  }

  lemma HasOutcomeRemoved(s: seq<Outcome>, i: nat, t: nat)
    requires i < |s| && HasOutcome(s, t)
    ensures HasOutcome(Removed(s, i), t) || s[i].target >= t
  {
    var k :| 0 <= k < |s| && s[k].target >= t;
    if k != i {
      assert Removed(s, i)[if k < i then k else k - 1] == s[k];
    }
  }

  lemma HasTail(s: seq<nat>, t: nat)
    requires s != [] && Has(s, t)
    ensures Has(s[1..], t) || s[0] >= t
  {
    var k :| 0 <= k < |s| && s[k] >= t;
    if k != 0 {
      assert s[1..][k - 1] == s[k];
    }
  }

  lemma CaredStays(w: World, own: string, e: Event, t: nat)
    requires Inv(w) && Enabled(w, e) && Benign(e) && !w.r.stopped && Cared(w, t)
    ensures Cared(Next(w, own, e), t)
  {
    match e
    case Deliver(sig) => HasPush(w.r.queue, sig.v, t);
    case ResyncRead(_) => HasPush(w.r.resyncReads, w.version, t);
    case ResyncResume(i) =>
      HasPush(w.r.queue, w.r.resyncReads[i], t);
      if Has(w.r.resyncReads, t) {
        HasRemoved(w.r.resyncReads, i, t);
      }
    case JobStart =>
      if Has(w.r.queue, t) {
        HasTail(w.r.queue, t);
      }
    case JobFail => HasOutcomePush(w.r.finished, Outcome(w.r.running.value.target, false), t);
    case JobSwap => HasOutcomePush(w.r.finished, Outcome(w.r.running.value.target, true), t);
    case CallerResume(i) =>
      if HasOutcome(w.r.finished, t) {
        HasOutcomeRemoved(w.r.finished, i, t);
      }
    case _ =>
  }

  lemma {:induction false} NeverStopped(w: World, own: string, es: seq<Event>)
    requires Start(w) && IsRun(w, own, es) && forall i :: 0 <= i < |es| ==> Benign(es[i])
    ensures !After(w, own, es).r.stopped
  {
    if es != [] {
      NeverStopped(w, own, es[..|es| - 1]);
    }
  }

  lemma {:induction false} SeenIsCared(w: World, own: string, es: seq<Event>, k: nat, sig: Signal)
    requires Start(w) && IsRun(w, own, es) && forall i :: 0 <= i < |es| ==> Benign(es[i])
    requires k < |es| && es[k] == Deliver(sig) && sig.origin != own
    ensures Cared(After(w, own, es), sig.v)
    decreases |es|
  {
    var m := es[..|es| - 1];
    StartFits(w);
    RunKeepsInv(w, own, m);
    NeverStopped(w, own, m);
    var a := After(w, own, m);
    if k == |m| {
      HasPush(a.r.queue, sig.v, sig.v);
    } else {
      SeenIsCared(w, own, m, k, sig);
      CaredStays(a, own, es[|m|], sig.v);
    }
  }

  /** Nothing is under way. */
  predicate AtRest(r: Replica) {
    && !r.retryArmed && r.resyncs == 0 && r.resyncReads == [] && r.queue == []
    && r.running.None? && r.finished == []
  }

  /** No wake-up is lost: as long as the watcher runs and its version reads succeed, a
      replica at rest has applied every version it was ever signalled, however many
      reconciles failed on the way. */
  lemma AtRestMeansApplied(w: World, own: string, es: seq<Event>, k: nat, sig: Signal)
    requires Start(w) && IsRun(w, own, es) && forall i :: 0 <= i < |es| ==> Benign(es[i])
    requires k < |es| && es[k] == Deliver(sig) && sig.origin != own && AtRest(After(w, own, es).r)
    ensures forall i :: 0 <= i < |After(w, own, es).r.applied| ==> After(w, own, es).r.applied[i] >= sig.v
  {
    StartFits(w);
    RunKeepsInv(w, own, es);
    SeenIsCared(w, own, es, k, sig);
  }

  /** A torn document does not outlast its commit's signal: a replica at rest that was
      signalled the store's version has every section at exactly that version. */
  lemma AtRestIsOneVersion(w: World, own: string, es: seq<Event>, k: nat, sig: Signal)
    requires Start(w) && IsRun(w, own, es) && forall i :: 0 <= i < |es| ==> Benign(es[i])
    requires k < |es| && es[k] == Deliver(sig) && sig.origin != own && AtRest(After(w, own, es).r)
    requires sig.v == After(w, own, es).version
    ensures var w' := After(w, own, es);
            forall i :: 0 <= i < |w'.r.applied| ==> w'.r.applied[i] == w'.version
  {
    AtRestMeansApplied(w, own, es, k, sig);
    StartFits(w);
    RunKeepsInv(w, own, es);
  }

  lemma Extend(w: World, own: string, es: seq<Event>, e: Event) returns (w': World)
    requires IsRun(w, own, es) && Enabled(After(w, own, es), e)
    ensures IsRun(w, own, es + [e]) && w' == After(w, own, es + [e]) == Next(After(w, own, es), own, e)
  {
    assert (es + [e])[..|es|] == es;
    w' := Next(After(w, own, es), own, e);
  }

  /** A signal whose reconcile fails leaves an armed retry and nothing else. */
  lemma FailedOnce(w: World, own: string, sig: Signal) returns (es: seq<Event>)
    requires Start(w) && sig in w.emitted && sig.origin != own && sig.v > 0
    ensures IsRun(w, own, es) && es != [] && es[0] == Deliver(sig)
    ensures After(w, own, es).r == w.r.(retryArmed := true)
  {
    var w1 := Extend(w, own, [], Deliver(sig));
    assert w1.r.queue == [sig.v];
    es := [] + [Deliver(sig)];
    var w2 := Extend(w, own, es, JobStart);
    assert w2.r.queue == [];
    es := es + [JobStart];
    var w3 := Extend(w, own, es, JobFail);
    assert w3.r.finished == [Outcome(sig.v, false)];
    es := es + [JobFail];
    var w4 := Extend(w, own, es, CallerResume(0));
    es := es + [CallerResume(0)];
  }

  /** The condition on version reads is needed: a retry whose version read fails is
      forgotten, and the replica rests without the version it was signalled. */
  lemma FailedReadForgets(w: World, own: string, sig: Signal) returns (es: seq<Event>)
    requires Start(w) && sig in w.emitted && sig.origin != own && sig.v > 0
    ensures IsRun(w, own, es) && Deliver(sig) in es && AtRest(After(w, own, es).r)
    ensures After(w, own, es).r.applied == w.r.applied
  {
    es := FailedOnce(w, own, sig);
    assert es[0] in es;
    var w5 := Extend(w, own, es, RetryFires);
    es := es + [RetryFires];
    var w6 := Extend(w, own, es, ResyncRead(false));
    es := es + [ResyncRead(false)];
  }
}
