/**
 * The gateway's config watcher as objects with fields. Each method is the code that runs
 * between two awaits, and does what the corresponding step of `ConfigPropagation` does.
 */
module ConfigWatcher {
  import opened Common
  import opened ConfigPropagation

  /** Drops own and already applied signals; the cursor moves only forward. */
  class SignalGate {
    const ownOrigin: string
    var applied: nat

    constructor (ownOrigin: string, initialVersion: nat)
      ensures this.ownOrigin == ownOrigin && applied == initialVersion
    {
      this.ownOrigin, applied := ownOrigin, initialVersion;
    }

    predicate Peek(sig: Signal)
      reads this
    {
      ShouldAccept(applied, ownOrigin, sig)
    }

    method Observe(version: nat)
      modifies this
      ensures applied == Max(old(applied), version)
    {
      if version > applied {
        applied := version;
      }
    }

    /** Accepting twice is accepting once. */
    method Accept(sig: Signal) returns (ok: bool)
      modifies this
      ensures ok == old(Peek(sig))
      ensures applied == (if ok then sig.v else old(applied)) && applied >= old(applied)
      ensures !Peek(sig)
    {
      ok := Peek(sig);
      if ok {
        applied := sig.v;
      }
    }
  }

  class Watcher {
    const gate: SignalGate
    var lastVersion: nat
    var stopped: bool
    var retryTimer: bool
    var applied: seq<nat>
    var polls: seq<nat>
    var resyncs: nat
    var resyncReads: seq<nat>
    var chain: seq<nat>
    var running: Option<Run>
    var finished: seq<Outcome>

    ghost function State(): (r: Replica)
      reads this, gate
    {
      Replica(lastVersion, gate.applied, stopped, retryTimer, applied, polls, resyncs, resyncReads, chain, running,
              finished)
    }

    /** A watcher that boots is a start of the model. */
    constructor (originId: string, sections: nat)
      ensures fresh(gate) && gate.ownOrigin == originId && |applied| == sections
      ensures forall version :: Start(World(version, {}, State()))
    {
      gate := new SignalGate(originId, 0);
      lastVersion, stopped, retryTimer := 0, false, false;
      applied, polls, resyncs, resyncReads := seq(sections, i => 0), [], 0, [];
      chain, running, finished := [], None, [];
    }

    /** The bus callback: peek, and queue a reconcile for a signal that is let through. */
    method OnSignal(sig: Signal)
      modifies this`chain
      ensures State() == Delivered(old(State()), gate.ownOrigin, sig)
    {
      if gate.Peek(sig) {
        chain := chain + [sig.v];
      }
    }

    /** A poll after its version read. */
    method PollResume(i: nat)
      requires i < |polls|
      modifies this`polls, this`resyncs
      ensures State() == PollResumed(old(State()), i)
    {
      var version := polls[i];
      polls := Removed(polls, i);
      if version > lastVersion {
        resyncs := resyncs + 1;
      }
    }

    /** A resync after its version read. */
    method ResyncResume(i: nat)
      requires i < |resyncReads|
      modifies this`resyncReads, this`chain
      ensures State() == ResyncResumed(old(State()), i)
    {
      var version := resyncReads[i];
      resyncReads := Removed(resyncReads, i);
      chain := chain + [version];
    }

    method ScheduleRetry()
      modifies this`retryTimer
      ensures retryTimer == (old(retryTimer) || !stopped)
    {
      if stopped || retryTimer {
        return;
      }
      retryTimer := true;
    }

    /** The end of `handle` and of `resync`, once their reconcile has finished. */
    method ReconcileFinished(i: nat)
      requires i < |finished|
      modifies this`finished, this`lastVersion, this`retryTimer, gate
      ensures State() == CallerResumed(old(State()), i)
    {
      var o := finished[i];
      finished := Removed(finished, i);
      if o.ok {
        gate.Observe(o.target);
        if o.target > lastVersion {
          lastVersion := o.target;
        }
      } else {
        ScheduleRetry();
      }
    }

    method RetryFires()
      requires retryTimer
      modifies this`retryTimer, this`resyncs
      ensures State() == RetryFired(old(State()))
    {
      retryTimer := false;
      resyncs := resyncs + 1;
    }

    method Stop()
      modifies this`stopped, this`retryTimer
      ensures State() == old(State()).(stopped := true, retryArmed := false)
    {
      stopped := true;
      if retryTimer {
        retryTimer := false;
      }
    }
  }
}
