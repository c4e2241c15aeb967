/**
 * The gateway's reconcile: build every config-derived part from one exported document, then
 * swap them into the live holder. What the builders make of a document depends on the
 * outside too (secrets, embeddings), and any of them may fail.
 */
module GatewayReconciler {
  import opened Common
  import opened Json
  import opened ConfigStore
  import opened ModelPolicy
  import P = ConfigPropagation

  datatype Route = Route(id: nat, clientPaths: seq<string>)

  /** The parts of the gateway context that a reconcile replaces. */
  datatype Live<R, S> = Live(
    routes: seq<Route>, modelRouter: Option<R>, modelPolicy: Option<ModelPolicy>, smartRouter: Option<S>)

  type Doc = seq<DocOrg>

  /** The builders; `None` is a thrown error, the number stands for the outside world. */
  datatype Builders<!R, !S> = Builders(
    routes: (Doc, nat) -> Option<seq<Route>>,
    smartRouter: (Doc, nat, seq<Route>) -> Option<Option<S>>,
    modelRouter: Doc -> Option<Option<R>>)

  /** Everything one document makes, if all of it can be built. With smart routing off, no
      smart router is built and the current one stays. */
  function Build<R, S>(
    b: Builders<R, S>, smart: bool, env: Option<ModelPolicy>, doc: Doc, outside: nat, current: Option<S>)
    : Option<Live<R, S>>
  {
    match b.routes(doc, outside)
    case None => None
    case Some(routes) =>
      var s := if smart then b.smartRouter(doc, outside, routes) else Some(current);
      match (s, b.modelRouter(doc))
      case (Some(smartRouter), Some(modelRouter)) =>
        Some(Live(routes, modelRouter, Union(env, PolicyOf(doc)), smartRouter))
      case _ => None
  }

  /** One reconcile attempt: the export may fail too. */
  datatype Attempt = Attempt(doc: Option<Doc>, outside: nat)

  function Outcome<R, S>(
    b: Builders<R, S>, smart: bool, env: Option<ModelPolicy>, a: Attempt, current: Option<S>): Option<Live<R, S>>
  {
    if a.doc.None? then None else Build(b, smart, env, a.doc.value, a.outside, current)
  }

  /** A failed attempt changes nothing. */
  function Reconciled<R, S>(
    b: Builders<R, S>, smart: bool, env: Option<ModelPolicy>, live: Live<R, S>, a: Attempt): Live<R, S>
  {
    match Outcome(b, smart, env, a, live.smartRouter)
    case Some(next) => next
    case None => live
  }

  function AfterAll<R, S>(
    b: Builders<R, S>, smart: bool, env: Option<ModelPolicy>, boot: Live<R, S>, attempts: seq<Attempt>): Live<R, S>
  {
    if attempts == [] then boot
    else Reconciled(b, smart, env, AfterAll(b, smart, env, boot, attempts[..|attempts| - 1]), attempts[|attempts| - 1])
  }

  // ------------------------------------------------------------------------ main results

  function OrElse<T>(o: Option<T>, other: T): T { if o.Some? then o.value else other }

  /** Keep the last value that an attempt gave. */
  function LastGiven<A, T>(give: A -> Option<T>, boot: T, attempts: seq<A>): T {
    if attempts == [] then boot
    else OrElse(give(attempts[|attempts| - 1]), LastGiven(give, boot, attempts[..|attempts| - 1]))
  }

  lemma {:induction false} LastGivenIs<A, T>(give: A -> Option<T>, boot: T, attempts: seq<A>)
    returns (last: Option<nat>)
    ensures last.None? ==>
              LastGiven(give, boot, attempts) == boot
              && forall i :: 0 <= i < |attempts| ==> give(attempts[i]).None?
    ensures last.Some? ==>
              && last.value < |attempts| && give(attempts[last.value]) == Some(LastGiven(give, boot, attempts))
              && forall i :: last.value < i < |attempts| ==> give(attempts[i]).None?
  {
    if attempts == [] {
      return None;
    }
    last := LastGivenIs(give, boot, attempts[..|attempts| - 1]);
    if give(attempts[|attempts| - 1]).Some? {
      last := Some(|attempts| - 1);
    }
  }

  /** With smart routing off the smart router is the boot one for ever. */
  lemma {:induction false} SmartRouterStays<R, S>(
    b: Builders<R, S>, env: Option<ModelPolicy>, boot: Live<R, S>, attempts: seq<Attempt>)
    ensures AfterAll(b, false, env, boot, attempts).smartRouter == boot.smartRouter
  {
    if attempts != [] {
      SmartRouterStays(b, env, boot, attempts[..|attempts| - 1]);
    }
  }

  /** One more attempt: it fails and nothing changes, or it alone decides every part. */
  lemma AttemptDecides<R, S>(
    b: Builders<R, S>, smart: bool, env: Option<ModelPolicy>, boot: Live<R, S>, attempts: seq<Attempt>, a: Attempt)
    ensures var live := AfterAll(b, smart, env, boot, attempts);
            Reconciled(b, smart, env, live, a) == OrElse(Outcome(b, smart, env, a, boot.smartRouter), live)
  {
    if !smart {
      SmartRouterStays(b, env, boot, attempts);
    }
  }

  lemma {:induction false} AfterAllIsLast<R, S>(
    b: Builders<R, S>, smart: bool, env: Option<ModelPolicy>, boot: Live<R, S>, attempts: seq<Attempt>,
    give: Attempt -> Option<Live<R, S>>)
    requires forall a :: give(a) == Outcome(b, smart, env, a, boot.smartRouter)
    ensures AfterAll(b, smart, env, boot, attempts) == LastGiven(give, boot, attempts)
  {
    if attempts != [] {
      AfterAllIsLast(b, smart, env, boot, attempts[..|attempts| - 1], give);
      AttemptDecides(b, smart, env, boot, attempts[..|attempts| - 1], attempts[|attempts| - 1]);
    }
  }

  /** In every reachable state, either every attempt failed and the live parts are the boot
      ones, or all live parts come from one document: the one of the last attempt that did
      not fail. */
  lemma LivePartsShareADocument<R, S>(
    b: Builders<R, S>, smart: bool, env: Option<ModelPolicy>, boot: Live<R, S>, attempts: seq<Attempt>)
    returns (last: Option<nat>)
    ensures last.None? ==>
              && AfterAll(b, smart, env, boot, attempts) == boot
              && forall i :: 0 <= i < |attempts| ==> Outcome(b, smart, env, attempts[i], boot.smartRouter).None?
    ensures last.Some? ==>
              && last.value < |attempts|
              && Outcome(b, smart, env, attempts[last.value], boot.smartRouter)
              == Some(AfterAll(b, smart, env, boot, attempts))
              && forall i :: last.value < i < |attempts| ==> Outcome(b, smart, env, attempts[i], boot.smartRouter).None?
  {
    var give := a => Outcome(b, smart, env, a, boot.smartRouter);
    last := LastGivenIs(give, boot, attempts);
    AfterAllIsLast(b, smart, env, boot, attempts, give);
  }

  /** The attempts are those of a run of the propagation machine: one for each reconcile that
      ended, failed ones failing and swapped ones built from the sections that were read.
      `docOf` gives the document whose sections are of the given versions. */
  ghost predicate AttemptsOf<R, S>(
    b: Builders<R, S>, smart: bool, env: Option<ModelPolicy>, boot: Live<R, S>, docOf: seq<nat> -> Doc,
    w: P.World, own: string, es: seq<P.Event>, attempts: seq<Attempt>)
    requires P.IsRun(w, own, es)
    decreases |es|
  {
    if es == [] then attempts == []
    else
      var before, e := es[..|es| - 1], es[|es| - 1];
      if !e.JobFail? && !e.JobSwap? then AttemptsOf(b, smart, env, boot, docOf, w, own, before, attempts)
      else
        && attempts != []
        && AttemptsOf(b, smart, env, boot, docOf, w, own, before, attempts[..|attempts| - 1])
        && var a := attempts[|attempts| - 1];
           if e.JobFail? then Outcome(b, smart, env, a, boot.smartRouter).None?
           else a.doc == Some(docOf(P.After(w, own, es).r.applied)) && Outcome(b, smart, env, a, boot.smartRouter).Some?
  }

  /** What the applied sections make, or the boot parts if nothing was swapped yet. */
  ghost predicate Makes<R, S>(
    b: Builders<R, S>, smart: bool, env: Option<ModelPolicy>, boot: Live<R, S>, live: Live<R, S>,
    docOf: seq<nat> -> Doc, swapped: bool, applied: seq<nat>, outside: nat)
  {
    if swapped then Build(b, smart, env, docOf(applied), outside, boot.smartRouter) == Some(live) else live == boot
  }

  lemma InPush<T>(s: seq<T>, x: T)
    requires s != []
    ensures x in s <==> x in s[..|s| - 1] || x == s[|s| - 1]
  {
    assert s == s[..|s| - 1] + [s[|s| - 1]];
  }

  /** The live parts are the boot ones until the first swap, and after it what the applied
      sections make. */
  lemma {:induction false} LivePartsAreApplied<R, S>(
    b: Builders<R, S>, smart: bool, env: Option<ModelPolicy>, boot: Live<R, S>, docOf: seq<nat> -> Doc,
    w: P.World, own: string, es: seq<P.Event>, attempts: seq<Attempt>)
    returns (outside: nat)
    requires P.IsRun(w, own, es) && AttemptsOf(b, smart, env, boot, docOf, w, own, es, attempts)
    ensures Makes(b, smart, env, boot, AfterAll(b, smart, env, boot, attempts), docOf, P.JobSwap in es,
                  P.After(w, own, es).r.applied, outside)
    decreases |es|
  {
    if es == [] {
      return 0;
    }
    var before, e := es[..|es| - 1], es[|es| - 1];
    InPush(es, P.JobSwap);
    if e != P.JobSwap {
      P.OnlySwapsApply(P.After(w, own, before), own, [e]);
      P.LastStep(w, own, es);
    }
    if !e.JobFail? && !e.JobSwap? {
      outside := LivePartsAreApplied(b, smart, env, boot, docOf, w, own, before, attempts);
    } else {
      var earlier, a := attempts[..|attempts| - 1], attempts[|attempts| - 1];
      AttemptDecides(b, smart, env, boot, earlier, a);
      outside := LivePartsAreApplied(b, smart, env, boot, docOf, w, own, before, earlier);
      outside := if e.JobSwap? then a.outside else outside;
    }
  }

  /** In every run the live parts are the boot ones, or all come from the document that the
      last reconcile to swap had read; that document is of one version exactly when no commit
      lies between two of its section reads. */
  lemma LivePartsAreOneVersionIff<R, S>(
    b: Builders<R, S>, smart: bool, env: Option<ModelPolicy>, boot: Live<R, S>, docOf: seq<nat> -> Doc,
    w: P.World, own: string, es: seq<P.Event>, attempts: seq<Attempt>)
    returns (outside: nat, started: nat, swapped: nat)
    requires P.Start(w) && P.IsRun(w, own, es) && AttemptsOf(b, smart, env, boot, docOf, w, own, es, attempts)
    ensures P.JobSwap !in es ==> AfterAll(b, smart, env, boot, attempts) == boot
    ensures P.JobSwap in es ==>
              && P.LastSwap(es, started, swapped)
              && var sections := P.After(w, own, es).r.applied;
                 && Build(b, smart, env, docOf(sections), outside, boot.smartRouter)
                 == Some(AfterAll(b, smart, env, boot, attempts))
                 && (P.OneVersion(sections) <==> !P.Torn(es[started + 1..swapped]))
  {
    outside := LivePartsAreApplied(b, smart, env, boot, docOf, w, own, es, attempts);
    started, swapped := P.LiveIsOneVersionIff(w, own, es);
  }

  /** A model the environment denies stays denied whatever documents were applied, failed or
      not. */
  lemma DenyFloorHolds<R, S>(
    b: Builders<R, S>, smart: bool, env: Option<ModelPolicy>, boot: Live<R, S>, attempts: seq<Attempt>, model: Text)
    requires boot.modelPolicy == env && Denies(env, model)
    ensures !Admits(AfterAll(b, smart, env, boot, attempts).modelPolicy, model)
  {
    var last := LivePartsShareADocument(b, smart, env, boot, attempts);
    if last.Some? {
      DenyFloor(env, PolicyOf(attempts[last.value].doc.value), model);
    }
  }

  // ---------------------------------------------------------------------------- the holder

  /** The route that serves a path: the last one that lists it. */
  function RouteFor(routes: seq<Route>, path: string): Option<Route> {
    if routes == [] then None
    else if path in routes[|routes| - 1].clientPaths then Some(routes[|routes| - 1])
    else RouteFor(routes[..|routes| - 1], path)
  }

  ghost predicate Indexes(index: map<string, Route>, routes: seq<Route>) {
    forall path :: RouteFor(routes, path) == if path in index then Some(index[path]) else None
  }

  class RouteHolder<R(==), S(==)> {
    const envModelPolicy: Option<ModelPolicy>
    var routes: seq<Route>
    var index: map<string, Route>
    var modelRouter: Option<R>
    var modelPolicy: Option<ModelPolicy>
    var smartRouter: Option<S>

    ghost predicate Valid()
      reads this
    {
      Indexes(index, routes)
    }

    ghost function State(): (l: Live<R, S>)
      reads this
    {
      Live(routes, modelRouter, modelPolicy, smartRouter)
    }

    method Reindex()
      modifies this`index
      ensures Valid()
    {
      index := map[];
      for i := 0 to |routes|
        invariant Indexes(index, routes[..i])
      {
        assert routes[..i + 1][..i] == routes[..i];
        ghost var before := index;
        var paths := routes[i].clientPaths;
        for j := 0 to |paths|
          invariant forall path :: path in index <==> path in before || path in paths[..j]
          invariant forall path :: path in index ==>
                      index[path] == if path in paths[..j] then routes[i] else before[path]
        {
          assert paths[..j + 1] == paths[..j] + [paths[j]];
          index := index[paths[j] := routes[i]];
        }
        assert paths[..|paths|] == paths;
      }
      assert routes[..|routes|] == routes;
    }

    method SwapRoutes(routes: seq<Route>)
      modifies this`routes, this`index
      ensures Valid() && this.routes == routes
    {
      this.routes := routes;
      Reindex();
    }

    /** One reconcile: build everything, then swap. */
    method Run(b: Builders<R, S>, smart: bool, a: Attempt) returns (ok: bool)
      requires Valid()
      modifies this`routes, this`index, this`modelRouter, this`modelPolicy, this`smartRouter
      ensures Valid()
      ensures ok <==> Outcome(b, smart, envModelPolicy, a, old(smartRouter)).Some?
      ensures State() == Reconciled(b, smart, envModelPolicy, old(State()), a)
      ensures !ok ==> index == old(index)
    {
      if a.doc.None? {
        return false;
      }
      var doc := a.doc.value;
      var built := b.routes(doc, a.outside);
      if built.None? {
        return false;
      }
      var smartBuilt: Option<Option<S>> := Some(None);
      if smart {
        smartBuilt := b.smartRouter(doc, a.outside, built.value);
        if smartBuilt.None? {
          return false;
        }
      }
      var router := b.modelRouter(doc);
      if router.None? {
        return false;
      }
      var docPolicy := BuildModelPolicy(doc);
      SwapRoutes(built.value);
      modelRouter := router.value;
      modelPolicy := Union(envModelPolicy, docPolicy);
      if smart {
        smartRouter := smartBuilt.value;
      }
      return true;
    }
  }
}
