/**
 * The GitOps config store of the control plane: applying a desired document to the
 * in-memory registries, exporting them, and the permission check that comes first.
 */
module ConfigStore {
  import opened Common
  import opened Json
  import opened ConfigCollections

  // ---------------------------------------------------------------- documents

  datatype Kind = Route | Policy | Budget | RateLimit | Guardrail | ModelAlias | SmartRoutingPolicy

  /** The order collections are applied in. */
  const KINDS: seq<Kind> := [Route, Policy, Budget, RateLimit, Guardrail, ModelAlias, SmartRoutingPolicy]

  datatype DocProvider = DocProvider(
    kind: string, baseUrl: Option<string>, enabled: bool, credential: Option<string>)

  datatype DocKey = DocKey(name: string, keyPrefix: string, disabled: bool)

  datatype DocWorkspace = DocWorkspace(
    name: string, providers: seq<DocProvider>, collections: map<Kind, seq<DocEntity>>, virtualKeys: seq<DocKey>)

  datatype DocOrg = DocOrg(name: string, workspaces: seq<DocWorkspace>)

  datatype Document = Document(orgs: seq<DocOrg>)

  /** An absent collection is an empty one. */
  function Desired(dWs: DocWorkspace, kind: Kind): seq<DocEntity> {
    if kind in dWs.collections then dWs.collections[kind] else []
  }

  // ------------------------------------------------------------------- stores

  datatype Org = Org(id: nat, name: string)

  datatype Workspace = Workspace(id: nat, orgId: nat, name: string)

  datatype Provider = Provider(id: nat, workspaceId: nat, kind: string, baseUrl: Option<string>, enabled: bool)

  datatype VirtualKey = VirtualKey(workspaceId: nat, name: string, keyPrefix: string, disabled: bool)

  /** The registries, each in insertion order, and the credentials (by provider id) and
      virtual keys that ride along. Ids are drawn from `nextId`. */
  datatype Stores = Stores(
    nextId: nat,
    orgs: seq<Org>,
    workspaces: seq<Workspace>,
    providers: seq<Provider>,
    credentials: map<nat, string>,
    keys: seq<VirtualKey>,
    collections: map<Kind, seq<Entity>>)

  function Coll(s: Stores, kind: Kind): seq<Entity> {
    if kind in s.collections then s.collections[kind] else []
  }

  // ---------------------------------------------------------------- reconcile

  /** First match by name. */
  function FindOrg(orgs: seq<Org>, name: string): (o: Option<Org>)
    ensures o.Some? ==> o.value in orgs && o.value.name == name
  {
    if orgs == [] then None
    else if orgs[0].name == name then Some(orgs[0])
    else FindOrg(orgs[1..], name)
  }

  function FindWs(wss: seq<Workspace>, orgId: nat, name: string): (w: Option<Workspace>)
    ensures w.Some? ==> w.value in wss && w.value.orgId == orgId && w.value.name == name
  {
    if wss == [] then None
    else if wss[0].orgId == orgId && wss[0].name == name then Some(wss[0])
    else FindWs(wss[1..], orgId, name)
  }

  function EnsureOrg(s: Stores, name: string): (Stores, Org) {
    match FindOrg(s.orgs, name)
    case Some(o) => (s, o)
    case None =>
      var o := Org(s.nextId, name);
      (s.(nextId := s.nextId + 1, orgs := s.orgs + [o]), o)
  }

  function EnsureWs(s: Stores, orgId: nat, name: string): (Stores, Workspace) {
    match FindWs(s.workspaces, orgId, name)
    case Some(w) => (s, w)
    case None =>
      var w := Workspace(s.nextId, orgId, name);
      (s.(nextId := s.nextId + 1, workspaces := s.workspaces + [w]), w)
  }

  predicate HasProvider(ps: seq<Provider>, ws: nat, kind: string) {
    exists i :: 0 <= i < |ps| && ps[i].workspaceId == ws && ps[i].kind == kind
  }

  /** Missing provider kinds are created; existing providers are not touched. */
  function EnsureProviders(s: Stores, ws: nat, dps: seq<DocProvider>): Stores {
    if dps == [] then s
    else
      var m := EnsureProviders(s, ws, dps[..|dps| - 1]);
      var dp := dps[|dps| - 1];
      if HasProvider(m.providers, ws, dp.kind) then m
      else m.(nextId := m.nextId + 1,
              providers := m.providers + [Provider(m.nextId, ws, dp.kind, dp.baseUrl, dp.enabled)])
  }

  function ReconcileKind(s: Stores, ws: nat, kind: Kind, des: seq<DocEntity>): Stores {
    var r := ReconcileColl(Coll(s, kind), s.nextId, ws, des);
    s.(nextId := r.1, collections := s.collections[kind := r.0])
  }

  /** The first `n` collections, in order. */
  function ReconcileKinds(s: Stores, ws: nat, dWs: DocWorkspace, n: nat): Stores
    requires n <= |KINDS|
  {
    if n == 0 then s
    else ReconcileKind(ReconcileKinds(s, ws, dWs, n - 1), ws, KINDS[n - 1], Desired(dWs, KINDS[n - 1]))
  }

  function ReconcileWs(s: Stores, orgId: nat, dWs: DocWorkspace): Stores {
    var r := EnsureWs(s, orgId, dWs.name);
    ReconcileKinds(EnsureProviders(r.0, r.1.id, dWs.providers), r.1.id, dWs, |KINDS|)
  }

  function ReconcileWss(s: Stores, orgId: nat, dWss: seq<DocWorkspace>): Stores {
    if dWss == [] then s
    else ReconcileWs(ReconcileWss(s, orgId, dWss[..|dWss| - 1]), orgId, dWss[|dWss| - 1])
  }

  function Reconcile(s: Stores, dOrgs: seq<DocOrg>): Stores {
    if dOrgs == [] then s
    else
      var d := dOrgs[|dOrgs| - 1];
      var r := EnsureOrg(Reconcile(s, dOrgs[..|dOrgs| - 1]), d.name);
      ReconcileWss(r.0, r.1.id, d.workspaces)
  }

  // --------------------------------------------------------- what the stores keep

  /** Ids are distinct and below the next one. */
  ghost predicate GoodIds(s: Stores) {
    GoodOrgIds(s.orgs, s.nextId) && GoodWsIds(s.workspaces, s.nextId)
  }

  ghost predicate GoodOrgIds(orgs: seq<Org>, nextId: nat) {
    orgs != [] ==> orgs[0].id < nextId && orgs[0].id !in OrgIds(orgs[1..]) && GoodOrgIds(orgs[1..], nextId)
  }

  ghost predicate GoodWsIds(wss: seq<Workspace>, nextId: nat) {
    wss != [] ==>
      && wss[0].id < nextId && wss[0].orgId < nextId
      && wss[0].id !in WsIds(wss[1..]) && GoodWsIds(wss[1..], nextId)
  }

  function OrgIds(orgs: seq<Org>): set<nat> {
    if orgs == [] then {} else {orgs[0].id} + OrgIds(orgs[1..])
  }

  function WsIds(wss: seq<Workspace>): set<nat> {
    if wss == [] then {} else {wss[0].id} + WsIds(wss[1..])
  }

  lemma {:induction false} OrgIdIn(orgs: seq<Org>, nextId: nat, o: Org)
    requires GoodOrgIds(orgs, nextId) && o in orgs
    ensures o.id in OrgIds(orgs) && o.id < nextId
  {
    if o != orgs[0] {
      assert o in orgs[1..];
      OrgIdIn(orgs[1..], nextId, o);
    }
  }

  lemma {:induction false} SameOrg(orgs: seq<Org>, nextId: nat, a: Org, b: Org)
    requires GoodOrgIds(orgs, nextId) && a in orgs && b in orgs && a.id == b.id
    ensures a == b
  {
    if a in orgs[1..] && b in orgs[1..] {
      SameOrg(orgs[1..], nextId, a, b);
    } else if a in orgs[1..] {
      OrgIdIn(orgs[1..], nextId, a);
    } else if b in orgs[1..] {
      OrgIdIn(orgs[1..], nextId, b);
    }
  }

  lemma {:induction false} WsIdIn(wss: seq<Workspace>, nextId: nat, w: Workspace)
    requires GoodWsIds(wss, nextId) && w in wss
    ensures w.id in WsIds(wss) && w.id < nextId && w.orgId < nextId
  {
    if w != wss[0] {
      assert w in wss[1..];
      WsIdIn(wss[1..], nextId, w);
    }
  }

  lemma {:induction false} SameWorkspace(wss: seq<Workspace>, nextId: nat, a: Workspace, b: Workspace)
    requires GoodWsIds(wss, nextId) && a in wss && b in wss && a.id == b.id
    ensures a == b
  {
    if a in wss[1..] && b in wss[1..] {
      SameWorkspace(wss[1..], nextId, a, b);
    } else if a in wss[1..] {
      WsIdIn(wss[1..], nextId, a);
    } else if b in wss[1..] {
      WsIdIn(wss[1..], nextId, b);
    }
  }

  /** Drawing a new id keeps all that. */
  lemma {:induction false} OrgIdsLater(orgs: seq<Org>, nextId: nat, later: nat)
    requires GoodOrgIds(orgs, nextId) && nextId <= later
    ensures GoodOrgIds(orgs, later)
  {
    if orgs != [] {
      OrgIdsLater(orgs[1..], nextId, later);
    }
  }

  lemma {:induction false} WsIdsLater(wss: seq<Workspace>, nextId: nat, later: nat)
    requires GoodWsIds(wss, nextId) && nextId <= later
    ensures GoodWsIds(wss, later)
  {
    if wss != [] {
      WsIdsLater(wss[1..], nextId, later);
    }
  }

  lemma {:induction false} OrgIdsPush(orgs: seq<Org>, nextId: nat, o: Org)
    requires GoodOrgIds(orgs, nextId) && o.id == nextId
    ensures GoodOrgIds(orgs + [o], nextId + 1) && OrgIds(orgs + [o]) == OrgIds(orgs) + {o.id}
  {
    if orgs == [] {
      assert orgs + [o] == [o];
    } else {
      OrgIdsPush(orgs[1..], nextId, o);
      assert (orgs + [o])[1..] == orgs[1..] + [o];
    }
  }

  lemma {:induction false} WsIdsPush(wss: seq<Workspace>, nextId: nat, w: Workspace)
    requires GoodWsIds(wss, nextId) && w.id == nextId && w.orgId < nextId
    ensures GoodWsIds(wss + [w], nextId + 1) && WsIds(wss + [w]) == WsIds(wss) + {w.id}
  {
    if wss == [] {
      assert wss + [w] == [w];
    } else {
      WsIdsPush(wss[1..], nextId, w);
      assert (wss + [w])[1..] == wss[1..] + [w];
    }
  }

  lemma LaterIds(s: Stores, t: Stores)
    requires GoodIds(s) && s.nextId <= t.nextId && t.orgs == s.orgs && t.workspaces == s.workspaces
    ensures GoodIds(t)
  {
    OrgIdsLater(s.orgs, s.nextId, t.nextId);
    WsIdsLater(s.workspaces, s.nextId, t.nextId);
  }

  /** Entity names are unique per workspace and collection. */
  ghost predicate CleanColls(s: Stores) {
    forall k: Kind :: GoodConfigs(Coll(s, k)) && forall ws :: UniqueIn(Coll(s, k), ws)
  }

  /** Nothing but additions outside the collections. */
  ghost predicate Grows(s: Stores, s': Stores) {
    && s.nextId <= s'.nextId && s.orgs <= s'.orgs && s.workspaces <= s'.workspaces && s.providers <= s'.providers
    && s'.credentials == s.credentials && s'.keys == s.keys
    && (forall i :: |s.orgs| <= i < |s'.orgs| ==> s'.orgs[i].id >= s.nextId)
  }

  /** The workspace's entities are the same in every collection. */
  ghost predicate Leaves(s: Stores, s': Stores, ws: nat) {
    forall k: Kind :: Of(Coll(s', k), ws) == Of(Coll(s, k), ws)
  }

  /** And no provider was added to it either. */
  ghost predicate Untouched(s: Stores, s': Stores, ws: nat) {
    && Leaves(s, s', ws) && s.providers <= s'.providers
    && forall i :: |s.providers| <= i < |s'.providers| ==> s'.providers[i].workspaceId != ws
  }

  ghost predicate GoodDoc(dWs: DocWorkspace) {
    forall k: Kind :: GoodDesired(Desired(dWs, k)) && DistinctNames(Desired(dWs, k))
  }

  /** The workspace holds what the document asks for. */
  ghost predicate Holds(s: Stores, ws: nat, dWs: DocWorkspace) {
    && (forall k: Kind :: ViewOf(Coll(s, k), ws) == DesiredView(Desired(dWs, k)))
    && (forall i :: 0 <= i < |dWs.providers| ==> HasProvider(s.providers, ws, dWs.providers[i].kind))
  }

  ghost predicate Describes(s: Stores, orgId: nat, dWs: DocWorkspace) {
    var w := FindWs(s.workspaces, orgId, dWs.name);
    w.Some? && Holds(s, w.value.id, dWs)
  }

  // --------------------------------------------------------------- one workspace

  lemma KindsComplete()
    ensures forall k: Kind :: k in KINDS
    ensures forall i, j :: 0 <= i < j < |KINDS| ==> KINDS[i] != KINDS[j]
  {
    forall k: Kind ensures k in KINDS {
      match k
      case Route => assert KINDS[0] == k;
      case Policy => assert KINDS[1] == k;
      case Budget => assert KINDS[2] == k;
      case RateLimit => assert KINDS[3] == k;
      case Guardrail => assert KINDS[4] == k;
      case ModelAlias => assert KINDS[5] == k;
      case SmartRoutingPolicy => assert KINDS[6] == k;
    }
  }

  /** One collection: the workspace's entities become the desired ones, every other
      workspace and every other collection stays. */
  lemma KindEffect(s: Stores, ws: nat, kind: Kind, des: seq<DocEntity>)
    requires CleanColls(s) && GoodDesired(des)
    ensures var s' := ReconcileKind(s, ws, kind, des);
            && CleanColls(s') && s.nextId <= s'.nextId
            && ViewOf(Coll(s', kind), ws) == DesiredView(des)
            && (forall k: Kind :: k != kind ==> Coll(s', k) == Coll(s, k))
  {
    CollReaches(Coll(s, kind), s.nextId, ws, des);
    var s' := ReconcileKind(s, ws, kind, des);
    forall w ensures UniqueIn(Coll(s', kind), w) {
      if w != ws {
        CollLeaves(Coll(s, kind), s.nextId, ws, des, w);
      }
    }
    forall k: Kind ensures GoodConfigs(Coll(s', k)) && forall w :: UniqueIn(Coll(s', k), w) {
      assert k != kind ==> Coll(s', k) == Coll(s, k);
    }
  }

  lemma KindLeaves(s: Stores, ws: nat, kind: Kind, des: seq<DocEntity>, other: nat)
    requires other != ws
    ensures Leaves(s, ReconcileKind(s, ws, kind, des), other)
  {
    CollLeaves(Coll(s, kind), s.nextId, ws, des, other);
  }

  lemma {:induction false} KindsLeave(s: Stores, ws: nat, dWs: DocWorkspace, n: nat, other: nat)
    requires n <= |KINDS| && other != ws
    ensures Leaves(s, ReconcileKinds(s, ws, dWs, n), other)
  {
    if n > 0 {
      KindsLeave(s, ws, dWs, n - 1, other);
      KindLeaves(ReconcileKinds(s, ws, dWs, n - 1), ws, KINDS[n - 1], Desired(dWs, KINDS[n - 1]), other);
    }
  }

  lemma {:induction false} KindsFrame(s: Stores, ws: nat, dWs: DocWorkspace, n: nat)
    requires n <= |KINDS|
    ensures var s' := ReconcileKinds(s, ws, dWs, n);
            s'.(nextId := s.nextId, collections := s.collections) == s
  {
    if n > 0 {
      KindsFrame(s, ws, dWs, n - 1);
    }
  }

  lemma {:induction false} KindsEffect(s: Stores, ws: nat, dWs: DocWorkspace, n: nat)
    requires n <= |KINDS| && CleanColls(s) && GoodDoc(dWs)
    ensures var s' := ReconcileKinds(s, ws, dWs, n);
            && CleanColls(s') && s.nextId <= s'.nextId
            && (forall i :: 0 <= i < n ==> ViewOf(Coll(s', KINDS[i]), ws) == DesiredView(Desired(dWs, KINDS[i])))
  {
    if n > 0 {
      KindsEffect(s, ws, dWs, n - 1);
      KindsComplete();
      KindEffect(ReconcileKinds(s, ws, dWs, n - 1), ws, KINDS[n - 1], Desired(dWs, KINDS[n - 1]));
    }
  }

  lemma {:induction false} ProvidersEffect(s: Stores, ws: nat, dps: seq<DocProvider>)
    ensures var s' := EnsureProviders(s, ws, dps);
            && s.nextId <= s'.nextId && s.providers <= s'.providers
            && s'.(nextId := s.nextId, providers := s.providers) == s
            && (forall i :: |s.providers| <= i < |s'.providers| ==> s'.providers[i].workspaceId == ws)
            && (forall i :: 0 <= i < |dps| ==> HasProvider(s'.providers, ws, dps[i].kind))
  {
    if dps != [] {
      var init, dp := dps[..|dps| - 1], dps[|dps| - 1];
      ProvidersEffect(s, ws, init);
      var m, s' := EnsureProviders(s, ws, init), EnsureProviders(s, ws, dps);
      if !HasProvider(m.providers, ws, dp.kind) {
        assert s'.providers[|m.providers|].kind == dp.kind;
      }
      forall i | 0 <= i < |dps| ensures HasProvider(s'.providers, ws, dps[i].kind) {
        if i < |init| {
          assert init[i] == dps[i];
          ProviderStays(m.providers, s'.providers, ws, dps[i].kind);
        }
      }
    }
  }

  lemma ProviderStays(ps: seq<Provider>, more: seq<Provider>, ws: nat, kind: string)
    requires ps <= more && HasProvider(ps, ws, kind)
    ensures HasProvider(more, ws, kind)
  {
    var i :| 0 <= i < |ps| && ps[i].workspaceId == ws && ps[i].kind == kind;
    assert more[i] == ps[i];
  }

  lemma {:induction false} FindWsGrows(wss: seq<Workspace>, more: seq<Workspace>, orgId: nat, name: string)
    requires wss <= more && FindWs(wss, orgId, name).Some?
    ensures FindWs(more, orgId, name) == FindWs(wss, orgId, name)
  {
    if !(wss[0].orgId == orgId && wss[0].name == name) {
      FindWsGrows(wss[1..], more[1..], orgId, name);
    }
  }

  lemma {:induction false} FindWsAppended(wss: seq<Workspace>, w: Workspace)
    requires FindWs(wss, w.orgId, w.name).None?
    ensures FindWs(wss + [w], w.orgId, w.name) == Some(w)
  {
    if wss != [] {
      assert (wss + [w])[1..] == wss[1..] + [w];
      FindWsAppended(wss[1..], w);
    }
  }

  /** The id of the workspace an apply works on. */
  function WsId(s: Stores, orgId: nat, dWs: DocWorkspace): nat {
    EnsureWs(s, orgId, dWs.name).1.id
  }

  lemma EnsureWsEffect(s: Stores, orgId: nat, name: string)
    requires GoodIds(s) && orgId < s.nextId
    ensures var r := EnsureWs(s, orgId, name);
            && GoodIds(r.0) && Grows(s, r.0) && r.0.orgs == s.orgs && r.0.collections == s.collections
            && FindWs(r.0.workspaces, orgId, name) == Some(r.1)
            && (FindWs(s.workspaces, orgId, name).None? ==>
                  r.1.id == s.nextId && r.0.workspaces == s.workspaces + [r.1])
  {
    if FindWs(s.workspaces, orgId, name).None? {
      var w := Workspace(s.nextId, orgId, name);
      FindWsAppended(s.workspaces, w);
      WsIdsPush(s.workspaces, s.nextId, w);
      OrgIdsLater(s.orgs, s.nextId, s.nextId + 1);
    }
  }

  lemma {:induction false} UpsertAllIds(coll: seq<Entity>, nextId: nat, ws: nat, des: seq<DocEntity>)
    ensures UpsertAll(coll, nextId, ws, des).1 >= nextId
  {
    if des != [] {
      UpsertAllIds(coll, nextId, ws, des[..|des| - 1]);
    }
  }

  lemma {:induction false} KindsIds(s: Stores, ws: nat, dWs: DocWorkspace, n: nat)
    requires n <= |KINDS|
    ensures ReconcileKinds(s, ws, dWs, n).nextId >= s.nextId
  {
    if n > 0 {
      KindsIds(s, ws, dWs, n - 1);
      var m, des := ReconcileKinds(s, ws, dWs, n - 1), Desired(dWs, KINDS[n - 1]);
      UpsertAllIds(Prune(Coll(m, KINDS[n - 1]), ws, Names(des)), m.nextId, ws, des);
    }
  }

  /** Whatever the document holds, an apply only adds outside the collections. */
  lemma WorkspaceGrows(s: Stores, orgId: nat, dWs: DocWorkspace)
    requires GoodIds(s) && orgId < s.nextId
    ensures var s' := ReconcileWs(s, orgId, dWs);
            && GoodIds(s') && Grows(s, s') && s'.orgs == s.orgs
            && (forall i :: |s.workspaces| <= i < |s'.workspaces| ==> s'.workspaces[i].orgId == orgId)
  {
    EnsureWsEffect(s, orgId, dWs.name);
    var r := EnsureWs(s, orgId, dWs.name);
    ProvidersEffect(r.0, r.1.id, dWs.providers);
    var p := EnsureProviders(r.0, r.1.id, dWs.providers);
    KindsFrame(p, r.1.id, dWs, |KINDS|);
    KindsIds(p, r.1.id, dWs, |KINDS|);
    LaterIds(r.0, ReconcileWs(s, orgId, dWs));
  }

  /** All collections of a workspace: they show the desired entities. */
  lemma AllKindsEffect(p: Stores, id: nat, dWs: DocWorkspace)
    requires CleanColls(p) && GoodDoc(dWs)
    ensures var s' := ReconcileKinds(p, id, dWs, |KINDS|);
            && CleanColls(s') && p.nextId <= s'.nextId
            && (forall k: Kind :: ViewOf(Coll(s', k), id) == DesiredView(Desired(dWs, k)))
  {
    KindsEffect(p, id, dWs, |KINDS|);
    var s' := ReconcileKinds(p, id, dWs, |KINDS|);
    forall k: Kind ensures ViewOf(Coll(s', k), id) == DesiredView(Desired(dWs, k)) {
      KindsComplete();
      assert k in KINDS;
      var i :| 0 <= i < |KINDS| && KINDS[i] == k;
    }
  }

  /** Applying one workspace: it holds what was asked for. */
  lemma WorkspaceEffect(s: Stores, orgId: nat, dWs: DocWorkspace)
    requires GoodIds(s) && orgId < s.nextId && CleanColls(s) && GoodDoc(dWs)
    ensures var s' := ReconcileWs(s, orgId, dWs);
            && GoodIds(s') && CleanColls(s') && Grows(s, s') && s'.orgs == s.orgs
            && Describes(s', orgId, dWs)
  {
    WorkspaceGrows(s, orgId, dWs);
    WorkspaceHolds(s, orgId, dWs);
  }

  lemma WorkspaceHolds(s: Stores, orgId: nat, dWs: DocWorkspace)
    requires GoodIds(s) && orgId < s.nextId && CleanColls(s) && GoodDoc(dWs)
    ensures var s' := ReconcileWs(s, orgId, dWs);
            CleanColls(s') && Describes(s', orgId, dWs)
  {
    EnsureWsEffect(s, orgId, dWs.name);
    var r := EnsureWs(s, orgId, dWs.name);
    var id := r.1.id;
    ProvidersEffect(r.0, id, dWs.providers);
    var p := EnsureProviders(r.0, id, dWs.providers);
    SameCollsClean(s, p);
    KindsFrame(p, id, dWs, |KINDS|);
    AllKindsEffect(p, id, dWs);
  }

  /** And no other workspace is touched. */
  lemma WorkspaceLeaves(s: Stores, orgId: nat, dWs: DocWorkspace, other: nat)
    requires other != WsId(s, orgId, dWs)
    ensures Untouched(s, ReconcileWs(s, orgId, dWs), other)
  {
    var r := EnsureWs(s, orgId, dWs.name);
    ProvidersEffect(r.0, r.1.id, dWs.providers);
    var p := EnsureProviders(r.0, r.1.id, dWs.providers);
    KindsLeave(p, r.1.id, dWs, |KINDS|, other);
    KindsFrame(p, r.1.id, dWs, |KINDS|);
    assert forall k: Kind :: Coll(p, k) == Coll(s, k);
  }

  /** A described workspace is a fixed point. */
  lemma WorkspaceFixed(s: Stores, orgId: nat, dWs: DocWorkspace)
    requires CleanColls(s) && GoodDoc(dWs) && FullColls(s) && Describes(s, orgId, dWs)
    ensures ReconcileWs(s, orgId, dWs) == s
  {
    var w := FindWs(s.workspaces, orgId, dWs.name).value;
    ProvidersFixed(s, w.id, dWs.providers);
    KindsFixed(s, w.id, dWs, |KINDS|);
  }

  /** Every collection is there. */
  ghost predicate FullColls(s: Stores) {
    forall k: Kind :: k in s.collections
  }

  lemma {:induction false} ProvidersFixed(s: Stores, ws: nat, dps: seq<DocProvider>)
    requires forall i :: 0 <= i < |dps| ==> HasProvider(s.providers, ws, dps[i].kind)
    ensures EnsureProviders(s, ws, dps) == s
  {
    if dps != [] {
      ProvidersFixed(s, ws, dps[..|dps| - 1]);
    }
  }

  lemma {:induction false} KindsFixed(s: Stores, ws: nat, dWs: DocWorkspace, n: nat)
    requires n <= |KINDS| && CleanColls(s) && GoodDoc(dWs) && FullColls(s) && Holds(s, ws, dWs)
    ensures ReconcileKinds(s, ws, dWs, n) == s
  {
    if n > 0 {
      KindsFixed(s, ws, dWs, n - 1);
      var k := KINDS[n - 1];
      CollFixed(Coll(s, k), s.nextId, ws, Desired(dWs, k));
      assert s.collections[k := Coll(s, k)] == s.collections;
    }
  }

  // ------------------------------------------------------------- whole documents

  /** The workspace two different places of the document lead to is not the same one. */
  lemma IdsDiffer(s: Stores, orgId: nat, name: string, orgId': nat, dWs: DocWorkspace)
    requires GoodIds(s) && FindWs(s.workspaces, orgId, name).Some? && (orgId != orgId' || name != dWs.name)
    ensures FindWs(s.workspaces, orgId, name).value.id != WsId(s, orgId', dWs)
  {
    var w := FindWs(s.workspaces, orgId, name).value;
    WsIdIn(s.workspaces, s.nextId, w);
    match FindWs(s.workspaces, orgId', dWs.name)
    case Some(v) =>
      if v.id == w.id {
        SameWorkspace(s.workspaces, s.nextId, v, w);
      }
    case None =>
  }

  lemma DescribesStays(s: Stores, s': Stores, orgId: nat, d: DocWorkspace)
    requires Describes(s, orgId, d) && s.workspaces <= s'.workspaces
    requires Untouched(s, s', FindWs(s.workspaces, orgId, d.name).value.id)
    ensures Describes(s', orgId, d)
  {
    FindWsGrows(s.workspaces, s'.workspaces, orgId, d.name);
    var ws := FindWs(s.workspaces, orgId, d.name).value.id;
    forall i | 0 <= i < |d.providers| ensures HasProvider(s'.providers, ws, d.providers[i].kind) {
      ProviderStays(s.providers, s'.providers, ws, d.providers[i].kind);
    }
  }

  /** Applying one place of the document keeps every other described place described. */
  lemma StepKeeps(s: Stores, orgId: nat, dWs: DocWorkspace, orgId': nat, d: DocWorkspace)
    requires GoodIds(s) && CleanColls(s) && orgId < s.nextId && GoodDoc(dWs)
    requires Describes(s, orgId', d) && (orgId != orgId' || dWs.name != d.name)
    ensures Describes(ReconcileWs(s, orgId, dWs), orgId', d)
  {
    WorkspaceEffect(s, orgId, dWs);
    IdsDiffer(s, orgId', d.name, orgId, dWs);
    WorkspaceLeaves(s, orgId, dWs, FindWs(s.workspaces, orgId', d.name).value.id);
    DescribesStays(s, ReconcileWs(s, orgId, dWs), orgId', d);
  }

  ghost predicate GoodWss(dWss: seq<DocWorkspace>) {
    && (forall i :: 0 <= i < |dWss| ==> GoodDoc(dWss[i]))
    && (forall i, j :: 0 <= i < j < |dWss| ==> dWss[i].name != dWss[j].name)
  }

  ghost predicate GoodOrgs(dOrgs: seq<DocOrg>) {
    && (forall i :: 0 <= i < |dOrgs| ==> GoodWss(dOrgs[i].workspaces))
    && (forall i, j :: 0 <= i < j < |dOrgs| ==> dOrgs[i].name != dOrgs[j].name)
  }

  ghost predicate DescribesAll(s: Stores, orgId: nat, dWss: seq<DocWorkspace>) {
    forall i :: 0 <= i < |dWss| ==> Describes(s, orgId, dWss[i])
  }

  lemma {:induction false} WssGood(s: Stores, orgId: nat, dWss: seq<DocWorkspace>)
    requires GoodIds(s) && CleanColls(s) && orgId < s.nextId && GoodWss(dWss)
    ensures var s' := ReconcileWss(s, orgId, dWss);
            GoodIds(s') && CleanColls(s') && Grows(s, s') && s'.orgs == s.orgs
  {
    if dWss != [] {
      WssGood(s, orgId, dWss[..|dWss| - 1]);
      WorkspaceEffect(ReconcileWss(s, orgId, dWss[..|dWss| - 1]), orgId, dWss[|dWss| - 1]);
    }
  }

  lemma {:induction false} WssEffect(s: Stores, orgId: nat, dWss: seq<DocWorkspace>)
    requires GoodIds(s) && CleanColls(s) && orgId < s.nextId && GoodWss(dWss)
    ensures DescribesAll(ReconcileWss(s, orgId, dWss), orgId, dWss)
  {
    if dWss != [] {
      var init, d := dWss[..|dWss| - 1], dWss[|dWss| - 1];
      WssEffect(s, orgId, init);
      WssGood(s, orgId, init);
      AddWorkspace(ReconcileWss(s, orgId, init), orgId, dWss);
    }
  }

  /** One workspace more. */
  lemma AddWorkspace(m: Stores, orgId: nat, dWss: seq<DocWorkspace>)
    requires GoodIds(m) && CleanColls(m) && orgId < m.nextId && GoodWss(dWss) && dWss != []
    requires DescribesAll(m, orgId, dWss[..|dWss| - 1])
    ensures DescribesAll(ReconcileWs(m, orgId, dWss[|dWss| - 1]), orgId, dWss)
  {
    var init, d := dWss[..|dWss| - 1], dWss[|dWss| - 1];
    WorkspaceHolds(m, orgId, d);
    forall i | 0 <= i < |init| ensures Describes(ReconcileWs(m, orgId, d), orgId, dWss[i]) {
      assert init[i] == dWss[i];
      StepKeeps(m, orgId, d, orgId, dWss[i]);
    }
  }

  lemma {:induction false} WssKeep(s: Stores, orgId: nat, dWss: seq<DocWorkspace>, orgId': nat, d: DocWorkspace)
    requires GoodIds(s) && CleanColls(s) && orgId < s.nextId && GoodWss(dWss)
    requires orgId != orgId' && Describes(s, orgId', d)
    ensures Describes(ReconcileWss(s, orgId, dWss), orgId', d)
  {
    if dWss != [] {
      var init := dWss[..|dWss| - 1];
      WssKeep(s, orgId, init, orgId', d);
      WssGood(s, orgId, init);
      StepKeeps(ReconcileWss(s, orgId, init), orgId, dWss[|dWss| - 1], orgId', d);
    }
  }

  lemma {:induction false} FindOrgGrows(orgs: seq<Org>, more: seq<Org>, name: string)
    requires orgs <= more && FindOrg(orgs, name).Some?
    ensures FindOrg(more, name) == FindOrg(orgs, name)
  {
    if orgs[0].name != name {
      FindOrgGrows(orgs[1..], more[1..], name);
    }
  }

  lemma {:induction false} FindOrgAppended(orgs: seq<Org>, o: Org)
    requires FindOrg(orgs, o.name).None?
    ensures FindOrg(orgs + [o], o.name) == Some(o)
  {
    if orgs != [] {
      assert (orgs + [o])[1..] == orgs[1..] + [o];
      FindOrgAppended(orgs[1..], o);
    }
  }

  lemma EnsureOrgEffect(s: Stores, name: string)
    requires GoodIds(s)
    ensures var r := EnsureOrg(s, name);
            && GoodIds(r.0) && Grows(s, r.0) && r.0.workspaces == s.workspaces && r.0.providers == s.providers
            && r.0.collections == s.collections && FindOrg(r.0.orgs, name) == Some(r.1) && r.1.id < r.0.nextId
            && (FindOrg(s.orgs, name).None? ==> r.1.id == s.nextId && r.0.orgs == s.orgs + [r.1])
  {
    if FindOrg(s.orgs, name).None? {
      var o := Org(s.nextId, name);
      FindOrgAppended(s.orgs, o);
      OrgIdsPush(s.orgs, s.nextId, o);
      WsIdsLater(s.workspaces, s.nextId, s.nextId + 1);
    } else {
      OrgIdIn(s.orgs, s.nextId, FindOrg(s.orgs, name).value);
    }
  }

  lemma SameCollsClean(s: Stores, t: Stores)
    requires CleanColls(s) && s.collections == t.collections
    ensures CleanColls(t)
  {
    assert forall k: Kind :: Coll(t, k) == Coll(s, k);
  }

  /** The store holds everything one org of the document asks for. */
  ghost predicate DescribesOrg(s: Stores, d: DocOrg) {
    var o := FindOrg(s.orgs, d.name);
    o.Some? && DescribesAll(s, o.value.id, d.workspaces)
  }

  lemma OrgIdsDiffer(s: Stores, a: string, b: string)
    requires GoodIds(s) && FindOrg(s.orgs, a).Some? && FindOrg(s.orgs, b).Some? && a != b
    ensures FindOrg(s.orgs, a).value.id != FindOrg(s.orgs, b).value.id
  {
    if FindOrg(s.orgs, a).value.id == FindOrg(s.orgs, b).value.id {
      SameOrg(s.orgs, s.nextId, FindOrg(s.orgs, a).value, FindOrg(s.orgs, b).value);
    }
  }

  /** One org of the document on top of what is already described. */
  lemma OrgStep(m: Stores, d: DocOrg)
    requires GoodIds(m) && CleanColls(m) && GoodWss(d.workspaces)
    ensures var r := EnsureOrg(m, d.name);
            var s' := ReconcileWss(r.0, r.1.id, d.workspaces);
            && GoodIds(s') && CleanColls(s') && Grows(m, s') && DescribesOrg(s', d)
  {
    EnsureOrgEffect(m, d.name);
    var r := EnsureOrg(m, d.name);
    SameCollsClean(m, r.0);
    WssGood(r.0, r.1.id, d.workspaces);
    WssEffect(r.0, r.1.id, d.workspaces);
  }

  lemma OrgStepKeeps(m: Stores, d: DocOrg, e: DocOrg)
    requires GoodIds(m) && CleanColls(m) && GoodWss(d.workspaces) && DescribesOrg(m, e) && d.name != e.name
    ensures var r := EnsureOrg(m, d.name);
            DescribesOrg(ReconcileWss(r.0, r.1.id, d.workspaces), e)
  {
    EnsureOrgEffect(m, d.name);
    var r := EnsureOrg(m, d.name);
    SameCollsClean(m, r.0);
    WssGood(r.0, r.1.id, d.workspaces);
    FindOrgGrows(m.orgs, r.0.orgs, e.name);
    OrgIdsDiffer(r.0, d.name, e.name);
    var o := FindOrg(m.orgs, e.name).value;
    forall j | 0 <= j < |e.workspaces|
      ensures Describes(ReconcileWss(r.0, r.1.id, d.workspaces), o.id, e.workspaces[j])
    {
      assert Describes(m, o.id, e.workspaces[j]);
      assert Describes(r.0, o.id, e.workspaces[j]) by {
        assert forall k: Kind :: Coll(r.0, k) == Coll(m, k);
      }
      WssKeep(r.0, r.1.id, d.workspaces, o.id, e.workspaces[j]);
    }
  }

  lemma {:induction false} ReconcileGood(s: Stores, dOrgs: seq<DocOrg>)
    requires GoodIds(s) && CleanColls(s) && GoodOrgs(dOrgs)
    ensures var s' := Reconcile(s, dOrgs);
            GoodIds(s') && CleanColls(s') && Grows(s, s')
  {
    if dOrgs != [] {
      ReconcileGood(s, dOrgs[..|dOrgs| - 1]);
      OrgStep(Reconcile(s, dOrgs[..|dOrgs| - 1]), dOrgs[|dOrgs| - 1]);
    }
  }

  /** After an apply, the name-to-config map of every desired workspace is the desired one
      in all seven collections, and every desired provider kind exists. */
  lemma {:induction false} ReconcileReaches(s: Stores, dOrgs: seq<DocOrg>)
    requires GoodIds(s) && CleanColls(s) && GoodOrgs(dOrgs)
    ensures forall i :: 0 <= i < |dOrgs| ==> DescribesOrg(Reconcile(s, dOrgs), dOrgs[i])
  {
    if dOrgs != [] {
      var init, d := dOrgs[..|dOrgs| - 1], dOrgs[|dOrgs| - 1];
      ReconcileReaches(s, init);
      ReconcileGood(s, init);
      var m := Reconcile(s, init);
      var s' := Reconcile(s, dOrgs);
      forall i | 0 <= i < |init| ensures DescribesOrg(s', dOrgs[i]) {
        assert init[i] == dOrgs[i];
        OrgStepKeeps(m, d, dOrgs[i]);
      }
      assert DescribesOrg(s', d) by {
        OrgStep(m, d);
      }
    }
  }

  // ------------------------------------------------------------------ fixed points

  lemma {:induction false} WssFixed(s: Stores, orgId: nat, dWss: seq<DocWorkspace>)
    requires CleanColls(s) && FullColls(s) && DescribesAll(s, orgId, dWss)
    requires forall i :: 0 <= i < |dWss| ==> GoodDoc(dWss[i])
    ensures ReconcileWss(s, orgId, dWss) == s
  {
    if dWss != [] {
      WssFixed(s, orgId, dWss[..|dWss| - 1]);
      WorkspaceFixed(s, orgId, dWss[|dWss| - 1]);
    }
  }

  /** A store that already holds what the document asks for is not changed at all. */
  lemma {:induction false} ReconcileFixed(s: Stores, dOrgs: seq<DocOrg>)
    requires CleanColls(s) && FullColls(s)
    requires forall i :: 0 <= i < |dOrgs| ==> DescribesOrg(s, dOrgs[i])
    requires forall i, j :: 0 <= i < |dOrgs| && 0 <= j < |dOrgs[i].workspaces| ==> GoodDoc(dOrgs[i].workspaces[j])
    ensures Reconcile(s, dOrgs) == s
  {
    if dOrgs != [] {
      var init, d := dOrgs[..|dOrgs| - 1], dOrgs[|dOrgs| - 1];
      ReconcileFixed(s, init);
      WssFixed(s, FindOrg(s.orgs, d.name).value.id, d.workspaces);
    }
  }

  lemma {:induction false} KindsFull(s: Stores, ws: nat, dWs: DocWorkspace, n: nat)
    requires n <= |KINDS| && FullColls(s)
    ensures FullColls(ReconcileKinds(s, ws, dWs, n))
  {
    if n > 0 {
      KindsFull(s, ws, dWs, n - 1);
    }
  }

  lemma {:induction false} WssFull(s: Stores, orgId: nat, dWss: seq<DocWorkspace>)
    requires FullColls(s)
    ensures FullColls(ReconcileWss(s, orgId, dWss))
  {
    if dWss != [] {
      WssFull(s, orgId, dWss[..|dWss| - 1]);
      var d, m := dWss[|dWss| - 1], ReconcileWss(s, orgId, dWss[..|dWss| - 1]);
      var r := EnsureWs(m, orgId, d.name);
      ProvidersEffect(r.0, r.1.id, d.providers);
      KindsFull(EnsureProviders(r.0, r.1.id, d.providers), r.1.id, d, |KINDS|);
    }
  }

  lemma {:induction false} ReconcileFull(s: Stores, dOrgs: seq<DocOrg>)
    requires FullColls(s)
    ensures FullColls(Reconcile(s, dOrgs))
  {
    if dOrgs != [] {
      var d := dOrgs[|dOrgs| - 1];
      ReconcileFull(s, dOrgs[..|dOrgs| - 1]);
      var r := EnsureOrg(Reconcile(s, dOrgs[..|dOrgs| - 1]), d.name);
      WssFull(r.0, r.1.id, d.workspaces);
    }
  }

  /** Applying the same document again changes nothing, not even an id. */
  lemma ReconcileIdempotent(s: Stores, dOrgs: seq<DocOrg>)
    requires GoodIds(s) && CleanColls(s) && FullColls(s) && GoodOrgs(dOrgs)
    ensures Reconcile(Reconcile(s, dOrgs), dOrgs) == Reconcile(s, dOrgs)
  {
    ReconcileReaches(s, dOrgs);
    ReconcileGood(s, dOrgs);
    ReconcileFull(s, dOrgs);
    ReconcileFixed(Reconcile(s, dOrgs), dOrgs);
  }

  // ------------------------------------------------------------------------ frame

  /** The document names this workspace: first org of that name, first workspace of that
      name in it. */
  ghost predicate Named(s: Stores, dOrgs: seq<DocOrg>, w: Workspace) {
    exists i, j :: 0 <= i < |dOrgs| && 0 <= j < |dOrgs[i].workspaces| && NamedBy(s, dOrgs[i], dOrgs[i].workspaces[j], w)
  }

  ghost predicate NamedBy(s: Stores, d: DocOrg, dWs: DocWorkspace, w: Workspace) {
    var o := FindOrg(s.orgs, d.name);
    o.Some? && FindWs(s.workspaces, o.value.id, dWs.name) == Some(w)
  }

  lemma {:induction false} WssGrow(s: Stores, orgId: nat, dWss: seq<DocWorkspace>)
    requires GoodIds(s) && orgId < s.nextId
    ensures var s' := ReconcileWss(s, orgId, dWss);
            && GoodIds(s') && Grows(s, s') && s'.orgs == s.orgs
            && (forall i :: |s.workspaces| <= i < |s'.workspaces| ==> s'.workspaces[i].orgId == orgId)
  {
    if dWss != [] {
      WssGrow(s, orgId, dWss[..|dWss| - 1]);
      WorkspaceGrows(ReconcileWss(s, orgId, dWss[..|dWss| - 1]), orgId, dWss[|dWss| - 1]);
    }
  }

  lemma {:induction false} ReconcileGrows(s: Stores, dOrgs: seq<DocOrg>)
    requires GoodIds(s)
    ensures GoodIds(Reconcile(s, dOrgs)) && Grows(s, Reconcile(s, dOrgs))
  {
    if dOrgs != [] {
      var d := dOrgs[|dOrgs| - 1];
      ReconcileGrows(s, dOrgs[..|dOrgs| - 1]);
      var m := Reconcile(s, dOrgs[..|dOrgs| - 1]);
      EnsureOrgEffect(m, d.name);
      var r := EnsureOrg(m, d.name);
      WssGrow(r.0, r.1.id, d.workspaces);
    }
  }

  lemma UntouchedTrans(s: Stores, m: Stores, t: Stores, ws: nat)
    requires Untouched(s, m, ws) && Untouched(m, t, ws)
    ensures Untouched(s, t, ws)
  {
  }

  /** A workspace of the start that an apply works on was found by name at the start. */
  lemma OnlyNamed(s: Stores, m: Stores, o: Org, dWs: DocWorkspace, w: Workspace)
    requires GoodIds(s) && GoodIds(m) && Grows(s, m) && w in s.workspaces
    requires WsId(m, o.id, dWs) == w.id
    ensures FindWs(s.workspaces, o.id, dWs.name) == Some(w)
  {
    var i :| 0 <= i < |s.workspaces| && s.workspaces[i] == w;
    assert m.workspaces[i] == w;
    WsIdIn(m.workspaces, m.nextId, w);
    var v := FindWs(m.workspaces, o.id, dWs.name);
    assert v.Some?;
    SameWorkspace(m.workspaces, m.nextId, v.value, w);
    FindWsSome(s.workspaces, w);
    FindWsGrows(s.workspaces, m.workspaces, o.id, dWs.name);
  }

  lemma {:induction false} FindWsSome(wss: seq<Workspace>, w: Workspace)
    requires w in wss
    ensures FindWs(wss, w.orgId, w.name).Some?
  {
    if !(wss[0].orgId == w.orgId && wss[0].name == w.name) {
      FindWsSome(wss[1..], w);
    }
  }

  lemma {:induction false} WssFrame(
    s: Stores, m: Stores, o: Org, dWss: seq<DocWorkspace>, w: Workspace)
    requires GoodIds(s) && GoodIds(m) && Grows(s, m) && o.id < m.nextId
    requires w in s.workspaces
    requires forall j :: 0 <= j < |dWss| ==> FindWs(s.workspaces, o.id, dWss[j].name) != Some(w)
    ensures Untouched(m, ReconcileWss(m, o.id, dWss), w.id)
  {
    if dWss != [] {
      var init, d := dWss[..|dWss| - 1], dWss[|dWss| - 1];
      WssFrame(s, m, o, init, w);
      WssGrow(m, o.id, init);
      var n := ReconcileWss(m, o.id, init);
      if WsId(n, o.id, d) == w.id {
        OnlyNamed(s, n, o, d, w);
      }
      WorkspaceLeaves(n, o.id, d, w.id);
      UntouchedTrans(m, n, ReconcileWs(n, o.id, d), w.id);
    }
  }

  /** Every workspace the document does not name keeps its entities and providers, in
      absent orgs and in present ones; orgs, workspaces and providers are only ever added
      to, and credentials and virtual keys stay as they are. This holds for every document, with whatever
      repeated names in it or in the store. */
  lemma {:induction false} ReconcileFrame(s: Stores, dOrgs: seq<DocOrg>, w: Workspace)
    requires GoodIds(s) && w in s.workspaces && !Named(s, dOrgs, w)
    ensures Untouched(s, Reconcile(s, dOrgs), w.id) && Grows(s, Reconcile(s, dOrgs))
  {
    if dOrgs != [] {
      var init, d := dOrgs[..|dOrgs| - 1], dOrgs[|dOrgs| - 1];
      assert !Named(s, init, w) by {
        assert forall i :: 0 <= i < |init| ==> init[i] == dOrgs[i];
      }
      ReconcileFrame(s, init, w);
      ReconcileGrows(s, init);
      ReconcileGrows(s, dOrgs);
      var m := Reconcile(s, init);
      OrgFrame(s, m, d, w);
      var r := EnsureOrg(m, d.name);
      UntouchedTrans(s, m, ReconcileWss(r.0, r.1.id, d.workspaces), w.id);
    }
  }

  lemma OrgFrame(s: Stores, m: Stores, d: DocOrg, w: Workspace)
    requires GoodIds(s) && GoodIds(m) && Grows(s, m) && w in s.workspaces
    requires forall j :: 0 <= j < |d.workspaces| ==> !NamedBy(s, d, d.workspaces[j], w)
    ensures var r := EnsureOrg(m, d.name);
            Untouched(m, ReconcileWss(r.0, r.1.id, d.workspaces), w.id)
  {
    EnsureOrgEffect(m, d.name);
    var r := EnsureOrg(m, d.name);
    forall j | 0 <= j < |d.workspaces| ensures FindWs(s.workspaces, r.1.id, d.workspaces[j].name) != Some(w) {
      if FindOrg(s.orgs, d.name).Some? {
        FindOrgGrows(s.orgs, r.0.orgs, d.name);
        assert !NamedBy(s, d, d.workspaces[j], w);
      } else {
        NewOrgIsNew(s, m, d.name);
        WsIdIn(s.workspaces, s.nextId, w);
      }
    }
    WssFrame(s, r.0, r.1, d.workspaces, w);
    assert Untouched(m, r.0, w.id) by {
      assert forall k: Kind :: Coll(r.0, k) == Coll(m, k);
    }
    UntouchedTrans(m, r.0, ReconcileWss(r.0, r.1.id, d.workspaces), w.id);
  }

  lemma {:induction false} FindOrgSome(orgs: seq<Org>, o: Org)
    requires o in orgs
    ensures FindOrg(orgs, o.name).Some?
  {
    if orgs[0].name != o.name {
      FindOrgSome(orgs[1..], o);
    }
  }

  /** An org that was not there by name has a new id, which no workspace of the start can
      carry. */
  lemma NewOrgIsNew(s: Stores, m: Stores, name: string)
    requires GoodIds(s) && GoodIds(m) && Grows(s, m) && FindOrg(s.orgs, name).None?
    ensures EnsureOrg(m, name).1.id >= s.nextId
  {
    var o := FindOrg(m.orgs, name);
    if o.Some? {
      var i :| 0 <= i < |m.orgs| && m.orgs[i] == o.value;
      if i < |s.orgs| {
        FindOrgSome(s.orgs, s.orgs[i]);
      }
    }
  }
}
