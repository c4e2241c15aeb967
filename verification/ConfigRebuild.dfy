/**
 * Documents through an empty store and back: applying an exported document to an empty store
 * and exporting that store gives the document again, except for what an apply does not carry
 * over: credentials, virtual keys, and further providers of a kind.
 */
module ConfigRebuild {
  import opened Common
  import opened Json
  import opened ConfigCollections
  import opened ConfigStore
  import opened ConfigExport

  // --------------------------------------------------------- what a store shows, in order

  function Docs(es: seq<Entity>): seq<DocEntity> {
    if es == [] then [] else [ToDoc(es[0])] + Docs(es[1..])
  }

  /** A workspace's providers, without their credentials. */
  function Plain(ps: seq<Provider>, ws: nat): seq<DocProvider> {
    WorkspaceProviders(ps, map[], ws)
  }

  /** The workspace holds exactly the document's providers and entities, in its order. */
  ghost predicate ShowsWs(s: Stores, w: Workspace, d: DocWorkspace) {
    && w.name == d.name && d.virtualKeys == [] && Plain(s.providers, w.id) == d.providers
    && forall k: Kind :: Docs(Of(Coll(s, k), w.id)) == Desired(d, k)
  }

  ghost predicate ShowsWss(s: Stores, wss: seq<Workspace>, dWss: seq<DocWorkspace>) {
    |wss| == |dWss| && forall i :: 0 <= i < |wss| ==> ShowsWs(s, wss[i], dWss[i])
  }

  ghost predicate ShowsOrg(s: Stores, o: Org, d: DocOrg) {
    o.name == d.name && ShowsWss(s, OrgWorkspaces(s.workspaces, o.id), d.workspaces)
  }

  ghost predicate Shows(s: Stores, dOrgs: seq<DocOrg>) {
    |s.orgs| == |dOrgs| && forall i :: 0 <= i < |dOrgs| ==> ShowsOrg(s, s.orgs[i], dOrgs[i])
  }

  /** Nothing belongs to this id yet. */
  ghost predicate Vacant(s: Stores, id: nat) {
    && Plain(s.providers, id) == [] && OrgWorkspaces(s.workspaces, id) == []
    && forall k: Kind :: Of(Coll(s, k), id) == []
  }

  ghost predicate AllVacant(s: Stores) {
    forall id: nat :: id >= s.nextId ==> Vacant(s, id)
  }

  /** The two stores hold the same for this workspace. */
  ghost predicate SameFor(s: Stores, s': Stores, ws: nat) {
    Plain(s'.providers, ws) == Plain(s.providers, ws) && Leaves(s, s', ws)
  }

  // ---------------------------------------------------------------- a new workspace's parts

  lemma {:induction false} PlainJoin(a: seq<Provider>, b: seq<Provider>, ws: nat)
    ensures Plain(a + b, ws) == Plain(a, ws) + Plain(b, ws)
  {
    if a == [] {
      assert a + b == b;
    } else {
      PlainJoin(a[1..], b, ws);
      assert (a + b)[1..] == a[1..] + b;
      if a[0].workspaceId == ws {
        var first := [ToDocProvider(a[0], map[])];
        Regroup(first, Plain(a[1..], ws), Plain(b, ws));
      }
    }
  }

  lemma Regroup(a: seq<DocProvider>, b: seq<DocProvider>, c: seq<DocProvider>)
    ensures a + (b + c) == a + b + c
  {
  }

  lemma {:induction false} NoProviders(ps: seq<Provider>, ws: nat)
    requires forall i :: 0 <= i < |ps| ==> ps[i].workspaceId != ws
    ensures Plain(ps, ws) == []
  {
    if ps != [] {
      NoProviders(ps[1..], ws);
    }
  }

  lemma UntouchedIsSame(s: Stores, s': Stores, ws: nat)
    requires Untouched(s, s', ws)
    ensures SameFor(s, s', ws)
  {
    var more := s'.providers[|s.providers|..];
    assert s'.providers == s.providers + more;
    PlainJoin(s.providers, more, ws);
    NoProviders(more, ws);
  }

  ghost predicate DistinctKinds(dps: seq<DocProvider>) {
    forall i, j :: 0 <= i < j < |dps| ==> dps[i].kind != dps[j].kind
  }

  ghost predicate NoCredentials(dps: seq<DocProvider>) {
    forall i :: 0 <= i < |dps| ==> dps[i].credential.None?
  }

  lemma OneProvider(p: Provider)
    ensures Plain([p], p.workspaceId) == [DocProvider(p.kind, p.baseUrl, p.enabled, None)]
  {
    assert [p][1..] == [];
    assert WorkspaceProviders([], map[], p.workspaceId) == [];
  }

  /** A workspace without providers gets the document's, in order. */
  lemma {:induction false} NewProviders(s: Stores, ws: nat, dps: seq<DocProvider>)
    requires Plain(s.providers, ws) == [] && DistinctKinds(dps) && NoCredentials(dps)
    ensures Plain(EnsureProviders(s, ws, dps).providers, ws) == dps
  {
    if dps != [] {
      var init, dp := dps[..|dps| - 1], dps[|dps| - 1];
      NewProviders(s, ws, init);
      var m := EnsureProviders(s, ws, init);
      if HasProvider(m.providers, ws, dp.kind) {
        var i :| 0 <= i < |m.providers| && m.providers[i].workspaceId == ws && m.providers[i].kind == dp.kind;
        ProviderIsListed(m.providers, map[], ws, i);
        assert false;
      }
      var p := Provider(m.nextId, ws, dp.kind, dp.baseUrl, dp.enabled);
      PlainJoin(m.providers, [p], ws);
      OneProvider(p);
      assert dps == init + [dp];
    }
  }

  lemma {:induction false} NothingToPrune(coll: seq<Entity>, ws: nat, names: set<string>)
    requires Of(coll, ws) == []
    ensures Prune(coll, ws, names) == coll
  {
    if coll != [] {
      NothingToPrune(coll[1..], ws, names);
    }
  }

  lemma {:induction false} FoundIsListed(coll: seq<Entity>, ws: nat, name: string)
    requires Find(coll, ws, name).Some?
    ensures exists i :: 0 <= i < |Docs(Of(coll, ws))| && Docs(Of(coll, ws))[i].name == name
  {
    if Is(coll[0], ws, name) {
      assert Docs(Of(coll, ws))[0].name == name;
    } else {
      FoundIsListed(coll[1..], ws, name);
      var rest := Docs(Of(coll[1..], ws));
      var i :| 0 <= i < |rest| && rest[i].name == name;
      if coll[0].workspaceId == ws {
        DocsFront(coll[0], Of(coll[1..], ws));
        assert Docs(Of(coll, ws))[i + 1] == rest[i];
      } else {
        assert Docs(Of(coll, ws))[i] == rest[i];
      }
    }
  }

  lemma DocsFront(e: Entity, es: seq<Entity>)
    ensures Docs([e] + es) == [ToDoc(e)] + Docs(es)
  {
    assert ([e] + es)[1..] == es;
  }

  lemma {:induction false} DocsPush(coll: seq<Entity>, e: Entity)
    ensures Docs(Of(coll + [e], e.workspaceId)) == Docs(Of(coll, e.workspaceId)) + [ToDoc(e)]
  {
    if coll == [] {
      assert coll + [e] == [e] && [e][1..] == [];
      DocsFront(e, []);
    } else {
      DocsPush(coll[1..], e);
      assert (coll + [e])[1..] == coll[1..] + [e];
      if coll[0].workspaceId == e.workspaceId {
        DocsFront(coll[0], Of(coll[1..], e.workspaceId));
        DocsFront(coll[0], Of(coll[1..] + [e], e.workspaceId));
      }
    }
  }

  ghost predicate NoNameTwice(des: seq<DocEntity>) {
    forall i, j :: 0 <= i < j < |des| ==> des[i].name != des[j].name
  }

  /** A workspace without entities gets the document's, in order. */
  lemma {:induction false} NewEntities(coll: seq<Entity>, nextId: nat, ws: nat, des: seq<DocEntity>)
    requires Of(coll, ws) == [] && NoNameTwice(des)
    ensures Docs(Of(UpsertAll(coll, nextId, ws, des).0, ws)) == des
  {
    if des != [] {
      var init, d := des[..|des| - 1], des[|des| - 1];
      NewEntities(coll, nextId, ws, init);
      var r := UpsertAll(coll, nextId, ws, init);
      if Find(r.0, ws, d.name).Some? {
        FoundIsListed(r.0, ws, d.name);
        assert false;
      }
      DocsPush(r.0, Entity(r.1, ws, d.name, d.config));
      assert des == init + [d];
    }
  }

  lemma NewKind(s: Stores, ws: nat, kind: Kind, des: seq<DocEntity>)
    requires Of(Coll(s, kind), ws) == [] && NoNameTwice(des)
    ensures Docs(Of(Coll(ReconcileKind(s, ws, kind, des), kind), ws)) == des
    ensures forall k: Kind :: k != kind ==> Coll(ReconcileKind(s, ws, kind, des), k) == Coll(s, k)
  {
    NothingToPrune(Coll(s, kind), ws, Names(des));
    NewEntities(Coll(s, kind), s.nextId, ws, des);
  }

  /** The first `n` collections are filled, the others still empty. */
  ghost predicate Filled(s: Stores, ws: nat, d: DocWorkspace, n: nat)
    requires n <= |KINDS|
  {
    forall i :: 0 <= i < |KINDS| ==>
      Docs(Of(Coll(s, KINDS[i]), ws)) == if i < n then Desired(d, KINDS[i]) else []
  }

  lemma DocsEmpty(es: seq<Entity>)
    requires Docs(es) == []
    ensures es == []
  {
  }

  lemma {:induction false} NewKinds(s: Stores, ws: nat, d: DocWorkspace, n: nat)
    requires n <= |KINDS| && (forall k: Kind :: Of(Coll(s, k), ws) == [] && NoNameTwice(Desired(d, k)))
    ensures Filled(ReconcileKinds(s, ws, d, n), ws, d, n)
  {
    if n > 0 {
      NewKinds(s, ws, d, n - 1);
      KindsComplete();
      var m := ReconcileKinds(s, ws, d, n - 1);
      assert Docs(Of(Coll(m, KINDS[n - 1]), ws)) == [];
      DocsEmpty(Of(Coll(m, KINDS[n - 1]), ws));
      NewKind(m, ws, KINDS[n - 1], Desired(d, KINDS[n - 1]));
      forall i | 0 <= i < |KINDS|
        ensures Docs(Of(Coll(ReconcileKinds(s, ws, d, n), KINDS[i]), ws)) == if i < n then Desired(d, KINDS[i]) else []
      {
        assert Docs(Of(Coll(m, KINDS[i]), ws)) == if i < n - 1 then Desired(d, KINDS[i]) else [];
        assert i != n - 1 ==> KINDS[i] != KINDS[n - 1];
      }
    }
  }

  // --------------------------------------------------------------------- a new workspace

  /** What an apply to an empty workspace carries over whole. */
  ghost predicate Tidy(d: DocWorkspace) {
    && DistinctKinds(d.providers) && NoCredentials(d.providers) && d.virtualKeys == []
    && forall k: Kind :: NoNameTwice(Desired(d, k))
  }

  lemma FilledShows(s: Stores, ws: nat, d: DocWorkspace, k: Kind)
    requires Filled(s, ws, d, |KINDS|)
    ensures Docs(Of(Coll(s, k), ws)) == Desired(d, k)
  {
    KindsComplete();
    assert k in KINDS;
    var i :| 0 <= i < |KINDS| && KINDS[i] == k;
  }

  /** A workspace that is not there yet is added last and shows the document's. */
  lemma NewWorkspaceShows(s: Stores, orgId: nat, d: DocWorkspace)
    requires FindWs(s.workspaces, orgId, d.name).None? && Vacant(s, s.nextId) && Tidy(d)
    ensures var s', w := ReconcileWs(s, orgId, d), Workspace(s.nextId, orgId, d.name);
            && s'.workspaces == s.workspaces + [w] && s'.orgs == s.orgs && s'.nextId > s.nextId
            && ShowsWs(s', w, d)
  {
    var r := EnsureWs(s, orgId, d.name);
    var id := r.1.id;
    assert forall k: Kind :: Coll(r.0, k) == Coll(s, k);
    ProvidersEffect(r.0, id, d.providers);
    NewProviders(r.0, id, d.providers);
    var p := EnsureProviders(r.0, id, d.providers);
    assert forall k: Kind :: Coll(p, k) == Coll(s, k);
    KindsFrame(p, id, d, |KINDS|);
    KindsIds(p, id, d, |KINDS|);
    NewKinds(p, id, d, |KINDS|);
    forall k: Kind ensures Docs(Of(Coll(ReconcileWs(s, orgId, d), k), id)) == Desired(d, k) {
      FilledShows(ReconcileWs(s, orgId, d), id, d, k);
    }
  }

  lemma {:induction false} OrgWorkspacesPush(wss: seq<Workspace>, w: Workspace, orgId: nat)
    ensures OrgWorkspaces(wss + [w], orgId)
         == if w.orgId == orgId then OrgWorkspaces(wss, orgId) + [w] else OrgWorkspaces(wss, orgId)
  {
    if wss == [] {
      assert wss + [w] == [w] && [w][1..] == [];
    } else {
      OrgWorkspacesPush(wss[1..], w, orgId);
      assert (wss + [w])[1..] == wss[1..] + [w];
    }
  }

  /** And it takes nothing from anyone else. */
  lemma NewWorkspaceFrame(s: Stores, orgId: nat, d: DocWorkspace)
    requires FindWs(s.workspaces, orgId, d.name).None? && AllVacant(s) && orgId < s.nextId && Tidy(d)
    ensures var s' := ReconcileWs(s, orgId, d);
            AllVacant(s') && forall x: nat :: x != s.nextId ==> SameFor(s, s', x)
  {
    var s', w := ReconcileWs(s, orgId, d), Workspace(s.nextId, orgId, d.name);
    assert Vacant(s, s.nextId);
    NewWorkspaceShows(s, orgId, d);
    forall x: nat | x != s.nextId ensures SameFor(s, s', x) {
      WorkspaceLeaves(s, orgId, d, x);
      UntouchedIsSame(s, s', x);
    }
    forall x: nat | x >= s'.nextId ensures Vacant(s', x) {
      assert Vacant(s, x) && SameFor(s, s', x);
      OrgWorkspacesPush(s.workspaces, w, x);
    }
  }

  // ------------------------------------------------------------------------------ a new org

  lemma {:induction false} NotAmongOrgs(wss: seq<Workspace>, orgId: nat, name: string)
    requires forall i :: 0 <= i < |OrgWorkspaces(wss, orgId)| ==> OrgWorkspaces(wss, orgId)[i].name != name
    ensures FindWs(wss, orgId, name).None?
  {
    if FindWs(wss, orgId, name).Some? {
      OrgWorkspacesHas(wss, orgId, FindWs(wss, orgId, name).value);
      assert false;
    }
  }

  ghost predicate TidyWss(dWss: seq<DocWorkspace>) {
    && (forall i :: 0 <= i < |dWss| ==> Tidy(dWss[i]))
    && (forall i, j :: 0 <= i < j < |dWss| ==> dWss[i].name != dWss[j].name)
  }

  /** What applying an org's workspaces to a store without any of them leaves alone. */
  ghost predicate OnlyOrg(s: Stores, s': Stores, orgId: nat) {
    && s'.orgs == s.orgs && s'.nextId >= s.nextId && AllVacant(s')
    && (forall x: nat :: x < s.nextId ==> SameFor(s, s', x))
    && (forall x: nat :: x != orgId ==> OrgWorkspaces(s'.workspaces, x) == OrgWorkspaces(s.workspaces, x))
    && (forall i :: 0 <= i < |OrgWorkspaces(s'.workspaces, orgId)| ==>
          s.nextId <= OrgWorkspaces(s'.workspaces, orgId)[i].id < s'.nextId)
  }

  lemma SameShows(s: Stores, s': Stores, w: Workspace, d: DocWorkspace)
    requires ShowsWs(s, w, d) && SameFor(s, s', w.id)
    ensures ShowsWs(s', w, d)
  {
  }

  lemma NewNameInOrg(m: Stores, orgId: nat, init: seq<DocWorkspace>, d: DocWorkspace)
    requires TidyWss(init + [d]) && ShowsWss(m, OrgWorkspaces(m.workspaces, orgId), init)
    ensures FindWs(m.workspaces, orgId, d.name).None? && Tidy(d)
  {
    var all, had := init + [d], OrgWorkspaces(m.workspaces, orgId);
    assert all[|init|] == d && Tidy(all[|init|]);
    forall i | 0 <= i < |had| ensures had[i].name != d.name {
      assert ShowsWs(m, had[i], init[i]) && all[i] == init[i];
    }
    NotAmongOrgs(m.workspaces, orgId, d.name);
  }

  /** What one more workspace of the org leaves alone. */
  lemma OnlyOrgStill(s: Stores, m: Stores, s': Stores, orgId: nat, w: Workspace)
    requires OnlyOrg(s, m, orgId) && w.orgId == orgId && w.id == m.nextId < s'.nextId && AllVacant(s')
    requires s'.workspaces == m.workspaces + [w] && s'.orgs == m.orgs
    requires forall x: nat :: x != m.nextId ==> SameFor(m, s', x)
    ensures OnlyOrg(s, s', orgId)
  {
    OrgWorkspacesPush(m.workspaces, w, orgId);
    forall x: nat | x != orgId ensures OrgWorkspaces(s'.workspaces, x) == OrgWorkspaces(s.workspaces, x) {
      OrgWorkspacesPush(m.workspaces, w, x);
    }
    forall x: nat | x < s.nextId ensures SameFor(s, s', x) {
      assert SameFor(s, m, x) && SameFor(m, s', x);
    }
  }

  lemma ShowsPush(m: Stores, s': Stores, had: seq<Workspace>, init: seq<DocWorkspace>, w: Workspace, d: DocWorkspace)
    requires ShowsWss(m, had, init) && ShowsWs(s', w, d)
    requires forall i :: 0 <= i < |had| ==> SameFor(m, s', had[i].id)
    ensures ShowsWss(s', had + [w], init + [d])
  {
    forall i | 0 <= i < |had| + 1 ensures ShowsWs(s', (had + [w])[i], (init + [d])[i]) {
      if i < |had| {
        SameShows(m, s', had[i], init[i]);
      }
    }
  }

  /** One workspace more. */
  lemma NewWorkspaceInOrg(s: Stores, m: Stores, orgId: nat, init: seq<DocWorkspace>, d: DocWorkspace)
    requires orgId < s.nextId && OnlyOrg(s, m, orgId) && TidyWss(init + [d])
    requires ShowsWss(m, OrgWorkspaces(m.workspaces, orgId), init)
    ensures var s' := ReconcileWs(m, orgId, d);
            OnlyOrg(s, s', orgId) && ShowsWss(s', OrgWorkspaces(s'.workspaces, orgId), init + [d])
  {
    var s', w := ReconcileWs(m, orgId, d), Workspace(m.nextId, orgId, d.name);
    NewNameInOrg(m, orgId, init, d);
    assert Vacant(m, m.nextId);
    NewWorkspaceShows(m, orgId, d);
    NewWorkspaceFrame(m, orgId, d);
    OnlyOrgStill(s, m, s', orgId, w);
    OrgWorkspacesPush(m.workspaces, w, orgId);
    ShowsPush(m, s', OrgWorkspaces(m.workspaces, orgId), init, w, d);
  }

  lemma {:induction false} NewWorkspaces(s: Stores, orgId: nat, dWss: seq<DocWorkspace>)
    requires orgId < s.nextId && AllVacant(s) && OrgWorkspaces(s.workspaces, orgId) == [] && TidyWss(dWss)
    ensures var s' := ReconcileWss(s, orgId, dWss);
            OnlyOrg(s, s', orgId) && ShowsWss(s', OrgWorkspaces(s'.workspaces, orgId), dWss)
  {
    if dWss != [] {
      var init, d := dWss[..|dWss| - 1], dWss[|dWss| - 1];
      NewWorkspaces(s, orgId, init);
      assert init + [d] == dWss;
      NewWorkspaceInOrg(s, ReconcileWss(s, orgId, init), orgId, init, d);
      ReconcileWssPush(s, orgId, init, d);
    }
  }

  lemma ReconcileWssPush(s: Stores, orgId: nat, init: seq<DocWorkspace>, d: DocWorkspace)
    ensures ReconcileWss(s, orgId, init + [d]) == ReconcileWs(ReconcileWss(s, orgId, init), orgId, d)
  {
    assert (init + [d])[..|init|] == init;
  }

  // ------------------------------------------------------------------------ whole documents

  ghost predicate TidyDoc(dOrgs: seq<DocOrg>) {
    && (forall i :: 0 <= i < |dOrgs| ==> TidyWss(dOrgs[i].workspaces))
    && (forall i, j :: 0 <= i < j < |dOrgs| ==> dOrgs[i].name != dOrgs[j].name)
  }

  /** The ids in use are below the next one. */
  ghost predicate OldIds(s: Stores) {
    && (forall i :: 0 <= i < |s.orgs| ==> s.orgs[i].id < s.nextId)
    && (forall i, x: nat :: 0 <= i < |OrgWorkspaces(s.workspaces, x)| ==>
          OrgWorkspaces(s.workspaces, x)[i].id < s.nextId)
  }

  ghost predicate Rebuilt(s: Stores, dOrgs: seq<DocOrg>) {
    Shows(s, dOrgs) && AllVacant(s) && OldIds(s)
  }

  lemma {:induction false} NotAmongNames(orgs: seq<Org>, name: string)
    requires forall i :: 0 <= i < |orgs| ==> orgs[i].name != name
    ensures FindOrg(orgs, name).None?
  {
    if orgs != [] {
      NotAmongNames(orgs[1..], name);
    }
  }

  /** A new org, still without workspaces. */
  lemma NewOrg(m: Stores, dOrgs: seq<DocOrg>, name: string)
    requires Rebuilt(m, dOrgs) && forall i :: 0 <= i < |dOrgs| ==> dOrgs[i].name != name
    ensures var r := EnsureOrg(m, name);
            && r.1 == Org(m.nextId, name) && r.0 == m.(nextId := m.nextId + 1, orgs := m.orgs + [r.1])
            && AllVacant(r.0) && OrgWorkspaces(r.0.workspaces, m.nextId) == []
  {
    forall i | 0 <= i < |m.orgs| ensures m.orgs[i].name != name {
      assert ShowsOrg(m, m.orgs[i], dOrgs[i]);
    }
    NotAmongNames(m.orgs, name);
    var s := EnsureOrg(m, name).0;
    assert Vacant(m, m.nextId);
    forall x: nat | x >= s.nextId ensures Vacant(s, x) {
      assert Vacant(m, x);
      assert forall k: Kind :: Coll(s, k) == Coll(m, k);
    }
  }

  /** Orgs that were there show what they showed. */
  lemma OldOrgShows(m: Stores, s: Stores, s': Stores, orgId: nat, o: Org, d: DocOrg)
    requires OldIds(m) && ShowsOrg(m, o, d) && o.id != orgId && s == m.(nextId := s.nextId, orgs := s.orgs)
    requires OnlyOrg(s, s', orgId) && m.nextId <= s.nextId
    ensures ShowsOrg(s', o, d)
  {
    var wss := OrgWorkspaces(m.workspaces, o.id);
    assert OrgWorkspaces(s'.workspaces, o.id) == wss;
    forall i | 0 <= i < |wss| ensures ShowsWs(s', wss[i], d.workspaces[i]) {
      assert ShowsWs(m, wss[i], d.workspaces[i]) && wss[i].id < m.nextId;
      assert forall k: Kind :: Coll(s, k) == Coll(m, k);
      assert ShowsWs(s, wss[i], d.workspaces[i]);
      SameShows(s, s', wss[i], d.workspaces[i]);
    }
  }

  lemma NewOrgName(init: seq<DocOrg>, d: DocOrg)
    requires TidyDoc(init + [d])
    ensures TidyWss(d.workspaces) && forall i :: 0 <= i < |init| ==> init[i].name != d.name
  {
    var all := init + [d];
    assert all[|init|] == d && TidyWss(all[|init|].workspaces);
    forall i | 0 <= i < |init| ensures init[i].name != d.name {
      assert all[i] == init[i];
    }
  }

  lemma OldIdsStill(m: Stores, s: Stores, s': Stores, o: Org)
    requires OldIds(m) && s == m.(nextId := m.nextId + 1, orgs := m.orgs + [o]) && o.id == m.nextId
    requires OnlyOrg(s, s', o.id)
    ensures OldIds(s')
  {
    forall i, x: nat | 0 <= i < |OrgWorkspaces(s'.workspaces, x)|
      ensures OrgWorkspaces(s'.workspaces, x)[i].id < s'.nextId
    {
      if x != o.id {
        assert OrgWorkspaces(s'.workspaces, x) == OrgWorkspaces(m.workspaces, x);
      }
    }
  }

  /** One org more. */
  lemma RebuildOrg(m: Stores, init: seq<DocOrg>, d: DocOrg)
    requires Rebuilt(m, init) && TidyDoc(init + [d])
    ensures var r := EnsureOrg(m, d.name);
            Rebuilt(ReconcileWss(r.0, r.1.id, d.workspaces), init + [d])
  {
    NewOrgName(init, d);
    NewOrg(m, init, d.name);
    var r := EnsureOrg(m, d.name);
    var s, o, all := r.0, r.1, init + [d];
    NewWorkspaces(s, o.id, d.workspaces);
    var s' := ReconcileWss(s, o.id, d.workspaces);
    forall i | 0 <= i < |all| ensures ShowsOrg(s', s'.orgs[i], all[i]) {
      if i < |init| {
        OldOrgShows(m, s, s', o.id, m.orgs[i], init[i]);
      }
    }
    OldIdsStill(m, s, s', o);
  }

  lemma EmptyIsRebuilt()
    ensures Rebuilt(EMPTY, [])
  {
    assert forall k: Kind :: Coll(EMPTY, k) == [];
  }

  lemma TidyFront(init: seq<DocOrg>, d: DocOrg)
    requires TidyDoc(init + [d])
    ensures TidyDoc(init)
  {
    var all := init + [d];
    assert forall i :: 0 <= i < |init| ==> all[i] == init[i];
  }

  lemma ReconcilePush(s: Stores, init: seq<DocOrg>, d: DocOrg)
    ensures var r := EnsureOrg(Reconcile(s, init), d.name);
            Reconcile(s, init + [d]) == ReconcileWss(r.0, r.1.id, d.workspaces)
  {
    assert (init + [d])[..|init|] == init;
  }

  /** An empty store shows, after an apply, exactly the document. */
  lemma {:induction false} EmptyStoreShows(dOrgs: seq<DocOrg>)
    requires TidyDoc(dOrgs)
    ensures Rebuilt(Reconcile(EMPTY, dOrgs), dOrgs)
  {
    if dOrgs == [] {
      EmptyIsRebuilt();
    } else {
      var init, d := dOrgs[..|dOrgs| - 1], dOrgs[|dOrgs| - 1];
      assert init + [d] == dOrgs;
      TidyFront(init, d);
      EmptyStoreShows(init);
      RebuildOrg(Reconcile(EMPTY, init), init, d);
      ReconcilePush(EMPTY, init, d);
    }
  }

  // ----------------------------------------------------------------------------- sorting

  ghost predicate Total(le: Compare) {
    forall a, b :: le(a, b) || le(b, a)
  }

  ghost predicate Sorted<T>(xs: seq<T>, key: T -> string, le: Compare) {
    |xs| <= 1 || (le(key(xs[0]), key(xs[1])) && Sorted(xs[1..], key, le))
  }

  lemma {:induction false} SortedStays<T>(xs: seq<T>, key: T -> string, le: Compare)
    requires Sorted(xs, key, le)
    ensures SortBy(xs, key, le) == xs
  {
    if xs != [] {
      SortedStays(xs[1..], key, le);
      assert xs == [xs[0]] + xs[1..];
    }
  }

  lemma {:induction false} InsertSorts<T>(x: T, sorted: seq<T>, key: T -> string, le: Compare)
    requires Total(le) && Sorted(sorted, key, le)
    ensures Sorted(Insert(x, sorted, key, le), key, le)
  {
    if sorted == [] {
    } else if le(key(x), key(sorted[0])) {
      assert ([x] + sorted)[1..] == sorted;
    } else {
      InsertSorts(x, sorted[1..], key, le);
      var rest := Insert(x, sorted[1..], key, le);
      assert ([sorted[0]] + rest)[1..] == rest;
    }
  }

  lemma {:induction false} SortSorts<T>(xs: seq<T>, key: T -> string, le: Compare)
    requires Total(le)
    ensures Sorted(SortBy(xs, key, le), key, le)
  {
    if xs != [] {
      SortSorts(xs[1..], key, le);
      InsertSorts(xs[0], SortBy(xs[1..], key, le), key, le);
    }
  }

  /** Sorted is a matter of the keys. */
  lemma {:induction false} SortedLike<T, U>(xs: seq<T>, key: T -> string, ys: seq<U>, key': U -> string, le: Compare)
    requires |xs| == |ys| && (forall i :: 0 <= i < |xs| ==> key(xs[i]) == key'(ys[i])) && Sorted(xs, key, le)
    ensures Sorted(ys, key', le)
  {
    if |xs| > 1 {
      SortedLike(xs[1..], key, ys[1..], key', le);
    }
  }

  function NameOf(d: DocEntity): string { d.name }

  lemma {:induction false} InsertDocIs(d: DocEntity, des: seq<DocEntity>, le: Compare)
    ensures InsertDoc(d, des, le) == Insert(d, des, NameOf, le)
  {
    if des != [] {
      InsertDocIs(d, des[1..], le);
    }
  }

  lemma {:induction false} ExportEntitiesIs(es: seq<Entity>, le: Compare)
    ensures ExportEntities(es, le) == SortBy(Docs(es), NameOf, le)
  {
    if es != [] {
      ExportEntitiesIs(es[1..], le);
      InsertDocIs(ToDoc(es[0]), ExportEntities(es[1..], le), le);
      assert Docs(es)[0] == ToDoc(es[0]) && Docs(es)[1..] == Docs(es[1..]);
    }
  }

  // ------------------------------------------------------------------ exporting what is shown

  /** The form an export has: sorted at every level, the optional collection only if it holds
      something. */
  ghost predicate ExportedWs(d: DocWorkspace, le: Compare) {
    && Sorted(d.providers, KindOf, le)
    && (forall k: Kind :: Sorted(Desired(d, k), NameOf, le))
    && (forall k: Kind :: k in d.collections <==> k != SmartRoutingPolicy || Desired(d, k) != [])
  }

  ghost predicate ExportedOrg(d: DocOrg, le: Compare) {
    && Sorted(d.workspaces, (w: DocWorkspace) => w.name, le)
    && forall i :: 0 <= i < |d.workspaces| ==> ExportedWs(d.workspaces[i], le)
  }

  ghost predicate Exported(dOrgs: seq<DocOrg>, le: Compare) {
    && Sorted(dOrgs, (d: DocOrg) => d.name, le)
    && forall i :: 0 <= i < |dOrgs| ==> ExportedOrg(dOrgs[i], le)
  }

  /** No credentials and no virtual keys. */
  ghost predicate Bare(s: Stores) {
    s.credentials == map[] && s.keys == []
  }

  lemma ShownEntities(s: Stores, w: Workspace, d: DocWorkspace, le: Compare, k: Kind)
    requires ShowsWs(s, w, d) && ExportedWs(d, le)
    ensures ExportEntities(Of(Coll(s, k), w.id), le) == Desired(d, k)
    ensures Emitted(s, w.id, k) <==> k in d.collections
  {
    ExportEntitiesIs(Of(Coll(s, k), w.id), le);
    SortedStays(Desired(d, k), NameOf, le);
  }

  lemma ShownWs(s: Stores, w: Workspace, d: DocWorkspace, le: Compare)
    requires Bare(s) && ShowsWs(s, w, d) && ExportedWs(d, le)
    ensures ExportWs(s, w, le) == d
  {
    var key := (p: DocProvider) => p.kind;
    SortedLike(d.providers, KindOf, d.providers, key, le);
    SortedStays(d.providers, key, le);
    KindsComplete();
    var e := ExportWs(s, w, le);
    forall k: Kind
      ensures k in e.collections <==> k in d.collections
      ensures k in d.collections ==> e.collections[k] == d.collections[k]
    {
      ShownEntities(s, w, d, le, k);
    }
    assert e.collections == d.collections;
  }

  lemma ShownOrg(s: Stores, o: Org, d: DocOrg, le: Compare)
    requires Bare(s) && ShowsOrg(s, o, d) && ExportedOrg(d, le)
    ensures ExportOrg(s, o, le) == d
  {
    var wss := OrgWorkspaces(s.workspaces, o.id);
    var key := (w: Workspace) => w.name;
    SortedLike(d.workspaces, (w: DocWorkspace) => w.name, wss, key, le);
    SortedStays(wss, key, le);
    forall i | 0 <= i < |wss| ensures ExportWs(s, wss[i], le) == d.workspaces[i] {
      ShownWs(s, wss[i], d.workspaces[i], le);
    }
    assert ExportOrg(s, o, le).workspaces == d.workspaces;
  }

  lemma {:induction false} AllSelected(orgs: seq<Org>)
    ensures Selected(orgs, None) == orgs
  {
    if orgs != [] {
      AllSelected(orgs[1..]);
      assert orgs == [orgs[0]] + orgs[1..];
    }
  }

  /** A store that shows an exported document exports it. */
  lemma ShownIsExported(s: Stores, dOrgs: seq<DocOrg>, le: Compare)
    requires Bare(s) && Shows(s, dOrgs) && Exported(dOrgs, le)
    ensures Export(s, None, le) == dOrgs
  {
    AllSelected(s.orgs);
    var key := (o: Org) => o.name;
    forall i | 0 <= i < |dOrgs| ensures s.orgs[i].name == dOrgs[i].name && ExportOrg(s, s.orgs[i], le) == dOrgs[i] {
      ShownOrg(s, s.orgs[i], dOrgs[i], le);
    }
    SortedLike(dOrgs, (d: DocOrg) => d.name, s.orgs, key, le);
    SortedStays(s.orgs, key, le);
  }

  // ---------------------------------------------------------- what an apply carries over

  predicate HasKind(dps: seq<DocProvider>, kind: string) {
    exists i :: 0 <= i < |dps| && dps[i].kind == kind
  }

  /** The first provider of each kind, without credentials. */
  function CarriedProviders(dps: seq<DocProvider>): seq<DocProvider> {
    if dps == [] then []
    else
      var rest, dp := CarriedProviders(dps[..|dps| - 1]), dps[|dps| - 1];
      if HasKind(rest, dp.kind) then rest else rest + [dp.(credential := None)]
  }

  function CarriedWs(d: DocWorkspace): DocWorkspace {
    d.(providers := CarriedProviders(d.providers), virtualKeys := [])
  }

  function CarriedWss(dWss: seq<DocWorkspace>): seq<DocWorkspace> {
    seq(|dWss|, i requires 0 <= i < |dWss| => CarriedWs(dWss[i]))
  }

  function CarriedOrg(d: DocOrg): DocOrg {
    d.(workspaces := CarriedWss(d.workspaces))
  }

  /** What is left of a document that went through an empty store. */
  function Carried(dOrgs: seq<DocOrg>): seq<DocOrg> {
    seq(|dOrgs|, i requires 0 <= i < |dOrgs| => CarriedOrg(dOrgs[i]))
  }

  lemma HasKindPush(dps: seq<DocProvider>, dp: DocProvider, kind: string)
    ensures HasKind(dps + [dp], kind) <==> HasKind(dps, kind) || dp.kind == kind
  {
    var all := dps + [dp];
    assert all[|dps|] == dp;
    if HasKind(dps, kind) {
      var i :| 0 <= i < |dps| && dps[i].kind == kind;
      assert all[i].kind == kind;
    }
  }

  lemma {:induction false} CarriedKinds(dps: seq<DocProvider>, kind: string)
    ensures HasKind(CarriedProviders(dps), kind) <==> HasKind(dps, kind)
  {
    if dps != [] {
      var init, dp := dps[..|dps| - 1], dps[|dps| - 1];
      CarriedKinds(init, kind);
      assert dps == init + [dp];
      HasKindPush(init, dp, kind);
      HasKindPush(CarriedProviders(init), dp.(credential := None), kind);
    }
  }

  lemma {:induction false} CarriedIsTidy(dps: seq<DocProvider>)
    ensures DistinctKinds(CarriedProviders(dps)) && NoCredentials(CarriedProviders(dps))
  {
    if dps != [] {
      CarriedIsTidy(dps[..|dps| - 1]);
    }
  }

  /** Providers are carried over whole exactly when no kind repeats and none has a
      credential. */
  lemma {:induction false} CarriedIsSame(dps: seq<DocProvider>)
    ensures CarriedProviders(dps) == dps <==> DistinctKinds(dps) && NoCredentials(dps)
  {
    CarriedIsTidy(dps);
    if dps != [] && DistinctKinds(dps) && NoCredentials(dps) {
      var init, dp := dps[..|dps| - 1], dps[|dps| - 1];
      CarriedIsSame(init);
      assert dps == init + [dp];
      assert !HasKind(init, dp.kind);
    }
  }

  // An apply does not look at the rest.

  lemma {:induction false} EnsureCarried(s: Stores, ws: nat, dps: seq<DocProvider>)
    ensures EnsureProviders(s, ws, CarriedProviders(dps)) == EnsureProviders(s, ws, dps)
  {
    if dps != [] {
      var init, dp := dps[..|dps| - 1], dps[|dps| - 1];
      EnsureCarried(s, ws, init);
      CarriedKinds(init, dp.kind);
      var rest := CarriedProviders(init);
      if HasKind(rest, dp.kind) {
        ProvidersEffect(s, ws, init);
      } else {
        assert (rest + [dp.(credential := None)])[..|rest|] == rest;
      }
    }
  }

  lemma {:induction false} KindsAlike(s: Stores, ws: nat, d: DocWorkspace, d': DocWorkspace, n: nat)
    requires n <= |KINDS| && d.collections == d'.collections
    ensures ReconcileKinds(s, ws, d, n) == ReconcileKinds(s, ws, d', n)
  {
    if n > 0 {
      KindsAlike(s, ws, d, d', n - 1);
    }
  }

  lemma WorkspaceCarried(s: Stores, orgId: nat, d: DocWorkspace)
    ensures ReconcileWs(s, orgId, CarriedWs(d)) == ReconcileWs(s, orgId, d)
  {
    var r := EnsureWs(s, orgId, d.name);
    EnsureCarried(r.0, r.1.id, d.providers);
    KindsAlike(EnsureProviders(r.0, r.1.id, d.providers), r.1.id, d, CarriedWs(d), |KINDS|);
  }

  lemma {:induction false} WorkspacesCarried(s: Stores, orgId: nat, dWss: seq<DocWorkspace>)
    ensures ReconcileWss(s, orgId, CarriedWss(dWss)) == ReconcileWss(s, orgId, dWss)
  {
    if dWss != [] {
      var init, d := dWss[..|dWss| - 1], dWss[|dWss| - 1];
      WorkspacesCarried(s, orgId, init);
      WorkspaceCarried(ReconcileWss(s, orgId, init), orgId, d);
      CarriedWssLast(dWss);
    }
  }

  lemma CarriedWssLast(dWss: seq<DocWorkspace>)
    requires dWss != []
    ensures |CarriedWss(dWss)| == |dWss| && CarriedWss(dWss)[|dWss| - 1] == CarriedWs(dWss[|dWss| - 1])
    ensures CarriedWss(dWss)[..|dWss| - 1] == CarriedWss(dWss[..|dWss| - 1])
  {
  }

  /** Applying what is carried over is applying the document, to any store. */
  lemma {:induction false} ReconcileCarried(s: Stores, dOrgs: seq<DocOrg>)
    ensures Reconcile(s, Carried(dOrgs)) == Reconcile(s, dOrgs)
  {
    if dOrgs != [] {
      var init, d := dOrgs[..|dOrgs| - 1], dOrgs[|dOrgs| - 1];
      ReconcileCarried(s, init);
      var r := EnsureOrg(Reconcile(s, init), d.name);
      WorkspacesCarried(r.0, r.1.id, d.workspaces);
      CarriedLast(dOrgs);
    }
  }

  lemma CarriedLast(dOrgs: seq<DocOrg>)
    requires dOrgs != []
    ensures |Carried(dOrgs)| == |dOrgs| && Carried(dOrgs)[|dOrgs| - 1] == CarriedOrg(dOrgs[|dOrgs| - 1])
    ensures Carried(dOrgs)[..|dOrgs| - 1] == Carried(dOrgs[..|dOrgs| - 1])
  {
  }

  // ------------------------------------------------------------------ its form stays sorted

  ghost predicate Transitive(le: Compare) {
    forall a, b, c :: le(a, b) && le(b, c) ==> le(a, c)
  }

  function KindOf(p: DocProvider): string { p.kind }

  lemma {:induction false} SortedPush<T>(xs: seq<T>, x: T, key: T -> string, le: Compare)
    requires Sorted(xs, key, le) && (xs != [] ==> le(key(xs[|xs| - 1]), key(x)))
    ensures Sorted(xs + [x], key, le)
  {
    if xs == [] {
      assert xs + [x] == [x];
    } else {
      SortedPush(xs[1..], x, key, le);
      assert (xs + [x])[1..] == xs[1..] + [x];
    }
  }

  lemma {:induction false} SortedLast<T>(xs: seq<T>, key: T -> string, le: Compare, i: nat)
    requires Transitive(le) && Sorted(xs, key, le) && i < |xs| - 1
    ensures le(key(xs[i]), key(xs[|xs| - 1]))
    decreases |xs|
  {
    if i > 0 {
      SortedLast(xs[1..], key, le, i - 1);
    } else if |xs| > 2 {
      SortedLast(xs[1..], key, le, 0);
    }
  }

  lemma {:induction false} SortedInit<T>(xs: seq<T>, key: T -> string, le: Compare)
    requires Sorted(xs, key, le) && xs != []
    ensures Sorted(xs[..|xs| - 1], key, le)
  {
    if |xs| > 2 {
      SortedInit(xs[1..], key, le);
      assert xs[..|xs| - 1][1..] == xs[1..][..|xs| - 2];
    }
  }

  lemma {:induction false} CarriedSorted(dps: seq<DocProvider>, le: Compare)
    requires Transitive(le) && Sorted(dps, KindOf, le)
    ensures Sorted(CarriedProviders(dps), KindOf, le)
  {
    if dps != [] {
      var init, dp := dps[..|dps| - 1], dps[|dps| - 1];
      SortedInit(dps, KindOf, le);
      CarriedSorted(init, le);
      var rest := CarriedProviders(init);
      if rest != [] {
        var last := rest[|rest| - 1].kind;
        assert HasKind(rest, last);
        CarriedKinds(init, last);
        var i :| 0 <= i < |init| && init[i].kind == last;
        SortedLast(dps, KindOf, le, i);
      }
      SortedPush(rest, dp.(credential := None), KindOf, le);
    }
  }

  /** No org, workspace or entity name repeats. */
  ghost predicate NamesOnceWs(d: DocWorkspace) {
    forall k: Kind :: NoNameTwice(Desired(d, k))
  }

  ghost predicate NamesOnceOrg(d: DocOrg) {
    && (forall i :: 0 <= i < |d.workspaces| ==> NamesOnceWs(d.workspaces[i]))
    && (forall i, j :: 0 <= i < j < |d.workspaces| ==> d.workspaces[i].name != d.workspaces[j].name)
  }

  ghost predicate NamesOnce(dOrgs: seq<DocOrg>) {
    && (forall i :: 0 <= i < |dOrgs| ==> NamesOnceOrg(dOrgs[i]))
    && (forall i, j :: 0 <= i < j < |dOrgs| ==> dOrgs[i].name != dOrgs[j].name)
  }

  lemma CarriedWsForm(d: DocWorkspace, le: Compare)
    requires Transitive(le) && NamesOnceWs(d) && ExportedWs(d, le)
    ensures Tidy(CarriedWs(d)) && ExportedWs(CarriedWs(d), le)
  {
    CarriedIsTidy(d.providers);
    CarriedSorted(d.providers, le);
    assert forall k: Kind :: Desired(CarriedWs(d), k) == Desired(d, k);
  }

  lemma CarriedOrgForm(d: DocOrg, le: Compare)
    requires Transitive(le) && NamesOnceOrg(d) && ExportedOrg(d, le)
    ensures TidyWss(CarriedOrg(d).workspaces) && ExportedOrg(CarriedOrg(d), le)
  {
    var wss := CarriedOrg(d).workspaces;
    forall i | 0 <= i < |wss| ensures Tidy(wss[i]) && ExportedWs(wss[i], le) && wss[i].name == d.workspaces[i].name {
      CarriedWsForm(d.workspaces[i], le);
    }
    var key := (w: DocWorkspace) => w.name;
    SortedLike(d.workspaces, key, wss, key, le);
  }

  lemma CarriedForm(dOrgs: seq<DocOrg>, le: Compare)
    requires Transitive(le) && NamesOnce(dOrgs) && Exported(dOrgs, le)
    ensures TidyDoc(Carried(dOrgs)) && Exported(Carried(dOrgs), le)
  {
    var c := Carried(dOrgs);
    forall i | 0 <= i < |c| ensures TidyWss(c[i].workspaces) && ExportedOrg(c[i], le) && c[i].name == dOrgs[i].name {
      CarriedOrgForm(dOrgs[i], le);
    }
    var key := (d: DocOrg) => d.name;
    SortedLike(dOrgs, key, c, key, le);
  }

  // ------------------------------------------------------------------------- main results

  lemma RebuiltIsBare(dOrgs: seq<DocOrg>)
    ensures Bare(Reconcile(EMPTY, dOrgs))
  {
    ReconcileGrows(EMPTY, dOrgs);
  }

  /** A document in the form of an export, with no name twice, comes out of an empty store as
      what an apply carries over of it. */
  lemma DocumentRoundTrip(dOrgs: seq<DocOrg>, le: Compare)
    requires NamesOnce(dOrgs) && Exported(dOrgs, le) && Transitive(le)
    ensures Export(Reconcile(EMPTY, dOrgs), None, le) == Carried(dOrgs)
  {
    ReconcileCarried(EMPTY, dOrgs);
    CarriedForm(dOrgs, le);
    EmptyStoreShows(Carried(dOrgs));
    RebuiltIsBare(dOrgs);
    ShownIsExported(Reconcile(EMPTY, dOrgs), Carried(dOrgs), le);
  }

  lemma {:induction false} InDesired(des: seq<DocEntity>, i: nat)
    requires i < |des|
    ensures des[i].name in DesiredView(des)
  {
    if i > 0 {
      InDesired(des[1..], i - 1);
    }
  }

  lemma {:induction false} DistinctIsNoNameTwice(des: seq<DocEntity>)
    requires DistinctNames(des)
    ensures NoNameTwice(des)
  {
    if des != [] {
      DistinctIsNoNameTwice(des[1..]);
      forall i, j | 0 <= i < j < |des| ensures des[i].name != des[j].name {
        InDesired(des[1..], j - 1);
        assert des[j] == des[1..][j - 1];
        assert i > 0 ==> des[i] == des[1..][i - 1];
      }
    }
  }

  lemma ExportedWsForm(s: Stores, w: Workspace, le: Compare)
    requires CleanColls(s) && Total(le)
    ensures NamesOnceWs(ExportWs(s, w, le)) && ExportedWs(ExportWs(s, w, le), le)
  {
    var d := ExportWs(s, w, le);
    var ps := WorkspaceProviders(s.providers, s.credentials, w.id);
    SortSorts(ps, (p: DocProvider) => p.kind, le);
    SortedLike(d.providers, (p: DocProvider) => p.kind, d.providers, KindOf, le);
    KindsComplete();
    forall k: Kind
      ensures NoNameTwice(Desired(d, k)) && Sorted(Desired(d, k), NameOf, le)
      ensures k in d.collections <==> k != SmartRoutingPolicy || Desired(d, k) != []
    {
      ExportedKind(s, w, le, k);
      DistinctIsNoNameTwice(Desired(d, k));
      DesiredOfExport(s, w, le, k);
      ExportEntitiesIs(Of(Coll(s, k), w.id), le);
      SortSorts(Docs(Of(Coll(s, k), w.id)), NameOf, le);
      EmptyExport(Of(Coll(s, k), w.id), le);
      assert k in KINDS;
    }
  }

  lemma EmptyExport(es: seq<Entity>, le: Compare)
    ensures ExportEntities(es, le) == [] <==> es == []
  {
    if es != [] {
      assert |InsertDoc(ToDoc(es[0]), ExportEntities(es[1..], le), le)| > 0;
    }
  }

  lemma ExportedOrgForm(s: Stores, o: Org, le: Compare)
    requires CleanColls(s) && UniqueTenants(s) && Total(le) && o in s.orgs
    ensures NamesOnceOrg(ExportOrg(s, o, le)) && ExportedOrg(ExportOrg(s, o, le), le)
  {
    ExportOrgGood(s, o, le);
    var d, key := ExportOrg(s, o, le), (w: Workspace) => w.name;
    var wss := SortBy(OrgWorkspaces(s.workspaces, o.id), key, le);
    SortSorts(OrgWorkspaces(s.workspaces, o.id), key, le);
    SortedLike(wss, key, d.workspaces, (w: DocWorkspace) => w.name, le);
    forall i | 0 <= i < |d.workspaces| ensures NamesOnceWs(d.workspaces[i]) && ExportedWs(d.workspaces[i], le) {
      assert d.workspaces[i] == ExportWs(s, wss[i], le);
      ExportedWsForm(s, wss[i], le);
    }
  }

  /** A store's export has the form of one. */
  lemma ExportForm(s: Stores, le: Compare)
    requires CleanColls(s) && UniqueTenants(s) && Total(le)
    ensures NamesOnce(Export(s, None, le)) && Exported(Export(s, None, le), le)
  {
    ExportGood(s, le);
    AllSelected(s.orgs);
    var doc, key := Export(s, None, le), (o: Org) => o.name;
    var orgs := SortBy(s.orgs, key, le);
    SortSorts(s.orgs, key, le);
    SortedLike(orgs, key, doc, (d: DocOrg) => d.name, le);
    forall i | 0 <= i < |doc| ensures NamesOnceOrg(doc[i]) && ExportedOrg(doc[i], le) {
      SortHas(s.orgs, key, le, orgs[i]);
      assert doc[i] == ExportOrg(s, orgs[i], le);
      ExportedOrgForm(s, orgs[i], le);
    }
  }

  /** A store rebuilt from an export exports what an apply carries over of it: everything but
      credentials, virtual keys and further providers of a kind. */
  lemma RebuiltExportIs(s: Stores, le: Compare)
    requires CleanColls(s) && UniqueTenants(s) && Total(le) && Transitive(le)
    ensures Export(Reconcile(EMPTY, Export(s, None, le)), None, le) == Carried(Export(s, None, le))
  {
    ExportForm(s, le);
    DocumentRoundTrip(Export(s, None, le), le);
  }

  /** Nothing in the workspace would be lost. */
  ghost predicate CarriesOver(d: DocWorkspace) {
    DistinctKinds(d.providers) && NoCredentials(d.providers) && d.virtualKeys == []
  }

  ghost predicate AllCarryOver(dOrgs: seq<DocOrg>) {
    forall i :: 0 <= i < |dOrgs| ==> forall j :: 0 <= j < |dOrgs[i].workspaces| ==> CarriesOver(dOrgs[i].workspaces[j])
  }

  lemma CarriedWsIsSame(d: DocWorkspace)
    ensures CarriedWs(d) == d <==> CarriesOver(d)
  {
    CarriedIsSame(d.providers);
  }

  lemma CarriedIsSameIff(dOrgs: seq<DocOrg>)
    ensures Carried(dOrgs) == dOrgs <==> AllCarryOver(dOrgs)
  {
    var c := Carried(dOrgs);
    forall i, j | 0 <= i < |dOrgs| && 0 <= j < |dOrgs[i].workspaces|
      ensures c[i].workspaces[j] == dOrgs[i].workspaces[j] <==> CarriesOver(dOrgs[i].workspaces[j])
    {
      CarriedWsIsSame(dOrgs[i].workspaces[j]);
    }
    if AllCarryOver(dOrgs) {
      forall i | 0 <= i < |dOrgs| ensures c[i] == dOrgs[i] {
        assert c[i].workspaces == dOrgs[i].workspaces;
      }
    }
  }

  /** So the two exports are the same exactly when no exported workspace has two providers of a
      kind, a provider with a credential, or a virtual key. */
  lemma RebuiltExportIsSameIff(s: Stores, le: Compare)
    requires CleanColls(s) && UniqueTenants(s) && Total(le) && Transitive(le)
    ensures Export(Reconcile(EMPTY, Export(s, None, le)), None, le) == Export(s, None, le)
       <==> AllCarryOver(Export(s, None, le))
  {
    RebuiltExportIs(s, le);
    CarriedIsSameIff(Export(s, None, le));
  }

  /** One org, one workspace, and in it one provider with these credentials and these keys. */
  function OneProviderStore(creds: Credentials, keys: seq<VirtualKey>): Stores {
    Stores(3, [Org(0, "acme")], [Workspace(1, 0, "prod")], [Provider(2, 1, "openai", None, true)], creds, keys,
           EMPTY.collections)
  }

  lemma OneProviderExport(creds: Credentials, keys: seq<VirtualKey>, le: Compare)
    ensures CleanColls(OneProviderStore(creds, keys)) && UniqueTenants(OneProviderStore(creds, keys))
    ensures var doc := Export(OneProviderStore(creds, keys), None, le);
            && |doc| == 1 && |doc[0].workspaces| == 1
            && doc[0].workspaces[0].providers == [ToDocProvider(Provider(2, 1, "openai", None, true), creds)]
            && doc[0].workspaces[0].virtualKeys == SortBy(WorkspaceKeys(keys, 1), (k: DocKey) => k.name, le)
  {
    var s, o, w, p := OneProviderStore(creds, keys), Org(0, "acme"), Workspace(1, 0, "prod"),
                      Provider(2, 1, "openai", None, true);
    assert forall k: Kind :: Coll(s, k) == [];
    assert [o][1..] == [] && [w][1..] == [] && [p][1..] == [];
    assert Selected([o], None) == [o] && SortBy([o], (x: Org) => x.name, le) == [o];
    assert OrgWorkspaces([w], 0) == [w] && SortBy([w], (x: Workspace) => x.name, le) == [w];
    var dp := ToDocProvider(p, creds);
    assert WorkspaceProviders([p], creds, 1) == [dp];
    assert [dp][1..] == [] && SortBy([dp], (x: DocProvider) => x.kind, le) == [dp];
  }

  /** One credential is enough to lose something. */
  lemma RebuildLosesCredential(secret: string, le: Compare)
    requires Total(le) && Transitive(le)
    ensures var s := OneProviderStore(map[2 := secret], []);
            Export(Reconcile(EMPTY, Export(s, None, le)), None, le) != Export(s, None, le)
  {
    var s := OneProviderStore(map[2 := secret], []);
    OneProviderExport(map[2 := secret], [], le);
    RebuiltExportIsSameIff(s, le);
    var d := Export(s, None, le)[0].workspaces[0];
    assert d.providers[0].credential == Some(secret);
    assert !CarriesOver(d);
  }

  /** And so is one virtual key. */
  lemma RebuildLosesKey(key: VirtualKey, le: Compare)
    requires Total(le) && Transitive(le) && key.workspaceId == 1
    ensures var s := OneProviderStore(map[], [key]);
            Export(Reconcile(EMPTY, Export(s, None, le)), None, le) != Export(s, None, le)
  {
    var s := OneProviderStore(map[], [key]);
    OneProviderExport(map[], [key], le);
    OneKey(key, le);
    RebuiltExportIsSameIff(s, le);
    assert !CarriesOver(Export(s, None, le)[0].workspaces[0]);
  }

  lemma OneKey(key: VirtualKey, le: Compare)
    ensures |SortBy(WorkspaceKeys([key], key.workspaceId), (k: DocKey) => k.name, le)| == 1
  {
    var ks := [DocKey(key.name, key.keyPrefix, key.disabled)];
    assert [key][1..] == [] && WorkspaceKeys([key], key.workspaceId) == ks;
    assert ks[1..] == [] && SortBy(ks, (k: DocKey) => k.name, le) == ks;
  }
}
