/**
 * Exporting the registries as a document, and how it meets the apply: applying a store's
 * own export changes nothing, and applying it to an empty store rebuilds the same config.
 *
 * Names are sorted by an arbitrary comparison (the control plane's depends on the locale).
 */
module ConfigExport {
  import opened Common
  import opened Json
  import opened ConfigCollections
  import opened ConfigStore

  type Compare = (string, string) -> bool

  // ----------------------------------------------------------------- sorting

  function Insert<T>(x: T, sorted: seq<T>, key: T -> string, le: Compare): seq<T> {
    if sorted == [] then [x]
    else if le(key(x), key(sorted[0])) then [x] + sorted
    else [sorted[0]] + Insert(x, sorted[1..], key, le)
  }

  function SortBy<T>(xs: seq<T>, key: T -> string, le: Compare): seq<T> {
    if xs == [] then [] else Insert(xs[0], SortBy(xs[1..], key, le), key, le)
  }

  lemma {:induction false} InsertHas<T>(x: T, sorted: seq<T>, key: T -> string, le: Compare, y: T)
    ensures y in Insert(x, sorted, key, le) <==> y == x || y in sorted
  {
    if sorted != [] && !le(key(x), key(sorted[0])) {
      InsertHas(x, sorted[1..], key, le, y);
      assert sorted == [sorted[0]] + sorted[1..];
    }
  }

  lemma {:induction false} SortHas<T>(xs: seq<T>, key: T -> string, le: Compare, y: T)
    ensures y in SortBy(xs, key, le) <==> y in xs
  {
    if xs != [] {
      SortHas(xs[1..], key, le, y);
      InsertHas(xs[0], SortBy(xs[1..], key, le), key, le, y);
      assert xs == [xs[0]] + xs[1..];
    }
  }

  /** No key twice. */
  ghost predicate Distinct<T>(xs: seq<T>, key: T -> string) {
    forall i, j :: 0 <= i < j < |xs| ==> key(xs[i]) != key(xs[j])
  }

  ghost predicate Lacks<T>(xs: seq<T>, key: T -> string, k: string) {
    forall i :: 0 <= i < |xs| ==> key(xs[i]) != k
  }

  lemma InsertLacks<T>(x: T, sorted: seq<T>, key: T -> string, le: Compare, k: string)
    requires Lacks(sorted, key, k) && key(x) != k
    ensures Lacks(Insert(x, sorted, key, le), key, k)
  {
    var r := Insert(x, sorted, key, le);
    forall i | 0 <= i < |r| ensures key(r[i]) != k {
      InsertHas(x, sorted, key, le, r[i]);
    }
  }

  lemma {:induction false} InsertDistinct<T>(x: T, sorted: seq<T>, key: T -> string, le: Compare)
    requires Distinct(sorted, key) && Lacks(sorted, key, key(x))
    ensures Distinct(Insert(x, sorted, key, le), key)
  {
    if sorted != [] && !le(key(x), key(sorted[0])) {
      InsertDistinct(x, sorted[1..], key, le);
      InsertLacks(x, sorted[1..], key, le, key(sorted[0]));
    }
  }

  lemma SortLacks<T>(xs: seq<T>, key: T -> string, le: Compare, k: string)
    requires Lacks(xs, key, k)
    ensures Lacks(SortBy(xs, key, le), key, k)
  {
    var r := SortBy(xs, key, le);
    forall i | 0 <= i < |r| ensures key(r[i]) != k {
      SortHas(xs, key, le, r[i]);
    }
  }

  lemma {:induction false} SortDistinct<T>(xs: seq<T>, key: T -> string, le: Compare)
    requires Distinct(xs, key)
    ensures Distinct(SortBy(xs, key, le), key)
  {
    if xs != [] {
      SortDistinct(xs[1..], key, le);
      SortLacks(xs[1..], key, le, key(xs[0]));
      InsertDistinct(xs[0], SortBy(xs[1..], key, le), key, le);
    }
  }

  // --------------------------------------------------------------- the export

  function ToDoc(e: Entity): DocEntity { DocEntity(e.name, e.config) }

  function InsertDoc(d: DocEntity, des: seq<DocEntity>, le: Compare): seq<DocEntity> {
    if des == [] then [d]
    else if le(d.name, des[0].name) then [d] + des
    else [des[0]] + InsertDoc(d, des[1..], le)
  }

  /** The entities of one workspace and collection, sorted by name. */
  function ExportEntities(es: seq<Entity>, le: Compare): seq<DocEntity> {
    if es == [] then [] else InsertDoc(ToDoc(es[0]), ExportEntities(es[1..], le), le)
  }

  /** The credentials, by provider id. */
  type Credentials = map<nat, string>

  function ToDocProvider(p: Provider, creds: Credentials): DocProvider {
    DocProvider(p.kind, p.baseUrl, p.enabled, if p.id in creds then Some(creds[p.id]) else None)
  }

  function WorkspaceProviders(ps: seq<Provider>, creds: Credentials, ws: nat): seq<DocProvider> {
    if ps == [] then []
    else if ps[0].workspaceId == ws then [ToDocProvider(ps[0], creds)] + WorkspaceProviders(ps[1..], creds, ws)
    else WorkspaceProviders(ps[1..], creds, ws)
  }

  function WorkspaceKeys(ks: seq<VirtualKey>, ws: nat): seq<DocKey> {
    if ks == [] then []
    else if ks[0].workspaceId == ws then
      [DocKey(ks[0].name, ks[0].keyPrefix, ks[0].disabled)] + WorkspaceKeys(ks[1..], ws)
    else WorkspaceKeys(ks[1..], ws)
  }

  /** The optional collection is left out when it is empty. */
  predicate Emitted(s: Stores, ws: nat, kind: Kind) {
    kind != SmartRoutingPolicy || Of(Coll(s, kind), ws) != []
  }

  function ExportWs(s: Stores, w: Workspace, le: Compare): DocWorkspace {
    DocWorkspace(
      w.name,
      SortBy(WorkspaceProviders(s.providers, s.credentials, w.id), (p: DocProvider) => p.kind, le),
      map k: Kind | k in KINDS && Emitted(s, w.id, k)
        :: ExportEntities(Of(Coll(s, k), w.id), le),
      SortBy(WorkspaceKeys(s.keys, w.id), (k: DocKey) => k.name, le))
  }

  function OrgWorkspaces(wss: seq<Workspace>, orgId: nat): seq<Workspace> {
    if wss == [] then []
    else if wss[0].orgId == orgId then [wss[0]] + OrgWorkspaces(wss[1..], orgId)
    else OrgWorkspaces(wss[1..], orgId)
  }

  function ExportOrg(s: Stores, o: Org, le: Compare): DocOrg {
    var wss := SortBy(OrgWorkspaces(s.workspaces, o.id), (w: Workspace) => w.name, le);
    DocOrg(o.name, seq(|wss|, i requires 0 <= i < |wss| => ExportWs(s, wss[i], le)))
  }

  function Selected(orgs: seq<Org>, ids: Option<set<nat>>): seq<Org> {
    if orgs == [] then []
    else if ids.None? || orgs[0].id in ids.value then [orgs[0]] + Selected(orgs[1..], ids)
    else Selected(orgs[1..], ids)
  }

  /** `exportDocument`; `None` selects every org. */
  function Export(s: Stores, ids: Option<set<nat>>, le: Compare): seq<DocOrg> {
    var orgs := SortBy(Selected(s.orgs, ids), (o: Org) => o.name, le);
    seq(|orgs|, i requires 0 <= i < |orgs| => ExportOrg(s, orgs[i], le))
  }

  // ------------------------------------------------- what an exported workspace says

  lemma DocFront(d: DocEntity, des: seq<DocEntity>)
    ensures DesiredView([d] + des) == Under(DesiredView(des), d.name, d.config)
    ensures DistinctNames([d] + des) <==> DistinctNames(des) && d.name !in DesiredView(des)
  {
    var all := [d] + des;
    assert all[1..] == des && all[0] == d;
  }

  /** Sorting a name in keeps the map. */
  lemma {:induction false} InsertDocView(d: DocEntity, des: seq<DocEntity>, le: Compare)
    requires DistinctNames(des) && d.name !in DesiredView(des)
    ensures DesiredView(InsertDoc(d, des, le)) == DesiredView(des)[d.name := d.config]
    ensures DistinctNames(InsertDoc(d, des, le))
  {
    if des == [] {
      DocFront(d, []);
      assert [d] + [] == [d];
    } else if le(d.name, des[0].name) {
      DocFront(d, des);
    } else {
      InsertDocView(d, des[1..], le);
      DocFront(des[0], InsertDoc(d, des[1..], le));
    }
  }

  lemma {:induction false} InsertDocGood(d: DocEntity, des: seq<DocEntity>, le: Compare)
    requires GoodDesired(des) && WellFormed(d.config)
    ensures GoodDesired(InsertDoc(d, des, le))
  {
    if des != [] && !le(d.name, des[0].name) {
      InsertDocGood(d, des[1..], le);
    }
  }

  ghost predicate UniqueNames(es: seq<Entity>) {
    es != [] ==> es[0].name !in View(es[1..]) && UniqueNames(es[1..])
  }

  lemma {:induction false} ExportEntitiesView(es: seq<Entity>, le: Compare)
    requires UniqueNames(es) && GoodConfigs(es)
    ensures DesiredView(ExportEntities(es, le)) == View(es)
    ensures DistinctNames(ExportEntities(es, le)) && GoodDesired(ExportEntities(es, le))
  {
    if es != [] {
      ExportEntitiesView(es[1..], le);
      InsertDocView(ToDoc(es[0]), ExportEntities(es[1..], le), le);
      InsertDocGood(ToDoc(es[0]), ExportEntities(es[1..], le), le);
    }
  }

  lemma {:induction false} OfUnique(coll: seq<Entity>, ws: nat)
    requires UniqueIn(coll, ws) && GoodConfigs(coll)
    ensures UniqueNames(Of(coll, ws)) && GoodConfigs(Of(coll, ws))
  {
    if coll != [] {
      var rest := Of(coll[1..], ws);
      OfUnique(coll[1..], ws);
      assert ([coll[0]] + rest)[1..] == rest;
    }
  }

  lemma DesiredOfExport(s: Stores, w: Workspace, le: Compare, k: Kind)
    ensures Desired(ExportWs(s, w, le), k) == ExportEntities(Of(Coll(s, k), w.id), le)
  {
    KindsComplete();
    assert k in KINDS;
    assert Emitted(s, w.id, k) ==> k in ExportWs(s, w, le).collections;
  }

  /** What is exported for a collection is what the workspace holds there. */
  lemma ExportedKind(s: Stores, w: Workspace, le: Compare, k: Kind)
    requires CleanColls(s)
    ensures var des := Desired(ExportWs(s, w, le), k);
            DesiredView(des) == ViewOf(Coll(s, k), w.id) && DistinctNames(des) && GoodDesired(des)
  {
    DesiredOfExport(s, w, le, k);
    OfUnique(Coll(s, k), w.id);
    ExportEntitiesView(Of(Coll(s, k), w.id), le);
  }

  lemma {:induction false} ExportedProviders(ps: seq<Provider>, creds: Credentials, ws: nat, p: DocProvider)
    requires p in WorkspaceProviders(ps, creds, ws)
    ensures HasProvider(ps, ws, p.kind)
  {
    if p in WorkspaceProviders(ps[1..], creds, ws) {
      ExportedProviders(ps[1..], creds, ws, p);
      var i :| 0 <= i < |ps[1..]| && ps[1..][i].workspaceId == ws && ps[1..][i].kind == p.kind;
      assert ps[i + 1] == ps[1..][i];
    } else {
      assert ps[0].workspaceId == ws && ps[0].kind == p.kind;
    }
  }

  lemma ExportWsHolds(s: Stores, w: Workspace, le: Compare)
    requires CleanColls(s)
    ensures GoodDoc(ExportWs(s, w, le)) && Holds(s, w.id, ExportWs(s, w, le))
  {
    var d := ExportWs(s, w, le);
    forall k: Kind
      ensures DesiredView(Desired(d, k)) == ViewOf(Coll(s, k), w.id)
      ensures GoodDesired(Desired(d, k)) && DistinctNames(Desired(d, k))
    {
      ExportedKind(s, w, le, k);
    }
    forall i | 0 <= i < |d.providers| ensures HasProvider(s.providers, w.id, d.providers[i].kind) {
      SortHas(WorkspaceProviders(s.providers, s.credentials, w.id), (p: DocProvider) => p.kind, le, d.providers[i]);
      ExportedProviders(s.providers, s.credentials, w.id, d.providers[i]);
    }
  }

  // ------------------------------------------------------------------ whole exports

  /** Org names are unique, and workspace names are unique in each org. */
  ghost predicate UniqueTenants(s: Stores) {
    && (forall i, j :: 0 <= i < j < |s.orgs| ==> s.orgs[i].name != s.orgs[j].name)
    && (forall i, j :: 0 <= i < j < |s.workspaces| ==>
          s.workspaces[i].orgId != s.workspaces[j].orgId || s.workspaces[i].name != s.workspaces[j].name)
  }

  lemma FindsItself(s: Stores, o: Org)
    requires UniqueTenants(s) && o in s.orgs
    ensures FindOrg(s.orgs, o.name) == Some(o)
  {
    FindOrgSome(s.orgs, o);
    var i :| 0 <= i < |s.orgs| && s.orgs[i] == o;
    var j :| 0 <= j < |s.orgs| && s.orgs[j] == FindOrg(s.orgs, o.name).value;
  }

  lemma FindsItsWorkspace(s: Stores, w: Workspace)
    requires UniqueTenants(s) && w in s.workspaces
    ensures FindWs(s.workspaces, w.orgId, w.name) == Some(w)
  {
    FindWsSome(s.workspaces, w);
    var i :| 0 <= i < |s.workspaces| && s.workspaces[i] == w;
    var j :| 0 <= j < |s.workspaces| && s.workspaces[j] == FindWs(s.workspaces, w.orgId, w.name).value;
  }

  lemma {:induction false} OrgWorkspacesHas(wss: seq<Workspace>, orgId: nat, w: Workspace)
    ensures w in OrgWorkspaces(wss, orgId) <==> w in wss && w.orgId == orgId
  {
    if wss != [] {
      OrgWorkspacesHas(wss[1..], orgId, w);
      assert wss == [wss[0]] + wss[1..];
    }
  }

  lemma {:induction false} SelectedHas(orgs: seq<Org>, ids: Option<set<nat>>, o: Org)
    ensures o in Selected(orgs, ids) <==> o in orgs && (ids.None? || o.id in ids.value)
  {
    if orgs != [] {
      SelectedHas(orgs[1..], ids, o);
      assert orgs == [orgs[0]] + orgs[1..];
    }
  }

  function SortedWorkspaces(s: Stores, o: Org, le: Compare): seq<Workspace> {
    SortBy(OrgWorkspaces(s.workspaces, o.id), (w: Workspace) => w.name, le)
  }

  lemma SortedWorkspaceIsOurs(s: Stores, o: Org, le: Compare, w: Workspace)
    ensures w in SortedWorkspaces(s, o, le) <==> w in s.workspaces && w.orgId == o.id
  {
    SortHas(OrgWorkspaces(s.workspaces, o.id), (x: Workspace) => x.name, le, w);
    OrgWorkspacesHas(s.workspaces, o.id, w);
  }

  lemma ExportOrgDescribes(s: Stores, o: Org, le: Compare)
    requires CleanColls(s) && UniqueTenants(s) && o in s.orgs
    ensures DescribesOrg(s, ExportOrg(s, o, le))
    ensures forall j :: 0 <= j < |ExportOrg(s, o, le).workspaces| ==> GoodDoc(ExportOrg(s, o, le).workspaces[j])
  {
    FindsItself(s, o);
    var d, wss := ExportOrg(s, o, le), SortedWorkspaces(s, o, le);
    forall j | 0 <= j < |d.workspaces| ensures Describes(s, o.id, d.workspaces[j]) && GoodDoc(d.workspaces[j]) {
      SortedWorkspaceIsOurs(s, o, le, wss[j]);
      FindsItsWorkspace(s, wss[j]);
      ExportWsHolds(s, wss[j], le);
    }
  }

  /** Applying a store's own export, whole or of some orgs, changes nothing. */
  lemma ExportIsFixedPoint(s: Stores, ids: Option<set<nat>>, le: Compare)
    requires CleanColls(s) && FullColls(s) && UniqueTenants(s)
    ensures Reconcile(s, Export(s, ids, le)) == s
  {
    var doc, orgs := Export(s, ids, le), SortBy(Selected(s.orgs, ids), (o: Org) => o.name, le);
    forall i | 0 <= i < |doc|
      ensures DescribesOrg(s, doc[i])
      ensures forall j :: 0 <= j < |doc[i].workspaces| ==> GoodDoc(doc[i].workspaces[j])
    {
      SortHas(Selected(s.orgs, ids), (o: Org) => o.name, le, orgs[i]);
      SelectedHas(s.orgs, ids, orgs[i]);
      ExportOrgDescribes(s, orgs[i], le);
    }
    ReconcileFixed(s, doc);
  }

  const EMPTY: Stores := Stores(0, [], [], [], map[], [], map[
    Route := [], Policy := [], Budget := [], RateLimit := [], Guardrail := [], ModelAlias := [],
    SmartRoutingPolicy := []])

  lemma {:induction false} OrgWorkspacesDistinct(s: Stores, n: nat, orgId: nat)
    requires UniqueTenants(s) && n <= |s.workspaces|
    ensures Distinct(OrgWorkspaces(s.workspaces[n..], orgId), (w: Workspace) => w.name)
    decreases |s.workspaces| - n
  {
    if n < |s.workspaces| {
      OrgWorkspacesDistinct(s, n + 1, orgId);
      var first, tail := s.workspaces[n], s.workspaces[n + 1..];
      assert s.workspaces[n..][1..] == tail;
      var rest := OrgWorkspaces(tail, orgId);
      if first.orgId == orgId {
        forall i | 0 <= i < |rest| ensures rest[i].name != first.name {
          OrgWorkspacesHas(tail, orgId, rest[i]);
          var j :| 0 <= j < |tail| && tail[j] == rest[i];
          assert s.workspaces[n + 1 + j] == rest[i];
        }
      }
    }
  }

  lemma {:induction false} SelectedDistinct(s: Stores, n: nat, ids: Option<set<nat>>)
    requires UniqueTenants(s) && n <= |s.orgs|
    ensures Distinct(Selected(s.orgs[n..], ids), (o: Org) => o.name)
    decreases |s.orgs| - n
  {
    if n < |s.orgs| {
      SelectedDistinct(s, n + 1, ids);
      var first, tail := s.orgs[n], s.orgs[n + 1..];
      assert s.orgs[n..][1..] == tail;
      var rest := Selected(tail, ids);
      forall i | 0 <= i < |rest| ensures rest[i].name != first.name {
        SelectedHas(tail, ids, rest[i]);
        var j :| 0 <= j < |tail| && tail[j] == rest[i];
        assert s.orgs[n + 1 + j] == rest[i];
      }
    }
  }

  lemma ExportOrgGood(s: Stores, o: Org, le: Compare)
    requires CleanColls(s) && UniqueTenants(s) && o in s.orgs
    ensures GoodWss(ExportOrg(s, o, le).workspaces)
  {
    ExportOrgDescribes(s, o, le);
    OrgWorkspacesDistinct(s, 0, o.id);
    assert s.workspaces[0..] == s.workspaces;
    var key := (w: Workspace) => w.name;
    SortDistinct(OrgWorkspaces(s.workspaces, o.id), key, le);
    var wss := SortBy(OrgWorkspaces(s.workspaces, o.id), key, le);
    assert wss == SortedWorkspaces(s, o, le);
    assert forall i, j :: 0 <= i < j < |wss| ==> key(wss[i]) != key(wss[j]);
  }

  lemma ExportGood(s: Stores, le: Compare)
    requires CleanColls(s) && UniqueTenants(s)
    ensures GoodOrgs(Export(s, None, le))
  {
    var key := (o: Org) => o.name;
    SelectedDistinct(s, 0, None);
    assert s.orgs[0..] == s.orgs;
    SortDistinct(Selected(s.orgs, None), key, le);
    var doc, orgs := Export(s, None, le), SortBy(Selected(s.orgs, None), key, le);
    forall i | 0 <= i < |doc| ensures GoodWss(doc[i].workspaces) {
      SortHas(Selected(s.orgs, None), key, le, orgs[i]);
      SelectedHas(s.orgs, None, orgs[i]);
      ExportOrgGood(s, orgs[i], le);
    }
    assert forall i, j :: 0 <= i < j < |orgs| ==> key(orgs[i]) != key(orgs[j]);
  }

  lemma {:induction false} ProviderIsListed(ps: seq<Provider>, creds: Credentials, ws: nat, i: nat)
    requires i < |ps| && ps[i].workspaceId == ws
    ensures ToDocProvider(ps[i], creds) in WorkspaceProviders(ps, creds, ws)
  {
    if i > 0 {
      ProviderIsListed(ps[1..], creds, ws, i - 1);
    }
  }

  /** Export and apply are inverse on the config: an empty store given the export of `s` has,
      under the same org and workspace names, the same entities in every collection and
      providers of the same kinds. */
  lemma ExportRebuilds(s: Stores, le: Compare, o: Org, w: Workspace, k: Kind)
    requires CleanColls(s) && UniqueTenants(s) && o in s.orgs && w in s.workspaces && w.orgId == o.id
    ensures var t := Reconcile(EMPTY, Export(s, None, le));
            && FindOrg(t.orgs, o.name).Some?
            && FindWs(t.workspaces, FindOrg(t.orgs, o.name).value.id, w.name).Some?
            && var id := FindWs(t.workspaces, FindOrg(t.orgs, o.name).value.id, w.name).value.id;
               && ViewOf(Coll(t, k), id) == ViewOf(Coll(s, k), w.id)
               && forall p :: p in s.providers && p.workspaceId == w.id ==> HasProvider(t.providers, id, p.kind)
  {
    var doc := Export(s, None, le);
    ExportGood(s, le);
    ReconcileReaches(EMPTY, doc);
    SelectedHas(s.orgs, None, o);
    SortHas(Selected(s.orgs, None), (x: Org) => x.name, le, o);
    var orgs := SortBy(Selected(s.orgs, None), (x: Org) => x.name, le);
    var i :| 0 <= i < |orgs| && orgs[i] == o;
    assert doc[i] == ExportOrg(s, o, le);
    SortedWorkspaceIsOurs(s, o, le, w);
    var wss := SortedWorkspaces(s, o, le);
    var j :| 0 <= j < |wss| && wss[j] == w;
    assert doc[i].workspaces[j] == ExportWs(s, w, le);
    ExportedKind(s, w, le, k);
    var t := Reconcile(EMPTY, doc);
    assert DescribesOrg(t, doc[i]);
    var id := FindWs(t.workspaces, FindOrg(t.orgs, o.name).value.id, w.name).value.id;
    assert Holds(t, id, doc[i].workspaces[j]);
    forall p | p in s.providers && p.workspaceId == w.id ensures HasProvider(t.providers, id, p.kind) {
      ProviderIsExported(s, w, le, p);
    }
  }

  lemma ProviderIsExported(s: Stores, w: Workspace, le: Compare, p: Provider)
    requires p in s.providers && p.workspaceId == w.id
    ensures exists i :: 0 <= i < |ExportWs(s, w, le).providers| && ExportWs(s, w, le).providers[i].kind == p.kind
  {
    var n :| 0 <= n < |s.providers| && s.providers[n] == p;
    ProviderIsListed(s.providers, s.credentials, w.id, n);
    var d, ps := ToDocProvider(p, s.credentials), ExportWs(s, w, le).providers;
    SortHas(WorkspaceProviders(s.providers, s.credentials, w.id), (x: DocProvider) => x.kind, le, d);
    var i :| 0 <= i < |ps| && ps[i] == d;
    assert ps[i].kind == p.kind;
  }
}
