/**
 * The apply as the control plane performs it: nested loops that create, update and delete
 * in the registries, shown to compute `ConfigStore.Reconcile`. A collection is a dictionary
 * by id in insertion order; deleting and updating go by id.
 */
module ConfigApply {
  import opened Common
  import opened Json
  import opened ConfigCollections
  import opened ConfigStore

  // ------------------------------------------------------- a collection as a dictionary

  ghost predicate Keyed(coll: seq<Entity>, nextId: nat) {
    && (forall i :: 0 <= i < |coll| ==> coll[i].id < nextId)
    && (forall i, j :: 0 <= i < j < |coll| ==> coll[i].id != coll[j].id)
  }

  function Without(coll: seq<Entity>, ids: set<nat>): seq<Entity> {
    if coll == [] then []
    else if coll[0].id in ids then Without(coll[1..], ids)
    else [coll[0]] + Without(coll[1..], ids)
  }

  function Delete(coll: seq<Entity>, id: nat): seq<Entity> {
    Without(coll, {id})
  }

  function Update(coll: seq<Entity>, id: nat, config: Value): seq<Entity> {
    seq(|coll|, i requires 0 <= i < |coll| => if coll[i].id == id then coll[i].(config := config) else coll[i])
  }

  lemma UpdateAt(coll: seq<Entity>, nextId: nat, i: nat, config: Value)
    requires Keyed(coll, nextId) && i < |coll|
    ensures Update(coll, coll[i].id, config) == coll[i := coll[i].(config := config)]
    ensures Keyed(Update(coll, coll[i].id, config), nextId)
  {
  }

  lemma {:induction false} DeleteMore(coll: seq<Entity>, ids: set<nat>, id: nat)
    ensures Delete(Without(coll, ids), id) == Without(coll, ids + {id})
  {
    if coll != [] {
      DeleteMore(coll[1..], ids, id);
      var rest := Without(coll[1..], ids);
      assert ([coll[0]] + rest)[1..] == rest;
    }
  }

  lemma {:induction false} WithoutNone(coll: seq<Entity>)
    ensures Without(coll, {}) == coll
  {
    if coll != [] {
      WithoutNone(coll[1..]);
      assert coll == [coll[0]] + coll[1..];
    }
  }

  /** Deleting the ids of the absent entities is deleting by absence. */
  lemma {:induction false} WithoutIsPrune(coll: seq<Entity>, ids: set<nat>, ws: nat, names: set<string>)
    requires forall i :: 0 <= i < |coll| ==>
               (coll[i].id in ids <==> coll[i].workspaceId == ws && coll[i].name !in names)
    ensures Without(coll, ids) == Prune(coll, ws, names)
  {
    if coll != [] {
      WithoutIsPrune(coll[1..], ids, ws, names);
    }
  }

  lemma {:induction false} PruneKeeps(coll: seq<Entity>, ws: nat, names: set<string>, e: Entity)
    requires e in Prune(coll, ws, names)
    ensures e in coll
  {
    if e in Prune(coll[1..], ws, names) {
      PruneKeeps(coll[1..], ws, names, e);
    }
  }

  lemma {:induction false} PruneKeyed(coll: seq<Entity>, nextId: nat, ws: nat, names: set<string>)
    requires Keyed(coll, nextId)
    ensures Keyed(Prune(coll, ws, names), nextId)
  {
    if coll != [] {
      PruneKeyed(coll[1..], nextId, ws, names);
      var rest := Prune(coll[1..], ws, names);
      forall i | 0 <= i < |rest| ensures rest[i].id != coll[0].id {
        PruneKeeps(coll[1..], ws, names, rest[i]);
        var j :| 0 <= j < |coll[1..]| && coll[1..][j] == rest[i];
        assert coll[j + 1] == rest[i];
      }
    }
  }

  lemma {:induction false} OfHas(coll: seq<Entity>, ws: nat, e: Entity)
    ensures e in Of(coll, ws) <==> e in coll && e.workspaceId == ws
  {
    if coll != [] {
      OfHas(coll[1..], ws, e);
      assert coll == [coll[0]] + coll[1..];
    }
  }

  /** The ids of the absent ones. */
  ghost function Dead(es: seq<Entity>, names: set<string>): set<nat> {
    if es == [] then {}
    else Dead(es[..|es| - 1], names) + if es[|es| - 1].name !in names then {es[|es| - 1].id} else {}
  }

  lemma {:induction false} DeadIs(es: seq<Entity>, names: set<string>, id: nat)
    ensures id in Dead(es, names) <==> exists i :: 0 <= i < |es| && es[i].id == id && es[i].name !in names
  {
    if es != [] {
      DeadIs(es[..|es| - 1], names, id);
    }
  }

  /** Deleting a workspace's absent entities one by one is deleting by absence. */
  lemma DeadArePruned(coll: seq<Entity>, nextId: nat, ws: nat, names: set<string>)
    requires Keyed(coll, nextId)
    ensures Without(coll, Dead(Of(coll, ws), names)) == Prune(coll, ws, names)
  {
    var es := Of(coll, ws);
    var dead := Dead(es, names);
    forall i | 0 <= i < |coll|
      ensures coll[i].id in dead <==> coll[i].workspaceId == ws && coll[i].name !in names
    {
      DeadIs(es, names, coll[i].id);
      OfHas(coll, ws, coll[i]);
      if coll[i].id in dead {
        var j :| 0 <= j < |es| && es[j].id == coll[i].id && es[j].name !in names;
        OfHas(coll, ws, es[j]);
        var l :| 0 <= l < |coll| && coll[l] == es[j];
        assert l == i;
      } else if coll[i].workspaceId == ws {
        var j :| 0 <= j < |es| && es[j] == coll[i];
      }
    }
    WithoutIsPrune(coll, dead, ws, names);
  }

  /** Delete by absence: walk the workspace's entities as they were, deleting by id. */
  method PruneEntities(start: seq<Entity>, ghost nextId: nat, ws: nat, names: set<string>) returns (coll: seq<Entity>)
    requires Keyed(start, nextId)
    ensures coll == Prune(start, ws, names) && Keyed(coll, nextId)
  {
    coll := start;
    var es := Of(start, ws);
    WithoutNone(start);
    for i := 0 to |es|
      invariant coll == Without(start, Dead(es[..i], names))
    {
      assert es[..i + 1][..i] == es[..i];
      if es[i].name !in names {
        DeleteMore(start, Dead(es[..i], names), es[i].id);
        coll := Delete(coll, es[i].id);
      } else {
        assert Dead(es[..i + 1], names) == Dead(es[..i], names);
      }
    }
    assert es[..|es|] == es;
    DeadArePruned(start, nextId, ws, names);
    PruneKeyed(start, nextId, ws, names);
  }

  lemma UpsertKeyed(coll: seq<Entity>, nextId: nat, ws: nat, de: DocEntity)
    requires Keyed(coll, nextId)
    ensures var r := Upsert(coll, nextId, ws, de);
            Keyed(r.0, r.1) && nextId <= r.1
  {
  }

  /** Create, update by id, or leave alone, entity by entity. */
  method UpsertEntities(start: seq<Entity>, nextId: nat, ws: nat, des: seq<DocEntity>)
    returns (coll: seq<Entity>, nextId': nat)
    requires Keyed(start, nextId)
    ensures (coll, nextId') == UpsertAll(start, nextId, ws, des) && Keyed(coll, nextId') && nextId <= nextId'
  {
    coll, nextId' := start, nextId;
    for i := 0 to |des|
      invariant (coll, nextId') == UpsertAll(start, nextId, ws, des[..i]) && Keyed(coll, nextId') && nextId <= nextId'
    {
      assert des[..i + 1][..i] == des[..i];
      UpsertKeyed(coll, nextId', ws, des[i]);
      var cur := Find(coll, ws, des[i].name);
      if cur.None? {
        coll, nextId' := coll + [Entity(nextId', ws, des[i].name, des[i].config)], nextId' + 1;
      } else if Print(coll[cur.value].config) != Print(des[i].config) {
        UpdateAt(coll, nextId', cur.value, des[i].config);
        coll := Update(coll, coll[cur.value].id, des[i].config);
      }
    }
    assert des[..|des|] == des;
  }

  // ----------------------------------------------------------------------- the store

  ghost predicate AllKeyed(colls: map<Kind, seq<Entity>>, nextId: nat) {
    forall k: Kind :: k in colls && Keyed(colls[k], nextId)
  }

  lemma KeyedLater(colls: map<Kind, seq<Entity>>, nextId: nat, later: nat)
    requires AllKeyed(colls, nextId) && nextId <= later
    ensures AllKeyed(colls, later)
  {
    forall k: Kind ensures k in colls && Keyed(colls[k], later) {
      assert Keyed(colls[k], nextId);
    }
  }

  class ControlConfigStore {
    var nextId: nat
    var orgs: seq<Org>
    var workspaces: seq<Workspace>
    var providers: seq<Provider>
    var credentials: map<nat, string>
    var keys: seq<VirtualKey>
    var collections: map<Kind, seq<Entity>>

    ghost predicate Valid()
      reads this
    {
      AllKeyed(collections, nextId)
    }

    ghost function State(): (s: Stores)
      reads this
    {
      Stores(nextId, orgs, workspaces, providers, credentials, keys, collections)
    }

    method ReconcileCollection(ws: nat, kind: Kind, des: seq<DocEntity>)
      requires Valid()
      modifies this`collections, this`nextId
      ensures Valid()
      ensures State() == ReconcileKind(old(State()), ws, kind, des)
    {
      assert Keyed(collections[kind], nextId);
      var pruned := PruneEntities(collections[kind], nextId, ws, Names(des));
      var coll, next := UpsertEntities(pruned, nextId, ws, des);
      KeyedLater(collections, nextId, next);
      collections, nextId := collections[kind := coll], next;
    }

    method CreateMissingProviders(ws: nat, dps: seq<DocProvider>)
      requires Valid()
      modifies this`providers, this`nextId
      ensures Valid()
      ensures State() == EnsureProviders(old(State()), ws, dps)
    {
      for i := 0 to |dps|
        invariant Valid() && State() == EnsureProviders(old(State()), ws, dps[..i])
      {
        assert dps[..i + 1][..i] == dps[..i];
        KeyedLater(collections, nextId, nextId + 1);
        if !HasProvider(providers, ws, dps[i].kind) {
          providers := providers + [Provider(nextId, ws, dps[i].kind, dps[i].baseUrl, dps[i].enabled)];
          nextId := nextId + 1;
        }
      }
      assert dps[..|dps|] == dps;
    }

    method FindOrCreateWorkspace(orgId: nat, name: string) returns (ws: Workspace)
      requires Valid()
      modifies this`workspaces, this`nextId
      ensures Valid()
      ensures (State(), ws) == EnsureWs(old(State()), orgId, name)
    {
      var found := FindWs(workspaces, orgId, name);
      if found.Some? {
        return found.value;
      }
      ws := Workspace(nextId, orgId, name);
      KeyedLater(collections, nextId, nextId + 1);
      workspaces, nextId := workspaces + [ws], nextId + 1;
    }

    method FindOrCreateOrg(name: string) returns (org: Org)
      requires Valid()
      modifies this`orgs, this`nextId
      ensures Valid()
      ensures (State(), org) == EnsureOrg(old(State()), name)
    {
      var found := FindOrg(orgs, name);
      if found.Some? {
        return found.value;
      }
      org := Org(nextId, name);
      KeyedLater(collections, nextId, nextId + 1);
      orgs, nextId := orgs + [org], nextId + 1;
    }

    /** All seven collections of a workspace. */
    method ReconcileCollections(ws: nat, dWs: DocWorkspace)
      requires Valid()
      modifies this`collections, this`nextId
      ensures Valid()
      ensures State() == ReconcileKinds(old(State()), ws, dWs, |KINDS|)
    {
      for n := 0 to |KINDS|
        invariant Valid() && State() == ReconcileKinds(old(State()), ws, dWs, n)
      {
        ReconcileCollection(ws, KINDS[n], Desired(dWs, KINDS[n]));
      }
    }

    method ReconcileWorkspace(orgId: nat, dWs: DocWorkspace)
      requires Valid()
      modifies this
      ensures Valid()
      ensures State() == ReconcileWs(old(State()), orgId, dWs)
    {
      var ws := FindOrCreateWorkspace(orgId, dWs.name);
      CreateMissingProviders(ws.id, dWs.providers);
      ReconcileCollections(ws.id, dWs);
    }

    method ReconcileOrg(d: DocOrg)
      requires Valid()
      modifies this
      ensures Valid()
      ensures var r := EnsureOrg(old(State()), d.name);
              State() == ReconcileWss(r.0, r.1.id, d.workspaces)
    {
      var org := FindOrCreateOrg(d.name);
      ghost var m := State();
      for j := 0 to |d.workspaces|
        invariant Valid() && State() == ReconcileWss(m, org.id, d.workspaces[..j])
      {
        assert d.workspaces[..j + 1][..j] == d.workspaces[..j];
        ReconcileWorkspace(org.id, d.workspaces[j]);
      }
      assert d.workspaces[..|d.workspaces|] == d.workspaces;
    }

    /** The whole apply. */
    method Reconcile(dOrgs: seq<DocOrg>)
      requires Valid()
      modifies this
      ensures Valid()
      ensures State() == ConfigStore.Reconcile(old(State()), dOrgs)
    {
      for i := 0 to |dOrgs|
        invariant Valid() && State() == ConfigStore.Reconcile(old(State()), dOrgs[..i])
      {
        assert dOrgs[..i + 1][..i] == dOrgs[..i];
        ReconcileOrg(dOrgs[i]);
      }
      assert dOrgs[..|dOrgs|] == dOrgs;
    }
  }
}
