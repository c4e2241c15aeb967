/**
 * The workspace-scoped config collections of the control plane, and what applying a
 * desired list of entities to one of them does: upsert, and delete by absence.
 */
module ConfigCollections {
  import opened Common
  import opened Json

  datatype DocEntity = DocEntity(name: string, config: Value)

  datatype Entity = Entity(id: nat, workspaceId: nat, name: string, config: Value)

  // --------------------------------------------------- one collection, one workspace

  function Names(des: seq<DocEntity>): set<string> {
    set i | 0 <= i < |des| :: des[i].name
  }

  /** Delete by absence. */
  function Prune(coll: seq<Entity>, ws: nat, names: set<string>): seq<Entity> {
    if coll == [] then []
    else
      var rest := Prune(coll[1..], ws, names);
      if coll[0].workspaceId == ws && coll[0].name !in names then rest else [coll[0]] + rest
  }

  predicate Is(e: Entity, ws: nat, name: string) { e.workspaceId == ws && e.name == name }

  /** The first entity of the workspace with this name. */
  function Find(coll: seq<Entity>, ws: nat, name: string): (i: Option<nat>)
    ensures i.Some? ==> i.value < |coll| && Is(coll[i.value], ws, name)
  {
    if coll == [] then None
    else if Is(coll[0], ws, name) then Some(0)
    else
      match Find(coll[1..], ws, name)
      case Some(i) => Some(i + 1)
      case None => None
  }

  /** Create, update when the JSON text differs, or leave alone. */
  function Upsert(coll: seq<Entity>, nextId: nat, ws: nat, de: DocEntity): (seq<Entity>, nat) {
    match Find(coll, ws, de.name)
    case None => (coll + [Entity(nextId, ws, de.name, de.config)], nextId + 1)
    case Some(i) =>
      if Print(coll[i].config) != Print(de.config) then (coll[i := coll[i].(config := de.config)], nextId)
      else (coll, nextId)
  }

  function UpsertAll(coll: seq<Entity>, nextId: nat, ws: nat, des: seq<DocEntity>): (seq<Entity>, nat) {
    if des == [] then (coll, nextId)
    else
      var r := UpsertAll(coll, nextId, ws, des[..|des| - 1]);
      Upsert(r.0, r.1, ws, des[|des| - 1])
  }

  function ReconcileColl(coll: seq<Entity>, nextId: nat, ws: nat, des: seq<DocEntity>): (seq<Entity>, nat) {
    UpsertAll(Prune(coll, ws, Names(des)), nextId, ws, des)
  }

  // ------------------------------------------- what a collection holds for a workspace

  /** The entities of one workspace, in order. */
  function Of(coll: seq<Entity>, ws: nat): seq<Entity> {
    if coll == [] then []
    else if coll[0].workspaceId == ws then [coll[0]] + Of(coll[1..], ws)
    else Of(coll[1..], ws)
  }

  /** Set a name unless it is there. */
  function Under(m: map<string, Value>, name: string, config: Value): map<string, Value> {
    if name in m then m else m[name := config]
  }

  /** Name to config; the last entity of a name counts. */
  function View(es: seq<Entity>): map<string, Value> {
    if es == [] then map[] else Under(View(es[1..]), es[0].name, es[0].config)
  }

  function DesiredView(des: seq<DocEntity>): map<string, Value> {
    if des == [] then map[] else Under(DesiredView(des[1..]), des[0].name, des[0].config)
  }

  function ViewOf(coll: seq<Entity>, ws: nat): map<string, Value> {
    View(Of(coll, ws))
  }

  /** No two entities of the workspace share a name. */
  ghost predicate UniqueIn(coll: seq<Entity>, ws: nat) {
    coll != [] ==> UniqueIn(coll[1..], ws) && (coll[0].workspaceId == ws ==> coll[0].name !in ViewOf(coll[1..], ws))
  }

  ghost predicate GoodConfigs(coll: seq<Entity>) {
    forall i :: 0 <= i < |coll| ==> WellFormed(coll[i].config)
  }

  ghost predicate GoodDesired(des: seq<DocEntity>) {
    forall i :: 0 <= i < |des| ==> WellFormed(des[i].config)
  }

  /** What the first entity adds. */
  lemma Front(coll: seq<Entity>, ws: nat)
    requires coll != []
    ensures ViewOf(coll, ws)
         == if coll[0].workspaceId == ws then Under(ViewOf(coll[1..], ws), coll[0].name, coll[0].config)
            else ViewOf(coll[1..], ws)
  {
    var rest := Of(coll[1..], ws);
    assert ([coll[0]] + rest)[1..] == rest;
  }

  /** A new last entity with a new name. */
  lemma {:induction false} Push(coll: seq<Entity>, e: Entity, ws: nat)
    requires e.workspaceId == ws ==> e.name !in ViewOf(coll, ws)
    ensures ViewOf(coll + [e], ws)
         == if e.workspaceId == ws then ViewOf(coll, ws)[e.name := e.config] else ViewOf(coll, ws)
    ensures UniqueIn(coll, ws) ==> UniqueIn(coll + [e], ws)
  {
    if coll == [] {
      assert coll + [e] == [e];
      Front([e], ws);
    } else {
      assert (coll + [e])[1..] == coll[1..] + [e];
      Front(coll, ws);
      Front(coll + [e], ws);
      Push(coll[1..], e, ws);
    }
  }

  lemma {:induction false} PushElsewhere(coll: seq<Entity>, e: Entity, ws: nat)
    requires e.workspaceId != ws
    ensures Of(coll + [e], ws) == Of(coll, ws)
  {
    if coll == [] {
      assert coll + [e] == [e];
    } else {
      assert (coll + [e])[1..] == coll[1..] + [e];
      PushElsewhere(coll[1..], e, ws);
    }
  }

  /** The view shows a name exactly when a search finds it, and with unique names it shows
      what the search finds. */
  lemma {:induction false} ViewFinds(coll: seq<Entity>, ws: nat, name: string)
    ensures name in ViewOf(coll, ws) <==> Find(coll, ws, name).Some?
    ensures UniqueIn(coll, ws) && name in ViewOf(coll, ws) ==>
              ViewOf(coll, ws)[name] == coll[Find(coll, ws, name).value].config
  {
    if coll != [] {
      ViewFinds(coll[1..], ws, name);
      Front(coll, ws);
    }
  }

  function SetConfig(coll: seq<Entity>, i: nat, config: Value): seq<Entity>
    requires i < |coll|
  {
    coll[i := coll[i].(config := config)]
  }

  lemma SetConfigFront(coll: seq<Entity>, i: nat, config: Value)
    requires i < |coll|
    ensures var set' := SetConfig(coll, i, config);
            && |set'| == |coll|
            && set'[0] == (if i == 0 then coll[0].(config := config) else coll[0])
            && set'[1..] == (if i == 0 then coll[1..] else SetConfig(coll[1..], i - 1, config))
  {
  }

  lemma {:induction false} SetConfigOther(coll: seq<Entity>, i: nat, config: Value, ws: nat)
    requires i < |coll| && coll[i].workspaceId != ws
    ensures Of(SetConfig(coll, i, config), ws) == Of(coll, ws)
    ensures UniqueIn(coll, ws) ==> UniqueIn(SetConfig(coll, i, config), ws)
  {
    SetConfigFront(coll, i, config);
    if i > 0 {
      SetConfigOther(coll[1..], i - 1, config, ws);
    }
  }

  /** Replacing one entity's config changes that name in the view. */
  lemma {:induction false} SetConfigView(coll: seq<Entity>, i: nat, config: Value, ws: nat)
    requires i < |coll| && coll[i].workspaceId == ws && UniqueIn(coll, ws)
    ensures coll[i].name in ViewOf(coll, ws)
    ensures ViewOf(SetConfig(coll, i, config), ws) == ViewOf(coll, ws)[coll[i].name := config]
    ensures UniqueIn(SetConfig(coll, i, config), ws)
  {
    SetConfigFront(coll, i, config);
    Front(coll, ws);
    Front(SetConfig(coll, i, config), ws);
    if i > 0 {
      SetConfigView(coll[1..], i - 1, config, ws);
    }
  }

  // -------------------------------------------------- reconciling one collection

  lemma PrintTells(v: Value, w: Value)
    requires WellFormed(v) && WellFormed(w)
    ensures Print(v) == Print(w) <==> v == w
  {
    if Print(v) == Print(w) {
      PrintInjective(v, w, [], []);
    }
  }

  /** An upsert sets one name of its workspace. */
  lemma UpsertEffect(coll: seq<Entity>, nextId: nat, ws: nat, de: DocEntity)
    requires UniqueIn(coll, ws) && GoodConfigs(coll) && WellFormed(de.config)
    ensures var r := Upsert(coll, nextId, ws, de);
            && ViewOf(r.0, ws) == ViewOf(coll, ws)[de.name := de.config]
            && UniqueIn(r.0, ws) && GoodConfigs(r.0) && nextId <= r.1
  {
    ViewFinds(coll, ws, de.name);
    match Find(coll, ws, de.name)
    case None => Push(coll, Entity(nextId, ws, de.name, de.config), ws);
    case Some(i) =>
      PrintTells(coll[i].config, de.config);
      SetConfigView(coll, i, de.config, ws);
  }

  /** Every other workspace keeps its entities, in order. */
  lemma UpsertElsewhere(coll: seq<Entity>, nextId: nat, ws: nat, de: DocEntity, other: nat)
    requires other != ws
    ensures Of(Upsert(coll, nextId, ws, de).0, other) == Of(coll, other)
    ensures UniqueIn(coll, other) ==> UniqueIn(Upsert(coll, nextId, ws, de).0, other)
  {
    match Find(coll, ws, de.name)
    case None =>
      PushElsewhere(coll, Entity(nextId, ws, de.name, de.config), other);
      Push(coll, Entity(nextId, ws, de.name, de.config), other);
    case Some(i) => SetConfigOther(coll, i, de.config, other);
  }

  lemma MergeSet(v: map<string, Value>, d: map<string, Value>, name: string, config: Value)
    ensures (v + d)[name := config] == v + d[name := config]
  {
  }

  lemma {:induction false} UpsertAllEffect(coll: seq<Entity>, nextId: nat, ws: nat, des: seq<DocEntity>)
    requires UniqueIn(coll, ws) && GoodConfigs(coll) && GoodDesired(des)
    ensures var r := UpsertAll(coll, nextId, ws, des);
            && ViewOf(r.0, ws) == ViewOf(coll, ws) + DesiredView(des)
            && UniqueIn(r.0, ws) && GoodConfigs(r.0) && nextId <= r.1
  {
    if des != [] {
      var init, de := des[..|des| - 1], des[|des| - 1];
      UpsertAllEffect(coll, nextId, ws, init);
      var r := UpsertAll(coll, nextId, ws, init);
      UpsertEffect(r.0, r.1, ws, de);
      DesiredLast(des);
      MergeSet(ViewOf(coll, ws), DesiredView(init), de.name, de.config);
    }
  }

  lemma {:induction false} UpsertAllElsewhere(
    coll: seq<Entity>, nextId: nat, ws: nat, des: seq<DocEntity>, other: nat)
    requires other != ws
    ensures Of(UpsertAll(coll, nextId, ws, des).0, other) == Of(coll, other)
    ensures UniqueIn(coll, other) ==> UniqueIn(UpsertAll(coll, nextId, ws, des).0, other)
  {
    if des != [] {
      var init := des[..|des| - 1];
      UpsertAllElsewhere(coll, nextId, ws, init, other);
      var r := UpsertAll(coll, nextId, ws, init);
      UpsertElsewhere(r.0, r.1, ws, des[|des| - 1], other);
    }
  }

  lemma {:induction false} PruneEffect(coll: seq<Entity>, ws: nat, names: set<string>)
    requires UniqueIn(coll, ws) && GoodConfigs(coll)
    ensures ViewOf(Prune(coll, ws, names), ws).Keys == ViewOf(coll, ws).Keys * names
    ensures UniqueIn(Prune(coll, ws, names), ws) && GoodConfigs(Prune(coll, ws, names))
  {
    if coll != [] {
      var rest := Prune(coll[1..], ws, names);
      PruneEffect(coll[1..], ws, names);
      Front(coll, ws);
      assert ([coll[0]] + rest)[1..] == rest;
      Front([coll[0]] + rest, ws);
    }
  }

  lemma {:induction false} PruneElsewhere(coll: seq<Entity>, ws: nat, names: set<string>, other: nat)
    requires other != ws
    ensures Of(Prune(coll, ws, names), other) == Of(coll, other)
    ensures UniqueIn(coll, other) ==> UniqueIn(Prune(coll, ws, names), other)
  {
    if coll != [] {
      var rest := Prune(coll[1..], ws, names);
      PruneElsewhere(coll[1..], ws, names, other);
      assert ([coll[0]] + rest)[1..] == rest;
    }
  }

  /** What the last desired entity adds. */
  lemma {:induction false} DesiredLast(des: seq<DocEntity>)
    requires des != []
    ensures var init, last := des[..|des| - 1], des[|des| - 1];
            && DesiredView(des) == DesiredView(init)[last.name := last.config]
            && (DistinctNames(des) ==> DistinctNames(init) && last.name !in DesiredView(init))
  {
    if |des| > 1 {
      var init := des[..|des| - 1];
      DesiredLast(des[1..]);
      assert des[1..][..|des[1..]| - 1] == init[1..];
    }
  }

  lemma {:induction false} DesiredNames(des: seq<DocEntity>)
    ensures DesiredView(des).Keys == Names(des)
  {
    if des != [] {
      DesiredNames(des[1..]);
      assert forall i :: 0 < i < |des| ==> des[i] == des[1..][i - 1];
      assert Names(des) == {des[0].name} + Names(des[1..]);
    }
  }

  /** Whatever the collection held for the workspace, it now holds exactly the desired
      entities. */
  lemma CollReaches(coll: seq<Entity>, nextId: nat, ws: nat, des: seq<DocEntity>)
    requires UniqueIn(coll, ws) && GoodConfigs(coll) && GoodDesired(des)
    ensures var r := ReconcileColl(coll, nextId, ws, des);
            && ViewOf(r.0, ws) == DesiredView(des)
            && UniqueIn(r.0, ws) && GoodConfigs(r.0) && nextId <= r.1
  {
    var pruned := Prune(coll, ws, Names(des));
    PruneEffect(coll, ws, Names(des));
    UpsertAllEffect(pruned, nextId, ws, des);
    DesiredNames(des);
    assert ViewOf(pruned, ws) + DesiredView(des) == DesiredView(des);
  }

  /** Every other workspace keeps its entities, in order. */
  lemma CollLeaves(coll: seq<Entity>, nextId: nat, ws: nat, des: seq<DocEntity>, other: nat)
    requires other != ws
    ensures Of(ReconcileColl(coll, nextId, ws, des).0, other) == Of(coll, other)
    ensures UniqueIn(coll, other) ==> UniqueIn(ReconcileColl(coll, nextId, ws, des).0, other)
  {
    PruneElsewhere(coll, ws, Names(des), other);
    UpsertAllElsewhere(Prune(coll, ws, Names(des)), nextId, ws, des, other);
  }

  /** No name twice. */
  ghost predicate DistinctNames(des: seq<DocEntity>) {
    des != [] ==> des[0].name !in DesiredView(des[1..]) && DistinctNames(des[1..])
  }

  lemma {:induction false} PruneNothing(coll: seq<Entity>, ws: nat, names: set<string>)
    requires ViewOf(coll, ws).Keys <= names
    ensures Prune(coll, ws, names) == coll
  {
    if coll != [] {
      Front(coll, ws);
      PruneNothing(coll[1..], ws, names);
      assert coll == [coll[0]] + coll[1..];
    }
  }

  lemma {:induction false} UpsertNothing(coll: seq<Entity>, nextId: nat, ws: nat, des: seq<DocEntity>)
    requires UniqueIn(coll, ws) && DistinctNames(des) && DesiredView(des).Items <= ViewOf(coll, ws).Items
    ensures UpsertAll(coll, nextId, ws, des) == (coll, nextId)
  {
    if des != [] {
      var init, de := des[..|des| - 1], des[|des| - 1];
      DesiredLast(des);
      var d := DesiredView(init);
      assert d.Items <= DesiredView(des).Items;
      assert (de.name, de.config) in DesiredView(des).Items;
      UpsertNothing(coll, nextId, ws, init);
      ViewFinds(coll, ws, de.name);
    }
  }

  /** A collection that already holds the desired entities is left exactly as it is. */
  lemma CollFixed(coll: seq<Entity>, nextId: nat, ws: nat, des: seq<DocEntity>)
    requires UniqueIn(coll, ws) && DistinctNames(des) && ViewOf(coll, ws) == DesiredView(des)
    ensures ReconcileColl(coll, nextId, ws, des) == (coll, nextId)
  {
    DesiredNames(des);
    PruneNothing(coll, ws, Names(des));
    UpsertNothing(coll, nextId, ws, des);
  }
}
