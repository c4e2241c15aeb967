/**
 * The permission check that comes before an apply, and what it guarantees about the apply.
 * `can` answers the access question for one org (its id) or for the platform (`None`).
 */
module ConfigAuthorize {
  import opened Common
  import opened ConfigStore

  type Access = Option<nat> -> bool

  /** Where a name is checked: at the first org of that name, else at the platform. */
  function Scope(orgs: seq<Org>, name: string): Option<nat> {
    match FindOrg(orgs, name)
    case Some(o) => Some(o.id)
    case None => None
  }

  predicate InDocument(dOrgs: seq<DocOrg>, name: string) {
    exists i :: 0 <= i < |dOrgs| && dOrgs[i].name == name
  }

  predicate InStore(orgs: seq<Org>, name: string) {
    exists i :: 0 <= i < |orgs| && orgs[i].name == name
  }

  /** Every name in the document or in the store is permitted. */
  ghost predicate Authorized(orgs: seq<Org>, dOrgs: seq<DocOrg>, can: Access) {
    forall name :: InDocument(dOrgs, name) || InStore(orgs, name) ==> can(Scope(orgs, name))
  }

  lemma {:induction false} FindOrgPush(orgs: seq<Org>, o: Org, name: string)
    ensures FindOrg(orgs + [o], name)
         == if FindOrg(orgs, name).Some? then FindOrg(orgs, name) else if o.name == name then Some(o) else None
  {
    if orgs != [] {
      assert (orgs + [o])[1..] == orgs[1..] + [o];
      FindOrgPush(orgs[1..], o, name);
    }
  }

  /** First match by name, as a dictionary. */
  method IdByName(orgs: seq<Org>) returns (ids: map<string, nat>)
    ensures forall name :: (if name in ids then Some(ids[name]) else None) == Scope(orgs, name)
  {
    ids := map[];
    for i := 0 to |orgs|
      invariant forall name :: (if name in ids then Some(ids[name]) else None) == Scope(orgs[..i], name)
    {
      assert orgs[..i + 1] == orgs[..i] + [orgs[i]];
      forall name { FindOrgPush(orgs[..i], orgs[i], name); }
      if orgs[i].name !in ids {
        ids := ids[orgs[i].name := orgs[i].id];
      }
    }
    assert orgs[..|orgs|] == orgs;
  }

  /** Collect the affected names, then ask for each until one is
      refused. */
  method Authorize(orgs: seq<Org>, dOrgs: seq<DocOrg>, can: Access) returns (ok: bool)
    ensures ok <==> Authorized(orgs, dOrgs, can)
  {
    var ids := IdByName(orgs);
    var affected := (set i | 0 <= i < |dOrgs| :: dOrgs[i].name)
                  + (set i | 0 <= i < |orgs| && !InDocument(dOrgs, orgs[i].name) :: orgs[i].name);
    assert forall name :: name in affected <==> InDocument(dOrgs, name) || InStore(orgs, name);
    var left := affected;
    while left != {}
      invariant left <= affected
      invariant forall name :: name in affected && name !in left ==> can(Scope(orgs, name))
    {
      var name :| name in left;
      if !can(if name in ids then Some(ids[name]) else None) {
        return false;
      }
      left := left - {name};
    }
    return true;
  }

  // ----------------------------------------------------- what an authorized apply does

  /** An org the apply may write to: an existing one that was checked under its own id, or a
      new one, created under the platform permission. */
  ghost predicate Sanctioned(s: Stores, can: Access, orgId: nat) {
    || (can(Some(orgId)) && exists i :: 0 <= i < |s.orgs| && s.orgs[i].id == orgId)
    || (orgId >= s.nextId && can(None))
  }

  lemma StepSanctioned(s: Stores, m: Stores, dOrgs: seq<DocOrg>, d: DocOrg, can: Access)
    requires GoodIds(s) && GoodIds(m) && Grows(s, m) && d in dOrgs && Authorized(s.orgs, dOrgs, can)
    ensures Sanctioned(s, can, EnsureOrg(m, d.name).1.id)
    ensures EnsureOrg(m, d.name).0.orgs != m.orgs ==> can(None)
  {
    assert InDocument(dOrgs, d.name);
    match FindOrg(s.orgs, d.name)
    case Some(o) =>
      FindOrgGrows(s.orgs, m.orgs, d.name);
    case None =>
      NewOrgIsNew(s, m, d.name);
  }

  /** All that is new in `t` is in sanctioned orgs. */
  ghost predicate NewIsSanctioned(s: Stores, t: Stores, can: Access) {
    && (|t.orgs| > |s.orgs| ==> can(None))
    && (forall i :: |s.workspaces| <= i < |t.workspaces| ==> Sanctioned(s, can, t.workspaces[i].orgId))
  }

  /** One org of the document more. */
  lemma OrgIsSanctioned(s: Stores, m: Stores, dOrgs: seq<DocOrg>, d: DocOrg, can: Access)
    requires GoodIds(s) && GoodIds(m) && Grows(s, m) && d in dOrgs && Authorized(s.orgs, dOrgs, can)
    requires NewIsSanctioned(s, m, can)
    ensures var r := EnsureOrg(m, d.name);
            NewIsSanctioned(s, ReconcileWss(r.0, r.1.id, d.workspaces), can)
  {
    StepSanctioned(s, m, dOrgs, d, can);
    EnsureOrgEffect(m, d.name);
    var r := EnsureOrg(m, d.name);
    WssGrow(r.0, r.1.id, d.workspaces);
    var t := ReconcileWss(r.0, r.1.id, d.workspaces);
    forall i | |s.workspaces| <= i < |t.workspaces| ensures Sanctioned(s, can, t.workspaces[i].orgId) {
      assert i < |m.workspaces| ==> t.workspaces[i] == m.workspaces[i];
    }
  }

  /** Every org an authorized apply creates or adds a workspace to is sanctioned. */
  lemma {:induction false} CreatedIsSanctioned(s: Stores, dOrgs: seq<DocOrg>, n: nat, can: Access)
    requires GoodIds(s) && Authorized(s.orgs, dOrgs, can) && n <= |dOrgs|
    ensures NewIsSanctioned(s, Reconcile(s, dOrgs[..n]), can)
  {
    if n > 0 {
      CreatedIsSanctioned(s, dOrgs, n - 1, can);
      ReconcileGrows(s, dOrgs[..n - 1]);
      assert dOrgs[..n][..n - 1] == dOrgs[..n - 1];
      OrgIsSanctioned(s, Reconcile(s, dOrgs[..n - 1]), dOrgs, dOrgs[n - 1], can);
    }
  }

  /** Every workspace whose entities or providers an authorized apply changes belongs to an
      org that was checked under its own id; every org it creates, and every org it adds a
      workspace to, is sanctioned. The store and the document may repeat org names. */
  lemma AuthorizedApply(s: Stores, dOrgs: seq<DocOrg>, can: Access)
    requires GoodIds(s) && Authorized(s.orgs, dOrgs, can)
    ensures var s' := Reconcile(s, dOrgs);
            && (forall w :: w in s.workspaces && !Untouched(s, s', w.id) ==> can(Some(w.orgId)))
            && (|s'.orgs| > |s.orgs| ==> can(None))
            && (forall i :: |s.workspaces| <= i < |s'.workspaces| ==> Sanctioned(s, can, s'.workspaces[i].orgId))
  {
    var s' := Reconcile(s, dOrgs);
    forall w | w in s.workspaces && !Untouched(s, s', w.id) ensures can(Some(w.orgId)) {
      if Named(s, dOrgs, w) {
        var i, j :| 0 <= i < |dOrgs| && 0 <= j < |dOrgs[i].workspaces|
                 && NamedBy(s, dOrgs[i], dOrgs[i].workspaces[j], w);
        assert InDocument(dOrgs, dOrgs[i].name);
      } else {
        ReconcileFrame(s, dOrgs, w);
      }
    }
    CreatedIsSanctioned(s, dOrgs, |dOrgs|, can);
    assert dOrgs[..|dOrgs|] == dOrgs;
  }
}
