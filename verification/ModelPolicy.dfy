/**
 * The deployment-wide model allow/deny policy: evaluating it, collecting it from a config
 * document, and composing the document's policy with the one from the environment.
 */
module ModelPolicy {
  import opened Common
  import opened Json
  import opened ConfigCollections
  import opened ConfigStore
  import opened Glob

  datatype ModelPolicy = ModelPolicy(allow: seq<Text>, deny: seq<Text>)

  predicate AnyMatches(patterns: seq<Text>, model: Text) {
    exists i :: 0 <= i < |patterns| && ModelPatternMatches(patterns[i], model)
  }

  /** Deny first, then the allow list if there is one. */
  predicate AllowedByPolicy(policy: ModelPolicy, model: Text) {
    if AnyMatches(policy.deny, model) then false
    else if |policy.allow| > 0 then AnyMatches(policy.allow, model)
    else true
  }

  /** What a request is held to; no policy holds it to nothing. */
  predicate Admits(policy: Option<ModelPolicy>, model: Text) {
    policy.None? || AllowedByPolicy(policy.value, model)
  }

  predicate IsEmpty(policy: Option<ModelPolicy>) {
    policy.None? || (policy.value.allow == [] && policy.value.deny == [])
  }

  function AllowOf(policy: Option<ModelPolicy>): seq<Text> {
    if policy.Some? then policy.value.allow else []
  }

  function DenyOf(policy: Option<ModelPolicy>): seq<Text> {
    if policy.Some? then policy.value.deny else []
  }

  // ---------------------------------------------------- sets that remember their order

  function Add(s: seq<Text>, x: Text): seq<Text> { if x in s then s else s + [x] }

  function AddAll(s: seq<Text>, xs: seq<Text>): seq<Text> {
    if xs == [] then s else Add(AddAll(s, xs[..|xs| - 1]), xs[|xs| - 1])
  }

  lemma {:induction false} AddAllHas(s: seq<Text>, xs: seq<Text>, x: Text)
    ensures x in AddAll(s, xs) <==> x in s || x in xs
  {
    if xs != [] {
      AddAllHas(s, xs[..|xs| - 1], x);
      assert xs == xs[..|xs| - 1] + [xs[|xs| - 1]];
    }
  }

  lemma {:induction false} AddAllJoin(s: seq<Text>, xs: seq<Text>, ys: seq<Text>)
    ensures AddAll(s, xs + ys) == AddAll(AddAll(s, xs), ys)
  {
    if ys == [] {
      assert xs + ys == xs;
    } else {
      AddAllJoin(s, xs, ys[..|ys| - 1]);
      assert (xs + ys)[..|xs + ys| - 1] == xs + ys[..|ys| - 1];
    }
  }

  lemma AddAllMatches(s: seq<Text>, xs: seq<Text>, model: Text)
    ensures AnyMatches(AddAll(s, xs), model) <==> AnyMatches(s, model) || AnyMatches(xs, model)
  {
    var all := AddAll(s, xs);
    if AnyMatches(all, model) {
      var i :| 0 <= i < |all| && ModelPatternMatches(all[i], model);
      AddAllHas(s, xs, all[i]);
    }
    if AnyMatches(s, model) {
      var i :| 0 <= i < |s| && ModelPatternMatches(s[i], model);
      AddAllHas(s, xs, s[i]);
      var j :| 0 <= j < |all| && all[j] == s[i];
    }
    if AnyMatches(xs, model) {
      var i :| 0 <= i < |xs| && ModelPatternMatches(xs[i], model);
      AddAllHas(s, xs, xs[i]);
      var j :| 0 <= j < |all| && all[j] == xs[i];
    }
  }

  // ------------------------------------------------------------------------- composing

  function Union(a: Option<ModelPolicy>, b: Option<ModelPolicy>): Option<ModelPolicy> {
    if IsEmpty(a) && IsEmpty(b) then None
    else Some(ModelPolicy(AddAll(AddAll([], AllowOf(a)), AllowOf(b)), AddAll(AddAll([], DenyOf(a)), DenyOf(b))))
  }

  predicate Denies(policy: Option<ModelPolicy>, model: Text) { AnyMatches(DenyOf(policy), model) }

  predicate Lists(policy: Option<ModelPolicy>, model: Text) { AnyMatches(AllowOf(policy), model) }

  lemma UnionLists(a: seq<Text>, b: seq<Text>, model: Text)
    ensures AnyMatches(AddAll(AddAll([], a), b), model) <==> AnyMatches(a, model) || AnyMatches(b, model)
    ensures AddAll(AddAll([], a), b) == [] <==> a == [] && b == []
  {
    AddAllMatches(AddAll([], a), b, model);
    AddAllMatches([], a, model);
    if a != [] {
      AddAllHas([], a, a[0]);
      AddAllHas(AddAll([], a), b, a[0]);
    }
    if b != [] {
      AddAllHas(AddAll([], a), b, b[0]);
    }
  }

  /** The union in terms of its parts: a denial by either stands; an allow list of either
      makes a list of both. */
  lemma UnionAdmitsIff(a: Option<ModelPolicy>, b: Option<ModelPolicy>, model: Text)
    ensures Admits(Union(a, b), model)
       <==> && !Denies(a, model) && !Denies(b, model)
            && ((AllowOf(a) == [] && AllowOf(b) == []) || Lists(a, model) || Lists(b, model))
  {
    UnionLists(AllowOf(a), AllowOf(b), model);
    UnionLists(DenyOf(a), DenyOf(b), model);
  }

  /** The environment's deny patterns are a floor under every document. */
  lemma DenyFloor(env: Option<ModelPolicy>, doc: Option<ModelPolicy>, model: Text)
    requires Denies(env, model)
    ensures !Admits(Union(env, doc), model)
  {
    UnionAdmitsIff(env, doc, model);
  }

  /** Its allow list is not: a document admits a model that the environment alone refuses
      exactly when the refusal was the allow list's, the document lists the model, and
      neither denies it. */
  lemma DocumentWidensIff(env: Option<ModelPolicy>, doc: Option<ModelPolicy>, model: Text)
    ensures !Admits(env, model) && Admits(Union(env, doc), model)
       <==> AllowOf(env) != [] && !Lists(env, model) && Lists(doc, model) && !Denies(env, model) && !Denies(doc, model)
  {
    UnionAdmitsIff(env, doc, model);
  }

  // ---------------------------------------------------------------- from a document

  function Strings(items: Items): seq<Text> {
    match items
    case NoItems => []
    case Item(v, rest) => (if v.Str? && v.s != [] then [v.s] else []) + Strings(rest)
  }

  /** The non-empty strings of an array; anything else has none. */
  function StringList(v: Option<Value>): seq<Text> {
    if v.Some? && v.value.Array? then Strings(v.value.items) else []
  }

  function Field(config: Value, key: string): Option<Value> {
    if config.Object? then Get(config.fields, Lit(key)) else None
  }

  /** The two lists of a policy entity. */
  datatype Side = Allow | Deny

  function Patterns(e: DocEntity, key: Side): seq<Text> {
    StringList(Field(e.config, if key.Allow? then "allow" else "deny"))
  }

  /** Every pattern under `key` in the document, in document order, repeats included. */
  function EntityPatterns(es: seq<DocEntity>, key: Side): seq<Text> {
    if es == [] then [] else EntityPatterns(es[..|es| - 1], key) + Patterns(es[|es| - 1], key)
  }

  function WorkspacePatterns(wss: seq<DocWorkspace>, key: Side): seq<Text> {
    if wss == [] then []
    else WorkspacePatterns(wss[..|wss| - 1], key) + EntityPatterns(Desired(wss[|wss| - 1], Policy), key)
  }

  function DocumentPatterns(orgs: seq<DocOrg>, key: Side): seq<Text> {
    if orgs == [] then []
    else DocumentPatterns(orgs[..|orgs| - 1], key) + WorkspacePatterns(orgs[|orgs| - 1].workspaces, key)
  }

  /** The policy of a document: its patterns without repeats, or none if it has none. */
  function PolicyOf(orgs: seq<DocOrg>): Option<ModelPolicy> {
    var a, d := DocumentPatterns(orgs, Allow), DocumentPatterns(orgs, Deny);
    if a == [] && d == [] then None else Some(ModelPolicy(AddAll([], a), AddAll([], d)))
  }

  method AddEach(s: seq<Text>, xs: seq<Text>) returns (r: seq<Text>)
    ensures r == AddAll(s, xs)
  {
    r := s;
    for i := 0 to |xs|
      invariant r == AddAll(s, xs[..i])
    {
      assert xs[..i + 1][..i] == xs[..i];
      r := Add(r, xs[i]);
    }
    assert xs[..|xs|] == xs;
  }

  /** What the collecting loop knows after some patterns. */
  ghost predicate Collected(allow: seq<Text>, deny: seq<Text>, found: bool, a: seq<Text>, d: seq<Text>) {
    allow == AddAll([], a) && deny == AddAll([], d) && found == (a != [] || d != [])
  }

  method CollectEntity(
    allow: seq<Text>, deny: seq<Text>, found: bool, e: DocEntity, ghost a: seq<Text>, ghost d: seq<Text>)
    returns (allow': seq<Text>, deny': seq<Text>, found': bool)
    requires Collected(allow, deny, found, a, d)
    ensures Collected(allow', deny', found', a + Patterns(e, Allow), d + Patterns(e, Deny))
  {
    var ea, ed := Patterns(e, Allow), Patterns(e, Deny);
    allow', deny', found' := allow, deny, found;
    AddAllJoin([], a, ea);
    AddAllJoin([], d, ed);
    if |ea| == 0 && |ed| == 0 {
      return;
    }
    found' := true;
    allow' := AddEach(allow, ea);
    deny' := AddEach(deny, ed);
  }

  lemma EntityPatternsNext(before: seq<Text>, es: seq<DocEntity>, i: nat, key: Side)
    requires i < |es|
    ensures before + EntityPatterns(es[..i], key) + Patterns(es[i], key) == before + EntityPatterns(es[..i + 1], key)
  {
    assert es[..i + 1][..i] == es[..i];
    assert EntityPatterns(es[..i + 1], key) == EntityPatterns(es[..i], key) + Patterns(es[i], key);
  }

  lemma WorkspacePatternsNext(before: seq<Text>, wss: seq<DocWorkspace>, i: nat, key: Side)
    requires i < |wss|
    ensures before + WorkspacePatterns(wss[..i], key) + EntityPatterns(Desired(wss[i], Policy), key)
         == before + WorkspacePatterns(wss[..i + 1], key)
  {
    assert wss[..i + 1][..i] == wss[..i];
    assert WorkspacePatterns(wss[..i + 1], key)
        == WorkspacePatterns(wss[..i], key) + EntityPatterns(Desired(wss[i], Policy), key);
  }

  method CollectWorkspace(
    allow: seq<Text>, deny: seq<Text>, found: bool, ws: DocWorkspace, ghost a: seq<Text>, ghost d: seq<Text>)
    returns (allow': seq<Text>, deny': seq<Text>, found': bool)
    requires Collected(allow, deny, found, a, d)
    ensures Collected(allow', deny', found',
                      a + EntityPatterns(Desired(ws, Policy), Allow), d + EntityPatterns(Desired(ws, Policy), Deny))
  {
    var es := Desired(ws, Policy);
    allow', deny', found' := allow, deny, found;
    assert a + [] == a && d + [] == d;
    for i := 0 to |es|
      invariant Collected(allow', deny', found', a + EntityPatterns(es[..i], Allow), d + EntityPatterns(es[..i], Deny))
    {
      ghost var a', d' := a + EntityPatterns(es[..i], Allow), d + EntityPatterns(es[..i], Deny);
      allow', deny', found' := CollectEntity(allow', deny', found', es[i], a', d');
      EntityPatternsNext(a, es, i, Allow);
      EntityPatternsNext(d, es, i, Deny);
    }
    assert es[..|es|] == es;
  }

  method CollectOrg(
    allow: seq<Text>, deny: seq<Text>, found: bool, wss: seq<DocWorkspace>, ghost a: seq<Text>, ghost d: seq<Text>)
    returns (allow': seq<Text>, deny': seq<Text>, found': bool)
    requires Collected(allow, deny, found, a, d)
    ensures Collected(allow', deny', found', a + WorkspacePatterns(wss, Allow), d + WorkspacePatterns(wss, Deny))
  {
    allow', deny', found' := allow, deny, found;
    assert a + [] == a && d + [] == d;
    for i := 0 to |wss|
      invariant Collected(allow', deny', found', a + WorkspacePatterns(wss[..i], Allow),
                          d + WorkspacePatterns(wss[..i], Deny))
    {
      ghost var a', d' := a + WorkspacePatterns(wss[..i], Allow), d + WorkspacePatterns(wss[..i], Deny);
      allow', deny', found' := CollectWorkspace(allow', deny', found', wss[i], a', d');
      WorkspacePatternsNext(a, wss, i, Allow);
      WorkspacePatternsNext(d, wss, i, Deny);
    }
    assert wss[..|wss|] == wss;
  }

  /** Adds the patterns of every policy entity of every workspace of every org to two ordered
      sets, and notes whether there was any. */
  method BuildModelPolicy(orgs: seq<DocOrg>) returns (policy: Option<ModelPolicy>)
    ensures policy == PolicyOf(orgs)
  {
    var allow, deny, found := [], [], false;
    for i := 0 to |orgs|
      invariant Collected(allow, deny, found, DocumentPatterns(orgs[..i], Allow), DocumentPatterns(orgs[..i], Deny))
    {
      allow, deny, found := CollectOrg(allow, deny, found, orgs[i].workspaces,
                                       DocumentPatterns(orgs[..i], Allow), DocumentPatterns(orgs[..i], Deny));
      assert orgs[..i + 1][..i] == orgs[..i];
    }
    assert orgs[..|orgs|] == orgs;
    return if found then Some(ModelPolicy(allow, deny)) else None;
  }

  /** What the document's policy decides, said without it: some pattern listed anywhere in
      the document matches. */
  lemma DocumentPolicyMatches(orgs: seq<DocOrg>, model: Text)
    ensures Denies(PolicyOf(orgs), model) <==> AnyMatches(DocumentPatterns(orgs, Deny), model)
    ensures Lists(PolicyOf(orgs), model) <==> AnyMatches(DocumentPatterns(orgs, Allow), model)
  {
    AddAllMatches([], DocumentPatterns(orgs, Deny), model);
    AddAllMatches([], DocumentPatterns(orgs, Allow), model);
  }
}
