/**
 * The conversation fingerprint of the gateway: a digest over the system prompt and the
 * first user turn, which must stay the same on every later turn of a conversation.
 */
module Conversation {
  import opened Common
  import opened Json
  import opened CanonicalJson

  /** The marker a client may add, move or remove between turns. */
  const MARKERS: set<Text> := {Lit("cache_control")}

  const SYSTEM: Text := Lit("system")
  const INSTRUCTIONS: Text := Lit("instructions")
  const MESSAGES: Text := Lit("messages")
  const INPUT: Text := Lit("input")
  const ROLE: Text := Lit("role")
  const CONTENT: Text := Lit("content")
  const USER: Text := Lit("user")

  /** `a ?? b` */
  function OrElse(a: Option<Value>, b: Option<Value>): Option<Value> {
    if a == None || a == Some(Null) then b else a
  }

  function TopSystem(body: Fields): Option<Value> {
    OrElse(Get(body, SYSTEM), Get(body, INSTRUCTIONS))
  }

  function Turns(body: Fields): Option<Items> {
    var messages, input := Get(body, MESSAGES), Get(body, INPUT);
    if messages.Some? && messages.value.Array? then Some(messages.value.items)
    else if input.Some? && input.value.Array? then Some(input.value.items)
    else None
  }

  /** What a scan of the turns found: the system content before the first user turn, and
      that turn's content. */
  datatype Scan = Scan(system: Option<Value>, found: bool, user: Option<Value>)

  function ScanTurns(ts: Items, system: Option<Value>): Scan {
    match ts
    case NoItems => Scan(system, false, None)
    case Item(t, rest) =>
      if !t.Object? then ScanTurns(rest, system)
      else if Get(t.fields, ROLE) == Some(Str(SYSTEM)) && system.None? then
        ScanTurns(rest, Get(t.fields, CONTENT))
      else if Get(t.fields, ROLE) == Some(Str(USER)) then
        Scan(system, true, Get(t.fields, CONTENT))
      else ScanTurns(rest, system)
  }

  function ScanBody(body: Fields): Scan {
    match Turns(body)
    case Some(ts) => ScanTurns(ts, None)
    case None =>
      var input := Get(body, INPUT);
      if input.Some? && input.value.Str? then Scan(None, true, input) else Scan(None, false, None)
  }

  /** The fixed prefix of the conversation, or nothing when the body has no user turn. */
  function Prefix(body: Fields): Option<(Value, Value)> {
    var s := ScanBody(body);
    if s.user.None? then None
    else Some((OrElse(OrElse(TopSystem(body), s.system), Some(Null)).value, s.user.value))
  }

  /** The bytes fed to the digest. */
  function Preimage(system: Value, user: Value): Text {
    CanonText(system, MARKERS) + [0] + CanonText(user, MARKERS)
  }

  function Fingerprint(body: Fields, hash: Text -> Text): Option<Text> {
    match Prefix(body)
    case None => None
    case Some((system, user)) => Some(hash(Preimage(system, user)))
  }

  /** `conversationFingerprint`, as the gateway scans the turns. */
  method ConversationFingerprint(body: Fields, hash: Text -> Text) returns (fp: Option<Text>)
    ensures fp == Fingerprint(body, hash)
  {
    var topSystem := TopSystem(body);
    var turns := Turns(body);
    var system: Option<Value>, user: Option<Value> := None, None;
    if turns.Some? {
      var rest := turns.value;
      while rest.Item?
        invariant user == None
        invariant ScanTurns(rest, system) == ScanTurns(turns.value, None)
        decreases rest
      {
        var t := rest.head;
        if t.Object? {
          if Get(t.fields, ROLE) == Some(Str(SYSTEM)) && system == None {
            system := Get(t.fields, CONTENT);
          } else if Get(t.fields, ROLE) == Some(Str(USER)) {
            user := Get(t.fields, CONTENT);
            break;
          }
        }
        rest := rest.tail;
      }
      assert ScanTurns(turns.value, None).system == system;
      assert ScanTurns(turns.value, None).user == user;
    } else if Get(body, INPUT).Some? && Get(body, INPUT).value.Str? {
      user := Get(body, INPUT);
    }
    if user == None {
      return None;
    }
    var fixedSystem := OrElse(OrElse(topSystem, system), Some(Null));
    return Some(hash(Preimage(fixedSystem.value, user.value)));
  }

  // ------------------------------------------------- what the fingerprint means

  ghost predicate CollisionFree(hash: Text -> Text) {
    forall x, y :: hash(x) == hash(y) ==> x == y
  }

  /** The fixed prefix as data: key order and cache markers do not count. */
  function PrefixMeaning(body: Fields): Option<(Meaning, Meaning)> {
    match Prefix(body)
    case None => None
    case Some((system, user)) => Some((MeaningOf(system, MARKERS), MeaningOf(user, MARKERS)))
  }

  lemma {:induction false} ScanWellFormed(ts: Items, system: Option<Value>)
    requires WellFormedItems(ts) && (system.Some? ==> WellFormed(system.value))
    ensures var s := ScanTurns(ts, system);
            && (s.system.Some? ==> WellFormed(s.system.value))
            && (s.user.Some? ==> WellFormed(s.user.value))
  {
    if ts.Item? {
      if ts.head.Object? && Get(ts.head.fields, ROLE) == Some(Str(SYSTEM)) && system.None? {
        ScanWellFormed(ts.tail, Get(ts.head.fields, CONTENT));
      } else {
        ScanWellFormed(ts.tail, system);
      }
    }
  }

  lemma PrefixWellFormed(body: Fields)
    requires WellFormedFields(body) && Prefix(body).Some?
    ensures WellFormed(Prefix(body).value.0) && WellFormed(Prefix(body).value.1)
  {
    if Turns(body).Some? {
      ScanWellFormed(Turns(body).value, None);
    }
  }

  lemma PreimageIdentifies(sa: Value, ua: Value, sb: Value, ub: Value)
    requires WellFormed(sa) && WellFormed(ua) && WellFormed(sb) && WellFormed(ub)
    ensures Preimage(sa, ua) == Preimage(sb, ub)
       <==> MeaningOf(sa, MARKERS) == MeaningOf(sb, MARKERS) && MeaningOf(ua, MARKERS) == MeaningOf(ub, MARKERS)
  {
    CanonPairDecodes(sa, ua, sb, ub, MARKERS, 0);
  }

  /** Two bodies share a fingerprint exactly when their fixed prefixes are equal as data,
      or neither has one. */
  lemma FingerprintIdentifiesPrefix(a: Fields, b: Fields, hash: Text -> Text)
    requires WellFormedFields(a) && WellFormedFields(b) && CollisionFree(hash)
    ensures Fingerprint(a, hash) == Fingerprint(b, hash) <==> PrefixMeaning(a) == PrefixMeaning(b)
  {
    var p, q := Prefix(a), Prefix(b);
    if p.Some? && q.Some? {
      PrefixWellFormed(a);
      PrefixWellFormed(b);
      PreimageIdentifies(p.value.0, p.value.1, q.value.0, q.value.1);
    }
  }

  // --------------------------------------------------- later turns do not count

  function Append(ts: Items, more: Items): Items {
    match ts
    case NoItems => more
    case Item(t, rest) => Item(t, Append(rest, more))
  }

  /** `{...o, [k]: v}` for a key already there. */
  function Put(fs: Fields, k: Text, v: Value): Fields {
    match fs
    case NoFields => NoFields
    case Field(k', v', r) => if k' == k then Field(k, v, r) else Field(k', v', Put(r, k, v))
  }

  lemma {:induction false} PutGet(fs: Fields, k: Text, v: Value, j: Text)
    ensures Get(Put(fs, k, v), j) == if j == k && Get(fs, k).Some? then Some(v) else Get(fs, j)
  {
    if fs.Field? {
      PutGet(fs.rest, k, v, j);
    }
  }

  lemma {:induction false} AppendScan(ts: Items, more: Items, system: Option<Value>)
    requires ScanTurns(ts, system).found
    ensures ScanTurns(Append(ts, more), system) == ScanTurns(ts, system)
  {
    if ts.head.Object? && Get(ts.head.fields, ROLE) == Some(Str(SYSTEM)) && system.None? {
      AppendScan(ts.tail, more, Get(ts.head.fields, CONTENT));
    } else if !(ts.head.Object? && Get(ts.head.fields, ROLE) == Some(Str(USER))) {
      AppendScan(ts.tail, more, system);
    }
  }

  /** Once the turns hold a user turn, any turns appended after them leave the
      fingerprint alone, in `messages` and in `input` form. */
  lemma LaterTurnsKeepFingerprint(body: Fields, key: Text, ts: Items, more: Items, hash: Text -> Text)
    requires key == MESSAGES || key == INPUT
    requires Get(body, key) == Some(Array(ts)) && Turns(body) == Some(ts)
    requires ScanTurns(ts, None).found
    ensures Fingerprint(Put(body, key, Array(Append(ts, more))), hash) == Fingerprint(body, hash)
  {
    var later := Put(body, key, Array(Append(ts, more)));
    var v := Array(Append(ts, more));
    PutGet(body, key, v, SYSTEM);
    PutGet(body, key, v, INSTRUCTIONS);
    PutGet(body, key, v, MESSAGES);
    PutGet(body, key, v, INPUT);
    assert TopSystem(later) == TopSystem(body);
    if key == INPUT && Get(body, MESSAGES).Some? && Get(body, MESSAGES).value.Array? {
      assert ScanBody(later) == ScanBody(body);
    } else {
      assert Turns(later) == Some(Append(ts, more));
      AppendScan(ts, more, None);
    }
  }
}
