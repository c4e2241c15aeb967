/**
 * Model name patterns. The gateway turns a pattern into the text of an anchored regular
 * expression: split on `*`, escape each piece, join with `.*`. The model builds that text,
 * reads it back as a regular expression, and shows what it accepts.
 */
module Glob {
  import opened Common
  import opened Json

  const STAR: CodeUnit := 42
  const DOT: CodeUnit := 46
  const BACKSLASH: CodeUnit := 92

  /** Units with a meaning of their own in a pattern: . * + ? ^ $ { } ( ) | [ ] \ */
  predicate Syntax(u: CodeUnit) {
    u in [46, 42, 43, 63, 94, 36, 123, 125, 40, 41, 124, 91, 93, 92]
  }

  /** `.` stands for any unit but these four. */
  predicate LineTerminator(u: CodeUnit) { u == 10 || u == 13 || u == 0x2028 || u == 0x2029 }

  predicate OneLine(s: Text) {
    forall i :: 0 <= i < |s| ==> !LineTerminator(s[i])
  }

  // ------------------------------------------------------------ the expression's text

  function Split(p: Text): (parts: seq<Text>)
    ensures parts != []
  {
    if p == [] then [[]]
    else
      var rest := Split(p[1..]);
      if p[0] == STAR then [[]] + rest else [[p[0]] + rest[0]] + rest[1..]
  }

  function EscapeUnitRe(u: CodeUnit): Text {
    if Syntax(u) then [BACKSLASH, u] else [u]
  }

  function EscapeRe(s: Text): Text {
    if s == [] then [] else EscapeUnitRe(s[0]) + EscapeRe(s[1..])
  }

  /** The escaped pieces with `.*` between them. */
  function Join(parts: seq<Text>): Text
    requires parts != []
  {
    if |parts| == 1 then EscapeRe(parts[0]) else EscapeRe(parts[0]) + [DOT, STAR] + Join(parts[1..])
  }

  function RegexText(p: Text): Text { Join(Split(p)) }

  // ------------------------------------------------------ reading it as an expression

  datatype Atom = Unit(u: CodeUnit) | AnyRun

  /** The fragment of the expression grammar used here: escaped units, plain units, `.*`. */
  function Parse(t: Text): Option<seq<Atom>> {
    if t == [] then Some([])
    else if t[0] == BACKSLASH then
      if |t| >= 2 && Syntax(t[1]) then Prepend(Unit(t[1]), Parse(t[2..])) else None
    else if t[0] == DOT && |t| >= 2 && t[1] == STAR then Prepend(AnyRun, Parse(t[2..]))
    else if Syntax(t[0]) then None
    else Prepend(Unit(t[0]), Parse(t[1..]))
  }

  function Prepend(a: Atom, rest: Option<seq<Atom>>): Option<seq<Atom>> {
    match rest
    case Some(atoms) => Some([a] + atoms)
    case None => None
  }

  /** Does the whole text match? */
  predicate Accepts(atoms: seq<Atom>, s: Text)
    decreases |atoms|
  {
    if atoms == [] then s == []
    else match atoms[0]
      case Unit(u) => s != [] && s[0] == u && Accepts(atoms[1..], s[1..])
      case AnyRun => exists k :: 0 <= k <= |s| && OneLine(s[..k]) && Accepts(atoms[1..], s[k..])
  }

  predicate ModelPatternMatches(pattern: Text, model: Text) {
    if pattern == [STAR] || pattern == model then true
    else if STAR !in pattern then false
    else match Parse(RegexText(pattern))
      case Some(atoms) => Accepts(atoms, model)
      case None => false
  }

  // ------------------------------------------------------------------- what it means

  /** Each `*` stands for a run, every other unit for itself. */
  function Atoms(p: Text): seq<Atom> {
    if p == [] then [] else [if p[0] == STAR then AnyRun else Unit(p[0])] + Atoms(p[1..])
  }

  lemma RegexCons(p: Text)
    requires p != []
    ensures RegexText(p)
         == (if p[0] == STAR then [DOT, STAR] else EscapeUnitRe(p[0])) + RegexText(p[1..])
  {
    var rest := Split(p[1..]);
    if p[0] == STAR {
      assert Split(p)[1..] == rest;
    } else {
      var first := [p[0]] + rest[0];
      assert first[1..] == rest[0];
      assert EscapeRe(first) == EscapeUnitRe(p[0]) + EscapeRe(rest[0]);
      assert Split(p)[1..] == rest[1..];
    }
  }

  /** Escaping is right: the text reads back as the pattern, whatever it contains. */
  lemma {:induction false} RegexReadsBack(p: Text)
    ensures Parse(RegexText(p)) == Some(Atoms(p))
  {
    if p != [] {
      RegexCons(p);
      RegexReadsBack(p[1..]);
      var head, tail := if p[0] == STAR then [DOT, STAR] else EscapeUnitRe(p[0]), RegexText(p[1..]);
      assert (head + tail)[|head|..] == tail;
    }
  }

  function Stars(p: Text): nat {
    if p == [] then 0 else (if p[0] == STAR then 1 else 0) + Stars(p[1..])
  }

  /** The pattern with its stars replaced, in order. */
  function Fill(p: Text, gaps: seq<Text>): Text
    requires |gaps| == Stars(p)
  {
    if p == [] then []
    else if p[0] == STAR then gaps[0] + Fill(p[1..], gaps[1..])
    else [p[0]] + Fill(p[1..], gaps)
  }

  ghost predicate OneLineGaps(gaps: seq<Text>) {
    forall i :: 0 <= i < |gaps| ==> OneLine(gaps[i])
  }

  /** The model is the pattern with some one-line text in place of each star. */
  ghost predicate Fills(p: Text, model: Text) {
    exists gaps: seq<Text> :: |gaps| == Stars(p) && OneLineGaps(gaps) && model == Fill(p, gaps)
  }

  lemma {:induction false} AcceptedFills(p: Text, s: Text) returns (gaps: seq<Text>)
    requires Accepts(Atoms(p), s)
    ensures |gaps| == Stars(p) && OneLineGaps(gaps) && s == Fill(p, gaps)
    decreases |p|
  {
    gaps := [];
    if p != [] {
      assert Atoms(p)[1..] == Atoms(p[1..]);
      if p[0] == STAR {
        var k :| 0 <= k <= |s| && OneLine(s[..k]) && Accepts(Atoms(p)[1..], s[k..]);
        var rest := AcceptedFills(p[1..], s[k..]);
        gaps := [s[..k]] + rest;
        assert gaps[1..] == rest && s == s[..k] + s[k..];
      } else {
        gaps := AcceptedFills(p[1..], s[1..]);
        assert s == [s[0]] + s[1..];
      }
    }
  }

  lemma {:induction false} FillIsAccepted(p: Text, gaps: seq<Text>)
    requires |gaps| == Stars(p) && OneLineGaps(gaps)
    ensures Accepts(Atoms(p), Fill(p, gaps))
    decreases |p|
  {
    if p != [] {
      var s := Fill(p, gaps);
      assert Atoms(p)[1..] == Atoms(p[1..]);
      if p[0] == STAR {
        FillIsAccepted(p[1..], gaps[1..]);
        var k := |gaps[0]|;
        assert s[..k] == gaps[0] && s[k..] == Fill(p[1..], gaps[1..]);
      } else {
        FillIsAccepted(p[1..], gaps);
        assert s[1..] == Fill(p[1..], gaps);
      }
    }
  }

  /** A pattern always matches its own text: a star can stand for a star. */
  lemma {:induction false} FillsItself(p: Text) returns (gaps: seq<Text>)
    ensures |gaps| == Stars(p) && OneLineGaps(gaps) && p == Fill(p, gaps)
  {
    gaps := [];
    if p != [] {
      var rest := FillsItself(p[1..]);
      if p[0] == STAR {
        gaps := [[STAR]] + rest;
        assert gaps[1..] == rest;
      } else {
        gaps := rest;
      }
      assert p == [p[0]] + p[1..];
    }
  }

  lemma {:induction false} NoStarsFill(p: Text)
    requires STAR !in p
    ensures Stars(p) == 0 && Fill(p, []) == p
  {
    if p != [] {
      NoStarsFill(p[1..]);
      assert p == [p[0]] + p[1..];
    }
  }

  /** A pattern matches exactly the models obtained from it by putting one-line text in place
      of each star; the lone star matches everything, several lines included. */
  lemma PatternMatchesIff(pattern: Text, model: Text)
    ensures ModelPatternMatches(pattern, model) <==> pattern == [STAR] || Fills(pattern, model)
  {
    RegexReadsBack(pattern);
    if pattern == model {
      var gaps := FillsItself(pattern);
    } else if STAR !in pattern {
      NoStarsFill(pattern);
    } else if Accepts(Atoms(pattern), model) {
      var gaps := AcceptedFills(pattern, model);
    } else if Fills(pattern, model) {
      var gaps: seq<Text> :| |gaps| == Stars(pattern) && OneLineGaps(gaps) && model == Fill(pattern, gaps);
      FillIsAccepted(pattern, gaps);
    }
  }

  lemma PrefixFills(prefix: Text, model: Text)
    requires STAR !in prefix
    ensures Fills(prefix + [STAR], model) <==> exists gap :: OneLine(gap) && model == prefix + gap
  {
    var p := prefix + [STAR];
    PrefixStars(prefix);
    if Fills(p, model) {
      var gaps: seq<Text> :| |gaps| == Stars(p) && OneLineGaps(gaps) && model == Fill(p, gaps);
      PrefixFill(prefix, gaps[0]);
      assert gaps == [gaps[0]];
      assert OneLine(gaps[0]);
    }
    forall gap | OneLine(gap) && model == prefix + gap ensures Fills(p, model) {
      PrefixFill(prefix, gap);
      assert OneLineGaps([gap]);
    }
  }

  /** So `claude-*` is a prefix test on one-line names, and misses a name with a line break
      after the prefix. */
  lemma PrefixPattern(prefix: Text, model: Text)
    requires STAR !in prefix && prefix != []
    ensures ModelPatternMatches(prefix + [STAR], model) <==> prefix <= model && OneLine(model[|prefix|..])
  {
    PatternMatchesIff(prefix + [STAR], model);
    PrefixFills(prefix, model);
    assert |prefix + [STAR]| != |[STAR]|;
    if prefix <= model && OneLine(model[|prefix|..]) {
      assert model == prefix + model[|prefix|..];
    }
    forall gap | OneLine(gap) && model == prefix + gap ensures prefix <= model && OneLine(model[|prefix|..]) {
      assert model[|prefix|..] == gap;
    }
  }

  lemma {:induction false} PrefixStars(prefix: Text)
    requires STAR !in prefix
    ensures Stars(prefix + [STAR]) == 1
  {
    if prefix != [] {
      PrefixStars(prefix[1..]);
      assert (prefix + [STAR])[1..] == prefix[1..] + [STAR];
    }
  }

  lemma {:induction false} PrefixFill(prefix: Text, gap: Text)
    requires STAR !in prefix
    ensures Stars(prefix + [STAR]) == 1 && Fill(prefix + [STAR], [gap]) == prefix + gap
  {
    PrefixStars(prefix);
    var q := prefix + [STAR];
    if prefix != [] {
      PrefixFill(prefix[1..], gap);
      assert q[1..] == prefix[1..] + [STAR];
      assert Fill(q, [gap]) == [q[0]] + (prefix[1..] + gap);
    } else {
      var none: seq<Text> := [];
      assert q[1..] == [] && [gap][1..] == none;
      assert Fill(q, [gap]) == gap + Fill([], none);
    }
  }
}
