/** Glob patterns as the policy matcher runs them: compiled to the text of a regular expression, parsed
    by the regular expression grammar and matched by backtracking. Text is a sequence of code points, as
    the `u` flag has it. */
module Glob {
  import opened Options
  import opened Sequences

  type Point = c: int | 0 <= c < 0x11_0000
  type Text = seq<Point>

  const BACKSLASH: Point := 92
  const CARET: Point := 94
  const DOLLAR: Point := 36
  const DOT: Point := 46
  const STAR: Point := 42

  /** `^ $ \ . * + ? ( ) [ ] { } |` */
  predicate SyntaxCharacter(c: Point) {
    c in {94, 36, 92, 46, 42, 43, 63, 40, 41, 91, 93, 123, 125, 124}
  }

  predicate LineTerminator(c: Point) {
    c in {10, 13, 0x2028, 0x2029}
  }

  // ----- the compiler

  /** Every syntax character but the star. */
  predicate Special(c: Point) {
    c in {124, 92, 123, 125, 40, 41, 91, 93, 94, 36, 43, 63, 46}
  }

  function EscapeRegex(t: Text): Text {
    if t == [] then [] else (if Special(t[0]) then [BACKSLASH, t[0]] else [t[0]]) + EscapeRegex(t[1..])
  }

  function ReplaceStars(t: Text): Text {
    if t == [] then [] else (if t[0] == STAR then [DOT, STAR] else [t[0]]) + ReplaceStars(t[1..])
  }

  function Expression(pattern: Text): Text {
    [CARET] + ReplaceStars(EscapeRegex(pattern)) + [DOLLAR]
  }

  // ----- the regular expression

  datatype Atom = Literal(c: Point) | Any

  datatype Term = Term(atom: Atom, starred: bool)

  function WithTerm(atom: Atom, rest: Text): Option<seq<Term>>
    decreases |rest|, 1
  {
    var starred := rest != [] && rest[0] == 42;
    var terms := ParseTerms(if starred then rest[1..] else rest);
    if terms.None? then None else Some([Term(atom, starred)] + terms.value)
  }

  /** Terms up to the closing anchor `$` (36), with `\` (92), `.` (46) and `*` (42) as the grammar has them.
      Groups, classes and other quantifiers are not in this fragment. */
  function ParseTerms(t: Text): Option<seq<Term>>
    decreases |t|, 0
  {
    if t == [36] then Some([])
    else if t == [] then None
    else if t[0] == 92 then
      if |t| > 1 && SyntaxCharacter(t[1]) then WithTerm(Literal(t[1]), t[2..]) else None
    else if t[0] == 46 then WithTerm(Any, t[1..])
    else if SyntaxCharacter(t[0]) then None
    else WithTerm(Literal(t[0]), t[1..])
  }

  /** A pattern anchored at both ends, by `^` (94) at the first. */
  function ParseExpression(t: Text): Option<seq<Term>> {
    if t != [] && t[0] == 94 then ParseTerms(t[1..]) else None
  }

  /** `fold` is the identity, or the case folding of the `i` flag. */
  ghost predicate AtomMatches(atom: Atom, c: Point, fold: Point -> Point) {
    match atom
    case Literal(expected) => fold(expected) == fold(c)
    case Any => exists other: Point :: !LineTerminator(other) && fold(other) == fold(c)
  }

  /** The backtracking matcher: a starred term takes as much as it can and gives back. */
  ghost predicate Matches(terms: seq<Term>, t: Text, fold: Point -> Point)
    decreases |t|, |terms|
  {
    if terms == [] then t == []
    else
      var takes := t != [] && AtomMatches(terms[0].atom, t[0], fold);
      if terms[0].starred then (takes && Matches(terms, t[1..], fold)) || Matches(terms[1..], t, fold)
      else takes && Matches(terms[1..], t[1..], fold)
  }

  /** `new RegExp(expression, flags).test(value)`; None when the expression does not parse. */
  ghost function Test(expression: Text, t: Text, fold: Point -> Point): Option<bool> {
    var terms := ParseExpression(expression);
    if terms.None? then None else Some(Matches(terms.value, t, fold))
  }

  // ----- what a glob means

  predicate OneLine(t: Text) { forall i | 0 <= i < |t| :: t[i] !in {10, 13, 8232, 8233} }

  /** The texts one character of a glob stands for: a star (42) for any on one line, others for themselves. */
  predicate Stands(c: Point, piece: Text, fold: Point -> Point) {
    if c == 42 then OneLine(piece) else |piece| == 1 && fold(c) == fold(piece[0])
  }

  /** A text is of a glob when it can be cut into pieces that the glob's characters stand for one by one. */
  ghost predicate IsCut(pattern: Text, pieces: seq<Text>, fold: Point -> Point) {
    |pieces| == |pattern| && forall i | 0 <= i < |pattern| :: Stands(pattern[i], pieces[i], fold)
  }

  ghost predicate Denotes(pattern: Text, t: Text, fold: Point -> Point) {
    exists pieces: seq<Text> :: IsCut(pattern, pieces, fold) && Flatten(pieces) == t
  }

  /** Folding keeps line terminators and other characters apart. */
  ghost predicate Folding(fold: Point -> Point) {
    forall a: Point, b: Point :: fold(a) == fold(b) ==> (LineTerminator(a) <==> LineTerminator(b))
  }

  // ----- the compiler preserves the meaning

  function TermOf(c: Point): Term {
    if c == STAR then Term(Any, true) else Term(Literal(c), false)
  }

  function TermsOf(pattern: Text): (terms: seq<Term>)
    ensures |terms| == |pattern|
  {
    seq(|pattern|, i requires 0 <= i < |pattern| => TermOf(pattern[i]))
  }

  lemma {:induction false} CompiledFirst(pattern: Text)
    ensures var t := ReplaceStars(EscapeRegex(pattern)) + [DOLLAR]; t != [] && t[0] != STAR
  {
    if pattern != [] {
      var c := pattern[0];
      assert EscapeRegex(pattern)[0] == if Special(c) then BACKSLASH else c;
    }
  }

  lemma {:induction false} ReplaceApart(a: Text, b: Text)
    requires forall i | 0 <= i < |a| :: a[i] != STAR
    ensures ReplaceStars(a + b) == a + ReplaceStars(b)
    decreases |a|
  {
    if a == [] {
      assert a + b == b;
    } else {
      ReplaceApart(a[1..], b);
      assert (a + b)[1..] == a[1..] + b;
    }
  }

  /** The text of a compiled pattern, character by character. */
  lemma CompiledStep(pattern: Text)
    requires pattern != []
    ensures var rest := ReplaceStars(EscapeRegex(pattern[1..])) + [DOLLAR];
            ReplaceStars(EscapeRegex(pattern)) + [DOLLAR] ==
              (if pattern[0] == STAR then [DOT, STAR] else if Special(pattern[0]) then [BACKSLASH, pattern[0]] else [pattern[0]]) + rest
  {
    var c, rest := pattern[0], EscapeRegex(pattern[1..]);
    if c == STAR {
      assert ([c] + rest)[1..] == rest;
    } else if Special(c) {
      ReplaceApart([BACKSLASH, c], rest);
    } else {
      ReplaceApart([c], rest);
    }
  }

  /** Whatever the pattern holds, backslashes and metacharacters included, its compiled text parses, and
      to one term for each of its characters. */
  lemma {:induction false} CompiledParses(pattern: Text)
    ensures ParseTerms(ReplaceStars(EscapeRegex(pattern)) + [DOLLAR]) == Some(TermsOf(pattern))
    decreases |pattern|
  {
    var text := ReplaceStars(EscapeRegex(pattern)) + [DOLLAR];
    if pattern == [] {
      assert text == [DOLLAR];
    } else {
      var c, rest := pattern[0], ReplaceStars(EscapeRegex(pattern[1..])) + [DOLLAR];
      CompiledParses(pattern[1..]);
      CompiledStep(pattern);
      CompiledFirst(pattern[1..]);
      hide ReplaceStars, EscapeRegex, ParseTerms;
      TermFirst(c, rest);
      assert TermsOf(pattern) == [TermOf(c)] + TermsOf(pattern[1..]);
    }
  }

  /** The text of one compiled character parses to its term. */
  lemma TermFirst(c: Point, rest: Text)
    requires rest != [] && rest[0] != STAR
    ensures var head := if c == STAR then [DOT, STAR] else if Special(c) then [BACKSLASH, c] else [c];
            ParseTerms(head + rest) == match ParseTerms(rest) case None => None case Some(terms) => Some([TermOf(c)] + terms)
  {
    if c == STAR {
      assert ([DOT, STAR] + rest)[1..] == [STAR] + rest && ([STAR] + rest)[1..] == rest;
    } else if Special(c) {
      assert ([BACKSLASH, c] + rest)[2..] == rest;
    } else {
      assert ([c] + rest)[1..] == rest;
    }
  }

  lemma AnyMatches(c: Point, fold: Point -> Point)
    requires Folding(fold)
    ensures AtomMatches(Any, c, fold) <==> !LineTerminator(c)
  {
  }

  lemma MatchedIsCut(pattern: Text, t: Text, fold: Point -> Point) returns (pieces: seq<Text>)
    requires Folding(fold) && Matches(TermsOf(pattern), t, fold)
    ensures IsCut(pattern, pieces, fold) && Flatten(pieces) == t
    decreases |t|, |pattern|
  {
    if pattern == [] {
      pieces := [];
    } else {
      var terms := TermsOf(pattern);
      assert terms[1..] == TermsOf(pattern[1..]);
      if pattern[0] != STAR {
        var rest := MatchedIsCut(pattern[1..], t[1..], fold);
        pieces := [[t[0]]] + rest;
      } else if t != [] && AtomMatches(Any, t[0], fold) && Matches(terms, t[1..], fold) {
        AnyMatches(t[0], fold);
        var rest := MatchedIsCut(pattern, t[1..], fold);
        pieces := [[t[0]] + rest[0]] + rest[1..];
        assert Flatten(pieces) == [t[0]] + Flatten(rest);
      } else {
        var rest := MatchedIsCut(pattern[1..], t, fold);
        pieces := [[]] + rest;
        assert Flatten(pieces) == [] + Flatten(rest);
      }
    }
  }

  lemma CutMatches(pattern: Text, pieces: seq<Text>, fold: Point -> Point)
    requires Folding(fold) && IsCut(pattern, pieces, fold)
    ensures Matches(TermsOf(pattern), Flatten(pieces), fold)
    decreases |pattern|, if pieces == [] then 0 else |pieces[0]|
  {
    if pattern != [] {
      var terms, t := TermsOf(pattern), Flatten(pieces);
      assert terms[1..] == TermsOf(pattern[1..]);
      if pattern[0] == STAR && pieces[0] != [] {
        var shorter := [pieces[0][1..]] + pieces[1..];
        CutMatches(pattern, shorter, fold);
        assert t[1..] == Flatten(shorter);
        AnyMatches(t[0], fold);
      } else {
        CutMatches(pattern[1..], pieces[1..], fold);
        if pattern[0] == STAR {
          assert t == Flatten(pieces[1..]);
        } else {
          assert t[1..] == Flatten(pieces[1..]);
        }
      }
    }
  }

  /** The glob compiler preserves meaning: the regular expression always parses, and it matches exactly the
      texts that the glob denotes. */
  lemma GlobIsItsDenotation(pattern: Text, t: Text, fold: Point -> Point)
    requires Folding(fold)
    ensures Test(Expression(pattern), t, fold) == Some(Denotes(pattern, t, fold))
  {
    CompiledParses(pattern);
    assert Expression(pattern)[1..] == ReplaceStars(EscapeRegex(pattern)) + [DOLLAR];
    if Matches(TermsOf(pattern), t, fold) {
      var pieces := MatchedIsCut(pattern, t, fold);
    }
    if pieces: seq<Text> :| IsCut(pattern, pieces, fold) && Flatten(pieces) == t {
      CutMatches(pattern, pieces, fold);
    }
  }
}
