/** JSON pointers as the body matchers follow them. */
module JsonPointer {
  import opened Numerals
  import opened Options
  import opened Radix
  import opened Text

  datatype Json = Scalar(id: nat) | Array(items: seq<Json>) | Object(members: map<string, Json>)

  /** Each tilde followed by the given character replaced, left to right. */
  function ReplaceAll(s: string, second: char, replacement: char): string {
    if s == "" then ""
    else if |s| > 1 && s[0] == '~' && s[1] == second then [replacement] + ReplaceAll(s[2..], second, replacement)
    else [s[0]] + ReplaceAll(s[1..], second, replacement)
  }

  function Unescaped(raw: string): string {
    ReplaceAll(ReplaceAll(raw, '1', '/'), '0', '~')
  }

  /** "0" or digits without a leading zero. */
  predicate IsIndex(segment: string) {
    segment != "" && (forall i | 0 <= i < |segment| :: Decimal(segment[i])) && (segment[0] == '0' ==> |segment| == 1)
  }

  function Child(current: Json, segment: string): Option<Json> {
    match current
    case Scalar(_) => None
    case Array(items) =>
      if IsIndex(segment) && Value(10, DigitValues(segment)) < |items| then Some(items[Value(10, DigitValues(segment))]) else None
    case Object(members) => if segment in members then Some(members[segment]) else None
  }

  /** Following reference tokens one by one. */
  function Follow(root: Json, tokens: seq<string>): Option<Json> {
    if tokens == [] then Some(root)
    else
      var parent := Follow(root, tokens[..|tokens| - 1]);
      if parent.None? then None else Child(parent.value, tokens[|tokens| - 1])
  }

  /** The tokens of a pointer. Its first character, which is a slash, is dropped unseen. */
  function TokensOf(pointer: string): seq<string> {
    if pointer == "" then []
    else
      var raws := Split(pointer[1..], '/');
      seq(|raws|, i requires 0 <= i < |raws| => Unescaped(raws[i]))
  }

  method Resolve(root: Json, pointer: string) returns (found: Option<Json>)
    ensures found == Follow(root, TokensOf(pointer))
  {
    if pointer == "" {
      return Some(root);
    }
    var raws := Split(pointer[1..], '/');
    ghost var tokens := TokensOf(pointer);
    var current := root;
    var index := 0;
    while index < |raws|
      invariant 0 <= index <= |raws|
      invariant Follow(root, tokens[..index]) == Some(current)
    {
      var segment := Unescaped(raws[index]);
      assert tokens[..index + 1][..index] == tokens[..index] && tokens[..index + 1][index] == segment;
      var child := Child(current, segment);
      if child.None? {
        LostForGood(root, tokens, index + 1);
        return None;
      }
      current := child.value;
      index := index + 1;
    }
    assert tokens[..index] == tokens;
    found := Some(current);
  }

  lemma {:induction false} LostForGood(root: Json, tokens: seq<string>, n: nat)
    requires n <= |tokens| && Follow(root, tokens[..n]).None?
    ensures Follow(root, tokens).None?
    decreases |tokens|
  {
    if n < |tokens| {
      assert tokens[..|tokens| - 1][..n] == tokens[..n];
      LostForGood(root, tokens[..|tokens| - 1], n);
    } else {
      assert tokens[..n] == tokens;
    }
  }

  // ----- printing a path

  /** A token as sections 3 and 4 of RFC 6901 escape it. */
  function Escaped(token: string): string {
    if token == "" then ""
    else (if token[0] == '~' then "~0" else if token[0] == '/' then "~1" else [token[0]]) + Escaped(token[1..])
  }

  function Pointer(tokens: seq<string>): string {
    if tokens == [] then "" else "/" + Escaped(tokens[0]) + Pointer(tokens[1..])
  }

  /** A token with only its tildes escaped. */
  function TildesEscaped(token: string): string {
    if token == "" then "" else (if token[0] == '~' then "~0" else [token[0]]) + TildesEscaped(token[1..])
  }

  lemma ReplacePlain(c: char, rest: string, second: char, replacement: char)
    requires c != '~'
    ensures ReplaceAll([c] + rest, second, replacement) == [c] + ReplaceAll(rest, second, replacement)
  {
    assert ([c] + rest)[1..] == rest;
  }

  lemma ReplacePair(rest: string, second: char, replacement: char)
    ensures ReplaceAll(['~', second] + rest, second, replacement) == [replacement] + ReplaceAll(rest, second, replacement)
  {
    assert (['~', second] + rest)[2..] == rest;
  }

  lemma TildeZeroStays(rest: string)
    ensures ReplaceAll("~0" + rest, '1', '/') == "~0" + ReplaceAll(rest, '1', '/')
  {
    ReplacePlain('0', rest, '1', '/');
    assert ("~0" + rest)[1..] == ['0'] + rest;
    assert ReplaceAll("~0" + rest, '1', '/') == "~" + ReplaceAll(['0'] + rest, '1', '/');
  }

  lemma {:induction false} SlashesRestored(token: string)
    ensures ReplaceAll(Escaped(token), '1', '/') == TildesEscaped(token)
  {
    hide ReplaceAll;
    if token == "" {
      NothingReplaced();
    } else {
      var rest := Escaped(token[1..]);
      SlashesRestored(token[1..]);
      if token[0] == '~' {
        TildeZeroStays(rest);
      } else if token[0] == '/' {
        ReplacePair(rest, '1', '/');
      } else {
        ReplacePlain(token[0], rest, '1', '/');
      }
    }
  }

  lemma NothingReplaced()
    ensures ReplaceAll("", '1', '/') == "" && ReplaceAll("", '0', '~') == ""
  {
  }

  lemma {:induction false} TildesRestored(token: string)
    ensures ReplaceAll(TildesEscaped(token), '0', '~') == token
  {
    hide ReplaceAll;
    if token == "" {
      NothingReplaced();
    } else {
      var rest := TildesEscaped(token[1..]);
      TildesRestored(token[1..]);
      if token[0] == '~' { ReplacePair(rest, '0', '~'); } else { ReplacePlain(token[0], rest, '0', '~'); }
    }
  }

  /** Unescaping undoes escaping, and would not with its two replacements the other way round. */
  lemma UnescapedEscaped(token: string)
    ensures Unescaped(Escaped(token)) == token
    ensures ReplaceAll(ReplaceAll(Escaped("~1"), '0', '~'), '1', '/') == "/"
  {
    SlashesRestored(token);
    TildesRestored(token);
    assert "~1"[1..] == "1" && Escaped("1") == "1" && Escaped("~1") == "~01";
    assert "~01"[2..] == "1" && ReplaceAll("1", '0', '~') == "1" && ReplaceAll("~01", '0', '~') == "~1";
  }

  lemma {:induction false} EscapedHasNoSlash(token: string)
    ensures Without(Escaped(token), '/')
  {
    if token != "" { EscapedHasNoSlash(token[1..]); }
  }

  lemma {:induction false} PointerTokens(tokens: seq<string>)
    requires tokens != []
    ensures TokensOf(Pointer(tokens)) == tokens
    decreases |tokens|
  {
    hide Unescaped, Split, Escaped, TokensOf;
    var first, later := Escaped(tokens[0]), Pointer(tokens[1..]);
    UnescapedEscaped(tokens[0]);
    EscapedHasNoSlash(tokens[0]);
    assert Pointer(tokens) == "/" + first + later;
    if |tokens| == 1 {
      assert "/" + first + later == "/" + first;
      OneToken(first);
    } else {
      PointerTokens(tokens[1..]);
      assert later != "" && later[0] == '/';
      hide Pointer;
      FirstToken(first, later);
    }
    assert tokens == [tokens[0]] + tokens[1..];
  }

  lemma OneToken(raw: string)
    requires Without(raw, '/')
    ensures TokensOf("/" + raw) == [Unescaped(raw)]
  {
    hide Unescaped, Split;
    assert ("/" + raw)[1..] == raw;
    SplitWhole(raw, '/');
  }

  lemma FirstToken(raw: string, later: string)
    requires Without(raw, '/') && later != "" && later[0] == '/'
    ensures TokensOf("/" + raw + later) == [Unescaped(raw)] + TokensOf(later)
  {
    hide Unescaped, Split;
    assert ("/" + raw + later)[1..] == raw + ['/'] + later[1..];
    SplitAfter(raw, '/', later[1..]);
  }

  /** A printed path leads where its tokens do, whatever slashes and tildes they hold, through arrays by
      their decimal index as through objects by key. */
  lemma PointerFollowsPath(root: Json, tokens: seq<string>)
    ensures Follow(root, TokensOf(Pointer(tokens))) == Follow(root, tokens)
    ensures forall i, items | 0 <= i < |items| :: Child(Array(items), DecimalText(i)) == Some(items[i])
  {
    if tokens != [] { PointerTokens(tokens); }
    forall i, items: seq<Json> | 0 <= i < |items| ensures Child(Array(items), DecimalText(i)) == Some(items[i]) {
      DecimalReadsBack(i);
    }
  }
}
