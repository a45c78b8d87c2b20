/** The spellings a hosting gateway may give a path, and the binding to the original that undoes them. */
module IngressPath {
  import opened Options
  import opened Text

  predicate IsHex(c: char) {
    '0' <= c <= '9' || 'a' <= c <= 'f' || 'A' <= c <= 'F'
  }

  function HexValue(c: char): (v: int)
    requires IsHex(c)
    ensures 0 <= v < 16
  {
    if c <= '9' then c as int - '0' as int
    else if c <= 'F' then c as int - 'A' as int + 10
    else c as int - 'a' as int + 10
  }

  function UpperHex(v: int): char
    requires 0 <= v < 16
  {
    if v < 10 then '0' + v as char else 'A' + (v - 10) as char
  }

  type Octet = b: int | 0 <= b < 256

  /** A percent sign and two hexadecimal digits at the start of the text. */
  predicate StartsEscape(s: string) {
    |s| >= 3 && s[0] == '%' && IsHex(s[1]) && IsHex(s[2])
  }

  function EscapeValue(s: string): Octet
    requires StartsEscape(s)
  {
    HexValue(s[1]) * 16 + HexValue(s[2])
  }

  function EscapeOf(b: Octet): string {
    ['%', UpperHex(b / 16), UpperHex(b % 16)]
  }

  predicate Alphanumeric(c: char) {
    'A' <= c <= 'Z' || 'a' <= c <= 'z' || '0' <= c <= '9'
  }

  /** The unreserved characters of section 2.3 of RFC 3986. */
  predicate Unreserved(c: char) { Alphanumeric(c) || c in "._~-" }

  predicate FormSafe(c: char) { Alphanumeric(c) || c in "*._-" }

  predicate WellEscaped(s: string) {
    s == [] || if s[0] == '%' then StartsEscape(s) && WellEscaped(s[3..]) else WellEscaped(s[1..])
  }

  predicate Visible(s: string) {
    forall i | 0 <= i < |s| :: '!' <= s[i] <= '~'
  }

  // ----- the code's transformations

  function UpperEscapes(s: string): string {
    if s == [] then []
    else if StartsEscape(s) then ['%', UpperHex(HexValue(s[1])), UpperHex(HexValue(s[2]))] + UpperEscapes(s[3..])
    else [s[0]] + UpperEscapes(s[1..])
  }

  function NormalizedEscape(s: string): string
    requires StartsEscape(s)
  {
    var character := EscapeValue(s) as char;
    if Unreserved(character) then [character] else ['%', UpperHex(HexValue(s[1])), UpperHex(HexValue(s[2]))]
  }

  function NormalizedPath(s: string): string {
    if s == [] then []
    else if StartsEscape(s) then NormalizedEscape(s) + NormalizedPath(s[3..])
    else [s[0]] + NormalizedPath(s[1..])
  }

  /** Each run of slashes becomes one. */
  function Collapsed(s: string): string {
    if s == [] then []
    else if |s| > 1 && s[0] == '/' && s[1] == '/' then Collapsed(s[1..])
    else [s[0]] + Collapsed(s[1..])
  }

  function QueryUnit(plus: bool, b: Octet): string {
    if plus || b == 32 then "+" else if FormSafe(b as char) then [b as char] else EscapeOf(b)
  }

  function NormalizedQueryComponent(s: string): string
    requires Visible(s)
  {
    if s == [] then []
    else if StartsEscape(s) then QueryUnit(false, EscapeValue(s)) + NormalizedQueryComponent(s[3..])
    else if s[0] == '%' then "%" + NormalizedQueryComponent(s[1..])
    else QueryUnit(s[0] == '+', s[0] as int) + NormalizedQueryComponent(s[1..])
  }

  function NormalizedPair(pair: string): string
    requires Visible(pair)
  {
    var i := IndexOf(pair, '=');
    if i == |pair| then NormalizedQueryComponent(pair)
    else NormalizedQueryComponent(pair[..i]) + "=" + NormalizedQueryComponent(pair[i + 1..])
  }

  function NormalizedPairs(pairs: seq<string>): (normalized: seq<string>)
    requires forall i | 0 <= i < |pairs| :: Visible(pairs[i])
    ensures |normalized| == |pairs|
  {
    seq(|pairs|, i requires 0 <= i < |pairs| => NormalizedPair(pairs[i]))
  }

  lemma {:induction false} SplitVisible(s: string, c: char)
    requires Visible(s)
    ensures forall i | 0 <= i < |Split(s, c)| :: Visible(Split(s, c)[i])
    decreases |s|
  {
    var i := IndexOf(s, c);
    if i < |s| { SplitVisible(s[i + 1..], c); }
  }

  function NormalizedQuery(query: string): string
    requires Visible(query)
  {
    if query == [] then []
    else
      SplitVisible(query[1..], '&');
      "?" + Join(NormalizedPairs(Split(query[1..], '&')), '&')
  }

  function PathPart(s: string): string { s[..IndexOf(s, '?')] }

  function QueryPart(s: string): string { s[IndexOf(s, '?')..] }

  const METADATA_BYTES := 49_152

  /** `serialized` is what parsing and printing the text as a URL path would give. */
  predicate OriginalPath(s: string, serialized: string) {
    && s != [] && s[0] == '/' && |s| <= METADATA_BYTES && Visible(s) && '\\' !in s && '#' !in s && WellEscaped(s)
    && serialized == s
  }

  /** The original path when the observed one is a spelling of it that a hosting gateway is known to
      produce. */
  function RestoreIngressPath(original: string, serialized: string, observed: string): Option<string> {
    if !OriginalPath(original, serialized) then None
    else
      var path, query := PathPart(original), QueryPart(original);
      var paths := [path, UpperEscapes(path), NormalizedPath(path)];
      var accepted := paths + seq(3, i requires 0 <= i < 3 => Collapsed(paths[i]));
      if PathPart(observed) !in accepted || QueryPart(observed) !in [query, UpperEscapes(query), NormalizedQuery(query)]
      then None
      else Some(original)
  }

  // ----- what a path means

  /** A character, or an octet that keeps its escape because it stands for no unreserved character. */
  datatype PathUnit = Plain(c: char) | Kept(b: Octet)

  /** The path with its escapes read, as sections 6.2.2.1 and 6.2.2.2 of RFC 3986 let them be; a percent
      sign that starts no escape is read as itself. */
  function PathUnits(s: string): seq<PathUnit> {
    if s == [] then []
    else if StartsEscape(s) then
      var b := EscapeValue(s);
      [if Unreserved(b as char) then Plain(b as char) else Kept(b)] + PathUnits(s[3..])
    else [Plain(s[0])] + PathUnits(s[1..])
  }

  function PathText(units: seq<PathUnit>): string {
    if units == [] then []
    else (match units[0] case Plain(c) => [c] case Kept(b) => EscapeOf(b)) + PathText(units[1..])
  }

  predicate Canonical(units: seq<PathUnit>) {
    forall i | 0 <= i < |units| ::
      match units[i] case Plain(c) => c != '%' case Kept(b) => !Unreserved(b as char)
  }

  lemma EscapeReadsBack(b: Octet, rest: string)
    ensures StartsEscape(EscapeOf(b) + rest) && EscapeValue(EscapeOf(b) + rest) == b && (EscapeOf(b) + rest)[3..] == rest
  {
    assert b / 16 * 16 + b % 16 == b;
  }

  lemma EscapeIsUpper(s: string)
    requires StartsEscape(s)
    ensures EscapeOf(EscapeValue(s)) == ['%', UpperHex(HexValue(s[1])), UpperHex(HexValue(s[2]))]
  {
  }

  lemma UpperFirst(s: string)
    requires s != []
    ensures UpperEscapes(s) == if StartsEscape(s) then EscapeOf(EscapeValue(s)) + UpperEscapes(s[3..])
                               else [s[0]] + UpperEscapes(s[1..])
  {
    if StartsEscape(s) { EscapeIsUpper(s); }
  }

  predicate Reserved(units: seq<PathUnit>) {
    forall i | 0 <= i < |units| :: units[i].Kept? ==> !Unreserved(units[i].b as char)
  }

  lemma {:induction false} NormalizedIsText(s: string)
    ensures NormalizedPath(s) == PathText(PathUnits(s))
  {
    if s != [] {
      hide UpperHex, HexValue, EscapeOf, EscapeValue, Unreserved, IsHex;
      if StartsEscape(s) {
        NormalizedIsText(s[3..]);
        EscapeIsUpper(s);
      } else {
        NormalizedIsText(s[1..]);
      }
    }
  }

  lemma {:induction false} UnitsReserved(s: string)
    ensures Reserved(PathUnits(s))
    ensures WellEscaped(s) ==> Canonical(PathUnits(s))
  {
    if s != [] {
      assert !Unreserved('%');
      hide UpperHex, HexValue, EscapeOf, EscapeValue, Unreserved, IsHex;
      if StartsEscape(s) { UnitsReserved(s[3..]); } else { UnitsReserved(s[1..]); }
    }
  }

  lemma {:induction false} UnitsReadBack(units: seq<PathUnit>)
    requires Canonical(units)
    ensures WellEscaped(PathText(units)) && PathUnits(PathText(units)) == units
  {
    if units != [] {
      UnitsReadBack(units[1..]);
      assert units == [units[0]] + units[1..];
      var text, rest := PathText(units), PathText(units[1..]);
      match units[0]
      case Plain(c) => assert text == [c] + rest && text[1..] == rest;
      case Kept(b) => EscapeReadsBack(b, rest);
    }
  }

  lemma {:induction false} UpperKeepsUnits(s: string)
    requires WellEscaped(s)
    ensures WellEscaped(UpperEscapes(s)) && PathUnits(UpperEscapes(s)) == PathUnits(s)
  {
    if s != [] {
      hide UpperEscapes, EscapeOf, EscapeValue, IsHex, Unreserved;
      UpperFirst(s);
      if s[0] == '%' {
        UpperKeepsUnits(s[3..]);
        EscapeReadsBack(EscapeValue(s), UpperEscapes(s[3..]));
      } else {
        UpperKeepsUnits(s[1..]);
        assert UpperEscapes(s)[1..] == UpperEscapes(s[1..]);
      }
    } else {
      NothingUpper();
    }
  }

  /** Path normalization is a canonical form: two well-escaped paths have the same one exactly when they
      mean the same; so it absorbs the uppercasing of escapes and is idempotent. */
  lemma PathCanonicalForm(a: string, b: string)
    requires WellEscaped(a) && WellEscaped(b)
    ensures NormalizedPath(a) == NormalizedPath(b) <==> PathUnits(a) == PathUnits(b)
    ensures WellEscaped(UpperEscapes(a)) && NormalizedPath(UpperEscapes(a)) == NormalizedPath(a)
    ensures WellEscaped(NormalizedPath(a)) && NormalizedPath(NormalizedPath(a)) == NormalizedPath(a)
  {
    NormalizedIsText(a);
    NormalizedIsText(b);
    UnitsReserved(a);
    UnitsReserved(b);
    UnitsReadBack(PathUnits(a));
    UnitsReadBack(PathUnits(b));
    UpperKeepsUnits(a);
    NormalizedIsText(UpperEscapes(a));
    NormalizedIsText(NormalizedPath(a));
  }

  /** Two hexadecimal digits come first, so that a percent sign before them makes an escape. */
  predicate Uncovered(c: char, units: seq<PathUnit>) {
    c == '%' && |units| >= 2 && units[0].Plain? && units[1].Plain? && IsHex(units[0].c) && IsHex(units[1].c)
  }

  /** A percent sign that starts no escape, but comes to stand before two hexadecimal digits and with them
      would be read as an unreserved character or rewritten in upper case. */
  predicate Uncovers(units: seq<PathUnit>) {
    && units != [] && units[0] == Plain('%') && Uncovered('%', units[1..])
    && (Unreserved(EscapeValue(['%', units[1].c, units[2].c]) as char)
        || 'a' <= units[1].c <= 'f' || 'a' <= units[2].c <= 'f')
  }

  predicate Settled(units: seq<PathUnit>) {
    forall i | 0 <= i < |units| :: !Uncovers(units[i..])
  }

  /** On every text, normalizing twice is normalizing once exactly when no stray percent sign uncovers an
      escape; in a well-escaped text, and the code normalizes no other, there is no stray one. */
  lemma IdempotentExactly(s: string)
    ensures NormalizedPath(NormalizedPath(s)) == NormalizedPath(s) <==> Settled(PathUnits(s))
    ensures WellEscaped(s) ==> Settled(PathUnits(s))
  {
    NormalizedIsText(s);
    UnitsReserved(s);
    SettledExactly(PathUnits(s));
  }

  /** A text that is not settled: one pass uncovers an escape that a second one reads. */
  lemma StrayPercentIsNotIdempotent()
    ensures var s := "%%34%31";
            !Settled(PathUnits(s)) && NormalizedPath(s) == "%41" && NormalizedPath(NormalizedPath(s)) == "A"
  {
    assert NormalizedPath("%%34%31") == "%" + NormalizedPath("%34%31");
    assert "%34%31"[3..] == "%31" && "%31"[3..] == "";
    assert NormalizedPath("%34%31") == "4" + ("1" + "");
    assert NormalizedPath("%41") == "A" + NormalizedPath("");
    IdempotentExactly("%%34%31");
  }

  lemma {:induction false} SettledExactly(units: seq<PathUnit>)
    requires Reserved(units)
    ensures NormalizedPath(PathText(units)) == PathText(units) <==> Settled(units)
  {
    if units != [] {
      hide NormalizedPath, PathText, Settled, Uncovers, Unreserved, EscapeOf;
      SettledExactly(units[1..]);
      SettledFirst(units);
      var rest := units[1..];
      assert units == [units[0]] + rest;
      match units[0]
      case Kept(b) =>
        KeptAgain(b, rest);
        SamePrefix(EscapeOf(b), NormalizedPath(PathText(rest)), PathText(rest));
      case Plain(c) =>
        if Uncovered(c, rest) {
          StraySettles(rest[0].c, rest[1].c, rest[2..]);
          assert rest == [Plain(rest[0].c), Plain(rest[1].c)] + rest[2..];
        } else {
          PlainAgain(c, rest);
          SamePrefix([c], NormalizedPath(PathText(rest)), PathText(rest));
        }
    } else {
      NothingNormalized();
    }
  }

  lemma SamePrefix(head: string, a: string, b: string)
    ensures head + a == head + b <==> a == b
  {
    assert (head + a)[|head|..] == a && (head + b)[|head|..] == b;
  }

  lemma SettledFirst(units: seq<PathUnit>)
    requires units != []
    ensures Settled(units) <==> !Uncovers(units) && Settled(units[1..])
  {
    hide Uncovers;
    assert units[0..] == units;
    forall i | 0 <= i < |units| - 1 ensures units[1..][i..] == units[i + 1..] {
    }
    if !Uncovers(units) && Settled(units[1..]) {
      forall i | 0 <= i < |units| ensures !Uncovers(units[i..]) {
        if i > 0 { assert !Uncovers(units[1..][i - 1..]); }
      }
    }
  }

  lemma KeptAgain(b: Octet, units: seq<PathUnit>)
    requires !Unreserved(b as char)
    ensures !Uncovers([Kept(b)] + units)
    ensures PathText([Kept(b)] + units) == EscapeOf(b) + PathText(units)
    ensures NormalizedPath(EscapeOf(b) + PathText(units)) == EscapeOf(b) + NormalizedPath(PathText(units))
  {
    var text := EscapeOf(b) + PathText(units);
    assert ([Kept(b)] + units)[1..] == units;
    EscapeReadsBack(b, PathText(units));
    EscapeIsUpper(text);
  }

  lemma PlainAgain(c: char, units: seq<PathUnit>)
    requires !Uncovered(c, units)
    ensures !Uncovers([Plain(c)] + units)
    ensures PathText([Plain(c)] + units) == [c] + PathText(units)
    ensures NormalizedPath([c] + PathText(units)) == [c] + NormalizedPath(PathText(units))
  {
    var text, rest := [c] + PathText(units), PathText(units);
    assert ([Plain(c)] + units)[1..] == units && text[1..] == rest;
    if units != [] {
      assert rest[0] == (match units[0] case Plain(h) => h case Kept(_) => '%');
      if units[0].Plain? && |units| > 1 {
        assert rest[1..] == PathText(units[1..]);
        assert rest[1] == (match units[1] case Plain(h) => h case Kept(_) => '%');
      }
    }
  }

  /** The case of a stray percent sign before two hexadecimal digits. */
  lemma StraySettles(high: char, low: char, units: seq<PathUnit>)
    requires IsHex(high) && IsHex(low)
    ensures var two := [Plain(high), Plain(low)] + units;
            var text, all := PathText(two), PathText([Plain('%')] + two);
            NormalizedPath(all) == all <==> NormalizedPath(text) == text && !Uncovers([Plain('%')] + two)
  {
    hide NormalizedPath, NormalizedEscape, Unreserved, EscapeValue, PathText;
    var two, rest := [Plain(high), Plain(low)] + units, PathText(units);
    StrayText(high, low, units);
    TextFirst('%', two);
    assert ['%'] + ([high, low] + rest) == ['%', high, low] + rest;
    EscapedFirst(high, low, rest);
    EscapeUncovered(high, low, rest, NormalizedPath(rest));
    assert ([Plain('%')] + two)[1..] == two && ([high, low] + NormalizedPath(rest))[2..] == NormalizedPath(rest);
    assert ([high, low] + rest)[2..] == rest;
  }

  lemma StrayText(high: char, low: char, units: seq<PathUnit>)
    requires IsHex(high) && IsHex(low)
    ensures PathText([Plain(high), Plain(low)] + units) == [high, low] + PathText(units)
    ensures NormalizedPath([high, low] + PathText(units)) == [high, low] + NormalizedPath(PathText(units))
  {
    var one, rest := [Plain(low)] + units, PathText(units);
    assert !Uncovered(low, units) && !Uncovered(high, one);
    hide NormalizedPath, PathText, Uncovered, Uncovers, IsHex;
    PlainAgain(low, units);
    PlainAgain(high, one);
    assert [Plain(high)] + one == [Plain(high), Plain(low)] + units && [high] + ([low] + rest) == [high, low] + rest;
    assert [high] + ([low] + NormalizedPath(rest)) == [high, low] + NormalizedPath(rest);
  }

  lemma TextFirst(c: char, units: seq<PathUnit>)
    ensures PathText([Plain(c)] + units) == [c] + PathText(units)
  {
    assert ([Plain(c)] + units)[1..] == units;
  }

  lemma EscapedFirst(high: char, low: char, rest: string)
    requires IsHex(high) && IsHex(low)
    ensures NormalizedPath(['%', high, low] + rest) == NormalizedEscape(['%', high, low]) + NormalizedPath(rest)
  {
    assert (['%', high, low] + rest)[3..] == rest;
  }

  lemma EscapeUncovered(high: char, low: char, rest: string, after: string)
    requires IsHex(high) && IsHex(low)
    ensures NormalizedEscape(['%', high, low]) + after == ['%', high, low] + rest
       <==> after == rest && !(Unreserved(EscapeValue(['%', high, low]) as char) || 'a' <= high <= 'f' || 'a' <= low <= 'f')
  {
    var escape := NormalizedEscape(['%', high, low]);
    var whole := ['%', high, low] + rest;
    if Unreserved(EscapeValue(['%', high, low]) as char) {
      assert (escape + after)[0] != '%';
    } else {
      assert (escape + after)[3..] == after && whole[3..] == rest;
      assert (escape + after)[1] == UpperHex(HexValue(high)) && (escape + after)[2] == UpperHex(HexValue(low));
      assert escape == ['%', high, low] <==> UpperHex(HexValue(high)) == high && UpperHex(HexValue(low)) == low;
    }
  }

  // ----- collapsing slashes

  predicate NoSlash(s: string) { forall i | 0 <= i < |s| :: s[i] != '/' }

  lemma {:induction false} CollapsedAfter(e: string, rest: string)
    requires NoSlash(e)
    ensures Collapsed(e + rest) == e + Collapsed(rest)
  {
    if e == [] {
      assert e + rest == rest;
    } else {
      assert (e + rest)[1..] == e[1..] + rest;
      CollapsedAfter(e[1..], rest);
    }
  }

  lemma {:induction false} CollapsedFirst(s: string)
    ensures s != [] ==> Collapsed(s) != [] && Collapsed(s)[0] == s[0]
  {
    if |s| > 1 && s[0] == '/' && s[1] == '/' { CollapsedFirst(s[1..]); }
  }

  lemma {:induction false} CollapsedEscaped(s: string)
    requires WellEscaped(s)
    ensures WellEscaped(Collapsed(s))
  {
    if s != [] {
      if s[0] == '%' {
        CollapsedEscaped(s[3..]);
        CollapsedAfter(s[..3], s[3..]);
        assert s == s[..3] + s[3..] && Collapsed(s)[3..] == Collapsed(s[3..]);
      } else {
        CollapsedEscaped(s[1..]);
      }
    }
  }

  lemma {:induction false} CollapsedTwice(s: string)
    ensures Collapsed(Collapsed(s)) == Collapsed(s)
  {
    if s != [] {
      CollapsedTwice(s[1..]);
      CollapsedFirst(s[1..]);
      assert |s| == 1 ==> Collapsed(s[1..]) == [];
      if !(|s| > 1 && s[0] == '/' && s[1] == '/') {
        assert Collapsed(s)[1..] == Collapsed(s[1..]);
      }
    }
  }

  lemma NormalizedFirst(s: string)
    requires WellEscaped(s) && s != []
    ensures NormalizedPath(s) != [] && (NormalizedPath(s)[0] == '/' <==> s[0] == '/')
  {
  }

  lemma EscapeStep(s: string, rest: string)
    requires StartsEscape(s)
    ensures NormalizedPath(s[..3] + rest) == NormalizedEscape(s) + NormalizedPath(rest)
    ensures Collapsed(s[..3] + rest) == s[..3] + Collapsed(rest)
    ensures NoSlash(NormalizedEscape(s))
  {
    hide Collapsed;
    assert (s[..3] + rest)[3..] == rest;
    CollapsedAfter(s[..3], rest);
  }

  lemma PlainStep(c: char, rest: string)
    requires c != '%'
    ensures NormalizedPath([c] + rest) == [c] + NormalizedPath(rest)
    ensures Collapsed([c] + rest) == if c == '/' && rest != [] && rest[0] == '/' then Collapsed(rest) else [c] + Collapsed(rest)
  {
    assert ([c] + rest)[1..] == rest;
  }

  /** A slash is neither made nor unmade by normalization, so collapsing commutes with it. */
  lemma {:induction false} CollapseCommutes(s: string)
    requires WellEscaped(s)
    ensures Collapsed(NormalizedPath(s)) == NormalizedPath(Collapsed(s))
  {
    if s != [] {
      hide NormalizedPath, Collapsed, NormalizedEscape;
      if s[0] == '%' {
        var rest := s[3..];
        assert s == s[..3] + rest;
        CollapseCommutes(rest);
        EscapeStep(s, rest);
        EscapeStep(s, Collapsed(rest));
        CollapsedAfter(NormalizedEscape(s), NormalizedPath(rest));
      } else {
        var rest := s[1..];
        assert s == [s[0]] + rest;
        CollapseCommutes(rest);
        PlainStep(s[0], rest);
        PlainStep(s[0], NormalizedPath(rest));
        PlainStep(s[0], Collapsed(rest));
        if rest != [] { NormalizedFirst(rest); } else { NothingNormalized(); }
      }
    } else {
      NothingNormalized();
    }
  }

  lemma NothingNormalized()
    ensures NormalizedPath([]) == [] && Collapsed([]) == []
  {
  }

  /** The form all accepted spellings of a path share. */
  function CanonicalPath(s: string): string { Collapsed(NormalizedPath(s)) }

  lemma CollapsedSpelling(s: string)
    requires WellEscaped(s)
    ensures WellEscaped(Collapsed(s)) && CanonicalPath(Collapsed(s)) == CanonicalPath(s)
  {
    CollapsedEscaped(s);
    CollapseCommutes(s);
    CollapsedTwice(NormalizedPath(s));
  }

  lemma SpellingsShareForm(path: string, spelling: string)
    requires WellEscaped(path) && spelling in [path, UpperEscapes(path), NormalizedPath(path)]
    ensures CanonicalPath(spelling) == CanonicalPath(path) && CanonicalPath(Collapsed(spelling)) == CanonicalPath(path)
  {
    hide NormalizedPath, UpperEscapes, Collapsed, CanonicalPath;
    PathCanonicalForm(path, path);
    SameCanonical(path, spelling);
    CollapsedSpelling(spelling);
  }

  lemma SameCanonical(path: string, spelling: string)
    requires NormalizedPath(spelling) == NormalizedPath(path)
    ensures CanonicalPath(spelling) == CanonicalPath(path)
  {
  }

  // ----- what a query means

  /** A query component read as a form does: a plus is a space, an escape its octet. */
  function FormOctets(s: string): seq<Octet>
    requires Visible(s) && WellEscaped(s)
  {
    if s == [] then []
    else if s[0] == '%' then [EscapeValue(s)] + FormOctets(s[3..])
    else [if s[0] == '+' then 32 else s[0] as int] + FormOctets(s[1..])
  }

  function FormText(octets: seq<Octet>): string {
    if octets == [] then [] else QueryUnit(false, octets[0]) + FormText(octets[1..])
  }

  datatype Field = Flag(name: seq<Octet>) | Pair(name: seq<Octet>, value: seq<Octet>)

  predicate Readable(s: string) { Visible(s) && WellEscaped(s) }

  predicate IsQuery(s: string) {
    Readable(s) && (s != [] ==> s[0] == '?')
  }

  function FieldOf(pair: string): Field
    requires Readable(pair)
  {
    var i := IndexOf(pair, '=');
    if i == |pair| then Flag(FormOctets(pair))
    else
      EscapedApart(pair[..i], '=', pair[i + 1..]);
      assert pair == pair[..i] + ['='] + pair[i + 1..];
      Pair(FormOctets(pair[..i]), FormOctets(pair[i + 1..]))
  }

  function FieldText(field: Field): string {
    match field
    case Flag(name) => FormText(name)
    case Pair(name, value) => FormText(name) + "=" + FormText(value)
  }

  /** The fields of a query in their order, with duplicates, bare flags and empty segments; no query at
      all is not the same as an empty one. */
  function Fields(query: string): Option<seq<Field>>
    requires IsQuery(query)
  {
    if query == [] then None
    else
      SplitReadable(query[1..], '&');
      var pairs := Split(query[1..], '&');
      Some(seq(|pairs|, i requires 0 <= i < |pairs| => FieldOf(pairs[i])))
  }

  /** A character that no escape can contain. */
  predicate Separator(c: char) { c in "&=?" }

  /** An escape does not reach across a separator. */
  lemma {:induction false} EscapedApart(a: string, c: char, b: string)
    requires Separator(c)
    ensures WellEscaped(a + [c] + b) <==> WellEscaped(a) && WellEscaped(b)
    decreases |a|
  {
    var whole := a + [c] + b;
    if a == [] {
      assert whole == [c] + b && whole[1..] == b;
    } else if StartsEscape(a) {
      EscapedApart(a[3..], c, b);
      assert whole[3..] == a[3..] + [c] + b;
    } else {
      EscapedApart(a[1..], c, b);
      assert whole[1..] == a[1..] + [c] + b;
      assert !StartsEscape(whole);
    }
  }

  lemma UpperStep(head: string, rest: string)
    requires (StartsEscape(head) && |head| == 3) || (|head| == 1 && !StartsEscape(head + rest))
    ensures UpperEscapes(head + rest)
         == (if |head| == 1 then head else ['%', UpperHex(HexValue(head[1])), UpperHex(HexValue(head[2]))]) + UpperEscapes(rest)
  {
    assert (head + rest)[|head|..] == rest;
  }

  lemma {:induction false} UpperApart(a: string, c: char, b: string)
    requires Separator(c)
    ensures UpperEscapes(a + [c] + b) == UpperEscapes(a) + [c] + UpperEscapes(b)
    decreases |a|
  {
    hide UpperEscapes;
    var whole := a + [c] + b;
    if a == [] {
      UpperStep([c], b);
      assert whole == [c] + b && UpperEscapes([]) == [] by { NothingUpper(); }
    } else {
      var n := if StartsEscape(a) then 3 else 1;
      var head, rest := a[..n], a[n..];
      UpperApart(rest, c, b);
      assert a == head + rest && whole == head + (rest + [c] + b);
      assert StartsEscape(a) <==> StartsEscape(whole);
      UpperStep(head, rest);
      UpperStep(head, rest + [c] + b);
    }
  }

  lemma NothingUpper()
    ensures UpperEscapes([]) == []
  {
  }

  lemma {:induction false} SplitReadable(s: string, c: char)
    requires Readable(s) && Separator(c)
    ensures forall i | 0 <= i < |Split(s, c)| :: Readable(Split(s, c)[i])
    decreases |s|
  {
    var i := IndexOf(s, c);
    if i < |s| {
      assert s == s[..i] + [c] + s[i + 1..];
      EscapedApart(s[..i], c, s[i + 1..]);
      SplitReadable(s[i + 1..], c);
    }
  }

  lemma {:induction false} ComponentIsText(s: string)
    requires Readable(s)
    ensures NormalizedQueryComponent(s) == FormText(FormOctets(s))
  {
    if s != [] {
      if s[0] == '%' { ComponentIsText(s[3..]); } else { ComponentIsText(s[1..]); }
    }
  }

  lemma EscapeRead(b: Octet, rest: string)
    requires Readable(rest)
    ensures var s := EscapeOf(b) + rest; Readable(s) && FormOctets(s) == [b] + FormOctets(rest)
    ensures Without(EscapeOf(b), '&') && Without(EscapeOf(b), '=')
  {
    var s := EscapeOf(b) + rest;
    EscapeReadsBack(b, rest);
    assert Visible(EscapeOf(b));
    hide EscapeOf, EscapeValue, IsHex;
    assert s[0] == '%' && s == s[..3] + rest;
  }

  lemma PlainRead(c: char, rest: string)
    requires Readable(rest) && '!' <= c <= '~' && c != '%'
    ensures var s := [c] + rest; Readable(s) && FormOctets(s) == [if c == '+' then 32 else c as int] + FormOctets(rest)
  {
    var s := [c] + rest;
    assert s[1..] == rest;
  }

  lemma UnitReadsBack(b: Octet, rest: string)
    requires Readable(rest)
    ensures var s := QueryUnit(false, b) + rest; Readable(s) && FormOctets(s) == [b] + FormOctets(rest)
    ensures Without(QueryUnit(false, b), '&') && Without(QueryUnit(false, b), '=')
  {
    hide Readable, FormOctets, EscapeOf;
    if b == 32 {
      PlainRead('+', rest);
    } else if FormSafe(b as char) {
      PlainRead(b as char, rest);
    } else {
      EscapeRead(b, rest);
    }
  }

  lemma {:induction false} OctetsReadBack(octets: seq<Octet>)
    ensures var s := FormText(octets); Readable(s) && FormOctets(s) == octets && Without(s, '&') && Without(s, '=')
  {
    if octets != [] {
      OctetsReadBack(octets[1..]);
      UnitReadsBack(octets[0], FormText(octets[1..]));
      assert octets == [octets[0]] + octets[1..];
    }
  }

  lemma FieldOfPair(a: string, b: string)
    requires Readable(a) && Readable(b) && Without(a, '=')
    ensures Readable(a + ['='] + b) && FieldOf(a + ['='] + b) == Pair(FormOctets(a), FormOctets(b))
  {
    hide FormOctets, WellEscaped, IndexOf;
    IndexAfter(a, '=', b);
    EscapedApart(a, '=', b);
  }

  lemma FieldReadsBack(field: Field)
    ensures var s := FieldText(field); Readable(s) && FieldOf(s) == field && Without(s, '&')
  {
    hide FormText, FormOctets, WellEscaped;
    OctetsReadBack(field.name);
    match field
    case Flag(name) =>
    case Pair(name, value) =>
      OctetsReadBack(value);
      FieldOfPair(FormText(name), FormText(value));
  }

  lemma PairIsText(pair: string)
    requires Readable(pair)
    ensures NormalizedPair(pair) == FieldText(FieldOf(pair))
  {
    var i := IndexOf(pair, '=');
    if i == |pair| {
      ComponentIsText(pair);
    } else {
      assert pair == pair[..i] + ['='] + pair[i + 1..];
      EscapedApart(pair[..i], '=', pair[i + 1..]);
      ComponentIsText(pair[..i]);
      ComponentIsText(pair[i + 1..]);
    }
  }

  function FieldTexts(fields: seq<Field>): (texts: seq<string>)
    ensures |texts| == |fields|
  {
    seq(|fields|, i requires 0 <= i < |fields| => FieldText(fields[i]))
  }

  function QueryText(fields: Option<seq<Field>>): string
    requires fields.Some? ==> fields.value != []
  {
    if fields.None? then [] else "?" + Join(FieldTexts(fields.value), '&')
  }

  lemma NormalizedIsQueryText(query: string)
    requires IsQuery(query)
    ensures Fields(query).Some? ==> Fields(query).value != []
    ensures NormalizedQuery(query) == QueryText(Fields(query))
  {
    if query != [] {
      SplitReadable(query[1..], '&');
      var pairs := Split(query[1..], '&');
      forall i | 0 <= i < |pairs| ensures NormalizedPair(pairs[i]) == FieldText(FieldOf(pairs[i])) {
        PairIsText(pairs[i]);
      }
      assert NormalizedPairs(pairs) == FieldTexts(Fields(query).value);
    }
  }

  lemma {:induction false} JoinedSplits(parts: seq<string>, c: char)
    requires parts != [] && Separator(c) && forall i | 0 <= i < |parts| :: Readable(parts[i]) && Without(parts[i], c)
    ensures Split(Join(parts, c), c) == parts && Readable(Join(parts, c))
    decreases |parts|
  {
    hide Split, WellEscaped;
    if |parts| > 1 {
      var rest := Join(parts[1..], c);
      JoinedSplits(parts[1..], c);
      SplitAfter(parts[0], c, rest);
      EscapedApart(parts[0], c, rest);
      assert Join(parts, c) == parts[0] + [c] + rest;
    } else {
      SplitWhole(parts[0], c);
    }
  }

  lemma QueryReadsBack(fields: Option<seq<Field>>)
    requires fields.Some? ==> fields.value != []
    ensures IsQuery(QueryText(fields)) && Fields(QueryText(fields)) == fields
  {
    if fields.Some? {
      var texts := FieldTexts(fields.value);
      forall i | 0 <= i < |texts| ensures Readable(texts[i]) && Without(texts[i], '&') && FieldOf(texts[i]) == fields.value[i] {
        FieldReadsBack(fields.value[i]);
      }
      hide FieldText, FieldOf, Readable, Fields, IsQuery;
      PartsReadBack(texts, fields.value);
    }
  }

  lemma PartsReadBack(texts: seq<string>, fields: seq<Field>)
    requires texts != [] && |texts| == |fields|
    requires forall i | 0 <= i < |texts| :: Readable(texts[i]) && Without(texts[i], '&') && FieldOf(texts[i]) == fields[i]
    ensures var query := "?" + Join(texts, '&'); IsQuery(query) && Fields(query) == Some(fields)
  {
    hide FieldOf, Join, Split, Without;
    JoinedSplits(texts, '&');
    MarkedIsQuery(Join(texts, '&'));
    hide IsQuery, Readable;
    assert ("?" + Join(texts, '&'))[1..] == Join(texts, '&');
    assert Fields("?" + Join(texts, '&')).value == fields;
  }

  lemma MarkedIsQuery(s: string)
    requires Readable(s)
    ensures IsQuery("?" + s)
  {
    assert ("?" + s)[1..] == s;
  }

  lemma {:induction false} UpperKeepsLength(s: string)
    ensures |UpperEscapes(s)| == |s| && forall c | Separator(c) && Without(s, c) :: Without(UpperEscapes(s), c)
  {
    if s != [] {
      if StartsEscape(s) { UpperKeepsLength(s[3..]); } else { UpperKeepsLength(s[1..]); }
    }
  }

  lemma {:induction false} UpperReads(s: string)
    requires Readable(s)
    ensures Readable(UpperEscapes(s)) && FormOctets(UpperEscapes(s)) == FormOctets(s)
  {
    if s != [] {
      hide UpperEscapes, EscapeOf, EscapeValue, IsHex;
      UpperFirst(s);
      if s[0] == '%' {
        UpperReads(s[3..]);
        EscapeRead(EscapeValue(s), UpperEscapes(s[3..]));
      } else {
        UpperReads(s[1..]);
        PlainRead(s[0], UpperEscapes(s[1..]));
      }
    } else {
      NothingUpper();
    }
  }

  lemma UpperKeepsOctets(s: string)
    requires Readable(s)
    ensures Readable(UpperEscapes(s)) && FormOctets(UpperEscapes(s)) == FormOctets(s)
    ensures |UpperEscapes(s)| == |s| && forall c | Separator(c) && Without(s, c) :: Without(UpperEscapes(s), c)
  {
    hide Readable, UpperEscapes, FormOctets;
    UpperReads(s);
    UpperKeepsLength(s);
  }

  lemma UpperKeepsField(pair: string)
    requires Readable(pair)
    ensures Readable(UpperEscapes(pair)) && FieldOf(UpperEscapes(pair)) == FieldOf(pair)
  {
    hide FormOctets, WellEscaped, UpperEscapes;
    UpperKeepsOctets(pair);
    var i := IndexOf(pair, '=');
    if i < |pair| {
      var a, b := pair[..i], pair[i + 1..];
      assert pair == a + ['='] + b;
      EscapedApart(a, '=', b);
      UpperApart(a, '=', b);
      UpperKeepsOctets(a);
      UpperKeepsOctets(b);
      FieldOfPair(a, b);
      FieldOfPair(UpperEscapes(a), UpperEscapes(b));
    } else {
      assert Without(pair, '=') && Without(UpperEscapes(pair), '=');
    }
  }

  lemma {:induction false} UpperSplits(s: string, c: char)
    requires Readable(s) && Separator(c)
    ensures |Split(UpperEscapes(s), c)| == |Split(s, c)|
    ensures forall i | 0 <= i < |Split(s, c)| :: Split(UpperEscapes(s), c)[i] == UpperEscapes(Split(s, c)[i])
    decreases |s|
  {
    hide WellEscaped, UpperEscapes, Split, Separator;
    var i := IndexOf(s, c);
    UpperKeepsOctets(s);
    if i < |s| {
      var a, b := s[..i], s[i + 1..];
      assert s == a + [c] + b;
      EscapedApart(a, c, b);
      UpperApart(a, c, b);
      UpperKeepsOctets(a);
      UpperSplits(b, c);
      SplitAfter(a, c, b);
      SplitAfter(UpperEscapes(a), c, UpperEscapes(b));
    } else {
      SplitWhole(s, c);
      SplitWhole(UpperEscapes(s), c);
    }
  }

  lemma UpperKeepsFields(query: string)
    requires IsQuery(query)
    ensures IsQuery(UpperEscapes(query)) && Fields(UpperEscapes(query)) == Fields(query)
  {
    if query != [] {
      var rest := query[1..];
      var parts, uppers := Split(rest, '&'), Split(UpperEscapes(rest), '&');
      assert Readable(rest);
      UpperFirst(query);
      UpperKeepsOctets(rest);
      MarkedIsQuery(UpperEscapes(rest));
      hide UpperEscapes, FieldOf, Split, Readable;
      SplitReadable(rest, '&');
      SplitReadable(UpperEscapes(rest), '&');
      UpperSplits(rest, '&');
      forall i | 0 <= i < |parts| ensures Readable(UpperEscapes(parts[i])) && FieldOf(UpperEscapes(parts[i])) == FieldOf(parts[i]) {
        UpperKeepsField(parts[i]);
      }
      hide IsQuery;
      assert UpperEscapes(query)[1..] == UpperEscapes(rest);
      assert Fields(UpperEscapes(query)).value == Fields(query).value;
    } else {
      NothingUpper();
    }
  }

  /** Query normalization is a canonical form: two queries have the same one exactly when a form decodes
      them to the same fields, and it keeps those fields; so it absorbs the uppercasing of escapes and is
      idempotent. */
  lemma QueryCanonicalForm(a: string, b: string)
    requires IsQuery(a) && IsQuery(b)
    ensures NormalizedQuery(a) == NormalizedQuery(b) <==> Fields(a) == Fields(b)
    ensures IsQuery(NormalizedQuery(a)) && Fields(NormalizedQuery(a)) == Fields(a)
    ensures IsQuery(UpperEscapes(a)) && NormalizedQuery(UpperEscapes(a)) == NormalizedQuery(a)
    ensures NormalizedQuery(NormalizedQuery(a)) == NormalizedQuery(a)
  {
    hide Fields, NormalizedQuery, QueryText, UpperEscapes;
    NormalizedIsQueryText(a);
    NormalizedIsQueryText(b);
    QueryReadsBack(Fields(a));
    QueryReadsBack(Fields(b));
    NormalizedIsQueryText(NormalizedQuery(a));
    UpperKeepsFields(a);
    NormalizedIsQueryText(UpperEscapes(a));
  }

  // ----- the binding

  lemma PartsReadable(original: string)
    requires Readable(original)
    ensures original == PathPart(original) + QueryPart(original)
    ensures Readable(PathPart(original)) && IsQuery(QueryPart(original))
  {
    hide WellEscaped, IndexOf;
    var i := IndexOf(original, '?');
    if i < |original| {
      var a, b := original[..i], original[i + 1..];
      assert original == a + ['?'] + b && original[i..] == "?" + b;
      EscapedApart(a, '?', b);
      MarkedIsQuery(b);
    } else {
      assert original[..i] == original && original[i..] == [];
      NothingReadable();
    }
  }

  lemma NothingReadable()
    ensures IsQuery([])
  {
  }

  /** Whatever spelling is accepted, the original itself is returned, and the observed path and query mean
      what the original's do: the same canonical path, the same decoded fields in the same order. */
  lemma AcceptedMeansOriginal(original: string, serialized: string, observed: string)
    requires RestoreIngressPath(original, serialized, observed).Some?
    ensures RestoreIngressPath(original, serialized, observed) == Some(original)
    ensures CanonicalPath(PathPart(observed)) == CanonicalPath(PathPart(original))
    ensures Readable(original) && IsQuery(QueryPart(original)) && IsQuery(QueryPart(observed))
    ensures Fields(QueryPart(observed)) == Fields(QueryPart(original))
    ensures NormalizedQuery(QueryPart(observed)) == NormalizedQuery(QueryPart(original))
  {
    hide CanonicalPath, UpperEscapes, NormalizedPath, Collapsed, NormalizedQuery, Fields, IsQuery, WellEscaped, PathPart, QueryPart;
    PartsReadable(original);
    var path, query := PathPart(original), QueryPart(original);
    SpellingsShareForm(path, path);
    SpellingsShareForm(path, UpperEscapes(path));
    SpellingsShareForm(path, NormalizedPath(path));
    QueryCanonicalForm(query, query);
    UpperKeepsFields(query);
    var paths := [path, UpperEscapes(path), NormalizedPath(path)];
    assert PathPart(observed) in paths || PathPart(observed) in [Collapsed(path), Collapsed(UpperEscapes(path)), Collapsed(NormalizedPath(path))];
  }

  /** The original is always accepted as its own spelling. */
  lemma OriginalAccepted(original: string)
    requires OriginalPath(original, original)
    ensures RestoreIngressPath(original, original, original) == Some(original)
  {
    PartsReadable(original);
  }
}
