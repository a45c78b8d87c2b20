/** Which spellings the ingress accepts, and what its normal forms look like, character by character. */
module IngressOutcomes {
  import opened IngressPath
  import opened Options
  import opened Text

  predicate HexCode(u: int) { 48 <= u <= 57 || 65 <= u <= 70 || 97 <= u <= 102 }

  predicate UpperHexCode(u: int) { 48 <= u <= 57 || 65 <= u <= 70 }

  predicate Letter(u: int) { 65 <= u <= 90 || 97 <= u <= 122 || 48 <= u <= 57 }

  /** The value of the two digits after a percent sign. */
  function CodeValue(u: int): int {
    if u <= 57 then u - 48 else if u <= 70 then u - 55 else u - 87
  }

  // ----- what an original path may be

  /** A percent sign is always followed by two hexadecimal digits. */
  predicate PercentsEscape(s: string) {
    forall i | 0 <= i < |s| && s[i] as int == 37 :: i + 2 < |s| && HexCode(s[i + 1] as int) && HexCode(s[i + 2] as int)
  }

  lemma {:induction false} WellEscapedExactly(s: string)
    ensures WellEscaped(s) <==> PercentsEscape(s)
    decreases |s|
  {
    if s != [] {
      if s[0] == '%' {
        if StartsEscape(s) {
          WellEscapedExactly(s[3..]);
          assert forall i | 3 <= i < |s| :: s[i] == s[3..][i - 3];
          assert forall i | 0 <= i < |s[3..]| :: s[3..][i] == s[i + 3];
        }
      } else {
        WellEscapedExactly(s[1..]);
        assert forall i | 1 <= i < |s| :: s[i] == s[1..][i - 1];
        assert forall i | 0 <= i < |s[1..]| :: s[1..][i] == s[i + 1];
      }
    }
  }

  /** A path is taken exactly when it starts with a slash, has at most 49152 characters, all of them visible
      ASCII but for `#` and the backslash, escapes properly, and parsing as a URL leaves it as it is. */
  lemma OriginalExactly(s: string, serialized: string)
    ensures OriginalPath(s, serialized) <==>
      && 1 <= |s| <= 49_152 && s[0] as int == 47 && PercentsEscape(s) && serialized == s
      && forall i | 0 <= i < |s| :: 33 <= s[i] as int <= 126 && s[i] as int != 35 && s[i] as int != 92
  {
    WellEscapedExactly(s);
    assert ('\\' in s <==> exists i :: 0 <= i < |s| && s[i] as int == 92) && ('#' in s <==> exists i :: 0 <= i < |s| && s[i] as int == 35);
  }

  predicate WithSlashesOrNot(observed: string, spelling: string) { observed == spelling || observed == Collapsed(spelling) }

  /** Exactly the three spellings of the path, each with its runs of slashes or without, and the three of the
      query are accepted for an original path, in any combination. */
  lemma AcceptedExactly(original: string, serialized: string, observed: string)
    ensures var path, query := PathPart(original), QueryPart(original);
            var accepted :=
              && OriginalPath(original, serialized)
              && (WithSlashesOrNot(PathPart(observed), path) || WithSlashesOrNot(PathPart(observed), UpperEscapes(path))
                  || WithSlashesOrNot(PathPart(observed), NormalizedPath(path)))
              && (QueryPart(observed) == query || QueryPart(observed) == UpperEscapes(query)
                  || QueryPart(observed) == NormalizedQuery(query));
            RestoreIngressPath(original, serialized, observed) == if accepted then Some(original) else None
  {
    if OriginalPath(original, serialized) {
      hide UpperEscapes, NormalizedPath, NormalizedQuery, Collapsed;
      var path := PathPart(original);
      var paths := [path, UpperEscapes(path), NormalizedPath(path)];
      var accepted := paths + seq(3, i requires 0 <= i < 3 => Collapsed(paths[i]));
      assert accepted == [path, UpperEscapes(path), NormalizedPath(path),
                          Collapsed(path), Collapsed(UpperEscapes(path)), Collapsed(NormalizedPath(path))];
    }
  }

  // ----- what the normal forms look like

  /** Every percent sign stands before two upper-case digits, for an octet that needs its escape. */
  predicate EscapesStandFor(s: string, needed: set<int>) {
    forall i | 0 <= i < |s| && s[i] as int == 37 ::
      && i + 2 < |s| && UpperHexCode(s[i + 1] as int) && UpperHexCode(s[i + 2] as int)
      && CodeValue(s[i + 1] as int) * 16 + CodeValue(s[i + 2] as int) in needed
  }

  /** The octets that stand for no unreserved character of section 2.3 of RFC 3986. */
  const RESERVED_OCTETS: set<int> := set b | 0 <= b < 256 && !Letter(b) && b !in {45, 46, 95, 126}

  lemma UnreservedExactly(b: Octet)
    ensures Unreserved(b as char) <==> b !in RESERVED_OCTETS
  {
  }

  lemma EscapeLooks(b: Octet, needed: set<int>)
    requires b in needed
    ensures EscapesStandFor(EscapeOf(b), needed) && |EscapeOf(b)| == 3
  {
    assert b / 16 * 16 + b % 16 == b;
  }

  lemma LooksAppend(a: string, b: string, needed: set<int>)
    requires EscapesStandFor(a, needed) && EscapesStandFor(b, needed)
    ensures EscapesStandFor(a + b, needed)
  {
    hide UpperHexCode, CodeValue;
    var whole := a + b;
    forall i | 0 <= i < |whole| && whole[i] as int == 37
      ensures i + 2 < |whole| && UpperHexCode(whole[i + 1] as int) && UpperHexCode(whole[i + 2] as int)
      ensures CodeValue(whole[i + 1] as int) * 16 + CodeValue(whole[i + 2] as int) in needed
    {
      if i < |a| {
        assert a[i] as int == 37 && whole[i + 1] == a[i + 1] && whole[i + 2] == a[i + 2];
      } else {
        assert b[i - |a|] as int == 37 && whole[i + 1] == b[i - |a| + 1] && whole[i + 2] == b[i - |a| + 2];
      }
    }
  }

  lemma PlainLooks(c: char, needed: set<int>)
    requires c != '%'
    ensures EscapesStandFor([c], needed)
  {
  }

  /** In the normal form of a path only octets that are not unreserved are escaped, in upper case. */
  lemma {:induction false} NormalPathLooks(s: string)
    requires WellEscaped(s)
    ensures EscapesStandFor(NormalizedPath(s), RESERVED_OCTETS)
    decreases |s|
  {
    hide EscapesStandFor, EscapeOf, Unreserved;
    if s == [] {
      NothingEscaped(RESERVED_OCTETS);
    } else if s[0] == '%' {
      NormalPathLooks(s[3..]);
      var b := EscapeValue(s);
      UnreservedExactly(b);
      EscapeIsUpper(s);
      if Unreserved(b as char) {
        PercentIsReserved();
        PlainLooks(b as char, RESERVED_OCTETS);
        LooksAppend([b as char], NormalizedPath(s[3..]), RESERVED_OCTETS);
      } else {
        EscapeLooks(b, RESERVED_OCTETS);
        LooksAppend(EscapeOf(b), NormalizedPath(s[3..]), RESERVED_OCTETS);
      }
    } else {
      NormalPathLooks(s[1..]);
      PlainLooks(s[0], RESERVED_OCTETS);
      LooksAppend([s[0]], NormalizedPath(s[1..]), RESERVED_OCTETS);
    }
  }

  lemma NothingEscaped(needed: set<int>)
    ensures EscapesStandFor([], needed)
  {
  }

  lemma PercentIsReserved()
    ensures !Unreserved('%') && !FormSafe('%')
  {
  }

  /** The octets that application/x-www-form-urlencoded text escapes; a space becomes a plus. */
  const FORM_ESCAPED: set<int> := set b | 0 <= b < 256 && !Letter(b) && b !in {32, 42, 45, 46, 95}

  lemma FormSafeExactly(b: Octet)
    ensures !FormSafe(b as char) && b != 32 <==> b in FORM_ESCAPED
  {
  }

  /** Text of form fields: letters, digits, `*-._`, the separators `&+=`, and escapes of octets that need them. */
  predicate FormText(s: string) {
    && EscapesStandFor(s, FORM_ESCAPED)
    && forall i | 0 <= i < |s| :: Letter(s[i] as int) || s[i] as int in {37, 38, 42, 43, 45, 46, 61, 95}
  }

  lemma FormAppend(a: string, b: string)
    requires FormText(a) && FormText(b)
    ensures FormText(a + b)
  {
    hide EscapesStandFor;
    LooksAppend(a, b, FORM_ESCAPED);
    assert forall i | 0 <= i < |a + b| :: (a + b)[i] == if i < |a| then a[i] else b[i - |a|];
  }

  lemma UnitIsForm(plus: bool, b: Octet)
    ensures FormText(QueryUnit(plus, b))
  {
    FormSafeExactly(b);
    if !plus && b in FORM_ESCAPED {
      EscapeLooks(b, FORM_ESCAPED);
    }
  }

  lemma {:induction false} ComponentIsForm(s: string)
    requires Visible(s) && WellEscaped(s)
    ensures FormText(NormalizedQueryComponent(s))
    decreases |s|
  {
    hide FormText, QueryUnit, EscapeValue;
    if s == [] {
      assert FormText([]) by { NoForm(); }
    } else if s[0] == '%' {
      ComponentIsForm(s[3..]);
      UnitIsForm(false, EscapeValue(s));
      FormAppend(QueryUnit(false, EscapeValue(s)), NormalizedQueryComponent(s[3..]));
    } else {
      ComponentIsForm(s[1..]);
      UnitIsForm(s[0] == '+', s[0] as int);
      FormAppend(QueryUnit(s[0] == '+', s[0] as int), NormalizedQueryComponent(s[1..]));
    }
  }

  lemma NoForm()
    ensures FormText([]) && FormText("=") && FormText("&")
  {
  }

  /** Cutting at a character that is no part of an escape keeps the parts well escaped. */
  lemma CutEscapes(s: string, i: nat)
    requires i < |s| && PercentsEscape(s) && !HexCode(s[i] as int) && s[i] != '%'
    ensures PercentsEscape(s[..i]) && PercentsEscape(s[i + 1..])
  {
    forall k | 0 <= k < i && s[..i][k] as int == 37
      ensures k + 2 < i && HexCode(s[..i][k + 1] as int) && HexCode(s[..i][k + 2] as int)
    {
      assert s[k] as int == 37;
    }
    var rest := s[i + 1..];
    forall k | 0 <= k < |rest| && rest[k] as int == 37
      ensures k + 2 < |rest| && HexCode(rest[k + 1] as int) && HexCode(rest[k + 2] as int)
    {
      assert s[i + 1 + k] as int == 37;
    }
  }

  lemma PairIsForm(pair: string)
    requires Visible(pair) && PercentsEscape(pair)
    ensures FormText(NormalizedPair(pair))
  {
    hide FormText, NormalizedQueryComponent;
    var i := IndexOf(pair, '=');
    WellEscapedExactly(pair);
    if i == |pair| {
      ComponentIsForm(pair);
    } else {
      CutEscapes(pair, i);
      WellEscapedExactly(pair[..i]);
      WellEscapedExactly(pair[i + 1..]);
      ComponentIsForm(pair[..i]);
      ComponentIsForm(pair[i + 1..]);
      NoForm();
      FormAppend(NormalizedQueryComponent(pair[..i]), "=");
      FormAppend(NormalizedQueryComponent(pair[..i]) + "=", NormalizedQueryComponent(pair[i + 1..]));
    }
  }

  lemma {:induction false} PairsAreForm(pairs: seq<string>)
    requires forall i | 0 <= i < |pairs| :: Visible(pairs[i]) && PercentsEscape(pairs[i])
    ensures FormText(Join(NormalizedPairs(pairs), '&'))
    decreases |pairs|
  {
    hide FormText, NormalizedPair, PercentsEscape, Visible;
    NoForm();
    if pairs != [] {
      PairIsForm(pairs[0]);
      if |pairs| > 1 {
        PairsAreForm(pairs[1..]);
        assert NormalizedPairs(pairs)[1..] == NormalizedPairs(pairs[1..]);
        FormAppend(NormalizedPair(pairs[0]), "&");
        FormAppend(NormalizedPair(pairs[0]) + "&", Join(NormalizedPairs(pairs[1..]), '&'));
      }
    }
  }

  lemma {:induction false} SplitEscapes(s: string)
    requires PercentsEscape(s)
    ensures forall i | 0 <= i < |Split(s, '&')| :: PercentsEscape(Split(s, '&')[i])
    decreases |s|
  {
    hide PercentsEscape;
    var i := IndexOf(s, '&');
    if i < |s| {
      CutEscapes(s, i);
      SplitEscapes(s[i + 1..]);
    }
  }

  /** The normal form of a query is form text: nothing is escaped that need not be, and what must be is. */
  lemma NormalQueryLooks(query: string)
    requires query != [] && query[0] == '?' && Visible(query) && WellEscaped(query)
    ensures NormalizedQuery(query) != [] && NormalizedQuery(query)[0] == '?' && FormText(NormalizedQuery(query)[1..])
  {
    WellEscapedExactly(query);
    CutEscapes(query, 0);
    SplitVisible(query[1..], '&');
    SplitEscapes(query[1..]);
    hide PercentsEscape, Visible, FormText, NormalizedPairs, Split;
    PairsAreForm(Split(query[1..], '&'));
  }

  /** A character as upper-casing leaves it: the two after each percent sign are raised. */
  function Raised(s: string, i: nat): char
    requires i < |s|
  {
    if (i >= 1 && s[i - 1] == '%') || (i >= 2 && s[i - 2] == '%') then UpperOf(s[i]) else s[i]
  }

  /** Upper-casing changes the two digits after each percent sign and nothing else. */
  lemma {:induction false} UpperLooks(s: string)
    requires WellEscaped(s)
    ensures |UpperEscapes(s)| == |s| && forall i | 0 <= i < |s| :: UpperEscapes(s)[i] == Raised(s, i)
    decreases |s|
  {
    if s != [] {
      UpperFirst(s);
      var n := if s[0] == '%' then 3 else 1;
      UpperLooks(s[n..]);
      if n == 3 {
        EscapeIsUpper(s);
        HexUpper(s[1]);
        HexUpper(s[2]);
      }
      hide HexValue, UpperHex, EscapeOf, EscapeValue, UpperOf;
      forall i | n <= i < |s| ensures UpperEscapes(s)[i] == Raised(s, i) { assert Raised(s[n..], i - n) == Raised(s, i); }
    }
  }

  lemma HexUpper(c: char)
    requires IsHex(c)
    ensures UpperHex(HexValue(c)) == UpperOf(c) && c != '%'
  {
  }
}
