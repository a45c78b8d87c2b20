/** Searching, trimming, splitting and joining strings, and the case of ASCII letters. */
module Text {
  /** The position of the first such character, or the length of the text without one. */
  function IndexOf(s: string, c: char): (i: nat)
    ensures i <= |s| && (i < |s| ==> s[i] == c) && forall k | 0 <= k < i :: s[k] != c
  {
    if s == [] || s[0] == c then 0 else 1 + IndexOf(s[1..], c)
  }

  /** The position of the last such character, or -1. */
  function LastIndexOf(s: string, c: char): (i: int)
    ensures -1 <= i < |s| && (i >= 0 ==> s[i] == c) && forall k | i < k < |s| :: s[k] != c
  {
    if s == [] then -1 else if s[|s| - 1] == c then |s| - 1 else LastIndexOf(s[..|s| - 1], c)
  }

  function Split(s: string, c: char): (parts: seq<string>)
    ensures parts != []
    decreases |s|
  {
    var i := IndexOf(s, c);
    if i == |s| then [s] else [s[..i]] + Split(s[i + 1..], c)
  }

  function Join(parts: seq<string>, c: char): string {
    if parts == [] then [] else if |parts| == 1 then parts[0] else parts[0] + [c] + Join(parts[1..], c)
  }

  predicate Without(s: string, c: char) { forall i | 0 <= i < |s| :: s[i] != c }

  function Lower(s: string): (low: string)
    ensures |low| == |s|
  {
    seq(|s|, i requires 0 <= i < |s| => if 'A' <= s[i] <= 'Z' then s[i] + 32 as char else s[i])
  }

  function UpperOf(c: char): char { if 'a' <= c <= 'z' then c - 32 as char else c }

  function Upper(s: string): (up: string)
    ensures |up| == |s|
  {
    seq(|s|, i requires 0 <= i < |s| => UpperOf(s[i]))
  }

  /** Two texts that differ in the case of ASCII letters alone. */
  predicate SameLetters(a: string, b: string) {
    |a| == |b| && forall i | 0 <= i < |a| :: SameLetter(a[i], b[i])
  }

  predicate SameLetter(a: char, b: char) {
    || a == b || ('A' <= a <= 'Z' && b as int == a as int + 32) || ('A' <= b <= 'Z' && a as int == b as int + 32)
  }

  /** Both cases forget exactly that. */
  lemma CaseForgets(a: string, b: string)
    ensures Lower(a) == Lower(b) <==> SameLetters(a, b)
    ensures Upper(a) == Upper(b) <==> SameLetters(a, b)
    ensures forall i | 0 <= i < |a| :: !('A' <= Lower(a)[i] <= 'Z') && !('a' <= Upper(a)[i] <= 'z')
  {
    forall i | 0 <= i < |a| && i < |b| ensures Lower(a)[i] == Lower(b)[i] <==> SameLetter(a[i], b[i])
      ensures Upper(a)[i] == Upper(b)[i] <==> SameLetter(a[i], b[i])
    {
    }
    if SameLetters(a, b) {
      assert Lower(a) == Lower(b) && Upper(a) == Upper(b);
    } else if |a| == |b| {
      var i :| 0 <= i < |a| && !SameLetter(a[i], b[i]);
      assert Lower(a)[i] != Lower(b)[i] && Upper(a)[i] != Upper(b)[i];
    }
  }

  /** White space and line terminators, as `trim` takes them. */
  predicate Space(c: char) {
    9 <= c as int <= 13 || c as int in {32, 160, 0x1680, 0x2028, 0x2029, 0x202f, 0x205f, 0x3000, 0xfeff}
    || 0x2000 <= c as int <= 0x200a
  }

  function Trim(s: string): string {
    if s != "" && Space(s[0]) then Trim(s[1..])
    else if s != "" && Space(s[|s| - 1]) then Trim(s[..|s| - 1])
    else s
  }

  lemma {:induction false} JoinSplit(s: string, c: char)
    ensures Join(Split(s, c), c) == s
    ensures forall i | 0 <= i < |Split(s, c)| :: Without(Split(s, c)[i], c)
    decreases |s|
  {
    var i := IndexOf(s, c);
    if i < |s| {
      JoinSplit(s[i + 1..], c);
      assert s == s[..i] + [c] + s[i + 1..];
    }
  }

  lemma IndexAfter(a: string, c: char, b: string)
    requires Without(a, c)
    ensures IndexOf(a + [c] + b, c) == |a| && (a + [c] + b)[..|a|] == a && (a + [c] + b)[|a| + 1..] == b
  {
    var whole := a + [c] + b;
    assert forall k | 0 <= k < |a| :: whole[k] == a[k];
    assert whole[|a|] == c;
  }

  lemma SplitAfter(a: string, c: char, b: string)
    requires Without(a, c)
    ensures Split(a + [c] + b, c) == [a] + Split(b, c)
  {
    IndexAfter(a, c, b);
  }

  lemma SplitWhole(s: string, c: char)
    requires Without(s, c)
    ensures Split(s, c) == [s]
  {
  }

  lemma {:induction false} SplitJoin(parts: seq<string>, c: char)
    requires parts != [] && forall i | 0 <= i < |parts| :: Without(parts[i], c)
    ensures Split(Join(parts, c), c) == parts
    decreases |parts|
  {
    hide Split;
    if |parts| == 1 {
      SplitWhole(parts[0], c);
    } else {
      SplitJoin(parts[1..], c);
      SplitAfter(parts[0], c, Join(parts[1..], c));
    }
  }

  lemma {:induction false} JoinAppend(pieces: seq<string>, more: seq<string>, c: char)
    requires more != []
    ensures Join(pieces + more, c) == (if pieces == [] then [] else Join(pieces, c) + [c]) + Join(more, c)
    decreases |pieces|
  {
    if pieces == [] {
      assert pieces + more == more;
    } else {
      JoinAppend(pieces[1..], more, c);
      assert (pieces + more)[1..] == pieces[1..] + more;
      if |pieces| == 1 { assert pieces[1..] == []; }
    }
  }

  lemma JoinOne(piece: string, c: char)
    ensures Join([piece], c) == piece
  {
  }
}
