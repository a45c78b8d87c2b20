/** Reading Server-Timing fields: splitting outside quoted strings, unquoting, and the metrics. */
module ServerTiming {
  import opened Options
  import opened Text

  // ----- where quotes open and close

  /** The state of the scanner: `Escaped` is a quoted string right after a backslash. */
  datatype Scan = Plain | Quoted | Escaped

  function Step(scan: Scan, c: char): Scan {
    match scan
    case Escaped => Quoted
    case Quoted => if c == '\\' then Escaped else if c == '"' then Plain else Quoted
    case Plain => if c == '"' then Quoted else Plain
  }

  /** The state after a text, from a given one. */
  function End(from: Scan, s: string): Scan {
    if s == "" then from else Step(End(from, s[..|s| - 1]), s[|s| - 1])
  }

  /** A delimiter outside of quoted strings. */
  predicate Bare(s: string, delimiter: char, i: int)
    requires 0 <= i < |s|
  {
    s[i] == delimiter && End(Plain, s[..i]).Plain?
  }

  predicate NoBare(s: string, delimiter: char) {
    forall i | 0 <= i < |s| :: !Bare(s, delimiter, i)
  }

  /** The parts with one more character read: a cut opens a new part. */
  function Extended(parts: seq<string>, c: char, cut: bool): (longer: seq<string>)
    requires parts != []
    ensures longer != []
  {
    if cut then parts + [""] else parts[..|parts| - 1] + [parts[|parts| - 1] + [c]]
  }

  /** The parts between bare delimiters. */
  function SplitQuoted(s: string, delimiter: char): (parts: seq<string>)
    ensures parts != []
  {
    if s == "" then [""]
    else
      var front, c := s[..|s| - 1], s[|s| - 1];
      Extended(SplitQuoted(front, delimiter), c, c == delimiter && End(Plain, front).Plain?)
  }

  lemma ReadOne(front: string, c: char, delimiter: char)
    ensures SplitQuoted(front + [c], delimiter) == Extended(SplitQuoted(front, delimiter), c, c == delimiter && End(Plain, front).Plain?)
    ensures forall from :: End(from, front + [c]) == Step(End(from, front), c)
  {
    assert (front + [c])[..|front|] == front;
  }

  lemma ExtendedLast(parts: seq<string>, last: string, c: char, cut: bool)
    ensures Extended(parts + [last], c, cut) == if cut then parts + [last] + [""] else parts + [last + [c]]
  {
    assert (parts + [last])[..|parts|] == parts;
  }

  /** One character of a split under way: a cut closes the part that began at `start`. */
  lemma ReadNext(value: string, index: nat, start: nat, parts: seq<string>, delimiter: char)
    requires start <= index < |value| && SplitQuoted(value[..index], delimiter) == parts + [value[start..index]]
    ensures var cut := value[index] == delimiter && End(Plain, value[..index]).Plain?;
            SplitQuoted(value[..index + 1], delimiter)
            == if cut then parts + [value[start..index]] + [value[index + 1..index + 1]] else parts + [value[start..index + 1]]
    ensures End(Plain, value[..index + 1]) == Step(End(Plain, value[..index]), value[index])
  {
    hide SplitQuoted, End, Extended;
    var c := value[index];
    ReadOne(value[..index], c, delimiter);
    ExtendedLast(parts, value[start..index], c, c == delimiter && End(Plain, value[..index]).Plain?);
    assert value[..index + 1] == value[..index] + [c];
    assert value[start..index + 1] == value[start..index] + [c];
    assert value[index + 1..index + 1] == "";
  }

  method SplitOutsideQuotes(value: string, delimiter: char) returns (parts: seq<string>)
    requires delimiter == ',' || delimiter == ';'
    ensures parts == SplitQuoted(value, delimiter)
  {
    parts := [];
    var start, quoted, escaped := 0, false, false;
    var index := 0;
    assert value[..0] == "" && SplitQuoted("", delimiter) == [""] && End(Plain, "") == Plain;
    hide SplitQuoted, End, Extended;
    while index < |value|
      invariant 0 <= start <= index <= |value|
      invariant End(Plain, value[..index]) == if escaped then Escaped else if quoted then Quoted else Plain
      invariant escaped ==> quoted
      invariant SplitQuoted(value[..index], delimiter) == parts + [value[start..index]]
    {
      var character := value[index];
      ReadNext(value, index, start, parts, delimiter);
      index := index + 1;
      if escaped {
        escaped := false;
        continue;
      }
      if quoted && character == '\\' {
        escaped := true;
        continue;
      }
      if character == '"' {
        quoted := !quoted;
      } else if !quoted && character == delimiter {
        parts := parts + [value[start..index - 1]];
        start := index;
      }
    }
    assert value[..index] == value;
    parts := parts + [value[start..]];
  }

  lemma {:induction false} EndAppends(from: Scan, a: string, b: string)
    ensures End(from, a + b) == End(End(from, a), b)
    decreases |b|
  {
    if b == "" {
      assert a + b == a;
    } else {
      assert (a + b)[..|a + b| - 1] == a + b[..|b| - 1];
      EndAppends(from, a, b[..|b| - 1]);
    }
  }

  lemma {:induction false} JoinExtend(parts: seq<string>, c: char, delimiter: char)
    requires parts != []
    ensures Join(parts[..|parts| - 1] + [parts[|parts| - 1] + [c]], delimiter) == Join(parts, delimiter) + [c]
    decreases |parts|
  {
    var longer := parts[..|parts| - 1] + [parts[|parts| - 1] + [c]];
    if |parts| > 1 {
      JoinExtend(parts[1..], c, delimiter);
      assert longer[1..] == parts[1..][..|parts| - 2] + [parts[1..][|parts| - 2] + [c]];
    }
  }

  /** A part ends outside of a quoted string and holds no bare delimiter. */
  predicate Closed(s: string, delimiter: char) {
    End(Plain, s).Plain? && NoBare(s, delimiter)
  }

  /** What a split is: the parts joined again are the text, none holds a bare delimiter, and all but the last
      end outside of a quoted string. */
  predicate IsSplit(s: string, delimiter: char, parts: seq<string>) {
    && parts != [] && Join(parts, delimiter) == s
    && (forall i | 0 <= i < |parts| :: NoBare(parts[i], delimiter))
    && (forall i | 0 <= i < |parts| - 1 :: End(Plain, parts[i]).Plain?)
  }

  lemma NoBareExtends(s: string, c: char, delimiter: char)
    ensures NoBare(s + [c], delimiter) <==> NoBare(s, delimiter) && !(c == delimiter && End(Plain, s).Plain?)
  {
    hide End;
    var longer := s + [c];
    forall i | 0 <= i < |s| ensures Bare(longer, delimiter, i) == Bare(s, delimiter, i) {
      assert longer[..i] == s[..i];
    }
    assert longer[..|s|] == s;
    assert Bare(longer, delimiter, |s|) <==> c == delimiter && End(Plain, s).Plain?;
    hide Bare;
  }

  lemma Snoc(s: string)
    requires s != ""
    ensures s == s[..|s| - 1] + [s[|s| - 1]]
  {
  }

  /** Splitting gives the one split there is. */
  lemma {:induction false} SplitIsSplit(s: string, delimiter: char)
    requires delimiter != '"'
    ensures IsSplit(s, delimiter, SplitQuoted(s, delimiter))
    ensures var parts := SplitQuoted(s, delimiter); End(Plain, parts[|parts| - 1]) == End(Plain, s)
    decreases |s|
  {
    if s != "" {
      var front, c := s[..|s| - 1], s[|s| - 1];
      Snoc(s);
      SplitIsSplit(front, delimiter);
      ReadOne(front, c, delimiter);
      SplitExtends(front, c, delimiter, SplitQuoted(front, delimiter));
    }
  }

  lemma SplitExtends(front: string, c: char, delimiter: char, parts: seq<string>)
    requires delimiter != '"' && IsSplit(front, delimiter, parts) && End(Plain, parts[|parts| - 1]) == End(Plain, front)
    ensures var longer := Extended(parts, c, c == delimiter && End(Plain, front).Plain?);
            IsSplit(front + [c], delimiter, longer) && End(Plain, longer[|longer| - 1]) == End(Plain, front + [c])
  {
    ReadOne(front, c, delimiter);
    if c == delimiter && End(Plain, front).Plain? {
      CutExtends(front, delimiter, parts);
    } else {
      GrowExtends(front, c, delimiter, parts);
    }
  }

  lemma CutExtends(front: string, delimiter: char, parts: seq<string>)
    requires delimiter != '"' && IsSplit(front, delimiter, parts) && End(Plain, parts[|parts| - 1]).Plain?
    ensures IsSplit(front + [delimiter], delimiter, parts + [""]) && End(Plain, "").Plain?
  {
    JoinAppend(parts, [""], delimiter);
    JoinOne("", delimiter);
    assert NoBare("", delimiter);
    hide Join, NoBare, End;
    assert front + [delimiter] + "" == front + [delimiter];
  }

  lemma GrowExtends(front: string, c: char, delimiter: char, parts: seq<string>)
    requires IsSplit(front, delimiter, parts) && !(c == delimiter && End(Plain, parts[|parts| - 1]).Plain?)
    ensures IsSplit(front + [c], delimiter, parts[..|parts| - 1] + [parts[|parts| - 1] + [c]])
    ensures End(Plain, parts[|parts| - 1] + [c]) == Step(End(Plain, parts[|parts| - 1]), c)
  {
    hide Join, NoBare, End;
    JoinExtend(parts, c, delimiter);
    NoBareExtends(parts[|parts| - 1], c, delimiter);
    ReadOne(parts[|parts| - 1], c, delimiter);
  }

  lemma {:induction false} SplitAfter(a: string, delimiter: char, b: string)
    requires Closed(a, delimiter) && delimiter != '"'
    ensures SplitQuoted(a + [delimiter] + b, delimiter) == [a] + SplitQuoted(b, delimiter)
    decreases |b|
  {
    var head := a + [delimiter];
    ReadOne(a, delimiter, delimiter);
    if b == "" {
      SplitWhole(a, delimiter);
      assert head + b == head;
    } else {
      var front, c := b[..|b| - 1], b[|b| - 1];
      Snoc(b);
      SplitAfter(a, delimiter, front);
      EndAppends(Plain, head, front);
      ReadOne(head + front, c, delimiter);
      ReadOne(front, c, delimiter);
      assert head + b == (head + front) + [c];
      hide SplitQuoted, End, NoBare;
      ExtendedAfter(a, SplitQuoted(front, delimiter), c, c == delimiter && End(Plain, front).Plain?);
    }
  }

  lemma ExtendedAfter(a: string, parts: seq<string>, c: char, cut: bool)
    requires parts != []
    ensures Extended([a] + parts, c, cut) == [a] + Extended(parts, c, cut)
  {
    assert ([a] + parts)[..|parts|] == [a] + parts[..|parts| - 1];
  }

  lemma {:induction false} SplitWhole(s: string, delimiter: char)
    requires NoBare(s, delimiter)
    ensures SplitQuoted(s, delimiter) == [s]
    decreases |s|
  {
    if s != "" {
      var front, c := s[..|s| - 1], s[|s| - 1];
      Snoc(s);
      NoBareExtends(front, c, delimiter);
      SplitWhole(front, delimiter);
      ReadOne(front, c, delimiter);
    }
  }

  lemma {:induction false} OnlySplit(parts: seq<string>, delimiter: char)
    requires delimiter != '"' && parts != [] && forall i | 0 <= i < |parts| :: NoBare(parts[i], delimiter)
    requires forall i | 0 <= i < |parts| - 1 :: End(Plain, parts[i]).Plain?
    ensures SplitQuoted(Join(parts, delimiter), delimiter) == parts
    decreases |parts|
  {
    if |parts| == 1 {
      SplitWhole(parts[0], delimiter);
    } else {
      OnlySplit(parts[1..], delimiter);
      SplitAfter(parts[0], delimiter, Join(parts[1..], delimiter));
    }
  }

  /** The split is determined by joining back to the text with no delimiter left bare. */
  lemma SplitExactly(s: string, delimiter: char, parts: seq<string>)
    requires delimiter != '"'
    ensures parts == SplitQuoted(s, delimiter) <==> IsSplit(s, delimiter, parts)
  {
    SplitIsSplit(s, delimiter);
    if IsSplit(s, delimiter, parts) { OnlySplit(parts, delimiter); }
  }

  // ----- unquoting

  /** Backslashes dropped, each with the character it escapes kept; a last lone one stays. */
  function Unescaped(s: string): string {
    if s == "" then ""
    else if s[0] == '\\' && |s| > 1 then [s[1]] + Unescaped(s[2..])
    else [s[0]] + Unescaped(s[1..])
  }

  function Unquoted(value: string): string {
    var trimmed := Trim(value);
    if trimmed == "" || trimmed[0] != '"' || trimmed[|trimmed| - 1] != '"' then trimmed
    else if |trimmed| == 1 then ""
    else Unescaped(trimmed[1..|trimmed| - 1])
  }

  lemma UnescapedFrom(s: string, i: nat)
    requires i < |s|
    ensures Unescaped(s[i..]) ==
      if s[i] == '\\' && i + 1 < |s| then [s[i + 1]] + Unescaped(s[i + 2..]) else [s[i]] + Unescaped(s[i + 1..])
  {
    assert s[i..][1..] == s[i + 1..];
    if i + 1 < |s| { assert s[i..][2..] == s[i + 2..]; }
  }

  method Unquote(value: string) returns (result: string)
    ensures result == Unquoted(value)
  {
    hide Trim, Unescaped;
    var trimmed := Trim(value);
    if trimmed == "" || trimmed[0] != '"' || trimmed[|trimmed| - 1] != '"' {
      return trimmed;
    }
    if |trimmed| == 1 {
      return "";
    }
    result := DropBackslashes(trimmed[1..|trimmed| - 1]);
  }

  lemma OneMore(before: string, c: char, after: string)
    ensures before + ([c] + after) == before + [c] + after
  {
  }

  method DropBackslashes(content: string) returns (result: string)
    ensures result == Unescaped(content)
  {
    result := "";
    var index := 0;
    assert content[0..] == content && Unescaped("") == "";
    hide Unescaped;
    while index < |content|
      invariant 0 <= index <= |content|
      invariant Unescaped(content) == result + Unescaped(content[index..])
    {
      var character := content[index];
      ghost var before := result;
      UnescapedFrom(content, index);
      if character == '\\' && index + 1 < |content| {
        index := index + 1;
        result := result + [content[index]];
      } else {
        result := result + [character];
      }
      index := index + 1;
      OneMore(before, result[|before|], Unescaped(content[index..]));
    }
    assert content[index..] == "";
  }

  /** The quoted-string of section 5.6.4 of RFC 9110. */
  function Escape(s: string): string {
    if s == "" then "" else (if s[0] == '"' || s[0] == '\\' then ['\\', s[0]] else [s[0]]) + Escape(s[1..])
  }

  function Quote(s: string): string { "\"" + Escape(s) + "\"" }

  lemma {:induction false} UnescapedEscape(s: string)
    ensures Unescaped(Escape(s)) == s
  {
    if s != "" {
      UnescapedEscape(s[1..]);
      if s[0] == '"' || s[0] == '\\' {
        assert Escape(s)[2..] == Escape(s[1..]);
      } else {
        assert Escape(s)[1..] == Escape(s[1..]);
      }
    }
  }

  lemma UnquotedQuote(s: string)
    ensures Unquoted(Quote(s)) == s && Trim(Quote(s)) == Quote(s)
  {
    UnescapedEscape(s);
    assert Quote(s)[1..|Quote(s)| - 1] == Escape(s);
  }

  lemma FirstStaysQuoted(c: char)
    ensures var first := if c == '"' || c == '\\' then ['\\', c] else [c];
            End(Quoted, first).Quoted? && forall i | 0 <= i <= |first| :: !End(Quoted, first[..i]).Plain?
  {
    assert "" + [c] == [c] && "" + "\\" == "\\" && "\\" + [c] == ['\\', c];
    ReadOne("", c, ',');
    ReadOne("", '\\', ',');
    ReadOne("\\", c, ',');
    assert ['\\', c][..1] == "\\" && ['\\', c][..0] == "" && ['\\', c][..2] == ['\\', c];
    assert [c][..0] == "" && [c][..1] == [c];
  }

  /** Inside the quotes the scanner never gets out, so nothing in there is bare. */
  lemma {:induction false} EscapeStaysQuoted(s: string, i: nat)
    requires i <= |Escape(s)|
    ensures !End(Quoted, Escape(s)[..i]).Plain?
    ensures End(Quoted, Escape(s)).Quoted?
    decreases |s|
  {
    if s != "" {
      var first := if s[0] == '"' || s[0] == '\\' then ['\\', s[0]] else [s[0]];
      var rest := Escape(s[1..]);
      assert Escape(s) == first + rest;
      FirstStaysQuoted(s[0]);
      EndAppends(Quoted, first, rest);
      if i < |first| {
        EscapeStaysQuoted(s[1..], 0);
        assert Escape(s)[..i] == first[..i];
      } else {
        EscapeStaysQuoted(s[1..], i - |first|);
        assert Escape(s)[..i] == first + rest[..i - |first|];
        EndAppends(Quoted, first, rest[..i - |first|]);
      }
    }
  }

  lemma QuoteIsClosed(s: string, delimiter: char)
    requires delimiter != '"'
    ensures Closed(Quote(s), delimiter)
  {
    var q := Quote(s);
    var inner := Escape(s);
    assert End(Plain, "\"") == Quoted by { assert "\""[..0] == ""; }
    forall i | 0 <= i < |q| ensures !Bare(q, delimiter, i) {
      if 0 < i < |q| - 1 {
        assert q[..i] == "\"" + inner[..i - 1];
        EndAppends(Plain, "\"", inner[..i - 1]);
        EscapeStaysQuoted(s, i - 1);
      }
    }
    assert q[..|q| - 1] == "\"" + inner;
    EndAppends(Plain, "\"", inner);
    EscapeStaysQuoted(s, 0);
  }

  predicate NoQuote(s: string) { forall i | 0 <= i < |s| :: s[i] != '"' }

  lemma {:induction false} NoQuoteIsPlain(s: string)
    requires NoQuote(s)
    ensures End(Plain, s).Plain?
    decreases |s|
  {
    if s != "" { NoQuoteIsPlain(s[..|s| - 1]); }
  }

  /** Text without quotes and delimiters, and a closed text after it, are closed together. */
  lemma ClosedAfter(a: string, b: string, delimiter: char)
    requires NoQuote(a) && (forall i | 0 <= i < |a| :: a[i] != delimiter) && Closed(b, delimiter)
    ensures Closed(a + b, delimiter)
  {
    var whole := a + b;
    NoQuoteIsPlain(a);
    EndAppends(Plain, a, b);
    forall i | 0 <= i < |whole| ensures !Bare(whole, delimiter, i) {
      if i >= |a| {
        assert whole[..i] == a + b[..i - |a|];
        EndAppends(Plain, a, b[..i - |a|]);
        assert !Bare(b, delimiter, i - |a|);
      }
    }
  }

  lemma PlainIsClosed(a: string, delimiter: char)
    requires NoQuote(a) && forall i | 0 <= i < |a| :: a[i] != delimiter
    ensures Closed(a, delimiter)
  {
    NoQuoteIsPlain(a);
  }
}
