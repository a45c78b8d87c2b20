/** The canonical JSON text that requests are hashed and signed over. Text is a sequence of UTF-16 code
    units, as JavaScript has it: a string may hold a surrogate without its partner. */
module CanonicalJson {
  import opened Sequences

  type Unit = u: int | 0 <= u < 0x1_0000
  type Text = seq<Unit>

  const QUOTE: Unit := 34
  const COMMA: Unit := 44
  const COLON: Unit := 58
  const BACKSLASH: Unit := 92
  const LETTER_U: Unit := 117
  const NULL: Text := [110, 117, 108, 108]
  const TRUE: Text := [116, 114, 117, 101]
  const FALSE: Text := [102, 97, 108, 115, 101]

  predicate NumberUnit(u: Unit) {
    48 <= u <= 57 || u == 43 || u == 45 || u == 46 || u == 101
  }

  /** What matters of the text of a finite number: digits, sign, point and exponent only. */
  predicate IsNumberText(t: Text) {
    t != [] && forall i | 0 <= i < |t| :: NumberUnit(t[i])
  }

  type NumberText = t: Text | IsNumberText(t) witness [48]

  /** A JavaScript value. An object keeps the order in which its keys were added. A finite number is
      given by its decimal text, which is the same for two numbers only if they are equal. */
  datatype Value =
    | Undefined
    | Null
    | Bool(on: bool)
    | NonFinite
    | Number(digits: NumberText)
    | String(text: Text)
    | Array(items: seq<Value>)
    | Object(keys: seq<Text>, fields: map<Text, Value>)

  ghost predicate Valid(v: Value) {
    match v
    case Array(items) => forall i | 0 <= i < |items| :: Valid(items[i])
    case Object(keys, fields) =>
      Distinct(keys) && (forall k :: k in keys <==> k in fields) && forall k | k in fields :: Valid(fields[k])
    case _ => true
  }

  // ----- JSON.stringify of a string

  function HexUnit(d: int): (u: Unit)
    requires 0 <= d < 16
  {
    if d < 10 then 48 + d else 87 + d
  }

  function HexEscape(u: Unit): Text {
    [BACKSLASH, LETTER_U, HexUnit(u / 4096), HexUnit(u / 256 % 16), HexUnit(u / 16 % 16), HexUnit(u % 16)]
  }

  predicate HighSurrogate(u: Unit) { 0xd800 <= u < 0xdc00 }

  predicate LowSurrogate(u: Unit) { 0xdc00 <= u < 0xe000 }

  function ShortEscape(u: Unit): Unit {
    if u == 8 then 98 else if u == 9 then 116 else if u == 10 then 110 else if u == 12 then 102
    else if u == 13 then 114 else u
  }

  function Escaped(u: Unit): Text {
    if u in {8, 9, 10, 12, 13, QUOTE, BACKSLASH} then [BACKSLASH, ShortEscape(u)]
    else if u < 32 || HighSurrogate(u) || LowSurrogate(u) then HexEscape(u)
    else [u]
  }

  function EscapedText(t: Text): Text {
    if t == [] then []
    else if |t| > 1 && HighSurrogate(t[0]) && LowSurrogate(t[1]) then [t[0], t[1]] + EscapedText(t[2..])
    else Escaped(t[0]) + EscapedText(t[1..])
  }

  function Quote(t: Text): Text {
    [QUOTE] + EscapedText(t) + [QUOTE]
  }

  // ----- Array.prototype.sort on strings: by code units

  predicate Before(a: Text, b: Text) {
    b != [] && (a == [] || a[0] < b[0] || (a[0] == b[0] && Before(a[1..], b[1..])))
  }

  predicate Ascending(keys: seq<Text>) {
    forall i, j | 0 <= i < j < |keys| :: Before(keys[i], keys[j])
  }

  function Insert(key: Text, keys: seq<Text>): seq<Text> {
    if keys == [] || Before(key, keys[0]) then [key] + keys else [keys[0]] + Insert(key, keys[1..])
  }

  function Sort(keys: seq<Text>): seq<Text> {
    if keys == [] then [] else Insert(keys[0], Sort(keys[1..]))
  }

  // ----- the printer

  function Defined(keys: seq<Text>, fields: map<Text, Value>): seq<Text>
    requires forall k | k in keys :: k in fields
  {
    if keys == [] then []
    else if fields[keys[0]].Undefined? then Defined(keys[1..], fields)
    else [keys[0]] + Defined(keys[1..], fields)
  }

  function Join(parts: seq<Text>): Text {
    if parts == [] then [] else if |parts| == 1 then parts[0] else parts[0] + [COMMA] + Join(parts[1..])
  }

  function Stringify(v: Value): Text
    requires Valid(v)
    decreases v
  {
    match v
    case Undefined => NULL
    case Null => NULL
    case Bool(on) => if on then TRUE else FALSE
    case NonFinite => NULL
    case Number(digits) => digits
    case String(text) => Quote(text)
    case Array(items) => [91] + Join(seq(|items|, i requires 0 <= i < |items| => Stringify(items[i]))) + [93]
    case Object(_, fields) => [123] + Join(Members(v)) + [125]
  }

  function Members(v: Value): (members: seq<Text>)
    requires Valid(v) && v.Object?
    ensures |members| == |PrintedKeys(v)|
    decreases v, 0
  {
    var keys := PrintedKeys(v);
    seq(|keys|, i requires 0 <= i < |keys| => Quote(keys[i]) + [COLON] + Stringify(v.fields[keys[i]]))
  }

  function PrintedKeys(v: Value): (keys: seq<Text>)
    requires Valid(v) && v.Object?
    ensures forall k :: k in keys <==> k in v.fields && !v.fields[k].Undefined?
    ensures Ascending(keys)
  {
    DefinedKeys(v.keys, v.fields);
    SortSorts(Defined(v.keys, v.fields));
    Sort(Defined(v.keys, v.fields))
  }

  // ----- what the text stands for

  datatype Json =
    | JNull
    | JBool(on: bool)
    | JNumber(digits: NumberText)
    | JString(text: Text)
    | JArray(items: seq<Json>)
    | JObject(members: map<Text, Json>)

  /** The JSON value that is printed: objects are read as maps, absent members dropped, and what JSON
      cannot say becomes null. */
  ghost function Meaning(v: Value): Json
    decreases v
  {
    match v
    case Undefined => JNull
    case Null => JNull
    case Bool(on) => JBool(on)
    case NonFinite => JNull
    case Number(digits) => JNumber(digits)
    case String(text) => JString(text)
    case Array(items) => JArray(seq(|items|, i requires 0 <= i < |items| => Meaning(items[i])))
    case Object(_, fields) => JObject(map k | k in fields && !fields[k].Undefined? :: Meaning(fields[k]))
  }

  // ----- sorting

  lemma {:induction false} BeforeIsStrict(a: Text, b: Text, c: Text)
    ensures !Before(a, a)
    ensures Before(a, b) && Before(b, c) ==> Before(a, c)
    ensures a == b || Before(a, b) || Before(b, a)
    decreases |a|
  {
    if a != [] && b != [] {
      BeforeIsStrict(a[1..], b[1..], if c == [] then [] else c[1..]);
      assert a == [a[0]] + a[1..] && b == [b[0]] + b[1..];
    } else if a != [] {
      BeforeIsStrict(a[1..], a[1..], a[1..]);
    }
  }

  lemma {:induction false} InsertSorts(key: Text, keys: seq<Text>)
    requires Ascending(keys) && key !in keys
    ensures Ascending(Insert(key, keys))
    ensures forall k :: k in Insert(key, keys) <==> k == key || k in keys
  {
    if keys == [] {
    } else if Before(key, keys[0]) {
      forall j | 0 <= j < |keys| ensures Before(key, keys[j]) { BeforeIsStrict(key, keys[0], keys[j]); }
    } else {
      BeforeIsStrict(key, keys[0], key);
      assert keys[0] in keys && keys == [keys[0]] + keys[1..];
      InsertSorts(key, keys[1..]);
      var rest := Insert(key, keys[1..]);
      forall j | 0 <= j < |rest| ensures Before(keys[0], rest[j]) {
        assert rest[j] in rest;
      }
    }
  }

  lemma {:induction false} SortSorts(keys: seq<Text>)
    requires Distinct(keys)
    ensures Ascending(Sort(keys))
    ensures forall k :: k in Sort(keys) <==> k in keys
  {
    if keys != [] {
      assert keys == [keys[0]] + keys[1..];
      SortSorts(keys[1..]);
      InsertSorts(keys[0], Sort(keys[1..]));
    }
  }

  lemma {:induction false} DefinedKeys(keys: seq<Text>, fields: map<Text, Value>)
    requires Distinct(keys) && forall k | k in keys :: k in fields
    ensures Distinct(Defined(keys, fields))
    ensures forall k :: k in Defined(keys, fields) <==> k in keys && !fields[k].Undefined?
  {
    if keys != [] {
      assert keys == [keys[0]] + keys[1..];
      DefinedKeys(keys[1..], fields);
    }
  }

  /** A set of strings has one ascending order. */
  lemma {:induction false} OneOrder(a: seq<Text>, b: seq<Text>)
    requires Ascending(a) && Ascending(b) && forall k :: k in a <==> k in b
    ensures a == b
  {
    assert a == [] || a[0] in a;
    assert b == [] || b[0] in b;
    if a != [] && b != [] {
      assert a == [a[0]] + a[1..] && b == [b[0]] + b[1..];
      SameFirst(a, b);
      BeforeIsStrict(a[0], a[0], a[0]);
      forall k ensures k in a[1..] <==> k in b[1..] {
        assert k in a[1..] ==> k in a && k in b;
        assert k in b[1..] ==> k in b && k in a;
      }
      OneOrder(a[1..], b[1..]);
    }
  }

  lemma SameFirst(a: seq<Text>, b: seq<Text>)
    requires a != [] && b != [] && Ascending(a) && Ascending(b) && forall k :: k in a <==> k in b
    ensures a[0] == b[0]
  {
    assert a[0] in b && b[0] in a;
    var i :| 0 <= i < |b| && b[i] == a[0];
    var j :| 0 <= j < |a| && a[j] == b[0];
    if i > 0 && j > 0 {
      BeforeIsStrict(a[0], b[0], a[0]);
    }
  }

  // ----- strings delimit themselves

  datatype Reading = Read(text: Text, rest: Text) | Malformed

  predicate HexDigit(u: Unit) { 48 <= u <= 57 || 97 <= u <= 102 }

  function HexValue(u: Unit): int
    requires HexDigit(u)
  {
    if u <= 57 then u - 48 else u - 87
  }

  function Prepend(u: Unit, reading: Reading): Reading {
    if reading.Read? then Read([u] + reading.text, reading.rest) else Malformed
  }

  /** The escapes of two units; there is one for the solidus, which the printer does not use. */
  predicate ShortEscaped(u: Unit) { u in {34, 47, 92, 98, 102, 110, 114, 116} }

  function Unescape(u: Unit): Unit {
    if u == 98 then 8 else if u == 116 then 9 else if u == 110 then 10 else if u == 102 then 12
    else if u == 114 then 13 else u
  }

  /** Reads a string up to its closing quote, as section 7 of RFC 8259 has it: control characters must be
      escaped, and so must surrogates without a partner, which no encoding of the text could carry. Hexadecimal
      digits are in lower case. */
  function ReadText(t: Text): (reading: Reading)
    ensures reading.Read? ==> |reading.rest| < |t|
  {
    if t == [] then Malformed
    else if t[0] == 34 then Read([], t[1..])
    else if t[0] != 92 then
      if t[0] < 32 || 0xdc00 <= t[0] <= 0xdfff then Malformed
      else if 0xd800 <= t[0] <= 0xdbff then
        if |t| < 2 || !(0xdc00 <= t[1] <= 0xdfff) then Malformed else Prepend(t[0], Prepend(t[1], ReadText(t[2..])))
      else Prepend(t[0], ReadText(t[1..]))
    else if |t| < 2 then Malformed
    else if t[1] != 117 then if ShortEscaped(t[1]) then Prepend(Unescape(t[1]), ReadText(t[2..])) else Malformed
    else if |t| < 6 || !HexDigit(t[2]) || !HexDigit(t[3]) || !HexDigit(t[4]) || !HexDigit(t[5]) then Malformed
    else Prepend(HexValue(t[2]) * 4096 + HexValue(t[3]) * 256 + HexValue(t[4]) * 16 + HexValue(t[5]), ReadText(t[6..]))
  }

  lemma HexSum(u: Unit)
    ensures u / 4096 * 4096 + u / 256 % 16 * 256 + u / 16 % 16 * 16 + u % 16 == u
    ensures 0 <= u / 4096 < 16
  {
    var a := u / 16;
    var b := a / 16;
    assert u / 256 == b && u / 4096 == b / 16;
  }

  lemma HexReadsBack(u: Unit)
    ensures forall i | 2 <= i < 6 :: HexDigit(HexEscape(u)[i])
    ensures HexValue(HexEscape(u)[2]) * 4096 + HexValue(HexEscape(u)[3]) * 256 + HexValue(HexEscape(u)[4]) * 16
            + HexValue(HexEscape(u)[5]) == u
  {
    HexSum(u);
  }

  lemma EscapedReadsBack(u: Unit, rest: Text)
    ensures ReadText(Escaped(u) + rest) == Prepend(u, ReadText(rest))
  {
    var t := Escaped(u) + rest;
    if u in {8, 9, 10, 12, 13, QUOTE, BACKSLASH} {
      assert t[2..] == rest;
    } else if u < 32 || HighSurrogate(u) || LowSurrogate(u) {
      HexReadsBack(u);
      assert t[6..] == rest;
      assert forall i | 0 <= i < 6 :: t[i] == HexEscape(u)[i];
    } else {
      assert t[1..] == rest;
    }
  }

  lemma PairReadsBack(high: Unit, low: Unit, rest: Text)
    requires HighSurrogate(high) && LowSurrogate(low)
    ensures ReadText([high, low] + rest) == Prepend(high, Prepend(low, ReadText(rest)))
  {
    assert ([high, low] + rest)[2..] == rest;
  }

  lemma QuoteEnds(rest: Text)
    ensures ReadText([QUOTE] + rest) == Read([], rest)
  {
    assert ([QUOTE] + rest)[1..] == rest;
  }

  /** A quoted string read from its first unit gives back the string and what follows it, whatever the
      string holds: quotes, backslashes, control characters, lone surrogates. */
  lemma {:induction false} QuotedReadsBack(t: Text, rest: Text)
    ensures ReadText(EscapedText(t) + ([QUOTE] + rest)) == Read(t, rest)
    decreases |t|
  {
    hide ReadText, Escaped, EscapedText;
    var ending := [QUOTE] + rest;
    EscapedSteps(t);
    if t == [] {
      QuoteEnds(rest);
      assert EscapedText(t) + ending == ending;
    } else if |t| > 1 && HighSurrogate(t[0]) && LowSurrogate(t[1]) {
      QuotedReadsBack(t[2..], rest);
      var later := EscapedText(t[2..]) + ending;
      PairReadsBack(t[0], t[1], later);
      assert EscapedText(t) + ending == [t[0], t[1]] + later;
      assert t == [t[0]] + ([t[1]] + t[2..]);
    } else {
      QuotedReadsBack(t[1..], rest);
      var later := EscapedText(t[1..]) + ending;
      EscapedReadsBack(t[0], later);
      assert EscapedText(t) + ending == Escaped(t[0]) + later;
      assert t == [t[0]] + t[1..];
    }
  }

  lemma EscapedSteps(t: Text)
    ensures EscapedText(t) ==
      if t == [] then []
      else if |t| > 1 && HighSurrogate(t[0]) && LowSurrogate(t[1]) then [t[0], t[1]] + EscapedText(t[2..])
      else Escaped(t[0]) + EscapedText(t[1..])
  {
    hide Escaped;
  }

  /** How many units spell the first of a text: an escape of two or six, a pair, or the unit itself. */
  function Width(t: Text): nat {
    if t == [] then 0
    else if t[0] == BACKSLASH then if |t| > 1 && t[1] == LETTER_U then 6 else 2
    else if HighSurrogate(t[0]) then 2
    else 1
  }

  lemma ReadSteps(t: Text)
    requires ReadText(t).Read? && t[0] != QUOTE
    ensures Width(t) <= |t| && ReadText(t[Width(t)..]).Read? && ReadText(t).text != []
    ensures var first, whole, later := ReadText(t).text[0], ReadText(t), ReadText(t[Width(t)..]);
            && whole.rest == later.rest
            && if HighSurrogate(t[0]) then
                 |whole.text| > 1 && HighSurrogate(first) && LowSurrogate(whole.text[1]) && whole.text[2..] == later.text
               else
                 whole.text[1..] == later.text && |Escaped(first)| <= Width(t)
                 && (Width(t) < 6 ==> !HighSurrogate(first) && !LowSurrogate(first))
  {
  }

  /** Nothing is spelled out that need not be: of all the spellings of a string, the printed one is shortest. */
  lemma {:induction false} ShortestSpelling(t: Text, spelling: Text)
    requires ReadText(spelling + [QUOTE]) == Read(t, [])
    ensures |EscapedText(t)| <= |spelling|
    decreases |spelling|
  {
    var e := spelling + [QUOTE];
    hide EscapedText, ReadText, Escaped, Width;
    if spelling == [] || e[0] == QUOTE {
      QuoteEnds(e[1..]);
      assert e == [QUOTE] + e[1..];
      EscapedSteps(t);
    } else {
      ReadSteps(e);
      var n := Width(e);
      var later := ReadText(e[n..]).text;
      assert ReadText([]) == Malformed by { NothingRead(); }
      WidthGrows(e);
      assert e[n..] == spelling[n..] + [QUOTE];
      ShortestSpelling(later, spelling[n..]);
      EscapedSteps(t);
      EscapedSteps(later);
      EscapedWidth(t[0]);
    }
  }

  lemma NothingRead()
    ensures ReadText([]) == Malformed
  {
  }

  lemma WidthGrows(t: Text)
    requires t != []
    ensures Width(t) >= 1 && (HighSurrogate(t[0]) ==> Width(t) == 2) && Width(t) <= 6
  {
  }

  lemma EscapedWidth(u: Unit)
    ensures HighSurrogate(u) || LowSurrogate(u) ==> |Escaped(u)| == 6
  {
  }

  lemma SameQuoted(a: Text, b: Text, restA: Text, restB: Text)
    requires Quote(a) + restA == Quote(b) + restB
    ensures a == b && restA == restB
  {
    hide ReadText, EscapedText;
    QuotedReadsBack(a, restA);
    QuotedReadsBack(b, restB);
    assert (Quote(a) + restA)[1..] == EscapedText(a) + ([QUOTE] + restA);
    assert (Quote(b) + restB)[1..] == EscapedText(b) + ([QUOTE] + restB);
  }

  // ----- numbers end where the next delimiter stands

  predicate Delimited(rest: Text) {
    rest == [] || !NumberUnit(rest[0])
  }

  function NumberLength(t: Text): nat {
    if Delimited(t) then 0 else 1 + NumberLength(t[1..])
  }

  lemma {:induction false} NumberEnds(digits: Text, rest: Text)
    requires (forall i | 0 <= i < |digits| :: NumberUnit(digits[i])) && Delimited(rest)
    ensures NumberLength(digits + rest) == |digits|
  {
    if digits == [] {
      assert digits + rest == rest;
    } else {
      assert (digits + rest)[1..] == digits[1..] + rest;
      NumberEnds(digits[1..], rest);
    }
  }

  lemma SameNumber(a: NumberText, b: NumberText, restA: Text, restB: Text)
    requires a + restA == b + restB && Delimited(restA) && Delimited(restB)
    ensures a == b && restA == restB
  {
    NumberEnds(a, restA);
    NumberEnds(b, restB);
    assert a == (a + restA)[..|a|] && b == (b + restB)[..|b|];
    assert restA == (a + restA)[|a|..] && restB == (b + restB)[|b|..];
  }

  // ----- joined parts, each with the delimiter before it

  /** The parts from position `i` on, each after a comma, and the closing bracket. */
  function Tail(parts: seq<Text>, i: nat, close: Unit): Text
    requires i <= |parts|
    decreases |parts| - i
  {
    if i == |parts| then [close] else [COMMA] + parts[i] + Tail(parts, i + 1, close)
  }

  lemma {:induction false} JoinIsTail(parts: seq<Text>, close: Unit)
    ensures Join(parts) + [close] == if parts == [] then [close] else parts[0] + Tail(parts, 1, close)
    decreases |parts|
  {
    if |parts| > 1 {
      JoinIsTail(parts[1..], close);
      TailShifts(parts, 1, close);
      assert Join(parts) + [close] == parts[0] + ([COMMA] + (Join(parts[1..]) + [close]));
    }
  }

  lemma {:induction false} TailShifts(parts: seq<Text>, i: nat, close: Unit)
    requires 1 <= i <= |parts|
    ensures Tail(parts, i, close) == Tail(parts[1..], i - 1, close)
    decreases |parts| - i
  {
    if i < |parts| { TailShifts(parts, i + 1, close); }
  }

  // ----- equal texts have equal meanings

  function ItemTexts(v: Value): (texts: seq<Text>)
    requires Valid(v) && v.Array?
    ensures |texts| == |v.items|
  {
    seq(|v.items|, i requires 0 <= i < |v.items| => Stringify(v.items[i]))
  }

  lemma BracketedText(parts: seq<Text>, open: Unit, close: Unit, rest: Text)
    ensures [open] + Join(parts) + [close] + rest ==
      [open] + if parts == [] then [close] + rest else parts[0] + (Tail(parts, 1, close) + rest)
  {
    hide Join, Tail;
    JoinIsTail(parts, close);
    var body := Join(parts) + [close];
    assert [open] + Join(parts) + [close] + rest == [open] + (body + rest);
    if parts == [] {
      assert body == [close];
    } else {
      assert body + rest == parts[0] + (Tail(parts, 1, close) + rest);
    }
  }

  lemma ArrayText(v: Value, rest: Text)
    requires Valid(v) && v.Array?
    ensures Stringify(v) + rest ==
      [91] + if v.items == [] then [93] + rest else Stringify(v.items[0]) + (Tail(ItemTexts(v), 1, 93) + rest)
  {
    hide Join, Tail;
    assert Stringify(v) == [91] + Join(ItemTexts(v)) + [93];
    BracketedText(ItemTexts(v), 91, 93, rest);
    hide Stringify;
    assert v.items != [] ==> ItemTexts(v)[0] == Stringify(v.items[0]);
  }

  lemma ObjectText(v: Value, rest: Text)
    requires Valid(v) && v.Object?
    ensures Stringify(v) + rest ==
      [123] + if PrintedKeys(v) == [] then [125] + rest else Members(v)[0] + (Tail(Members(v), 1, 125) + rest)
  {
    hide PrintedKeys, Join, Tail;
    BracketedText(Members(v), 123, 125, rest);
  }

  lemma TailDelimited(parts: seq<Text>, i: nat, close: Unit, rest: Text)
    requires i <= |parts| && (close == 93 || close == 125)
    ensures Delimited(Tail(parts, i, close) + rest)
  {
  }

  predicate Announces(u: Unit, j: Json) {
    match j
    case JNull => u == 110
    case JBool(on) => u == if on then 116 else 102
    case JNumber(_) => NumberUnit(u)
    case JString(_) => u == QUOTE
    case JArray(_) => u == 91
    case JObject(_) => u == 123
  }

  /** The first unit tells which kind of value follows. */
  lemma FirstUnit(v: Value)
    requires Valid(v)
    ensures var t := Stringify(v);
            && t != []
            && (Meaning(v).JNull? ==> t == NULL)
            && Announces(t[0], Meaning(v))
  {
    hide Members, PrintedKeys, Join;
  }

  lemma TailFirst(parts: seq<Text>, i: nat, close: Unit, rest: Text)
    requires i <= |parts|
    ensures Tail(parts, i, close) + rest ==
      if i == |parts| then [close] + rest else [COMMA] + (parts[i] + (Tail(parts, i + 1, close) + rest))
  {
  }

  /** Two equal tails end together, or go on with parts that start equal texts. */
  lemma SameParts(a: seq<Text>, b: seq<Text>, i: nat, close: Unit, restA: Text, restB: Text)
    requires i <= |a| && i <= |b| && close != COMMA && Tail(a, i, close) + restA == Tail(b, i, close) + restB
    ensures i == |a| <==> i == |b|
    ensures if i == |a| then restA == restB
            else a[i] + (Tail(a, i + 1, close) + restA) == b[i] + (Tail(b, i + 1, close) + restB)
  {
    TailFirst(a, i, close, restA);
    TailFirst(b, i, close, restB);
    hide Tail;
    var whole := Tail(a, i, close) + restA;
    assert whole[0] == (if i == |a| then close else COMMA) == if i == |b| then close else COMMA;
    if i == |a| {
      assert whole[1..] == restA && whole[1..] == restB;
    } else {
      assert whole[1..] == a[i] + (Tail(a, i + 1, close) + restA);
      assert whole[1..] == b[i] + (Tail(b, i + 1, close) + restB);
    }
  }

  lemma SameFrom(a: seq<Text>, b: seq<Text>, i: nat)
    requires i < |a| && i < |b| && a[i] == b[i] && a[i + 1..] == b[i + 1..]
    ensures a[i..] == b[i..]
  {
    assert a[i..] == [a[i]] + a[i + 1..] && b[i..] == [b[i]] + b[i + 1..];
  }

  lemma {:induction false} SameText(a: Value, b: Value, restA: Text, restB: Text)
    requires Valid(a) && Valid(b) && Delimited(restA) && Delimited(restB)
    requires Stringify(a) + restA == Stringify(b) + restB
    ensures Meaning(a) == Meaning(b) && restA == restB
    decreases a, 1, 0
  {
    hide Stringify, Members, PrintedKeys, Tail, Quote;
    FirstUnit(a);
    FirstUnit(b);
    assert (Stringify(a) + restA)[0] == Stringify(a)[0] && (Stringify(b) + restB)[0] == Stringify(b)[0];
    match a
    case Array(_) => SameArrays(a, b, restA, restB);
    case Object(_, _) => SameObjects(a, b, restA, restB);
    case _ => SameLeaves(a, b, restA, restB);
  }

  lemma SameLeaves(a: Value, b: Value, restA: Text, restB: Text)
    requires Valid(a) && Valid(b) && Delimited(restA) && Delimited(restB)
    requires Stringify(a) + restA == Stringify(b) + restB
    requires !a.Array? && !a.Object?
    ensures Meaning(a) == Meaning(b) && restA == restB
  {
    hide Members, PrintedKeys, Quote, EscapedText, IsNumberText;
    FirstUnit(a);
    FirstUnit(b);
    assert (Stringify(a) + restA)[0] == Stringify(a)[0] && (Stringify(b) + restB)[0] == Stringify(b)[0];
    if a.Number? {
      SameNumber(a.digits, b.digits, restA, restB);
    } else if a.String? {
      SameQuoted(a.text, b.text, restA, restB);
    } else {
      assert Stringify(a) == Stringify(b);
      assert restA == (Stringify(a) + restA)[|Stringify(a)|..] && restB == (Stringify(b) + restB)[|Stringify(b)|..];
    }
  }

  lemma SameArrays(a: Value, b: Value, restA: Text, restB: Text)
    requires Valid(a) && Valid(b) && a.Array? && b.Array? && Delimited(restA) && Delimited(restB)
    requires Stringify(a) + restA == Stringify(b) + restB
    ensures Meaning(a) == Meaning(b) && restA == restB
    decreases a, 0, |a.items| + 1
  {
    hide Stringify, ItemTexts, Tail, Delimited;
    ArrayText(a, restA);
    ArrayText(b, restB);
    var innerA, innerB := (Stringify(a) + restA)[1..], (Stringify(b) + restB)[1..];
    if a.items == [] || b.items == [] {
      if a.items != [] { FirstUnit(a.items[0]); }
      if b.items != [] { FirstUnit(b.items[0]); }
      assert innerA[0] == innerB[0];
      assert restA == innerA[1..] && restB == innerB[1..];
    } else {
      SameNonEmpty(a, b, restA, restB);
    }
  }

  lemma SameNonEmpty(a: Value, b: Value, restA: Text, restB: Text)
    requires Valid(a) && Valid(b) && a.Array? && b.Array? && Delimited(restA) && Delimited(restB)
    requires a.items != [] && b.items != []
    requires Stringify(a.items[0]) + (Tail(ItemTexts(a), 1, 93) + restA)
          == Stringify(b.items[0]) + (Tail(ItemTexts(b), 1, 93) + restB)
    ensures Meaning(a) == Meaning(b) && restA == restB
    decreases a, 0, |a.items|
  {
    hide Stringify, ItemTexts, Tail, Delimited;
    TailDelimited(ItemTexts(a), 1, 93, restA);
    TailDelimited(ItemTexts(b), 1, 93, restB);
    SameText(a.items[0], b.items[0], Tail(ItemTexts(a), 1, 93) + restA, Tail(ItemTexts(b), 1, 93) + restB);
    SameItems(a, b, 1, restA, restB);
  }

  lemma {:induction false} SameItems(a: Value, b: Value, i: nat, restA: Text, restB: Text)
    requires Valid(a) && Valid(b) && a.Array? && b.Array? && Delimited(restA) && Delimited(restB)
    requires 1 <= i <= |a.items| && i <= |b.items|
    requires Tail(ItemTexts(a), i, 93) + restA == Tail(ItemTexts(b), i, 93) + restB
    ensures |a.items| == |b.items| && restA == restB
    ensures forall j | i <= j < |a.items| :: Meaning(a.items[j]) == Meaning(b.items[j])
    decreases a, 0, |a.items| - i
  {
    hide Stringify, Tail, Delimited;
    var wholeA, wholeB := Tail(ItemTexts(a), i, 93) + restA, Tail(ItemTexts(b), i, 93) + restB;
    TailFirst(ItemTexts(a), i, 93, restA);
    TailFirst(ItemTexts(b), i, 93, restB);
    assert wholeA[0] == wholeB[0];
    if i == |a.items| {
      assert restA == wholeA[1..] && restB == wholeB[1..];
    } else {
      var laterA, laterB := Tail(ItemTexts(a), i + 1, 93) + restA, Tail(ItemTexts(b), i + 1, 93) + restB;
      assert Stringify(a.items[i]) + laterA == wholeA[1..] == wholeB[1..] == Stringify(b.items[i]) + laterB;
      TailDelimited(ItemTexts(a), i + 1, 93, restA);
      TailDelimited(ItemTexts(b), i + 1, 93, restB);
      SameText(a.items[i], b.items[i], laterA, laterB);
      SameItems(a, b, i + 1, restA, restB);
    }
  }

  lemma SameObjects(a: Value, b: Value, restA: Text, restB: Text)
    requires Valid(a) && Valid(b) && a.Object? && b.Object? && Delimited(restA) && Delimited(restB)
    requires Stringify(a) + restA == Stringify(b) + restB
    ensures Meaning(a) == Meaning(b) && restA == restB
    decreases a, 0, |PrintedKeys(a)| + 1
  {
    hide Stringify, Quote, Members, Tail, Delimited, PrintedKeys, Meaning;
    ObjectText(a, restA);
    ObjectText(b, restB);
    var keysA, keysB := PrintedKeys(a), PrintedKeys(b);
    var innerA, innerB := (Stringify(a) + restA)[1..], (Stringify(b) + restB)[1..];
    if keysA == [] || keysB == [] {
      if keysA != [] { MemberText(a, 0, []); }
      if keysB != [] { MemberText(b, 0, []); }
      assert innerA[0] == innerB[0];
      assert restA == innerA[1..] && restB == innerB[1..];
    } else {
      var laterA, laterB := Tail(Members(a), 1, 125) + restA, Tail(Members(b), 1, 125) + restB;
      assert Members(a)[0] + laterA == innerA == innerB == Members(b)[0] + laterB;
      TailDelimited(Members(a), 1, 125, restA);
      TailDelimited(Members(b), 1, 125, restB);
      SameMember(a, b, 0, laterA, laterB);
      SameMembers(a, b, 1, restA, restB);
      assert keysA == [keysA[0]] + keysA[1..] && keysB == [keysB[0]] + keysB[1..];
    }
    SameMaps(a, b);
  }

  lemma SameMaps(a: Value, b: Value)
    requires Valid(a) && Valid(b) && a.Object? && b.Object? && PrintedKeys(a) == PrintedKeys(b)
    requires forall j | 0 <= j < |PrintedKeys(a)| ::
               Meaning(a.fields[PrintedKeys(a)[j]]) == Meaning(b.fields[PrintedKeys(b)[j]])
    ensures Meaning(a) == Meaning(b)
  {
    MembersMeant(a);
    MembersMeant(b);
    hide PrintedKeys, Meaning, Valid;
    var mapA, mapB := Meaning(a).members, Meaning(b).members;
    forall k | k in mapA ensures mapA[k] == mapB[k] {
      var j :| 0 <= j < |PrintedKeys(a)| && PrintedKeys(a)[j] == k;
    }
    assert mapA == mapB;
  }

  /** The members that an object means are those of its printed keys. */
  lemma MembersMeant(v: Value)
    requires Valid(v) && v.Object?
    ensures Meaning(v).JObject? && forall k :: k in Meaning(v).members <==> k in PrintedKeys(v)
    ensures forall k | k in PrintedKeys(v) :: Meaning(v).members[k] == Meaning(v.fields[k])
  {
    hide PrintedKeys;
  }

  lemma MemberText(v: Value, i: nat, later: Text)
    requires Valid(v) && v.Object? && i < |PrintedKeys(v)|
    ensures Members(v)[i] + later == Quote(PrintedKeys(v)[i]) + ([COLON] + (Stringify(v.fields[PrintedKeys(v)[i]]) + later))
    ensures Members(v)[i] != [] && Members(v)[i][0] == QUOTE
  {
    hide Stringify, PrintedKeys;
  }

  lemma SameMember(a: Value, b: Value, i: nat, laterA: Text, laterB: Text)
    requires Valid(a) && Valid(b) && a.Object? && b.Object? && Delimited(laterA) && Delimited(laterB)
    requires i < |PrintedKeys(a)| && i < |PrintedKeys(b)| && Members(a)[i] + laterA == Members(b)[i] + laterB
    ensures PrintedKeys(a)[i] == PrintedKeys(b)[i] && laterA == laterB
    ensures Meaning(a.fields[PrintedKeys(a)[i]]) == Meaning(b.fields[PrintedKeys(b)[i]])
    decreases a, 0, 0
  {
    hide Stringify, PrintedKeys, Quote;
    MemberText(a, i, laterA);
    MemberText(b, i, laterB);
    var keyA, keyB := PrintedKeys(a)[i], PrintedKeys(b)[i];
    assert keyA in PrintedKeys(a) && keyB in PrintedKeys(b);
    var textA, textB := Stringify(a.fields[keyA]) + laterA, Stringify(b.fields[keyB]) + laterB;
    SameQuoted(keyA, keyB, [COLON] + textA, [COLON] + textB);
    assert textA == ([COLON] + textA)[1..] && textB == ([COLON] + textB)[1..];
    SameText(a.fields[keyA], b.fields[keyB], laterA, laterB);
  }

  lemma {:induction false} SameMembers(a: Value, b: Value, i: nat, restA: Text, restB: Text)
    requires Valid(a) && Valid(b) && a.Object? && b.Object? && Delimited(restA) && Delimited(restB)
    requires 1 <= i <= |PrintedKeys(a)| && i <= |PrintedKeys(b)|
    requires Tail(Members(a), i, 125) + restA == Tail(Members(b), i, 125) + restB
    ensures PrintedKeys(a)[i..] == PrintedKeys(b)[i..] && restA == restB
    ensures forall j | i <= j < |PrintedKeys(a)| ::
              Meaning(a.fields[PrintedKeys(a)[j]]) == Meaning(b.fields[PrintedKeys(b)[j]])
    decreases a, 0, |PrintedKeys(a)| - i + 1
  {
    hide Stringify, PrintedKeys, Quote, Tail, Delimited, Members, Meaning, Valid;
    var keysA, keysB := PrintedKeys(a), PrintedKeys(b);
    SameParts(Members(a), Members(b), i, 125, restA, restB);
    if i < |keysA| {
      var laterA, laterB := Tail(Members(a), i + 1, 125) + restA, Tail(Members(b), i + 1, 125) + restB;
      TailDelimited(Members(a), i + 1, 125, restA);
      TailDelimited(Members(b), i + 1, 125, restB);
      SameMember(a, b, i, laterA, laterB);
      SameMembers(a, b, i + 1, restA, restB);
      SameFrom(keysA, keysB, i);
    }
  }

  // ----- equal meanings have equal texts

  lemma {:induction false} SameMeaning(a: Value, b: Value)
    requires Valid(a) && Valid(b) && Meaning(a) == Meaning(b)
    ensures Stringify(a) == Stringify(b)
    decreases a
  {
    hide PrintedKeys;
    match a
    case Array(items) =>
      assert |Meaning(a).items| == |Meaning(b).items|;
      forall i | 0 <= i < |items| ensures Stringify(items[i]) == Stringify(b.items[i]) {
        assert Meaning(a).items[i] == Meaning(b).items[i];
        SameMeaning(items[i], b.items[i]);
      }
      assert ItemTexts(a) == ItemTexts(b);
      assert Stringify(a) == [91] + Join(ItemTexts(a)) + [93];
      assert Stringify(b) == [91] + Join(ItemTexts(b)) + [93];
    case Object(_, fields) =>
      forall k ensures k in PrintedKeys(a) <==> k in PrintedKeys(b) {
        assert k in Meaning(a).members <==> k in Meaning(b).members;
      }
      OneOrder(PrintedKeys(a), PrintedKeys(b));
      forall k | k in PrintedKeys(a) ensures Stringify(fields[k]) == Stringify(b.fields[k]) {
        assert Meaning(a).members[k] == Meaning(b).members[k];
        SameMeaning(fields[k], b.fields[k]);
      }
      assert Members(a) == Members(b);
    case _ =>
  }

  /** Two values have the same canonical text exactly when they mean the same JSON value: the order in
      which an object was built does not show, and nothing else is confused. */
  lemma CanonicalText(a: Value, b: Value)
    requires Valid(a) && Valid(b)
    ensures Stringify(a) == Stringify(b) <==> Meaning(a) == Meaning(b)
  {
    if Stringify(a) == Stringify(b) { SameText(a, b, [], []); }
    if Meaning(a) == Meaning(b) { SameMeaning(a, b); }
  }
}
