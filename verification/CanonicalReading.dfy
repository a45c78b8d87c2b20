/** Reading canonical text back. The reader is written from RFC 8259, with its units as numbers; it allows no
    white space, and in an object it demands ascending names. */
module CanonicalReading {
  import opened CanonicalJson
  import opened Options

  /** One text comes before another when it is a proper prefix of it, or is smaller at the first unit in which
      they differ. */
  ghost predicate Precedes(a: Text, b: Text) {
    exists i :: 0 <= i <= |a| && i < |b| && PrecedesAt(a, b, i)
  }

  predicate PrecedesAt(a: Text, b: Text, i: int)
    requires 0 <= i <= |a| && i < |b|
  {
    a[..i] == b[..i] && (i == |a| || a[i] < b[i])
  }

  /** The order in which keys are printed is the order by code units. */
  lemma {:induction false} BeforeExactly(a: Text, b: Text)
    ensures Before(a, b) <==> Precedes(a, b)
    decreases |a|
  {
    if b == [] {
    } else if a == [] {
      assert PrecedesAt(a, b, 0);
    } else {
      BeforeExactly(a[1..], b[1..]);
      if a[0] == b[0] {
        PrecedesFurther(a, b);
      } else if a[0] < b[0] {
        assert PrecedesAt(a, b, 0);
      } else {
        forall i | 0 < i <= |a| && i < |b| ensures a[..i] != b[..i] {
          assert a[..i][0] == a[0] && b[..i][0] == b[0];
        }
      }
    }
  }

  lemma PrecedesFurther(a: Text, b: Text)
    requires a != [] && b != [] && a[0] == b[0]
    ensures Precedes(a, b) <==> Precedes(a[1..], b[1..])
  {
    forall i | 0 <= i <= |a[1..]| && i < |b[1..]| ensures PrecedesAt(a[1..], b[1..], i) == PrecedesAt(a, b, i + 1) {
      assert a[..i + 1] == [a[0]] + a[1..][..i] && b[..i + 1] == [b[0]] + b[1..][..i];
    }
    if i :| 0 <= i <= |a| && i < |b| && PrecedesAt(a, b, i) {
      if i > 0 { assert PrecedesAt(a[1..], b[1..], i - 1); }
      else { assert false; }
    }
    if i :| 0 <= i <= |a[1..]| && i < |b[1..]| && PrecedesAt(a[1..], b[1..], i) {
      assert PrecedesAt(a, b, i + 1);
    }
  }

  // ----- the reader

  /** A value, or some of a list, and what follows it. */
  type Parsed<+T> = Option<(T, Text)>

  predicate StartsWith(t: Text, word: Text) { word <= t }

  ghost function ParseValue(t: Text): (parsed: Parsed<Json>)
    ensures parsed.Some? ==> |parsed.value.1| < |t|
    decreases |t|, 0
  {
    if t == [] then None
    else if StartsWith(t, [110, 117, 108, 108]) then Some((JNull, t[4..]))
    else if StartsWith(t, [116, 114, 117, 101]) then Some((JBool(true), t[4..]))
    else if StartsWith(t, [102, 97, 108, 115, 101]) then Some((JBool(false), t[5..]))
    else if t[0] == 34 then
      var reading := ReadText(t[1..]);
      if reading.Read? then Some((JString(reading.text), reading.rest)) else None
    else if StartsWith(t, [91, 93]) then Some((JArray([]), t[2..]))
    else if t[0] == 91 then
      var items := ParseItems(t[1..]);
      if items.Some? then Some((JArray(items.value.0), items.value.1)) else None
    else if StartsWith(t, [123, 125]) then Some((JObject(map[]), t[2..]))
    else if t[0] == 123 then
      var members := ParseMembers(t[1..], None);
      if members.Some? then Some((JObject(members.value.0), members.value.1)) else None
    else ParseNumber(t)
  }

  /** The longest run of digits, signs, points and exponents. */
  ghost function ParseNumber(t: Text): (parsed: Parsed<Json>)
    ensures parsed.Some? ==> |parsed.value.1| < |t|
  {
    var n := NumberLength(t);
    NumberLengthBounds(t);
    if n == 0 then None else Some((JNumber(t[..n]), t[n..]))
  }

  lemma NumberUnitsExactly(u: Unit)
    ensures NumberUnit(u) <==> u in {43, 45, 46, 48, 49, 50, 51, 52, 53, 54, 55, 56, 57, 101}
  {
  }

  lemma {:induction false} NumberLengthBounds(t: Text)
    ensures NumberLength(t) <= |t| && forall i | 0 <= i < NumberLength(t) :: NumberUnit(t[i])
  {
    if !Delimited(t) { NumberLengthBounds(t[1..]); }
  }

  /** The values up to the closing bracket, with commas between them. */
  ghost function ParseItems(t: Text): (parsed: Parsed<seq<Json>>)
    ensures parsed.Some? ==> |parsed.value.1| < |t|
    decreases |t|, 1
  {
    var first := ParseValue(t);
    if first.None? || first.value.1 == [] then None
    else
      var (item, rest) := first.value;
      if rest[0] == 93 then Some(([item], rest[1..]))
      else if rest[0] != 44 then None
      else
        var later := ParseItems(rest[1..]);
        if later.Some? then Some(([item] + later.value.0, later.value.1)) else None
  }

  /** The members up to the closing brace, each a name after the last, a colon and a value. */
  ghost function ParseMembers(t: Text, last: Option<Text>): (parsed: Parsed<map<Text, Json>>)
    ensures parsed.Some? ==> |parsed.value.1| < |t|
    decreases |t|, 1
  {
    if t == [] || t[0] != 34 then None
    else
      var name := ReadText(t[1..]);
      if name.Malformed? || (last.Some? && !Precedes(last.value, name.text)) || name.rest == [] || name.rest[0] != 58 then None
      else
        var first := ParseValue(name.rest[1..]);
        if first.None? || first.value.1 == [] then None
        else
          var (member, rest) := first.value;
          if rest[0] == 125 then Some((map[name.text := member], rest[1..]))
          else if rest[0] != 44 then None
          else
            var later := ParseMembers(rest[1..], Some(name.text));
            if later.Some? then Some((map[name.text := member] + later.value.0, later.value.1)) else None
  }

  // ----- what is printed is read back

  lemma {:induction false} ReadsBack(v: Value, rest: Text)
    requires Valid(v) && Delimited(rest)
    ensures ParseValue(Stringify(v) + rest) == Some((Meaning(v), rest))
    decreases v, 1, 0
  {
    match v
    case Array(_) => ArrayReadsBack(v, rest);
    case Object(_, _) => ObjectReadsBack(v, rest);
    case _ => LeafReadsBack(v, rest);
  }

  lemma LeafReadsBack(v: Value, rest: Text)
    requires Valid(v) && Delimited(rest) && !v.Array? && !v.Object?
    ensures ParseValue(Stringify(v) + rest) == Some((Meaning(v), rest))
  {
    if v.String? {
      StringReadsBack(v.text, rest);
    } else if v.Number? {
      NumberReadsBack(v.digits, rest);
    } else {
      WordReadsBack(v, rest);
    }
  }

  lemma StringReadsBack(text: Text, rest: Text)
    ensures ParseValue(Quote(text) + rest) == Some((JString(text), rest))
  {
    hide ReadText, EscapedText, ParseNumber, ParseItems, ParseMembers;
    QuotedReadsBack(text, rest);
    assert (Quote(text) + rest)[0] == 34 && (Quote(text) + rest)[1..] == EscapedText(text) + ([QUOTE] + rest);
  }

  lemma NumberReadsBack(digits: NumberText, rest: Text)
    requires Delimited(rest)
    ensures ParseValue(digits + rest) == Some((JNumber(digits), rest))
  {
    hide ReadText, NumberLength, ParseItems, ParseMembers;
    NumberEnds(digits, rest);
    var t := digits + rest;
    assert t[..|digits|] == digits && t[|digits|..] == rest;
    assert NumberUnit(t[0]);
  }

  lemma WordReadsBack(v: Value, rest: Text)
    requires v.Undefined? || v.Null? || v.Bool? || v.NonFinite?
    ensures ParseValue(Stringify(v) + rest) == Some((Meaning(v), rest))
  {
    hide ReadText, ParseNumber, ParseItems, ParseMembers;
    var t := Stringify(v) + rest;
    assert t[0] == Stringify(v)[0] && Stringify(v) <= t && t[|Stringify(v)|..] == rest;
  }

  ghost function Meanings(v: Value, i: nat): seq<Json>
    requires v.Array? && i <= |v.items|
    decreases |v.items| - i
  {
    if i == |v.items| then [] else [Meaning(v.items[i])] + Meanings(v, i + 1)
  }

  lemma {:induction false} MeaningsAre(v: Value, i: nat)
    requires v.Array? && i <= |v.items|
    ensures Meanings(v, i) == Meaning(v).items[i..]
    decreases |v.items| - i
  {
    if i < |v.items| { MeaningsAre(v, i + 1); }
  }

  lemma ArrayReadsBack(v: Value, rest: Text)
    requires Valid(v) && Delimited(rest) && v.Array?
    ensures ParseValue(Stringify(v) + rest) == Some((Meaning(v), rest))
    decreases v, 0, |v.items| + 1
  {
    hide Stringify, ReadText, ParseItems, ParseMembers, ItemTexts, Tail;
    var t := Stringify(v) + rest;
    ArrayText(v, rest);
    MeaningsAre(v, 0);
    if v.items == [] {
      assert t == [91, 93] + rest;
      assert t[2..] == rest;
    } else {
      var inner := Stringify(v.items[0]) + (Tail(ItemTexts(v), 1, 93) + rest);
      assert t[1..] == inner;
      FirstUnit(v.items[0]);
      assert inner[0] == Stringify(v.items[0])[0] && t[1] == inner[0] != 93;
      ItemsReadBack(v, 0, rest);
    }
  }

  lemma {:induction false} ItemsReadBack(v: Value, i: nat, rest: Text)
    requires Valid(v) && Delimited(rest) && v.Array? && i < |v.items|
    ensures ParseItems(Stringify(v.items[i]) + (Tail(ItemTexts(v), i + 1, 93) + rest)) == Some((Meanings(v, i), rest))
    decreases v, 0, |v.items| - i
  {
    hide Stringify, Meaning, ParseValue, Tail, Delimited;
    var later := Tail(ItemTexts(v), i + 1, 93) + rest;
    TailDelimited(ItemTexts(v), i + 1, 93, rest);
    ReadsBack(v.items[i], later);
    TailFirst(ItemTexts(v), i + 1, 93, rest);
    if i + 1 < |v.items| {
      ItemsReadBack(v, i + 1, rest);
      assert later[1..] == Stringify(v.items[i + 1]) + (Tail(ItemTexts(v), i + 2, 93) + rest);
    } else {
      assert later[1..] == rest;
      assert Meanings(v, i) == [Meaning(v.items[i])];
    }
  }

  ghost function MembersMeaning(v: Value, i: nat): map<Text, Json>
    requires Valid(v) && v.Object? && i <= |PrintedKeys(v)|
    decreases |PrintedKeys(v)| - i
  {
    if i == |PrintedKeys(v)| then map[]
    else
      var key := PrintedKeys(v)[i];
      map[key := Meaning(v.fields[key])] + MembersMeaning(v, i + 1)
  }

  lemma {:induction false} MembersMeaningAre(v: Value, i: nat)
    requires Valid(v) && v.Object? && i <= |PrintedKeys(v)|
    ensures forall k :: k in MembersMeaning(v, i) <==> k in PrintedKeys(v)[i..]
    ensures forall k | k in MembersMeaning(v, i) :: k in v.fields && MembersMeaning(v, i)[k] == Meaning(v.fields[k])
    decreases |PrintedKeys(v)| - i
  {
    hide PrintedKeys, Meaning;
    if i < |PrintedKeys(v)| {
      MembersMeaningAre(v, i + 1);
      assert PrintedKeys(v)[i..] == [PrintedKeys(v)[i]] + PrintedKeys(v)[i + 1..];
    }
  }

  lemma MembersMeaningIsAll(v: Value)
    requires Valid(v) && v.Object?
    ensures Meaning(v) == JObject(MembersMeaning(v, 0))
  {
    MembersMeaningAre(v, 0);
    MembersMeant(v);
    hide PrintedKeys, Meaning, MembersMeaning;
    assert PrintedKeys(v)[0..] == PrintedKeys(v);
    assert Meaning(v).members == MembersMeaning(v, 0);
  }

  lemma ObjectReadsBack(v: Value, rest: Text)
    requires Valid(v) && Delimited(rest) && v.Object?
    ensures ParseValue(Stringify(v) + rest) == Some((Meaning(v), rest))
    decreases v, 0, |PrintedKeys(v)| + 1
  {
    hide Stringify, ReadText, ParseItems, ParseMembers, ParseNumber, Members, PrintedKeys, Tail, Meaning, MembersMeaning, Precedes;
    var t := Stringify(v) + rest;
    ObjectText(v, rest);
    MembersMeaningIsAll(v);
    if PrintedKeys(v) == [] {
      assert t == [123, 125] + rest;
      assert t[2..] == rest;
      NoMembers(v);
    } else {
      var inner := Members(v)[0] + (Tail(Members(v), 1, 125) + rest);
      assert t[1..] == inner;
      MemberText(v, 0, []);
      assert inner[0] == Members(v)[0][0] && t[1] == inner[0] != 125;
      MembersReadBack(v, 0, rest);
    }
  }

  lemma NoMembers(v: Value)
    requires Valid(v) && v.Object? && PrintedKeys(v) == []
    ensures MembersMeaning(v, 0) == map[]
  {
  }

  lemma {:induction false} MembersReadBack(v: Value, i: nat, rest: Text)
    requires Valid(v) && Delimited(rest) && v.Object? && i < |PrintedKeys(v)|
    ensures ParseMembers(Members(v)[i] + (Tail(Members(v), i + 1, 125) + rest), if i == 0 then None else Some(PrintedKeys(v)[i - 1]))
         == Some((MembersMeaning(v, i), rest))
    decreases v, 0, |PrintedKeys(v)| - i
  {
    hide Stringify, Meaning, ParseValue, ReadText, Tail, Delimited, Members, PrintedKeys, Quote, Precedes, Before;
    var keys := PrintedKeys(v);
    var key, later := keys[i], Tail(Members(v), i + 1, 125) + rest;
    assert key in keys;
    TailDelimited(Members(v), i + 1, 125, rest);
    ReadsBack(v.fields[key], later);
    MemberText(v, i, later);
    NameReadsBack(key, Stringify(v.fields[key]) + later);
    if i > 0 { BeforeExactly(keys[i - 1], key); }
    TailFirst(Members(v), i + 1, 125, rest);
    if i + 1 < |keys| {
      MembersReadBack(v, i + 1, rest);
      assert later[1..] == Members(v)[i + 1] + (Tail(Members(v), i + 2, 125) + rest);
    } else {
      assert later[1..] == rest;
      assert MembersMeaning(v, i) == map[key := Meaning(v.fields[key])];
    }
  }

  lemma NameReadsBack(key: Text, value: Text)
    ensures var t := Quote(key) + ([COLON] + value);
            t[0] == 34 && ReadText(t[1..]) == Read(key, [58] + value) && ([58] + value)[1..] == value
  {
    hide ReadText, EscapedText;
    QuotedReadsBack(key, [COLON] + value);
    assert (Quote(key) + ([COLON] + value))[1..] == EscapedText(key) + ([QUOTE] + ([COLON] + value));
  }

  /** Canonical text is JSON text: read by the standard it gives the value that was meant, to its last unit,
      with no white space and with the names of every object in ascending order. */
  lemma CanonicalReadsBack(v: Value)
    requires Valid(v)
    ensures ParseValue(Stringify(v)) == Some((Meaning(v), []))
  {
    ReadsBack(v, []);
    assert Stringify(v) + [] == Stringify(v);
  }
}
