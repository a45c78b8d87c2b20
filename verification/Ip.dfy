/** IP literals and CIDR blocks, as the network policies compare them. */
module Ip {
  import opened Options
  import opened Arithmetic
  import opened JsNumber
  import opened Numerals
  import opened Radix
  import opened Text

  datatype Kind = Ipv4 | Ipv6

  datatype ParsedIp = ParsedIp(kind: Kind, bits: nat, value: nat)

  // ----- IPv4

  /** "0" or one to three digits without a leading zero, and at most 255. */
  predicate IsOctet(piece: string) {
    && 1 <= |piece| <= 3 && (forall i | 0 <= i < |piece| :: Decimal(piece[i])) && (piece[0] == '0' ==> |piece| == 1)
    && Value(10, DigitValues(piece)) <= 255
  }

  function OctetValue(piece: string): (octet: nat)
    requires IsOctet(piece)
    ensures octet < 256
  {
    Value(10, DigitValues(piece))
  }

  function OctetValues(pieces: seq<string>): (octets: seq<nat>)
    requires forall i | 0 <= i < |pieces| :: IsOctet(pieces[i])
    ensures |octets| == |pieces|
  {
    seq(|pieces|, i requires 0 <= i < |pieces| => OctetValue(pieces[i]))
  }

  function Ipv4Of(text: string): Option<ParsedIp> {
    var pieces := Split(text, '.');
    if |pieces| == 4 && forall i | 0 <= i < 4 :: IsOctet(pieces[i])
    then Some(ParsedIp(Ipv4, 32, Value(256, OctetValues(pieces))))
    else None
  }

  function BigShiftLeft(x: nat, n: nat): nat { x * Pow2(n) }

  function BigShiftRight(x: nat, n: nat): nat { Quotient(x, Pow2(n)) }

  function Quotient(x: nat, d: nat): (q: nat)
    requires d > 0
  {
    QuotientBound(x, d);
    x / d
  }

  function BigOr(x: nat, y: nat): nat { Bitwise(OrOp, x, y) }

  lemma ShiftedJoin(x: nat, y: nat, n: nat)
    requires y < Pow2(n)
    ensures BigOr(BigShiftLeft(x, n), y) == x * Pow2(n) + y
  {
    JoinIsSum(x, y, n);
  }

  lemma Pow2Values()
    ensures Pow2(8) == 256 && Pow2(16) == 65536
  {
    assert Pow2(8) == 256;
    Pow2Sum(8, 8);
  }

  lemma OctetStep(pieces: seq<string>, i: nat, result: nat)
    requires i < |pieces| && forall k | 0 <= k <= i :: IsOctet(pieces[k])
    requires result == Value(256, OctetValues(pieces[..i]))
    ensures BigOr(BigShiftLeft(result, 8), OctetValue(pieces[i])) == Value(256, OctetValues(pieces[..i + 1]))
  {
    Pow2Values();
    hide Pow2, BigOr, BigShiftLeft, OctetValue, IsOctet, Value;
    var octet := OctetValue(pieces[i]);
    ShiftedJoin(result, octet, 8);
    ValueAppend(256, OctetValues(pieces[..i]), octet);
    assert OctetValues(pieces[..i + 1]) == OctetValues(pieces[..i]) + [octet];
  }

  method ParseIpv4(value: string) returns (parsed: Option<ParsedIp>)
    ensures parsed == Ipv4Of(value)
  {
    var pieces := Split(value, '.');
    if |pieces| != 4 {
      return None;
    }
    var result: nat := 0;
    var index := 0;
    assert OctetValues(pieces[..0]) == [] && Value(256, []) == 0;
    hide BigOr, BigShiftLeft, OctetValue, IsOctet, Split, Value;
    while index < 4
      invariant 0 <= index <= 4
      invariant forall i | 0 <= i < index :: IsOctet(pieces[i])
      invariant result == Value(256, OctetValues(pieces[..index]))
    {
      var piece := pieces[index];
      if !IsOctet(piece) {
        return None;
      }
      OctetStep(pieces, index, result);
      result := BigOr(BigShiftLeft(result, 8), OctetValue(piece));
      index := index + 1;
    }
    assert pieces[..4] == pieces;
    parsed := Some(ParsedIp(Ipv4, 32, result));
  }

  // ----- IPv6

  /** The address without regard to case and without its zone. */
  function Body(text: string): string {
    var low := Lower(text);
    low[..IndexOf(low, '%')]
  }

  function TailGroups(value: nat): seq<string> {
    [HexText(value / 65536 % 65536), HexText(value % 65536)]
  }

  /** An embedded IPv4 tail becomes two groups. */
  function Expanded(body: string): Option<string> {
    var last := LastIndexOf(body, ':');
    if '.' in body && last >= 0 then
      var tail := Ipv4Of(body[last + 1..]);
      if tail.None? then None else Some(body[..last] + ":" + Join(TailGroups(tail.value.value), ':'))
    else Some(body)
  }

  predicate ColonPair(s: string, i: int) {
    0 <= i < |s| - 1 && s[i] == ':' && s[i + 1] == ':'
  }

  /** Where the first "::" stands, or the length of the text without one. */
  function IndexOfPair(s: string): (i: nat)
    ensures i <= |s| && (i < |s| ==> ColonPair(s, i)) && forall k | 0 <= k < i :: !ColonPair(s, k)
  {
    if s == [] || ColonPair(s, 0) then 0
    else
      var i := 1 + IndexOfPair(s[1..]);
      assert forall k | 0 < k < i :: !ColonPair(s, k) by {
        assert forall k | 0 < k < i :: ColonPair(s, k) <==> ColonPair(s[1..], k - 1);
      }
      i
  }

  function SplitPairs(s: string): (halves: seq<string>)
    ensures halves != []
    decreases |s|
  {
    var i := IndexOfPair(s);
    if i == |s| then [s] else [s[..i]] + SplitPairs(s[i + 2..])
  }

  predicate IsGroup(piece: string) {
    1 <= |piece| <= 4 && forall i | 0 <= i < |piece| :: LowerHex(piece[i])
  }

  predicate AllGroups(pieces: seq<string>) {
    forall i | 0 <= i < |pieces| :: IsGroup(pieces[i])
  }

  function PiecesOf(half: string): seq<string> {
    if half == "" then [] else Split(half, ':')
  }

  function Zeros(n: nat): seq<string> { seq(n, i => "0") }

  /** The eight groups of an expanded address. */
  function GroupsOf(text: string): (pieces: Option<seq<string>>)
    ensures pieces.Some? ==> |pieces.value| == 8 && AllGroups(pieces.value)
  {
    if text == "" || (exists i | 0 <= i < |text| :: !LowerHex(text[i]) && text[i] != ':')
       || (exists i | 0 <= i < |text| - 2 :: ColonPair(text, i) && ColonPair(text, i + 1))
    then None
    else
      var halves := SplitPairs(text);
      if |halves| > 2 then None
      else
        var left := PiecesOf(halves[0]);
        var right := if |halves| == 1 then [] else PiecesOf(halves[1]);
        var missing := 8 - |left| - |right|;
        if !AllGroups(left) || !AllGroups(right) || (|halves| == 1 && missing != 0) || (|halves| == 2 && missing < 1) then None
        else Some(left + Zeros(missing) + right)
  }

  function GroupValue(piece: string): nat
    requires IsGroup(piece)
  {
    Value(16, DigitValues(piece))
  }

  function GroupValues(pieces: seq<string>): (groups: seq<nat>)
    requires AllGroups(pieces)
    ensures |groups| == |pieces|
  {
    seq(|pieces|, i requires 0 <= i < |pieces| => GroupValue(pieces[i]))
  }

  function Ipv6Of(text: string): Option<ParsedIp> {
    var expanded := Expanded(Body(text));
    if expanded.None? then None
    else
      var pieces := GroupsOf(expanded.value);
      if pieces.None? then None else Some(ParsedIp(Ipv6, 128, Value(65536, GroupValues(pieces.value))))
  }

  lemma GroupFits(piece: string)
    requires IsGroup(piece)
    ensures GroupValue(piece) < 65536
  {
    var digits := DigitValues(piece);
    ValueBound(16, digits);
    assert Power(16, 4) == 65536 && Power(16, 3) == 4096 && Power(16, 2) == 256 && Power(16, 1) == 16;
  }

  method ParseIpv6(value: string) returns (parsed: Option<ParsedIp>)
    ensures parsed == Ipv6Of(value)
  {
    hide GroupsOf, Ipv4Of, TailGroups, Join;
    var normalized := Lower(value);
    var zone := IndexOf(normalized, '%');
    normalized := normalized[..zone];
    var lastColon := LastIndexOf(normalized, ':');
    if '.' in normalized && lastColon >= 0 {
      var tail := ParseIpv4(normalized[lastColon + 1..]);
      if tail.None? {
        return None;
      }
      normalized := normalized[..lastColon] + ":" + Join(TailGroups(tail.value.value), ':');
    }
    var pieces := GroupsOf(normalized);
    if pieces.None? {
      return None;
    }
    var result := JoinGroups(pieces.value);
    parsed := Some(ParsedIp(Ipv6, 128, result));
  }

  lemma GroupStep(pieces: seq<string>, i: nat, result: nat)
    requires i < |pieces| && AllGroups(pieces) && result == Value(65536, GroupValues(pieces[..i]))
    ensures BigOr(BigShiftLeft(result, 16), GroupValue(pieces[i])) == Value(65536, GroupValues(pieces[..i + 1]))
  {
    Pow2Values();
    hide Pow2, BigOr, BigShiftLeft, GroupValue, IsGroup, Value;
    var group := GroupValue(pieces[i]);
    GroupFits(pieces[i]);
    ShiftedJoin(result, group, 16);
    ValueAppend(65536, GroupValues(pieces[..i]), group);
    assert GroupValues(pieces[..i + 1]) == GroupValues(pieces[..i]) + [group];
  }

  /** The groups shifted together, most significant first. */
  method JoinGroups(pieces: seq<string>) returns (result: nat)
    requires AllGroups(pieces)
    ensures result == Value(65536, GroupValues(pieces))
  {
    result := 0;
    var index := 0;
    assert GroupValues(pieces[..0]) == [] && Value(65536, []) == 0;
    hide BigOr, BigShiftLeft, GroupValue, IsGroup, Value;
    while index < |pieces|
      invariant 0 <= index <= |pieces|
      invariant result == Value(65536, GroupValues(pieces[..index]))
    {
      GroupStep(pieces, index, result);
      result := BigOr(BigShiftLeft(result, 16), GroupValue(pieces[index]));
      index := index + 1;
    }
    assert pieces[..index] == pieces;
  }

  // ----- what an IPv4 literal denotes

  function Dotted(octets: seq<nat>): string {
    Join(seq(|octets|, i requires 0 <= i < |octets| => DecimalText(octets[i])), '.')
  }

  predicate AreOctets(octets: seq<nat>) {
    |octets| == 4 && forall i | 0 <= i < 4 :: octets[i] < 256
  }

  lemma OctetReadsBack(n: nat)
    requires n < 256
    ensures IsOctet(DecimalText(n)) && OctetValue(DecimalText(n)) == n && Without(DecimalText(n), '.') && Without(DecimalText(n), ':')
  {
    hide DecimalText, Value;
    DecimalReadsBack(n);
  }

  lemma OctetIsDecimal(piece: string)
    requires IsOctet(piece)
    ensures OctetValue(piece) < 256 && DecimalText(OctetValue(piece)) == piece
  {
    hide DecimalText, Value;
    DecimalIsText(piece);
  }

  /** A text parses as IPv4 exactly when it is four octets in canonical decimal joined by dots, and then
      to the number those octets denote. */
  lemma Ipv4Exactly(text: string, parsed: ParsedIp)
    ensures Ipv4Of(text) == Some(parsed) <==>
      exists octets :: AreOctets(octets) && text == Dotted(octets) && parsed == ParsedIp(Ipv4, 32, Value(256, octets))
  {
    if Ipv4Of(text) == Some(parsed) {
      Ipv4Denoted(text);
    }
    if octets :| AreOctets(octets) && text == Dotted(octets) && parsed == ParsedIp(Ipv4, 32, Value(256, octets)) {
      DottedParses(octets);
    }
  }

  lemma Ipv4Denoted(text: string)
    requires Ipv4Of(text).Some?
    ensures var octets := OctetValues(Split(text, '.'));
            AreOctets(octets) && text == Dotted(octets) && Ipv4Of(text) == Some(ParsedIp(Ipv4, 32, Value(256, octets)))
  {
    hide DecimalText, OctetValue, IsOctet;
    var pieces := Split(text, '.');
    JoinSplit(text, '.');
    forall i | 0 <= i < 4 ensures OctetValues(pieces)[i] < 256 && DecimalText(OctetValues(pieces)[i]) == pieces[i] {
      OctetIsDecimal(pieces[i]);
    }
    var octets := OctetValues(pieces);
    assert seq(|octets|, i requires 0 <= i < |octets| => DecimalText(octets[i])) == pieces;
  }

  lemma DottedParses(octets: seq<nat>)
    requires AreOctets(octets)
    ensures Ipv4Of(Dotted(octets)) == Some(ParsedIp(Ipv4, 32, Value(256, octets)))
    ensures Without(Dotted(octets), ':') && '.' in Dotted(octets)
  {
    hide DecimalText, OctetValue, IsOctet;
    var pieces := seq(|octets|, i requires 0 <= i < |octets| => DecimalText(octets[i]));
    forall i | 0 <= i < 4
      ensures IsOctet(pieces[i]) && OctetValue(pieces[i]) == octets[i] && Without(pieces[i], '.') && Without(pieces[i], ':')
    {
      OctetReadsBack(octets[i]);
    }
    SplitJoin(pieces, '.');
    assert OctetValues(pieces) == octets;
    FourJoined(pieces, '.', ':');
  }

  lemma FourJoined(pieces: seq<string>, c: char, other: char)
    requires |pieces| == 4 && c != other && forall i | 0 <= i < 4 :: Without(pieces[i], other)
    ensures Without(Join(pieces, c), other) && c in Join(pieces, c)
  {
    var joined := pieces[0] + [c] + (pieces[1] + [c] + (pieces[2] + [c] + pieces[3]));
    assert Join(pieces[3..], c) == pieces[3];
    assert pieces[2..][1..] == pieces[3..] && Join(pieces[2..], c) == pieces[2] + [c] + pieces[3];
    assert pieces[1..][1..] == pieces[2..] && Join(pieces[1..], c) == pieces[1] + [c] + Join(pieces[2..], c);
    assert Join(pieces, c) == joined;
    assert joined[|pieces[0]|] == c;
  }

  // ----- what an IPv6 literal denotes

  /** The spellings of section 2.2 of RFC 4291: groups, optionally a "::" with more groups after it, and
      optionally the last two groups as an IPv4 address. */
  datatype Spelling = Spelling(left: seq<string>, right: Option<seq<string>>, tail: Option<seq<nat>>)

  function Count(sp: Spelling): nat {
    |sp.left| + (if sp.right.Some? then |sp.right.value| else 0) + if sp.tail.Some? then 2 else 0
  }

  /** Eight groups in full; with a "::", at most seven. */
  predicate Spells(sp: Spelling) {
    && AllGroups(sp.left) && (sp.right.Some? ==> AllGroups(sp.right.value)) && (sp.tail.Some? ==> AreOctets(sp.tail.value))
    && if sp.right.None? then Count(sp) == 8 else Count(sp) <= 7
  }

  function TailPieces(sp: Spelling): seq<string> {
    if sp.tail.Some? then [Dotted(sp.tail.value)] else []
  }

  function SpellingText(sp: Spelling): string {
    if sp.right.None? then Join(sp.left + TailPieces(sp), ':')
    else Join(sp.left, ':') + "::" + Join(sp.right.value + TailPieces(sp), ':')
  }

  function TailValues(sp: Spelling): (groups: seq<nat>)
    requires sp.tail.Some? ==> AreOctets(sp.tail.value)
    ensures |groups| == if sp.tail.Some? then 2 else 0
  {
    if sp.tail.Some? then [sp.tail.value[0] * 256 + sp.tail.value[1], sp.tail.value[2] * 256 + sp.tail.value[3]] else []
  }

  /** The eight groups a spelling stands for. */
  function Groups(sp: Spelling): (groups: seq<nat>)
    requires Spells(sp)
    ensures |groups| == 8
  {
    if sp.right.None? then GroupValues(sp.left) + TailValues(sp)
    else GroupValues(sp.left) + seq(8 - Count(sp), i => 0) + GroupValues(sp.right.value) + TailValues(sp)
  }

  /** The same address with its IPv4 tail written as two groups. */
  function Untailed(sp: Spelling): (plain: Spelling)
    requires sp.tail.Some? ==> AreOctets(sp.tail.value)
    ensures plain.tail.None?
  {
    if sp.tail.None? then sp
    else
      var groups := TailGroups(Value(256, sp.tail.value));
      if sp.right.None? then Spelling(sp.left + groups, None, None)
      else Spelling(sp.left, Some(sp.right.value + groups), None)
  }

  lemma FourOctets(octets: seq<nat>)
    requires AreOctets(octets)
    ensures Value(256, octets) == (octets[0] * 256 + octets[1]) * 65536 + (octets[2] * 256 + octets[3])
  {
    var two := octets[..2];
    assert octets[..3][..2] == two && two[..1] == octets[..1] && octets[..1][..0] == [];
    assert Value(256, octets[..1]) == octets[0];
    assert Value(256, two) == octets[0] * 256 + octets[1];
    assert Value(256, octets[..3]) == Value(256, two) * 256 + octets[2];
  }

  lemma TwoGroups(high: nat, low: nat)
    requires high < 65536 && low < 65536
    ensures (high * 65536 + low) / 65536 % 65536 == high && (high * 65536 + low) % 65536 == low
  {
  }

  lemma TailGroupsRead(octets: seq<nat>)
    requires AreOctets(octets)
    ensures var groups := TailGroups(Value(256, octets));
            AllGroups(groups) && GroupValues(groups) == [octets[0] * 256 + octets[1], octets[2] * 256 + octets[3]]
  {
    hide HexText, Value;
    var high, low := octets[0] * 256 + octets[1], octets[2] * 256 + octets[3];
    FourOctets(octets);
    TwoGroups(high, low);
    HexReadsBack(high);
    HexReadsBack(low);
  }

  lemma GroupValuesAppend(a: seq<string>, b: seq<string>)
    requires AllGroups(a) && AllGroups(b)
    ensures AllGroups(a + b) && GroupValues(a + b) == GroupValues(a) + GroupValues(b)
  {
    hide IsGroup, GroupValue;
  }

  lemma UntailedSpells(sp: Spelling)
    requires Spells(sp)
    ensures Spells(Untailed(sp)) && Groups(Untailed(sp)) == Groups(sp)
  {
    if sp.tail.Some? {
      hide TailGroups, Value, IsGroup, GroupValue, AllGroups, GroupValues;
      var groups := TailGroups(Value(256, sp.tail.value));
      TailGroupsRead(sp.tail.value);
      assert |groups| == 2 && GroupValues(groups) == TailValues(sp);
      if sp.right.None? {
        GroupValuesAppend(sp.left, groups);
      } else {
        GroupValuesAppend(sp.right.value, groups);
        var zeros := seq(8 - Count(sp), i => 0);
        assert GroupValues(sp.left) + zeros + (GroupValues(sp.right.value) + GroupValues(groups))
            == GroupValues(sp.left) + zeros + GroupValues(sp.right.value) + TailValues(sp);
      }
    }
  }

  // ----- joined groups have no two colons together

  predicate NoPair(s: string) { forall i | 0 <= i < |s| - 1 :: !ColonPair(s, i) }

  lemma {:induction false} JoinedGroups(pieces: seq<string>)
    requires AllGroups(pieces) && pieces != []
    ensures var s := Join(pieces, ':');
            && s != [] && s[0] != ':' && s[|s| - 1] != ':' && NoPair(s)
            && (forall i | 0 <= i < |s| :: LowerHex(s[i]) || s[i] == ':')
    decreases |pieces|
  {
    assert LowerHex(pieces[0][0]) && forall i | 0 <= i < |pieces[0]| :: LowerHex(pieces[0][i]);
    if |pieces| > 1 {
      JoinedGroups(pieces[1..]);
      hide NoPair, IsGroup;
      OneColonBetween(pieces[0], Join(pieces[1..], ':'));
    }
  }

  lemma OneColonBetween(front: string, rest: string)
    requires front != "" && forall i | 0 <= i < |front| :: LowerHex(front[i])
    requires rest != [] && rest[0] != ':' && NoPair(rest) && forall i | 0 <= i < |rest| :: LowerHex(rest[i]) || rest[i] == ':'
    ensures var s := front + [':'] + rest;
            && s[0] == front[0] && s[|s| - 1] == rest[|rest| - 1] && NoPair(s)
            && (forall i | 0 <= i < |s| :: LowerHex(s[i]) || s[i] == ':')
  {
    var s := front + [':'] + rest;
    assert forall i | 0 <= i < |front| :: s[i] == front[i];
    assert forall i | 0 <= i < |rest| :: s[|front| + 1 + i] == rest[i];
    forall i | 0 <= i < |s| - 1 ensures !ColonPair(s, i) {
      if i > |front| { assert !ColonPair(rest, i - |front| - 1); }
    }
  }

  lemma PairAfter(a: string, b: string)
    requires NoPair(a) && (a != [] ==> a[|a| - 1] != ':')
    ensures IndexOfPair(a + "::" + b) == |a| && (a + "::" + b)[..|a|] == a && (a + "::" + b)[|a| + 2..] == b
  {
    var s := a + "::" + b;
    assert ColonPair(s, |a|);
    forall k | 0 <= k < |a| ensures !ColonPair(s, k) {
      if k < |a| - 1 { assert ColonPair(s, k) <==> ColonPair(a, k); } else { assert s[k] == a[k]; }
    }
  }

  lemma PiecesOfJoined(pieces: seq<string>)
    requires AllGroups(pieces)
    ensures PiecesOf(Join(pieces, ':')) == pieces
  {
    if pieces != [] {
      JoinedGroups(pieces);
      SplitJoin(pieces, ':');
    }
  }

  lemma SplitsOnce(a: string, b: string)
    requires NoPair(a) && NoPair(b) && (a != [] ==> a[|a| - 1] != ':')
    ensures SplitPairs(a + "::" + b) == [a, b]
  {
    PairAfter(a, b);
    assert SplitPairs(b) == [b] by { assert IndexOfPair(b) == |b|; }
  }

  lemma JoinedHalf(pieces: seq<string>)
    requires AllGroups(pieces)
    ensures var s := Join(pieces, ':');
            && NoPair(s) && (s != [] ==> s[0] != ':' && s[|s| - 1] != ':')
            && (forall i | 0 <= i < |s| :: LowerHex(s[i]) || s[i] == ':')
  {
    if pieces != [] { JoinedGroups(pieces); }
  }

  lemma SpelledIsClean(sp: Spelling)
    requires Spells(sp) && sp.tail.None?
    ensures CleanText(SpellingText(sp))
  {
    hide Join;
    JoinedHalf(sp.left);
    assert sp.left + TailPieces(sp) == sp.left;
    if sp.right.None? {
      JoinedGroups(sp.left);
    } else {
      assert sp.right.value + TailPieces(sp) == sp.right.value;
      JoinedHalf(sp.right.value);
      var a, b := Join(sp.left, ':'), Join(sp.right.value, ':');
      NoTriple(a, b);
    }
  }

  lemma NoTriple(a: string, b: string)
    requires NoPair(a) && NoPair(b) && (a != [] ==> a[|a| - 1] != ':') && (b != [] ==> b[0] != ':')
    ensures var s := a + "::" + b; forall i | 0 <= i < |s| - 2 :: !(ColonPair(s, i) && ColonPair(s, i + 1))
  {
    var s := a + "::" + b;
    forall i | 0 <= i < |s| - 2 ensures !(ColonPair(s, i) && ColonPair(s, i + 1)) {
      if i < |a| - 1 {
        assert ColonPair(s, i) <==> ColonPair(a, i);
      } else if i == |a| - 1 {
        assert s[i] == a[i];
      } else if i == |a| {
        assert b != [] ==> s[i + 2] == b[0];
      } else if i == |a| + 1 {
        assert s[i + 1] == b[0];
      } else {
        assert ColonPair(s, i) <==> ColonPair(b, i - |a| - 2);
      }
    }
  }

  /** What the reading of groups asks of a text before it looks at them. */
  predicate CleanText(s: string) {
    && s != "" && (forall i | 0 <= i < |s| :: LowerHex(s[i]) || s[i] == ':')
    && forall i | 0 <= i < |s| - 2 :: !(ColonPair(s, i) && ColonPair(s, i + 1))
  }

  lemma WholeReads(left: seq<string>)
    requires AllGroups(left) && |left| == 8 && CleanText(Join(left, ':'))
    ensures GroupsOf(Join(left, ':')) == Some(left)
  {
    var s := Join(left, ':');
    PiecesOfJoined(left);
    JoinedHalf(left);
    assert SplitPairs(s) == [s];
    hide Join, PiecesOf, IsGroup, SplitPairs, ColonPair, NoPair;
    assert left + Zeros(0) + [] == left;
  }

  lemma HalvesRead(left: seq<string>, right: seq<string>)
    requires AllGroups(left) && AllGroups(right) && |left| + |right| <= 7
    requires CleanText(Join(left, ':') + "::" + Join(right, ':'))
    ensures GroupsOf(Join(left, ':') + "::" + Join(right, ':')) == Some(left + Zeros(8 - |left| - |right|) + right)
  {
    hide Join, PiecesOf, IsGroup, SplitPairs, ColonPair, NoPair;
    PiecesOfJoined(left);
    PiecesOfJoined(right);
    JoinedHalf(left);
    JoinedHalf(right);
    SplitsOnce(Join(left, ':'), Join(right, ':'));
  }

  /** Spellings without a tail are read to the groups they stand for. */
  lemma SpelledReads(sp: Spelling)
    requires Spells(sp) && sp.tail.None?
    ensures GroupsOf(SpellingText(sp)).Some? && GroupValues(GroupsOf(SpellingText(sp)).value) == Groups(sp)
  {
    hide GroupsOf, GroupValues, Join, CleanText, IsGroup;
    SpelledIsClean(sp);
    assert sp.left + TailPieces(sp) == sp.left;
    if sp.right.None? {
      WholeReads(sp.left);
    } else {
      var right := sp.right.value;
      assert right + TailPieces(sp) == right;
      HalvesRead(sp.left, right);
      PaddedGroups(sp.left, 8 - Count(sp), right);
      assert Groups(sp) == GroupValues(sp.left) + seq(8 - Count(sp), i => 0) + GroupValues(right);
    }
  }

  lemma PaddedGroups(left: seq<string>, n: nat, right: seq<string>)
    requires AllGroups(left) && AllGroups(right)
    ensures AllGroups(left + Zeros(n) + right)
    ensures GroupValues(left + Zeros(n) + right) == GroupValues(left) + seq(n, i => 0) + GroupValues(right)
  {
    ZeroGroups();
    hide IsGroup, GroupValue;
  }

  lemma ZeroGroups()
    ensures IsGroup("0") && GroupValue("0") == 0
  {
    assert DigitValues("0") == [0];
    assert [0][..0] == [];
    assert Value(16, [0]) == 0;
  }

  /** What is read is a spelling. */
  lemma ReadIsSpelled(text: string) returns (sp: Spelling)
    requires GroupsOf(text).Some?
    ensures Spells(sp) && sp.tail.None? && SpellingText(sp) == text
    ensures sp.left == PiecesOf(SplitPairs(text)[0])
    ensures sp.right == if |SplitPairs(text)| == 1 then None else Some(PiecesOf(SplitPairs(text)[1]))
  {
    hide Split, IsGroup;
    var halves := SplitPairs(text);
    var i := IndexOfPair(text);
    SplitPairsShape(text);
    JoinPieces(halves[0]);
    if |halves| == 1 {
      sp := Spelling(PiecesOf(halves[0]), None, None);
      assert sp.left + TailPieces(sp) == sp.left;
    } else {
      JoinPieces(halves[1]);
      sp := Spelling(PiecesOf(halves[0]), Some(PiecesOf(halves[1])), None);
      assert sp.right.value + TailPieces(sp) == sp.right.value;
      assert text == text[..i] + "::" + text[i + 2..];
    }
  }

  lemma SplitPairsShape(text: string)
    ensures |SplitPairs(text)| == 1 ==> SplitPairs(text)[0] == text
    ensures |SplitPairs(text)| == 2 ==>
      IndexOfPair(text) + 2 <= |text| && SplitPairs(text) == [text[..IndexOfPair(text)], text[IndexOfPair(text) + 2..]]
  {
    var i := IndexOfPair(text);
    if i < |text| && |SplitPairs(text)| == 2 {
      assert |SplitPairs(text[i + 2..])| == 1;
    }
  }

  lemma JoinPieces(half: string)
    ensures Join(PiecesOf(half), ':') == half
  {
    if half != [] { JoinSplit(half, ':'); }
  }

  // ----- the tail

  /** Everything before the last group or the tail, up to its colon. */
  function Prefix(sp: Spelling): string {
    var last := if sp.right.None? then sp.left else sp.right.value;
    (if sp.right.None? then "" else Join(sp.left, ':') + "::") + if last == [] then "" else Join(last, ':') + ":"
  }

  lemma TailedText(sp: Spelling)
    requires Spells(sp) && sp.tail.Some?
    ensures Prefix(sp) != "" && Prefix(sp)[|Prefix(sp)| - 1] == ':'
    ensures SpellingText(sp) == Prefix(sp) + Dotted(sp.tail.value)
    ensures SpellingText(Untailed(sp)) == Prefix(sp) + Join(TailGroups(Value(256, sp.tail.value)), ':')
  {
    hide Join, Dotted, TailGroups, Value;
    var groups := TailGroups(Value(256, sp.tail.value));
    var last := if sp.right.None? then sp.left else sp.right.value;
    assert groups != [] by { TailGroupsRead(sp.tail.value); }
    JoinAppend(last, [Dotted(sp.tail.value)], ':');
    JoinAppend(last, groups, ':');
    JoinOne(Dotted(sp.tail.value), ':');
    assert last + groups + TailPieces(Untailed(sp)) == last + groups;
  }

  lemma LastColon(a: string, b: string)
    requires a != "" && a[|a| - 1] == ':' && Without(b, ':')
    ensures LastIndexOf(a + b, ':') == |a| - 1 && (a + b)[|a|..] == b && (a + b)[..|a| - 1] + ":" == a
  {
    var s := a + b;
    assert s[|a| - 1] == ':';
    assert forall k | |a| <= k < |s| :: s[k] == b[k - |a|];
  }

  lemma ExpandedTail(prefix: string, dotted: string, tail: ParsedIp)
    requires prefix != "" && prefix[|prefix| - 1] == ':' && Without(dotted, ':') && '.' in dotted
    requires Ipv4Of(dotted) == Some(tail)
    ensures Expanded(prefix + dotted) == Some(prefix + Join(TailGroups(tail.value), ':'))
  {
    hide Ipv4Of, Join, TailGroups, LastIndexOf;
    LastColon(prefix, dotted);
    var k :| 0 <= k < |dotted| && dotted[k] == '.';
    assert (prefix + dotted)[|prefix| + k] == '.';
  }

  lemma SpelledExpands(sp: Spelling)
    requires Spells(sp)
    ensures Expanded(SpellingText(sp)) == Some(SpellingText(Untailed(sp)))
  {
    if sp.tail.None? {
      SpelledIsClean(sp);
      hide SpellingText;
    } else {
      hide Join, Dotted, TailGroups, Value, Prefix, SpellingText, Untailed, Expanded, Ipv4Of;
      TailedText(sp);
      DottedParses(sp.tail.value);
      ExpandedTail(Prefix(sp), Dotted(sp.tail.value), ParsedIp(Ipv4, 32, Value(256, sp.tail.value)));
    }
  }

  lemma {:induction false} SameLastColon(x: string, a: string, y: string, b: string)
    requires x + ":" + a == y + ":" + b && Without(a, ':') && Without(b, ':')
    ensures x == y && a == b
  {
    LastColon(x + ":", a);
    LastColon(y + ":", b);
    assert x == (x + ":")[..|x|] && y == (y + ":")[..|y|];
  }

  /** Everything before the last piece of a joined list, up to its colon. */
  function Before(front: string, rest: seq<string>): string
    requires rest == [] ==> front != ""
  {
    if rest == [] then front[..|front| - 1] else front + Join(rest, ':')
  }

  lemma Reassociated(a: string, b: string, c: string)
    ensures a + ((b + [':']) + c) == (a + b) + ":" + c
    ensures a + ":" + (b + ":" + c) == (a + ":" + b) + ":" + c
  {
  }

  lemma JoinedApart(front: string, rest: seq<string>, last: string)
    requires (front != "" ==> front[|front| - 1] == ':') && (rest == [] ==> front != "")
    ensures front + Join(rest + [last], ':') == Before(front, rest) + ":" + last
  {
    hide Join;
    JoinAppend(rest, [last], ':');
    JoinOne(last, ':');
    if rest == [] {
      assert front == front[..|front| - 1] + ":";
      assert [] + last == last;
    } else {
      Reassociated(front, Join(rest, ':'), last);
    }
  }

  lemma HasColon(before: string, group: string, piece: string)
    requires piece == before + ":" + group
    ensures !Without(piece, ':')
  {
    assert piece[|before|] == ':';
  }

  lemma GroupHasNoColon(group: string)
    requires IsGroup(group)
    ensures Without(group, ':') && group != ""
  {
  }

  /** The last group of a joined list is what follows the last colon. */
  lemma LastGroup(front: string, rest: seq<string>, last: string, before: string, group: string)
    requires IsGroup(last) && IsGroup(group) && (front != "" ==> front[|front| - 1] == ':')
    requires front + Join(rest + [last], ':') == before + ":" + group
    ensures rest == [] ==> front != ""
    ensures last == group && before == Before(front, rest)
  {
    GroupHasNoColon(last);
    GroupHasNoColon(group);
    hide IsGroup;
    if rest == [] && front == "" {
      JoinOne(last, ':');
      assert rest + [last] == [last] && front + last == last;
      HasColon(before, group, last);
    }
    hide Join, Before;
    JoinedApart(front, rest, last);
    SameLastColon(Before(front, rest), last, before, group);
  }

  lemma EndsInGroup(before: string, group: string)
    requires IsGroup(group)
    ensures var s := before + ":" + group; s != "" && s[|s| - 1] != ':'
  {
    assert LowerHex(group[|group| - 1]);
  }

  lemma MoreThanNone(front: string, pieces: seq<string>, before: string, group: string)
    requires IsGroup(group) && (front != "" ==> front[|front| - 1] == ':')
    requires front + Join(pieces, ':') == before + ":" + group
    ensures pieces != []
  {
    EndsInGroup(before, group);
    assert front + Join([], ':') == front;
  }

  lemma LastPiece(front: string, pieces: seq<string>, before: string, group: string)
    requires AllGroups(pieces) && IsGroup(group) && (front != "" ==> front[|front| - 1] == ':')
    requires front + Join(pieces, ':') == before + ":" + group
    ensures pieces != [] && pieces[|pieces| - 1] == group
    ensures |pieces| == 1 ==> front != ""
    ensures before == Before(front, pieces[..|pieces| - 1])
  {
    hide Join, IsGroup, Before;
    MoreThanNone(front, pieces, before, group);
    RestAndLast(pieces);
    LastGroup(front, pieces[..|pieces| - 1], pieces[|pieces| - 1], before, group);
  }

  lemma RestAndLast(pieces: seq<string>)
    requires pieces != []
    ensures pieces == pieces[..|pieces| - 1] + [pieces[|pieces| - 1]]
  {
  }

  /** Text that ends in two given groups after a colon has them as the last two of its last list. */
  lemma LastTwoGroups(front: string, pieces: seq<string>, before: string, first: string, second: string)
    requires AllGroups(pieces) && IsGroup(first) && IsGroup(second)
    requires front != "" ==> |front| > 1 && front[|front| - 1] == ':' && front[|front| - 2] == ':'
    requires front + Join(pieces, ':') == before + ":" + (first + ":" + second)
    ensures |pieces| >= 2 && pieces == pieces[..|pieces| - 2] + [first, second]
  {
    hide Join, IsGroup, Before, AllGroups;
    Reassociated(before, first, second);
    LastPiece(front, pieces, before + ":" + first, second);
    AllButLast(pieces);
    SecondToLast(front, pieces[..|pieces| - 1], before, first);
    TwoLast(pieces);
  }

  lemma AllButLast(pieces: seq<string>)
    requires pieces != [] && AllGroups(pieces)
    ensures AllGroups(pieces[..|pieces| - 1])
  {
  }

  lemma TwoLast(pieces: seq<string>)
    requires |pieces| >= 2
    ensures pieces == pieces[..|pieces| - 2] + [pieces[..|pieces| - 1][|pieces| - 2], pieces[|pieces| - 1]]
  {
  }

  lemma SecondToLast(front: string, rest: seq<string>, before: string, first: string)
    requires AllGroups(rest) && IsGroup(first) && (rest == [] ==> front != "")
    requires front != "" ==> |front| > 1 && front[|front| - 1] == ':' && front[|front| - 2] == ':'
    requires before + ":" + first == Before(front, rest)
    ensures rest != [] && rest[|rest| - 1] == first
  {
    EndsInGroup(before, first);
    assert front != "" ==> front[..|front| - 1][|front| - 2] == ':';
    if rest != [] {
      hide Join, IsGroup;
      LastPiece(front, rest, before, first);
    }
  }

  function Tailed(sp: Spelling, octets: seq<nat>): Spelling
    requires |if sp.right.None? then sp.left else sp.right.value| >= 2
  {
    if sp.right.None? then Spelling(sp.left[..|sp.left| - 2], None, Some(octets))
    else Spelling(sp.left, Some(sp.right.value[..|sp.right.value| - 2]), Some(octets))
  }

  /** A body that is read with its tail expanded is spelled with that tail. */
  lemma TailIsSpelled(plain: Spelling, before: string, octets: seq<nat>) returns (sp: Spelling)
    requires Spells(plain) && plain.tail.None? && AreOctets(octets)
    requires SpellingText(plain) == before + ":" + Join(TailGroups(Value(256, octets)), ':')
    ensures Spells(sp) && Untailed(sp) == plain && SpellingText(sp) == before + ":" + Dotted(octets)
  {
    hide Join, Value, HexText, Dotted;
    var groups := TailGroups(Value(256, octets));
    TailGroupsRead(octets);
    var last := if plain.right.None? then plain.left else plain.right.value;
    var front := if plain.right.None? then "" else Join(plain.left, ':') + "::";
    assert last + TailPieces(plain) == last;
    JoinTwo(groups[0], groups[1]);
    assert front + Join(last, ':') == SpellingText(plain);
    LastTwoGroups(front, last, before, groups[0], groups[1]);
    sp := Tailed(plain, octets);
    assert groups == [groups[0], groups[1]];
    TailedText(sp);
    hide SpellingText, Prefix;
    SameFront(Prefix(sp), before + ":", Join(groups, ':'));
  }

  lemma SameFront(a: string, b: string, end: string)
    requires a + end == b + end
    ensures a == b
  {
    assert |a| == |b| && a == (a + end)[..|a|] && b == (b + end)[..|b|];
  }

  lemma JoinTwo(a: string, b: string)
    ensures Join([a, b], ':') == a + ":" + b
  {
    JoinOne(b, ':');
    assert [a, b][1..] == [b];
  }

  /** A text parses as IPv6 exactly when, without its zone and in lower case, it is one of the spellings of
      RFC 4291, and then to the number of the eight groups that spelling stands for. */
  lemma Ipv6Exactly(text: string, parsed: ParsedIp)
    ensures Ipv6Of(text) == Some(parsed) <==>
      exists sp :: Spells(sp) && SpellingText(sp) == Body(text) && parsed == ParsedIp(Ipv6, 128, Value(65536, Groups(sp)))
  {
    hide Body, Value, SpellingText, Groups, Untailed;
    if Ipv6Of(text) == Some(parsed) {
      var sp := Ipv6Spelled(text);
    }
    if sp :| Spells(sp) && SpellingText(sp) == Body(text) && parsed == ParsedIp(Ipv6, 128, Value(65536, Groups(sp))) {
      SpelledExpands(sp);
      UntailedSpells(sp);
      SpelledReads(Untailed(sp));
    }
  }

  lemma Ipv6Spelled(text: string) returns (sp: Spelling)
    requires Ipv6Of(text).Some?
    ensures Spells(sp) && SpellingText(sp) == Body(text)
    ensures Ipv6Of(text) == Some(ParsedIp(Ipv6, 128, Value(65536, Groups(sp))))
  {
    hide Body, Value, Groups, GroupsOf, Expanded, SpellingText, SplitPairs;
    var plain := ReadIsSpelled(Expanded(Body(text)).value);
    SpelledReads(plain);
    sp := TailOf(Body(text), plain);
  }

  lemma TailOf(body: string, plain: Spelling) returns (sp: Spelling)
    requires Spells(plain) && plain.tail.None? && Expanded(body) == Some(SpellingText(plain))
    ensures Spells(sp) && SpellingText(sp) == body && Groups(sp) == Groups(plain)
  {
    hide Value, Groups, Join, TailGroups, LastIndexOf, SpellingText, Dotted, IsOctet;
    var last := LastIndexOf(body, ':');
    if '.' in body && last >= 0 {
      var tail := body[last + 1..];
      Ipv4Denoted(tail);
      sp := TailIsSpelled(plain, body[..last], OctetValues(Split(tail, '.')));
      UntailedSpells(sp);
      assert body == body[..last] + ":" + tail by { assert body[last] == ':'; }
    } else {
      sp := plain;
    }
  }

  // ----- CIDR blocks

  /** An IPv6 literal may be bracketed. */
  function Unbracketed(s: string): string {
    var front := if s != "" && s[0] == '[' then s[1..] else s;
    if front != "" && front[|front| - 1] == ']' then front[..|front| - 1] else front
  }

  function IpOf(text: string): Option<ParsedIp> {
    if Ipv4Of(text).Some? then Ipv4Of(text) else Ipv6Of(Unbracketed(text))
  }

  lemma BracketIsNoIpv4(text: string, i: nat)
    requires i < |text| && (text[i] == '[' || text[i] == ']')
    ensures Ipv4Of(text).None?
  {
    if Ipv4Of(text).Some? {
      Ipv4Denoted(text);
      var octets := OctetValues(Split(text, '.'));
      DottedHasNoBracket(octets);
      assert false;
    }
  }

  lemma DottedHasNoBracket(octets: seq<nat>)
    requires AreOctets(octets)
    ensures Without(Dotted(octets), '[') && Without(Dotted(octets), ']')
  {
    var pieces := seq(|octets|, i requires 0 <= i < |octets| => DecimalText(octets[i]));
    forall i | 0 <= i < 4 ensures Without(pieces[i], '[') && Without(pieces[i], ']') { DecimalReadsBack(octets[i]); }
    hide DecimalText, Join, Without;
    JoinLacks(pieces, '.', '[');
    JoinLacks(pieces, '.', ']');
  }

  lemma {:induction false} JoinLacks(parts: seq<string>, between: char, c: char)
    requires between != c && forall i | 0 <= i < |parts| :: Without(parts[i], c)
    ensures Without(Join(parts, between), c)
    decreases |parts|
  {
    if |parts| > 1 { JoinLacks(parts[1..], between, c); }
  }

  /** A literal is read as IPv4, or else as IPv6 in brackets or without: one opening and one closing bracket are
      ignored, each by itself. */
  lemma BracketsAreOptional(s: string)
    requires (s == "" || s[0] != '[') && (s == "" || s[|s| - 1] != ']')
    ensures IpOf(s) == if Ipv4Of(s).Some? then Ipv4Of(s) else Ipv6Of(s)
    ensures IpOf("[" + s + "]") == IpOf("[" + s) == IpOf(s + "]") == Ipv6Of(s)
  {
    hide Ipv4Of, Ipv6Of;
    BracketIsNoIpv4("[" + s + "]", 0);
    BracketIsNoIpv4("[" + s, 0);
    BracketIsNoIpv4(s + "]", |s|);
    assert ("[" + s + "]")[1..] == s + "]" && ("[" + s)[1..] == s && (s + "]")[..|s|] == s;
  }

  /** `prefixOf` coerces the text after the slash to an integer, if it is one. */
  function IpInCidr(address: string, cidr: string, prefixOf: string -> Option<int>): bool {
    var separator := LastIndexOf(cidr, '/');
    if separator < 0 then false
    else
      var network, candidate, prefix := IpOf(cidr[..separator]), IpOf(address), prefixOf(cidr[separator + 1..]);
      if network.None? || candidate.None? || network.value.kind != candidate.value.kind || prefix.None?
         || prefix.value < 0 || prefix.value > network.value.bits
      then false
      else if prefix.value == 0 then true
      else
        BigShiftRight(network.value.value, network.value.bits - prefix.value)
        == BigShiftRight(candidate.value.value, network.value.bits - prefix.value)
  }

  /** The aligned block of 2^(bits - prefix) addresses around an address. */
  predicate InBlock(network: ParsedIp, candidate: ParsedIp, prefix: nat)
    requires prefix <= network.bits
  {
    var size := Pow2(network.bits - prefix);
    var first := Quotient(network.value, size) * size;
    first <= candidate.value < first + size
  }

  lemma ParsedFits(text: string)
    requires IpOf(text).Some?
    ensures IpOf(text).value.value < Pow2(IpOf(text).value.bits)
  {
    Pow2Values();
    if Ipv4Of(text).Some? {
      Ipv4Denoted(text);
      ValueBound(256, OctetValues(Split(text, '.')));
      PowerIsPow2(256, 8, 4);
    } else {
      hide Body, Expanded, GroupsOf, Pow2;
      var pieces := GroupsOf(Expanded(Body(Unbracketed(text))).value).value;
      forall i | 0 <= i < 8 ensures GroupValues(pieces)[i] < 65536 { GroupFits(pieces[i]); }
      ValueBound(65536, GroupValues(pieces));
      PowerIsPow2(65536, 16, 8);
    }
  }

  lemma SameQuotient(x: nat, y: nat, size: nat)
    requires size > 0
    ensures Quotient(x, size) == Quotient(y, size) <==> Quotient(x, size) * size <= y < Quotient(x, size) * size + size
  {
    var q := Quotient(x, size);
    Division(y, size);
    if q * size <= y < q * size + size {
      UniqueRemainder(y, size, q, y - q * size);
    }
  }

  /** Membership holds exactly when the families agree and the address lies in the aligned block of the
      network; a prefix that is no integer of the family's range matches nothing. */
  lemma CidrIsBlock(address: string, cidr: string, prefixOf: string -> Option<int>)
    ensures IpInCidr(address, cidr, prefixOf) <==>
      var separator := LastIndexOf(cidr, '/');
      separator >= 0 &&
      var network, candidate, prefix := IpOf(cidr[..separator]), IpOf(address), prefixOf(cidr[separator + 1..]);
      && network.Some? && candidate.Some? && network.value.kind == candidate.value.kind && prefix.Some?
      && 0 <= prefix.value <= network.value.bits && InBlock(network.value, candidate.value, prefix.value)
  {
    hide IpOf, Pow2, LastIndexOf;
    var separator := LastIndexOf(cidr, '/');
    if separator >= 0 {
      var network, candidate, prefix := IpOf(cidr[..separator]), IpOf(address), prefixOf(cidr[separator + 1..]);
      if network.Some? && candidate.Some? && network.value.kind == candidate.value.kind && prefix.Some?
         && 0 <= prefix.value <= network.value.bits
      {
        var size := Pow2(network.value.bits - prefix.value);
        SameQuotient(network.value.value, candidate.value.value, size);
        if prefix.value == 0 {
          ParsedFits(cidr[..separator]);
          ParsedFits(address);
          SameFamily(cidr[..separator], address);
          WholeRange(network.value.value, size);
        }
      }
    }
  }

  lemma SameFamily(a: string, b: string)
    requires IpOf(a).Some? && IpOf(b).Some?
    ensures IpOf(a).value.kind == IpOf(b).value.kind <==> IpOf(a).value.bits == IpOf(b).value.bits
  {
  }

  lemma WholeRange(x: nat, size: nat)
    requires 0 <= x < size
    ensures Quotient(x, size) == 0
  {
    UniqueRemainder(x, size, 0, x);
  }

  /** A shorter prefix contains every address a longer one does. */
  lemma ShorterPrefixContains(network: ParsedIp, candidate: ParsedIp, short: nat, long: nat)
    requires short <= long <= network.bits && InBlock(network, candidate, long)
    ensures InBlock(network, candidate, short)
  {
    hide Pow2;
    var small, factor := Pow2(network.bits - long), Pow2(long - short);
    Pow2Sum(long - short, network.bits - long);
    SameQuotient(network.value, candidate.value, small);
    SameQuotient(network.value, candidate.value, factor * small);
    QuotientTwice(network.value, small, factor);
    QuotientTwice(candidate.value, small, factor);
  }

  lemma QuotientTwice(x: nat, a: nat, b: nat)
    requires a > 0 && b > 0 && b * a > 0
    ensures Quotient(x, b * a) == Quotient(Quotient(x, a), b)
  {
    SplitRemainder(x, b, a);
  }
}
