/** The Base32 codec of RFC 4648, section 6, computed on a signed 32-bit accumulator that is
    shifted and never masked. */
module Base32 {
  import opened Arithmetic
  import opened JsNumber
  import opened Radix
  import opened Text

  const ALPHABET := "ABCDEFGHIJKLMNOPQRSTUVWXYZ234567"

  datatype Decoding = Bytes(bytes: seq<Byte>) | Rejected

  function Letters(digits: seq<nat>): (text: string)
    requires forall i :: 0 <= i < |digits| ==> digits[i] < 32
    ensures |text| == |digits|
  {
    seq(|digits|, i requires 0 <= i < |digits| => ALPHABET[digits[i]])
  }

  /** The number of zero bits that complete the last letter of n bytes. */
  function FillBits(n: nat): (fill: nat)
    ensures fill < 5 && (8 * n + fill) % 5 == 0
  {
    (5 - 8 * n % 5) % 5
  }

  /** The octets read as one number, zero bits appended up to a letter boundary, in base 32. */
  function EncodedDigits(bytes: seq<Byte>): (digits: seq<nat>)
    ensures forall i :: 0 <= i < |digits| ==> digits[i] < 32
  {
    var fill := FillBits(|bytes|);
    Digits(32, AppendZeros(Value(256, bytes), fill), (8 * |bytes| + fill) / 5)
  }

  function Encoded(bytes: seq<Byte>): string {
    Letters(EncodedDigits(bytes))
  }

  function AppendZeros(x: nat, n: nat): nat {
    Monotone(0, x, Pow2(n));
    x * Pow2(n)
  }

  /** Upper-casing by any table, which may turn one character into several. */
  function UpperText(value: string, upper: char -> string): string {
    if value == "" then "" else upper(value[0]) + UpperText(value[1..], upper)
  }

  /** The table is the usual one on ASCII. */
  ghost predicate UppersAscii(upper: char -> string) {
    forall c: char | c < 128 as char :: upper(c) == [UpperOf(c)]
  }

  /** What the table yields is upper case already. */
  ghost predicate UppersOnce(upper: char -> string) {
    forall c, i | 0 <= i < |upper(c)| :: upper(upper(c)[i]) == [upper(c)[i]]
  }

  function Unpadded(value: string): string
    decreases |value|
  {
    if value != "" && value[|value| - 1] == '=' then Unpadded(value[..|value| - 1]) else value
  }

  predicate IsLetter(c: char) { 'A' <= c <= 'Z' || '2' <= c <= '7' }

  function LetterValue(c: char): (d: nat)
    requires IsLetter(c)
    ensures d < 32 && ALPHABET[d] == c
  {
    if 'A' <= c <= 'Z' then (c - 'A') as nat else 26 + (c - '2') as nat
  }

  function LetterValues(text: string): (digits: seq<nat>)
    requires forall c :: c in text ==> IsLetter(c)
    ensures |digits| == |text|
    ensures forall i :: 0 <= i < |text| ==> digits[i] == LetterValue(text[i])
  {
    seq(|text|, i requires 0 <= i < |text| => LetterValue(text[i]))
  }

  /** Whole octets of the letters' number; bits that do not fill an octet are dropped. */
  function DecodedOctets(digits: seq<nat>): seq<Byte> {
    var bits := 5 * |digits|;
    Digits(256, DropBits(Value(32, digits), bits % 8), bits / 8)
  }

  function Decoded(value: string, upper: char -> string): Decoding {
    var text := Unpadded(UpperText(value, upper));
    if text == "" || exists c :: c in text && !IsLetter(c) then Rejected
    else Bytes(DecodedOctets(LetterValues(text)))
  }

  function DropBits(x: nat, n: nat): nat {
    QuotientBound(x, Pow2(n));
    x / Pow2(n)
  }

  lemma DroppedBits(x: nat, n: nat, low: nat)
    requires low < Pow2(n) || low == 0
    ensures DropBits(AppendZeros(x, n) + low, n) == x
  {
    UniqueRemainder(x * Pow2(n) + low, Pow2(n), x, low);
  }

  /** The live low bits of the accumulator; everything above them is left-over. */
  function Live(accumulator: int, bits: nat): (live: nat)
    ensures live < Pow2(bits)
  {
    ToUint32(accumulator) % Pow2(bits)
  }

  /** A left shift within the word: the bits that fall off the top are gone, the rest move up. */
  lemma ShiftedWord(accumulator: int, width: nat)
    requires 0 < width < 32
    ensures ToUint32(ShiftLeft(accumulator, width)) == (ToUint32(accumulator) % Pow2(32 - width)) * Pow2(width)
  {
    var u, p := ToUint32(accumulator), Pow2(width);
    Pow2Of32();
    Pow2Sum(32 - width, width);
    SignedIsWord(u * p);
    SplitRemainder(u * p, Pow2(32 - width), p);
    UniqueRemainder(u * p, p, u, 0);
  }

  /** Shifting a group of new bits in and joining it with `|`. */
  lemma ShiftIn(accumulator: int, bits: nat, width: nat, group: nat)
    requires 0 < width && bits + width <= 12 && group < Pow2(width)
    ensures Live(Or(ShiftLeft(accumulator, width), group), bits + width)
         == Live(accumulator, bits) * Pow2(width) + group
  {
    hide Bitwise, ToInt32, ToUint32;
    var u, p, high := ToUint32(accumulator), Pow2(width), ToUint32(accumulator) % Pow2(32 - width);
    ShiftedWord(accumulator, width);
    JoinedWord(ShiftLeft(accumulator, width), high, width, group);
    var v := high * p + group;
    Pow2Sum(bits, width);
    SplitRemainder(v, Pow2(bits), p);
    UniqueRemainder(v, p, high, group);
    Pow2Sum(32 - width - bits, bits);
    RemainderOfRemainder(u, Pow2(32 - width - bits), Pow2(bits));
  }

  lemma JoinedWord(shifted: int, high: nat, width: nat, group: nat)
    requires width < 32 && group < Pow2(width) && ToUint32(shifted) == high * Pow2(width)
    ensures ToUint32(Or(shifted, group)) == high * Pow2(width) + group
  {
    Pow2Of32();
    Pow2Sum(32 - width, width);
    hide Bitwise, Pow2, ToUint32, ToInt32;
    Monotone(1, Pow2(32 - width), Pow2(width));
    WordIsItself(group);
    JoinIsSum(high, group, width);
    OpIsWord(OrOp, shifted, group);
  }

  lemma MaskedWord(x: int)
    ensures And(x, 31) == ToUint32(x) % 32 && And(x, 255) == ToUint32(x) % 256
  {
    assert Pow2(5) == 32 && Pow2(8) == 256;
    hide Bitwise, Pow2, ToUint32, ToInt32;
    WordIsItself(31);
    WordIsItself(255);
    OpIsWord(AndOp, x, 31);
    OpIsWord(AndOp, x, 255);
    MaskIsRemainder(ToUint32(x), 5);
    MaskIsRemainder(ToUint32(x), 8);
  }

  /** Reading the top group of the live bits with `>>>` and a mask. */
  lemma TakeTop(accumulator: int, bits: nat, width: nat)
    requires (width == 5 || width == 8) && width <= bits <= 12
    ensures
      var group := And(ShiftRightUnsigned(accumulator, bits - width), Pow2(width) - 1);
      0 <= group < Pow2(width)
      && Live(accumulator, bits) == group * Pow2(bits - width) + Live(accumulator, bits - width)
  {
    hide Bitwise, And, ToUint32;
    MaskedWord(ShiftRightUnsigned(accumulator, bits - width));
    assert Pow2(5) == 32 && Pow2(8) == 256;
    WordIsItself(ShiftRightUnsigned(accumulator, bits - width));
    Pow2Sum(width, bits - width);
    SplitRemainder(ToUint32(accumulator), Pow2(width), Pow2(bits - width));
  }

  /** The last letter: the live bits moved to the top of a five-bit group. */
  lemma TakeLast(accumulator: int, bits: nat)
    requires 0 < bits < 5
    ensures And(ShiftLeft(accumulator, 5 - bits), 31) == Live(accumulator, bits) * Pow2(5 - bits)
    ensures Live(accumulator, bits) * Pow2(5 - bits) < 32
  {
    var u, p, q := ToUint32(accumulator), Pow2(bits), Pow2(5 - bits);
    var high := u % Pow2(27 + bits);
    assert Pow2(5) == 32;
    hide Bitwise, And, ToUint32, Pow2, ShiftLeft;
    MaskedWord(ShiftLeft(accumulator, 5 - bits));
    ShiftedWord(accumulator, 5 - bits);
    Pow2Sum(bits, 5 - bits);
    Pow2Sum(27, bits);
    ScaledRemainder(high, p, q);
    RemainderOfRemainder(u, Pow2(27), p);
  }

  /** What both loops keep: the number read so far is the number written so far, in groups of
      `base`, followed by the live bits. */
  ghost predicate Kept(value: nat, base: nat, written: seq<nat>, accumulator: int, bits: nat) {
    value == AppendZeros(Value(base, written), bits) + Live(accumulator, bits)
  }

  lemma KeptByRead(value: nat, base: nat, written: seq<nat>, accumulator: int, bits: nat, width: nat, group: nat)
    requires Kept(value, base, written, accumulator, bits)
    requires 0 < width && bits + width <= 12 && group < Pow2(width)
    ensures Kept(value * Pow2(width) + group, base, written, Or(ShiftLeft(accumulator, width), group), bits + width)
  {
    hide Live, Or, ShiftLeft;
    var done, live := Value(base, written), Live(accumulator, bits);
    ShiftIn(accumulator, bits, width, group);
    Pow2Sum(bits, width);
    Distributes(done * Pow2(bits), live, Pow2(width));
    Associates(done, Pow2(bits), Pow2(width));
  }

  lemma KeptByWrite(value: nat, base: nat, written: seq<nat>, accumulator: int, bits: nat, width: nat)
    requires Kept(value, base, written, accumulator, bits)
    requires (width == 5 || width == 8) && width <= bits <= 12 && base == Pow2(width)
    ensures
      var group := And(ShiftRightUnsigned(accumulator, bits - width), Pow2(width) - 1);
      0 <= group < base && Kept(value, base, written + [group], accumulator, bits - width)
  {
    hide Live, And, ShiftRightUnsigned;
    var group := And(ShiftRightUnsigned(accumulator, bits - width), Pow2(width) - 1);
    var done := Value(base, written);
    TakeTop(accumulator, bits, width);
    ValueAppend(base, written, group);
    Pow2Sum(width, bits - width);
    Associates(done, base, Pow2(bits - width));
    Distributes(done * base, group, Pow2(bits - width));
  }

  lemma KeptAtEnd(value: nat, written: seq<nat>, accumulator: int, bits: nat)
    requires Kept(value, 32, written, accumulator, bits) && 0 < bits < 5
    ensures
      var letter := And(ShiftLeft(accumulator, 5 - bits), 31);
      0 <= letter < 32 && Value(32, written + [letter]) == value * Pow2(5 - bits)
  {
    hide Live, And, ShiftLeft;
    var letter := And(ShiftLeft(accumulator, 5 - bits), 31);
    var done, live := Value(32, written), Live(accumulator, bits);
    TakeLast(accumulator, bits);
    ValueAppend(32, written, letter);
    Pow2Sum(bits, 5 - bits);
    assert Pow2(5) == 32;
    Distributes(done * Pow2(bits), live, Pow2(5 - bits));
    Associates(done, Pow2(bits), Pow2(5 - bits));
  }

  lemma LettersAppend(digits: seq<nat>, d: nat)
    requires d < 32 && forall i :: 0 <= i < |digits| ==> digits[i] < 32
    ensures Letters(digits + [d]) == Letters(digits) + [ALPHABET[d]]
  {
  }

  method EncodeBase32(bytes: seq<Byte>) returns (output: string)
    ensures output == Encoded(bytes)
  {
    hide And, Or, ShiftLeft, ShiftRightUnsigned, Kept, Letters, Value, Pow2;
    var accumulator, bits := 0, 0;
    output := "";
    ghost var digits: seq<nat> := [];
    ghost var value: nat := 0;
    NothingRead(32, accumulator);
    for index := 0 to |bytes|
      invariant 0 <= bits < 5 && 8 * index == 5 * |digits| + bits
      invariant forall i :: 0 <= i < |digits| ==> digits[i] < 32
      invariant output == Letters(digits)
      invariant value == Value(256, bytes[..index]) && Kept(value, 32, digits, accumulator, bits)
    {
      KeptByRead(value, 32, digits, accumulator, bits, 8, bytes[index]);
      accumulator := Or(ShiftLeft(accumulator, 8), bytes[index]);
      bits := bits + 8;
      assert bytes[..index + 1] == bytes[..index] + [bytes[index]];
      ValueAppend(256, bytes[..index], bytes[index]);
      value := value * 256 + bytes[index];
      while bits >= 5
        invariant 0 <= bits <= 12 && 8 * (index + 1) == 5 * |digits| + bits
        invariant forall i :: 0 <= i < |digits| ==> digits[i] < 32
        invariant output == Letters(digits)
        invariant Kept(value, 32, digits, accumulator, bits)
      {
        var letter := And(ShiftRightUnsigned(accumulator, bits - 5), 31);
        KeptByWrite(value, 32, digits, accumulator, bits, 5);
        LettersAppend(digits, letter);
        output := output + [ALPHABET[letter]];
        digits := digits + [letter];
        bits := bits - 5;
      }
    }
    assert bytes[..|bytes|] == bytes;
    if bits > 0 {
      var letter := And(ShiftLeft(accumulator, 5 - bits), 31);
      KeptAtEnd(value, digits, accumulator, bits);
      LettersAppend(digits, letter);
      output := output + [ALPHABET[letter]];
      digits := digits + [letter];
    } else {
      WholeLetters(value, digits, accumulator);
    }
    assert |digits| == (8 * |bytes| + FillBits(|bytes|)) / 5;
    assert Value(32, digits) == AppendZeros(Value(256, bytes), FillBits(|bytes|));
    DigitsOfValue(32, digits);
  }

  lemma NothingRead(base: nat, accumulator: int)
    ensures Kept(0, base, [], accumulator, 0)
    ensures Letters([]) == "" && Value(256, []) == Value(32, []) == 0 && Pow2(8) == 256 && Pow2(5) == 32
  {
  }

  lemma WholeLetters(value: nat, written: seq<nat>, accumulator: int)
    requires Kept(value, 32, written, accumulator, 0)
    ensures Value(32, written) == value * Pow2(0)
  {
  }

  method DecodeBase32(value: string, upper: char -> string) returns (result: Decoding)
    ensures result == Decoded(value, upper)
  {
    var uppercase := UpperText(value, upper);
    var unpaddedLength: nat := |uppercase|;
    assert uppercase[..unpaddedLength] == uppercase;
    while unpaddedLength > 0 && uppercase[unpaddedLength - 1] == '='
      invariant unpaddedLength <= |uppercase|
      invariant Unpadded(uppercase) == Unpadded(uppercase[..unpaddedLength])
    {
      assert uppercase[..unpaddedLength][..unpaddedLength - 1] == uppercase[..unpaddedLength - 1];
      unpaddedLength := unpaddedLength - 1;
    }
    var normalized := uppercase[..unpaddedLength];
    if normalized == "" || exists c :: c in normalized && !IsLetter(c) {
      return Rejected;
    }
    var output := DecodeLetters(normalized);
    result := Bytes(output);
  }

  method DecodeLetters(text: string) returns (output: seq<Byte>)
    requires forall c :: c in text ==> IsLetter(c)
    ensures output == DecodedOctets(LetterValues(text))
  {
    hide And, Or, ShiftLeft, ShiftRightUnsigned, Kept, Value, Pow2, DropBits, Digits;
    ghost var letters := LetterValues(text);
    var accumulator, bits := 0, 0;
    output := [];
    ghost var number: nat := 0;
    NothingRead(256, accumulator);
    assert letters[..0] == [];
    for index := 0 to |text|
      invariant 0 <= bits < 8 && 5 * index == 8 * |output| + bits
      invariant number == Value(32, letters[..index]) && Kept(number, 256, output, accumulator, bits)
    {
      var letter := LetterValue(text[index]);
      KeptByRead(number, 256, output, accumulator, bits, 5, letter);
      accumulator := Or(ShiftLeft(accumulator, 5), letter);
      bits := bits + 5;
      assert letters[..index + 1] == letters[..index] + [letter];
      ValueAppend(32, letters[..index], letter);
      number := number * 32 + letter;
      if bits >= 8 {
        var byte := And(ShiftRightUnsigned(accumulator, bits - 8), 255);
        KeptByWrite(number, 256, output, accumulator, bits, 8);
        output := output + [byte];
        bits := bits - 8;
      }
    }
    assert letters[..|text|] == letters;
    WholeBytes(number, output, accumulator, bits);
    WholeOctets(|text|, |output|, bits);
  }

  lemma WholeBytes(number: nat, written: seq<Byte>, accumulator: int, bits: nat)
    requires Kept(number, 256, written, accumulator, bits)
    ensures Digits(256, DropBits(number, bits), |written|) == written
  {
    hide Live, DropBits;
    DroppedBits(Value(256, written), bits, Live(accumulator, bits));
    DigitsOfValue(256, written);
  }

  /** Decoding undoes encoding, except that the text of no bytes at all is not accepted. */
  lemma DecodeUndoesEncode(bytes: seq<Byte>, upper: char -> string)
    requires UppersAscii(upper)
    ensures |Encoded(bytes)| == (8 * |bytes| + 4) / 5
    ensures Decoded(Encoded(bytes), upper) == if bytes == [] then Rejected else Bytes(bytes)
  {
    DigitsReadBack(bytes);
    hide EncodedDigits, DecodedOctets;
    PlainLetters(EncodedDigits(bytes), upper);
  }

  lemma DigitsReadBack(bytes: seq<Byte>)
    ensures |EncodedDigits(bytes)| == (8 * |bytes| + 4) / 5
    ensures DecodedOctets(EncodedDigits(bytes)) == bytes
  {
    var fill := FillBits(|bytes|);
    LetterCount(|bytes|);
    EncodedNumberFits(bytes);
    hide AppendZeros, DropBits, Digits, Value, FillBits;
    NumberReadsBack(Value(256, bytes), fill, (8 * |bytes| + fill) / 5);
    DigitsOfValue(256, bytes);
  }

  lemma WholeOctets(letters: nat, octets: nat, rest: nat)
    requires 5 * letters == 8 * octets + rest && rest < 8
    ensures 5 * letters % 8 == rest && 5 * letters / 8 == octets
  {
  }

  lemma LetterCount(n: nat)
    ensures
      var count := (8 * n + FillBits(n)) / 5;
      5 * count == 8 * n + FillBits(n) && 5 * count % 8 == FillBits(n) && 5 * count / 8 == n
  {
    WholeOctets((8 * n + FillBits(n)) / 5, n, FillBits(n));
  }

  lemma NumberReadsBack(value: nat, fill: nat, count: nat)
    requires AppendZeros(value, fill) < Power(32, count)
    ensures DropBits(Value(32, Digits(32, AppendZeros(value, fill), count)), fill) == value
  {
    var number := AppendZeros(value, fill);
    assert DropBits(number, fill) == value by {
      DroppedBits(value, fill, 0);
    }
    hide AppendZeros, DropBits;
    ValueOfDigits(32, number, count);
  }

  lemma EncodedNumberFits(bytes: seq<Byte>)
    ensures AppendZeros(Value(256, bytes), FillBits(|bytes|)) < Power(32, (8 * |bytes| + FillBits(|bytes|)) / 5)
  {
    var n, fill := |bytes|, FillBits(|bytes|);
    var count := (8 * n + fill) / 5;
    assert Pow2(8) == 256 && Pow2(5) == 32;
    LetterCount(n);
    ValueBound(256, bytes);
    hide Pow2, Power, Value, FillBits;
    PowerIsPow2(256, 8, n);
    PowerIsPow2(32, 5, count);
    Pow2Sum(8 * n, fill);
    ScaledBelow(Value(256, bytes), Pow2(8 * n), Pow2(fill));
  }

  /** Letters are their own upper case, are never padding and read back as their digits. */
  lemma PlainLetters(digits: seq<nat>, upper: char -> string)
    requires UppersAscii(upper) && forall i :: 0 <= i < |digits| ==> digits[i] < 32
    ensures Unpadded(UpperText(Letters(digits), upper)) == Letters(digits)
    ensures forall c :: c in Letters(digits) ==> IsLetter(c)
    ensures LetterValues(Letters(digits)) == digits
  {
    var text := Letters(digits);
    forall i | 0 <= i < |digits|
      ensures IsLetter(text[i]) && upper(text[i]) == [text[i]] && text[i] != '=' && LetterValue(text[i]) == digits[i]
    {
      LetterOfDigit(digits[i]);
      assert upper(text[i]) == [UpperOf(text[i])];
    }
    UpperAlready(text, upper);
  }

  lemma {:induction false} UpperAlready(text: string, upper: char -> string)
    requires forall i | 0 <= i < |text| :: upper(text[i]) == [text[i]]
    ensures UpperText(text, upper) == text
  {
    if text != "" {
      UpperAlready(text[1..], upper);
      assert text == [text[0]] + text[1..];
    }
  }

  lemma {:induction false} UpperOnce(value: string, upper: char -> string)
    requires UppersOnce(upper)
    ensures forall i | 0 <= i < |UpperText(value, upper)| :: upper(UpperText(value, upper)[i]) == [UpperText(value, upper)[i]]
  {
    if value != "" { UpperOnce(value[1..], upper); }
  }

  lemma LetterOfDigit(d: nat)
    requires d < 32
    ensures IsLetter(ALPHABET[d]) && LetterValue(ALPHABET[d]) == d
    ensures UpperOf(ALPHABET[d]) == ALPHABET[d] && ALPHABET[d] < 128 as char && ALPHABET[d] != '='
  {
  }

  /** Case and trailing padding carry no information. */
  lemma DecodeIgnoresCaseAndPadding(value: string, upper: char -> string, padding: nat)
    requires UppersAscii(upper) && UppersOnce(upper)
    ensures Decoded(UpperText(value, upper) + seq(padding, _ => '='), upper) == Decoded(value, upper)
  {
    var uppercase, tail := UpperText(value, upper), seq(padding, _ => '=');
    UpperOnce(value, upper);
    assert upper('=') == [UpperOf('=')];
    UpperAlready(uppercase + tail, upper);
    DropPadding(uppercase, padding);
  }

  lemma {:induction false} DropPadding(text: string, padding: nat)
    ensures Unpadded(text + seq(padding, _ => '=')) == Unpadded(text)
    decreases padding
  {
    var padded := text + seq(padding, _ => '=');
    if padding > 0 {
      assert padded[..|padded| - 1] == text + seq(padding - 1, _ => '=');
      DropPadding(text, padding - 1);
    } else {
      assert padded == text;
    }
  }
}
