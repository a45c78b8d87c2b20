/** Numbers in decimal and hexadecimal text. */
module Numerals {
  import opened Radix

  predicate Decimal(c: char) { '0' <= c <= '9' }

  predicate LowerHex(c: char) { Decimal(c) || 'a' <= c <= 'f' }

  function DigitValue(c: char): nat
    requires LowerHex(c)
  {
    if c <= '9' then c as int - '0' as int else c as int - 'a' as int + 10
  }

  function DigitText(d: nat): char
    requires d < 16
  {
    if d < 10 then '0' + d as char else 'a' + (d - 10) as char
  }

  function DigitValues(s: string): (digits: seq<nat>)
    requires forall i | 0 <= i < |s| :: LowerHex(s[i])
    ensures |digits| == |s|
  {
    seq(|s|, i requires 0 <= i < |s| => DigitValue(s[i]))
  }

  function DecimalText(n: nat): string {
    if n < 10 then [DigitText(n)] else DecimalText(n / 10) + [DigitText(n % 10)]
  }

  lemma {:induction false} DecimalReadsBack(n: nat)
    ensures var text := DecimalText(n);
            && text != [] && (forall i | 0 <= i < |text| :: Decimal(text[i]))
            && (text[0] == '0' ==> n == 0 && |text| == 1)
            && Value(10, DigitValues(text)) == n
    ensures n < 10 ==> |DecimalText(n)| == 1
    ensures n < 1000 ==> |DecimalText(n)| <= 3
    decreases n
  {
    var text := DecimalText(n);
    if n < 10 {
      assert DigitValues(text)[..0] == [];
    } else {
      DecimalReadsBack(n / 10);
      var front := DecimalText(n / 10);
      assert DigitValues(text) == DigitValues(front) + [n % 10];
      ValueAppend(10, DigitValues(front), n % 10);
      if n < 100 { assert |front| == 1; } else if n < 1000 { assert |DecimalText(n / 10 / 10)| == 1; }
    }
  }

  lemma DigitReadsBack(c: char)
    requires LowerHex(c)
    ensures DigitValue(c) < 16 && DigitText(DigitValue(c)) == c
  {
  }

  /** A run of digits without a leading zero is the decimal text of its value. */
  lemma {:induction false} DecimalIsText(piece: string)
    requires piece != [] && (forall i | 0 <= i < |piece| :: Decimal(piece[i])) && (piece[0] == '0' ==> |piece| == 1)
    ensures DecimalText(Value(10, DigitValues(piece))) == piece
    ensures piece[0] != '0' ==> Value(10, DigitValues(piece)) > 0
    decreases |piece|
  {
    var n := |piece| - 1;
    var digits, last := DigitValues(piece), DigitValue(piece[n]);
    DigitReadsBack(piece[n]);
    assert digits[n] == last < 10;
    if n == 0 {
      assert digits[..0] == [];
    } else {
      var front := piece[..n];
      DecimalIsText(front);
      assert digits[..n] == DigitValues(front) && piece == front + [piece[n]];
      assert Value(10, digits) == Value(10, DigitValues(front)) * 10 + last;
    }
  }

  function HexText(n: nat): string {
    if n < 16 then [DigitText(n)] else HexText(n / 16) + [DigitText(n % 16)]
  }

  lemma {:induction false} HexReadsBack(n: nat)
    ensures var text := HexText(n);
            text != [] && (forall i | 0 <= i < |text| :: LowerHex(text[i])) && Value(16, DigitValues(text)) == n
    ensures n < 16 ==> |HexText(n)| == 1
    ensures n < 65536 ==> |HexText(n)| <= 4
    decreases n
  {
    if n < 16 {
      assert DigitValues(HexText(n))[..0] == [];
    } else {
      HexReadsBack(n / 16);
      var front := HexText(n / 16);
      assert DigitValues(HexText(n)) == DigitValues(front) + [n % 16];
      ValueAppend(16, DigitValues(front), n % 16);
      if n < 65536 { HexLength(n / 16, 3); }
    }
  }

  lemma {:induction false} HexLength(n: nat, k: nat)
    requires k > 0 && n < Power(16, k)
    ensures |HexText(n)| <= k
    decreases k
  {
    if n >= 16 {
      assert k > 1;
      assert n / 16 < Power(16, k - 1);
      HexLength(n / 16, k - 1);
    }
  }
}
