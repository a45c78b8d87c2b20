/** Facts about products, quotients and powers of unknowns, one step each. */
module Arithmetic {
  lemma Distributes(a: int, b: int, c: int)
    ensures (a + b) * c == a * c + b * c
    ensures (a - b) * c == a * c - b * c
  {
  }

  lemma Associates(a: int, b: int, c: int)
    ensures (a * b) * c == a * (b * c)
  {
  }

  lemma Monotone(a: int, b: int, c: int)
    requires a <= b && 0 <= c
    ensures a * c <= b * c
  {
    Distributes(b, a, c);
  }

  lemma Division(x: int, d: int)
    requires d > 0
    ensures x == (x / d) * d + x % d && 0 <= x % d < d
  {
  }

  lemma QuotientBound(x: nat, d: nat)
    requires d > 0
    ensures 0 <= x / d <= x
  {
    ProductGrows(x / d, d);
  }

  lemma ProductGrows(q: int, d: int)
    requires d > 0
    ensures q >= 0 ==> q * d >= q
    ensures q >= 1 ==> q * d >= d
    ensures q <= -1 ==> q * d <= -d
  {
    if q >= 0 {
      assert q * (d - 1) >= 0;
    }
    if q >= 1 {
      assert (q - 1) * d >= 0;
    }
    if q <= -1 {
      assert (-1 - q) * d >= 0;
    }
  }

  /** Division with remainder has one answer. */
  lemma UniqueRemainder(x: int, d: int, q: int, r: int)
    requires d > 0 && 0 <= r < d && x == q * d + r
    ensures x % d == r && x / d == q
  {
    SameDivision(d, q, r, x / d, x % d);
  }

  lemma SameDivision(d: int, q: int, r: int, q': int, r': int)
    requires d > 0 && 0 <= r < d && 0 <= r' < d && q * d + r == q' * d + r'
    ensures q == q' && r == r'
  {
    assert (q - q') * d == r' - r;
    ProductGrows(q - q', d);
  }

  /** The remainder by a product is taken in two steps. */
  lemma SplitRemainder(x: nat, p: nat, q: nat)
    requires p > 0 && q > 0
    ensures p * q > 0 && x % (p * q) == ((x / q) % p) * q + x % q && x / (p * q) == (x / q) / p
  {
    var y := x / q;
    var a, b, c := y / p, y % p, x % q;
    Division(x, q);
    QuotientBound(x, q);
    Division(y, p);
    Distributes(a * p, b, q);
    Associates(a, p, q);
    ProductGrows(p, q);
    Monotone(b, p - 1, q);
    Distributes(p, 1, q);
    Monotone(0, b, q);
    UniqueRemainder(x, p * q, a, b * q + c);
  }

  lemma RemainderOfRemainder(x: nat, p: nat, q: nat)
    requires p > 0 && q > 0
    ensures p * q > 0 && (x % (p * q)) % q == x % q
  {
    SplitRemainder(x, p, q);
    UniqueRemainder(x % (p * q), q, (x / q) % p, x % q);
  }

  /** A common factor comes out of a remainder. */
  lemma ScaledRemainder(x: nat, p: nat, q: nat)
    requires p > 0 && q > 0
    ensures p * q > 0 && x * q >= 0 && (x * q) % (p * q) == (x % p) * q < p * q
  {
    Monotone(0, x, q);
    SplitRemainder(x * q, p, q);
    UniqueRemainder(x * q, q, x, 0);
    Monotone(x % p, p - 1, q);
    Distributes(p, 1, q);
  }

  lemma ScaledBelow(x: nat, a: nat, q: nat)
    requires x < a && q > 0
    ensures x * q < a * q
  {
    Monotone(x, a - 1, q);
    Distributes(a, 1, q);
  }

  function Pow2(n: nat): (p: nat)
    ensures p > 0
  {
    if n == 0 then 1 else 2 * Pow2(n - 1)
  }

  lemma {:induction false} Pow2Sum(m: nat, n: nat)
    ensures Pow2(m + n) == Pow2(m) * Pow2(n)
    decreases m
  {
    if m > 0 {
      Pow2Sum(m - 1, n);
      assert Pow2(m) == 2 * Pow2(m - 1) && Pow2(m + n) == 2 * Pow2(m - 1 + n);
      hide Pow2;
      Associates(2, Pow2(m - 1), Pow2(n));
    }
  }

  function Min(a: int, b: int): int { if a < b then a else b }

  function Max(a: int, b: int): int { if a < b then b else a }
}

/** The fragment of ECMAScript number arithmetic that the hash and the Base32 codec compute with:
    exact sums of integral Numbers, the 32-bit bitwise operators with their signed results, and the
    unsigned shift `>>>`. */
module JsNumber {
  import opened Arithmetic

  type Byte = x: int | 0 <= x < 256
  type Word = x: int | 0 <= x < 0x1_0000_0000

  lemma Pow2Of32()
    ensures Pow2(32) == 0x1_0000_0000
  {
    assert Pow2(8) == 0x100;
    Pow2Sum(8, 8);
    Pow2Sum(16, 16);
  }

  datatype BitOp = AndOp | OrOp | XorOp {
    predicate Bit(a: bool, b: bool) {
      match this
      case AndOp => a && b
      case OrOp => a || b
      case XorOp => a != b
    }
  }

  /** Bit by bit combination of two naturals. */
  function Bitwise(op: BitOp, a: nat, b: nat): nat {
    if a == 0 && b == 0 then 0
    else (if op.Bit(a % 2 == 1, b % 2 == 1) then 1 else 0) + 2 * Bitwise(op, a / 2, b / 2)
  }

  lemma {:induction false} BitwiseBound(op: BitOp, a: nat, b: nat, n: nat)
    requires a < Pow2(n) && b < Pow2(n)
    ensures Bitwise(op, a, b) < Pow2(n)
    decreases n
  {
    if n > 0 && !(a == 0 && b == 0) {
      BitwiseBound(op, a / 2, b / 2, n - 1);
    }
  }

  function BitAt(x: nat, k: nat): nat {
    x / Pow2(k) % 2
  }

  /** Bit by bit: and is the product, or all but the product, exclusive or the sum without its carry. */
  lemma {:induction false} BitsExactly(op: BitOp, a: nat, b: nat, k: nat)
    ensures var x, y := BitAt(a, k), BitAt(b, k);
            BitAt(Bitwise(op, a, b), k) == match op case AndOp => x * y case OrOp => x + y - x * y case XorOp => (x + y) % 2
    decreases k
  {
    var r := Bitwise(op, a, b);
    BitwiseHalves(op, a, b);
    if k > 0 {
      hide Bitwise, Pow2;
      BitsExactly(op, a / 2, b / 2, k - 1);
      NextBit(a, k);
      NextBit(b, k);
      NextBit(r, k);
    }
  }

  lemma BitwiseHalves(op: BitOp, a: nat, b: nat)
    ensures Bitwise(op, a, b) / 2 == Bitwise(op, a / 2, b / 2)
    ensures Bitwise(op, a, b) % 2 == if op.Bit(a % 2 == 1, b % 2 == 1) then 1 else 0
  {
  }

  lemma NextBit(x: nat, k: nat)
    requires k > 0
    ensures BitAt(x, k) == BitAt(x / 2, k - 1)
  {
    SplitRemainder(x, Pow2(k - 1), 2);
  }

  /** Combination of two 32-bit words. */
  function WordOp(op: BitOp, a: Word, b: Word): Word {
    Pow2Of32();
    BitwiseBound(op, a, b, 32);
    Bitwise(op, a, b)
  }

  /** `x >>> 0`. */
  function ToUint32(x: int): Word {
    x % 0x1_0000_0000
  }

  /** The signed reading that every other bitwise operator returns. */
  function ToInt32(x: int): int {
    if x % 0x1_0000_0000 < 0x8000_0000 then x % 0x1_0000_0000 else x % 0x1_0000_0000 - 0x1_0000_0000
  }

  function And(x: int, y: int): int { ToInt32(WordOp(AndOp, ToUint32(x), ToUint32(y))) }

  function Or(x: int, y: int): int { ToInt32(WordOp(OrOp, ToUint32(x), ToUint32(y))) }

  function Xor(x: int, y: int): int { ToInt32(WordOp(XorOp, ToUint32(x), ToUint32(y))) }

  function Not(x: int): int { ToInt32(-1 - x) }

  function ShiftLeft(x: int, n: nat): int
    requires n < 32
  {
    ToInt32(ToUint32(x) * Pow2(n))
  }

  function ShiftRightUnsigned(x: int, n: nat): Word
    requires n < 32
  {
    QuotientBound(ToUint32(x), Pow2(n));
    ToUint32(x) / Pow2(n)
  }

  /** The signed reading is the number of the same remainder from -2^31 to below 2^31. */
  lemma SignedExactly(x: int)
    ensures -0x8000_0000 <= ToInt32(x) < 0x8000_0000 && (ToInt32(x) - x) % 0x1_0000_0000 == 0
  {
  }

  lemma WordIsItself(w: Word)
    ensures ToUint32(w) == w
  {
  }

  /** A signed result and the word it stands for are interchangeable modulo 2^32. */
  lemma SignedIsWord(x: int)
    ensures ToUint32(ToInt32(x)) == ToUint32(x)
  {
  }

  /** Every bitwise result, signed as it is, reads back as the word operation on the words. */
  lemma OpIsWord(op: BitOp, x: int, y: int)
    ensures ToUint32(ToInt32(WordOp(op, ToUint32(x), ToUint32(y)))) == WordOp(op, ToUint32(x), ToUint32(y))
  {
    hide WordOp;
    SignedIsWord(WordOp(op, ToUint32(x), ToUint32(y)));
  }

  /** Joining disjoint bit ranges with `|` is addition. */
  lemma {:induction false} JoinIsSum(high: nat, low: nat, k: nat)
    requires low < Pow2(k)
    ensures Bitwise(OrOp, high * Pow2(k), low) == high * Pow2(k) + low
    decreases k
  {
    if k == 0 {
      SelfBitwise(high);
    } else {
      var a := high * Pow2(k);
      assert a == 2 * (high * Pow2(k - 1));
      assert a / 2 == high * Pow2(k - 1);
      JoinIsSum(high, low / 2, k - 1);
    }
  }

  lemma {:induction false} SelfBitwise(x: nat)
    ensures Bitwise(OrOp, x, 0) == x
    decreases x
  {
    if x > 0 {
      SelfBitwise(x / 2);
    }
  }

  /** Masking with 2^k - 1 is the remainder. */
  lemma {:induction false} MaskIsRemainder(x: nat, k: nat)
    ensures Bitwise(AndOp, x, Pow2(k) - 1) == x % Pow2(k)
    decreases k
  {
    if k == 0 {
      ClearBitwise(x);
    } else {
      var p := Pow2(k - 1);
      assert Pow2(k) == 2 * p;
      hide Bitwise, Pow2;
      MaskIsRemainder(x / 2, k - 1);
      OddMask(x, p - 1);
      DoubledRemainder(x, p, Bitwise(AndOp, x / 2, p - 1));
    }
  }

  lemma DoubledRemainder(x: nat, p: nat, r: nat)
    requires p > 0 && r == (x / 2) % p
    ensures x % 2 + 2 * r == x % (2 * p)
  {
    SplitRemainder(x, p, 2);
  }

  lemma OddMask(x: nat, half: nat)
    ensures Bitwise(AndOp, x, 2 * half + 1) == x % 2 + 2 * Bitwise(AndOp, x / 2, half)
  {
    var mask := 2 * half + 1;
    assert mask / 2 == half && mask % 2 == 1;
  }

  lemma {:induction false} ClearBitwise(x: nat)
    ensures Bitwise(AndOp, x, 0) == 0
    decreases x
  {
    if x > 0 {
      ClearBitwise(x / 2);
    }
  }
}
