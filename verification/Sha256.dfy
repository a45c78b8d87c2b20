/** The hash function of FIPS 180-4, stated on 32-bit words: this is the reference that the
    streaming implementation is proved against. */
module Fips180 {
  import opened Arithmetic
  import opened JsNumber

  // Section 4.2.2: the first 32 bits of the fractional parts of the cube roots of the first 64 primes.
  const K: seq<Word> :=
    [0x428a2f98, 0x71374491, 0xb5c0fbcf, 0xe9b5dba5, 0x3956c25b, 0x59f111f1, 0x923f82a4, 0xab1c5ed5] +
    [0xd807aa98, 0x12835b01, 0x243185be, 0x550c7dc3, 0x72be5d74, 0x80deb1fe, 0x9bdc06a7, 0xc19bf174] +
    [0xe49b69c1, 0xefbe4786, 0x0fc19dc6, 0x240ca1cc, 0x2de92c6f, 0x4a7484aa, 0x5cb0a9dc, 0x76f988da] +
    [0x983e5152, 0xa831c66d, 0xb00327c8, 0xbf597fc7, 0xc6e00bf3, 0xd5a79147, 0x06ca6351, 0x14292967] +
    [0x27b70a85, 0x2e1b2138, 0x4d2c6dfc, 0x53380d13, 0x650a7354, 0x766a0abb, 0x81c2c92e, 0x92722c85] +
    [0xa2bfe8a1, 0xa81a664b, 0xc24b8b70, 0xc76c51a3, 0xd192e819, 0xd6990624, 0xf40e3585, 0x106aa070] +
    [0x19a4c116, 0x1e376c08, 0x2748774c, 0x34b0bcb5, 0x391c0cb3, 0x4ed8aa4a, 0x5b9cca4f, 0x682e6ff3] +
    [0x748f82ee, 0x78a5636f, 0x84c87814, 0x8cc70208, 0x90befffa, 0xa4506ceb, 0xbef9a3f7, 0xc67178f2]

  // Section 5.3.3: the same bits of the square roots of the first eight primes.
  const H0: seq<Word> := [
    0x6a09e667, 0xbb67ae85, 0x3c6ef372, 0xa54ff53a, 0x510e527f, 0x9b05688c, 0x1f83d9ab, 0x5be0cd19]

  type Block = b: seq<Byte> | |b| == 64 witness seq(64, _ => 0)
  datatype Registers = Registers(a: Word, b: Word, c: Word, d: Word, e: Word, f: Word, g: Word, h: Word)

  /** Section 3.2: addition modulo 2^32, SHR and ROTR. */
  function Add(x: Word, y: Word): Word { (x + y) % 0x1_0000_0000 }

  function Shr(n: nat, x: Word): Word
    requires n < 32
  {
    QuotientBound(x, Pow2(n));
    x / Pow2(n)
  }

  function Rotr(n: nat, x: Word): Word
    requires 0 < n < 32
  {
    WordOp(OrOp, Shr(n, x), (x * Pow2(32 - n)) % 0x1_0000_0000)
  }

  function Exclusive(x: Word, y: Word, z: Word): Word {
    WordOp(XorOp, WordOp(XorOp, x, y), z)
  }

  /** Section 4.1.2. */
  function Ch(x: Word, y: Word, z: Word): Word {
    WordOp(XorOp, WordOp(AndOp, x, y), WordOp(AndOp, 0x1_0000_0000 - 1 - x, z))
  }

  function Maj(x: Word, y: Word, z: Word): Word {
    Exclusive(WordOp(AndOp, x, y), WordOp(AndOp, x, z), WordOp(AndOp, y, z))
  }

  function BigSigma0(x: Word): Word { Exclusive(Rotr(2, x), Rotr(13, x), Rotr(22, x)) }

  function BigSigma1(x: Word): Word { Exclusive(Rotr(6, x), Rotr(11, x), Rotr(25, x)) }

  function SmallSigma0(x: Word): Word { Exclusive(Rotr(7, x), Rotr(18, x), Shr(3, x)) }

  function SmallSigma1(x: Word): Word { Exclusive(Rotr(17, x), Rotr(19, x), Shr(10, x)) }

  /** Section 5.1.1: the bit 1, as few zero bits as possible, the 64-bit big-endian bit length. */
  function Zeros(n: nat): (z: seq<Byte>)
    ensures |z| == n
  {
    seq(n, _ => 0)
  }

  function BigEndian(value: nat, width: nat): (bytes: seq<Byte>)
    ensures |bytes| == width
  {
    if width == 0 then [] else BigEndian(value / 256, width - 1) + [value % 256]
  }

  function PadZeros(length: nat): (k: nat)
    ensures (length + 1 + k) % 64 == 56 && k < 64
  {
    (119 - length % 64) % 64
  }

  lemma PaddedLength(length: nat)
    ensures (length + 1 + PadZeros(length) + 8) % 64 == 0
  {
  }

  function Pad(message: seq<Byte>): (padded: seq<Byte>)
    ensures |padded| % 64 == 0
  {
    PaddedLength(|message|);
    message + [0x80] + Zeros(PadZeros(|message|)) + BigEndian(8 * |message|, 8)
  }

  /** Section 6.2.2, step 1: the message schedule. */
  function BigEndianWord(b0: int, b1: int, b2: int, b3: int): Word
    requires 0 <= b0 < 256 && 0 <= b1 < 256 && 0 <= b2 < 256 && 0 <= b3 < 256
  {
    ((b0 * 256 + b1) * 256 + b2) * 256 + b3
  }

  function BlockWord(block: Block, t: nat): Word
    requires t < 16
  {
    BigEndianWord(block[4 * t], block[4 * t + 1], block[4 * t + 2], block[4 * t + 3])
  }

  function Schedule(block: Block, t: nat): Word {
    if t < 16 then BlockWord(block, t)
    else Add(Add(Add(SmallSigma1(Schedule(block, t - 2)), Schedule(block, t - 7)),
                 SmallSigma0(Schedule(block, t - 15))), Schedule(block, t - 16))
  }

  /** Section 6.2.2, steps 2 to 4. */
  function Round(r: Registers, k: Word, w: Word): Registers {
    var t1 := Add(Add(Add(Add(r.h, BigSigma1(r.e)), Ch(r.e, r.f, r.g)), k), w);
    var t2 := Add(BigSigma0(r.a), Maj(r.a, r.b, r.c));
    Registers(Add(t1, t2), r.a, r.b, r.c, Add(r.d, t1), r.e, r.f, r.g)
  }

  function Rounds(block: Block, r: Registers, t: nat): Registers
    requires t <= 64
  {
    if t == 0 then r else Round(Rounds(block, r, t - 1), K[t - 1], Schedule(block, t - 1))
  }

  type Hash = h: seq<Word> | |h| == 8 witness seq(8, _ => 0)

  function Load(h: Hash): Registers {
    Registers(h[0], h[1], h[2], h[3], h[4], h[5], h[6], h[7])
  }

  function AddRegisters(h: Hash, r: Registers): Hash {
    [Add(h[0], r.a), Add(h[1], r.b), Add(h[2], r.c), Add(h[3], r.d),
     Add(h[4], r.e), Add(h[5], r.f), Add(h[6], r.g), Add(h[7], r.h)]
  }

  function Compress(h: Hash, block: Block): Hash {
    AddRegisters(h, Rounds(block, Load(h), 64))
  }

  /** Section 6.2: every block of a whole number of blocks, first to last. */
  function HashBlocks(h: Hash, blocks: seq<Byte>): Hash
    requires |blocks| % 64 == 0
    decreases |blocks|
  {
    if blocks == [] then h
    else Compress(HashBlocks(h, blocks[..|blocks| - 64]), blocks[|blocks| - 64..])
  }

  function Digest(message: seq<Byte>): Hash {
    HashBlocks(H0, Pad(message))
  }

  lemma HashBlocksAppend(h: Hash, blocks: seq<Byte>, block: Block)
    requires |blocks| % 64 == 0
    ensures HashBlocks(h, blocks + block) == Compress(HashBlocks(h, blocks), block)
  {
    var all := blocks + block;
    assert all[..|all| - 64] == blocks && all[|all| - 64..] == block;
  }

  /** Hexadecimal text: eight lower-case digits a word. */
  const HEX := "0123456789abcdef"

  function HexDigits(value: nat, width: nat): (text: string)
    ensures |text| == width
  {
    if width == 0 then "" else HexDigits(value / 16, width - 1) + [HEX[value % 16]]
  }

  function HexText(words: seq<Word>): string {
    if words == [] then "" else HexText(words[..|words| - 1]) + HexDigits(words[|words| - 1], 8)
  }
}

/** `IncrementalSha256`: a 64-byte carry buffer, a byte counter and an in-place message schedule. */
module Sha256 {
  import opened Arithmetic
  import opened JsNumber
  import opened Fips180
  import opened Sequences

  datatype HexResult = Hex(text: string) | AlreadyFinal

  /** Numbers count bytes exactly up to 2^53. */
  const MAX_COUNT := 0x20_0000_0000_0000

  function RotateRight(value: int, bits: nat): int
    requires 0 < bits < 32
  {
    Or(ShiftRightUnsigned(value, bits), ShiftLeft(value, 32 - bits))
  }

  lemma RotateRightIsRotr(value: Word, bits: nat)
    requires 0 < bits < 32
    ensures ToUint32(RotateRight(value, bits)) == Rotr(bits, value)
  {
    hide WordOp, Pow2;
    var high, low := ShiftRightUnsigned(value, bits), ShiftLeft(value, 32 - bits);
    WordIsItself(value);
    WordIsItself(high);
    SignedIsWord(value * Pow2(32 - bits));
    OpIsWord(OrOp, high, low);
  }

  lemma Xor3IsExclusive(x: int, y: int, z: int)
    ensures ToUint32(Xor(Xor(x, y), z)) == Exclusive(ToUint32(x), ToUint32(y), ToUint32(z))
  {
    hide WordOp, ToInt32, ToUint32;
    OpIsWord(XorOp, x, y);
    OpIsWord(XorOp, Xor(x, y), z);
  }

  lemma ChoiceIsCh(e: Word, f: Word, g: Word)
    ensures ToUint32(Xor(And(e, f), And(Not(e), g))) == Ch(e, f, g)
  {
    assert ToUint32(Not(e)) == 0xffff_ffff - e by {
      SignedIsWord(-1 - e);
    }
    hide WordOp, ToInt32, ToUint32;
    WordIsItself(e);
    WordIsItself(f);
    WordIsItself(g);
    OpIsWord(AndOp, e, f);
    OpIsWord(AndOp, Not(e), g);
    OpIsWord(XorOp, And(e, f), And(Not(e), g));
  }

  lemma MajorityIsMaj(a: Word, b: Word, c: Word)
    ensures ToUint32(Xor(Xor(And(a, b), And(a, c)), And(b, c))) == Maj(a, b, c)
  {
    hide WordOp, ToInt32, ToUint32;
    WordIsItself(a);
    WordIsItself(b);
    WordIsItself(c);
    OpIsWord(AndOp, a, b);
    OpIsWord(AndOp, a, c);
    OpIsWord(AndOp, b, c);
    Xor3IsExclusive(And(a, b), And(a, c), And(b, c));
  }

  /** The two mixing expressions, three rotations or two rotations and a shift. */
  function Rotations(x: Word, i: nat, j: nat, k: nat): int
    requires 0 < i < 32 && 0 < j < 32 && 0 < k < 32
  {
    Xor(Xor(RotateRight(x, i), RotateRight(x, j)), RotateRight(x, k))
  }

  function RotationsAndShift(x: Word, i: nat, j: nat, k: nat): int
    requires 0 < i < 32 && 0 < j < 32 && 0 < k < 32
  {
    Xor(Xor(RotateRight(x, i), RotateRight(x, j)), ShiftRightUnsigned(x, k))
  }

  lemma RotationsMix(x: Word, i: nat, j: nat, k: nat)
    requires 0 < i < 32 && 0 < j < 32 && 0 < k < 32
    ensures ToUint32(Rotations(x, i, j, k)) == Exclusive(Rotr(i, x), Rotr(j, x), Rotr(k, x))
    ensures ToUint32(RotationsAndShift(x, i, j, k)) == Exclusive(Rotr(i, x), Rotr(j, x), Shr(k, x))
  {
    hide WordOp, ToUint32, Xor, Exclusive, RotateRight, Rotr;
    WordIsItself(x);
    WordIsItself(ShiftRightUnsigned(x, k));
    RotateRightIsRotr(x, i);
    RotateRightIsRotr(x, j);
    RotateRightIsRotr(x, k);
    Xor3IsExclusive(RotateRight(x, i), RotateRight(x, j), RotateRight(x, k));
    Xor3IsExclusive(RotateRight(x, i), RotateRight(x, j), ShiftRightUnsigned(x, k));
  }

  /** Exact sums of signed and unsigned terms, truncated once, are the sums modulo 2^32. */
  lemma TwoTermSum(x: int, y: int)
    ensures ToUint32(x + y) == Add(ToUint32(x), ToUint32(y))
  {
  }

  lemma FourTermSum(w16: Word, s0: int, w7: Word, s1: int)
    ensures ToUint32(w16 + s0 + w7 + s1) == Add(Add(Add(ToUint32(s1), w7), ToUint32(s0)), w16)
  {
    hide ToUint32, Add;
    WordIsItself(w16);
    WordIsItself(w7);
    TwoTermSum(s1, w7);
    TwoTermSum(s1 + w7, s0);
    TwoTermSum(s1 + w7 + s0, w16);
    assert s1 + w7 + s0 + w16 == w16 + s0 + w7 + s1;
  }

  /** One schedule step on signed intermediates is one step of the standard. */
  lemma ScheduleRefines(block: Block, t: nat)
    requires 16 <= t
    ensures Schedule(block, t)
         == ToUint32(Schedule(block, t - 16) + RotationsAndShift(Schedule(block, t - 15), 7, 18, 3)
                     + Schedule(block, t - 7) + RotationsAndShift(Schedule(block, t - 2), 17, 19, 10))
  {
    hide RotationsAndShift, ToUint32, Add, Exclusive, Rotr, Shr;
    var w16, w15 := Schedule(block, t - 16), Schedule(block, t - 15);
    var w7, w2 := Schedule(block, t - 7), Schedule(block, t - 2);
    assert Schedule(block, t) == Add(Add(Add(SmallSigma1(w2), w7), SmallSigma0(w15)), w16);
    hide Schedule;
    RotationsMix(w15, 7, 18, 3);
    RotationsMix(w2, 17, 19, 10);
    FourTermSum(w16, RotationsAndShift(w15, 7, 18, 3), w7, RotationsAndShift(w2, 17, 19, 10));
  }

  lemma FiveTermSum(h: Word, s1: int, choice: int, k: Word, w: Word)
    ensures ToUint32(h + s1 + choice + k + w)
         == Add(Add(Add(Add(h, ToUint32(s1)), ToUint32(choice)), k), w)
  {
    hide ToUint32, Add;
    WordIsItself(h);
    WordIsItself(k);
    WordIsItself(w);
    TwoTermSum(h, s1);
    TwoTermSum(h + s1, choice);
    TwoTermSum(h + s1 + choice, k);
    TwoTermSum(h + s1 + choice + k, w);
  }

  /** Hexadecimal printing: `toString(16)` and `padStart(8, "0")`. */
  function ToHex(value: nat): string {
    if value < 16 then [HEX[value]] else ToHex(value / 16) + [HEX[value % 16]]
  }

  function PadStart(text: string, width: nat): string
    decreases width - |text|
  {
    if |text| >= width then text else PadStart("0" + text, width)
  }

  lemma {:induction false} PaddedHexIsDigits(value: nat, width: nat)
    requires width > 0 && value < Pow2(4 * width)
    ensures |ToHex(value)| <= width
    ensures PadStart(ToHex(value), width) == HexDigits(value, width)
    decreases width
  {
    if value < 16 {
      SmallHex(value, width);
    } else {
      Pow2Sum(4, 4 * (width - 1));
      assert Pow2(4) == 16;
      PaddedHexIsDigits(value / 16, width - 1);
      PadStartAppend(ToHex(value / 16), width - 1, HEX[value % 16]);
    }
  }

  lemma {:induction false} SmallHex(value: nat, width: nat)
    requires width > 0 && value < 16
    ensures PadStart([HEX[value]], width) == HexDigits(value, width)
    decreases width
  {
    if width > 1 {
      SmallHex(0, width - 1);
      PadStartZero([HEX[value]], width);
    } else {
      assert HexDigits(value / 16, 0) == "";
    }
  }

  lemma {:induction false} PadStartAppend(text: string, width: nat, digit: char)
    ensures PadStart(text + [digit], width + 1) == PadStart(text, width) + [digit]
    decreases width - |text|
  {
    if |text| < width {
      PadStartAppend("0" + text, width, digit);
      assert "0" + (text + [digit]) == ("0" + text) + [digit];
    }
  }

  lemma {:induction false} PadStartZero(text: string, width: nat)
    requires |text| == 1 && width > 1
    ensures PadStart(text, width) == PadStart("0", width - 1) + text
  {
    assert "0" + text == ['0'] + text;
    PadStartAppend("0", width - 1, text[0]);
    assert [text[0]] == text;
    assert PadStart(text, width) == PadStart("0" + text, width);
  }

  /** A message cut at its last block boundary. */
  function WholeOf(message: seq<Byte>): (whole: seq<Byte>)
    ensures |whole| % 64 == 0
  {
    message[..|message| - |message| % 64]
  }

  function TailOf(message: seq<Byte>): (tail: seq<Byte>)
    ensures |tail| < 64 && |tail| == |message| % 64 && message == WholeOf(message) + tail
  {
    message[|message| - |message| % 64..]
  }

  lemma CutIsUnique(whole: seq<Byte>, tail: seq<Byte>)
    requires |whole| % 64 == 0 && |tail| < 64
    ensures WholeOf(whole + tail) == whole && TailOf(whole + tail) == tail
  {
  }

  /** What the object holds between calls: the hash of the whole blocks and the bytes after them. */
  ghost predicate Carried(h: seq<Word>, buffer: seq<Byte>, length: nat, message: seq<Byte>) {
    |buffer| == 64 && length == |TailOf(message)| && buffer[..length] == TailOf(message)
    && h == HashBlocks(H0, WholeOf(message))
  }

  lemma CarryBlock(h: seq<Word>, buffer: seq<Byte>, message: seq<Byte>, block: Block)
    requires Carried(h, buffer, 0, message)
    ensures Carried(Compress(h, block), buffer, 0, message + block)
  {
    hide Compress, HashBlocks;
    HashBlocksAppend(H0, message, block);
    assert WholeOf(message) == message;
    CutIsUnique(message + block, []);
    assert message + block + [] == message + block;
  }

  lemma CarryFill(h: seq<Word>, kept: seq<Byte>, length: nat, message: seq<Byte>, piece: seq<Byte>, buffer: seq<Byte>)
    requires Carried(h, kept, length, message) && length + |piece| <= 64 && |buffer| == 64
    requires buffer[..length] == kept[..length] && buffer[length..length + |piece|] == piece
    ensures length + |piece| < 64 ==> Carried(h, buffer, length + |piece|, message + piece)
    ensures length + |piece| == 64 ==> Carried(Compress(h, buffer), buffer, 0, message + piece)
  {
    hide Compress, HashBlocks;
    var whole, filled := WholeOf(message), buffer[..length + |piece|];
    assert filled == TailOf(message) + piece;
    assert message + piece == whole + filled;
    if length + |piece| == 64 {
      assert filled == buffer;
      HashBlocksAppend(H0, whole, buffer);
      CutIsUnique(whole + buffer, []);
      assert whole + buffer + [] == whole + buffer;
    } else {
      CutIsUnique(whole, filled);
    }
  }

  class IncrementalSha256 {
    const state: array<Word>
    const buffer: array<Byte>
    const words: array<Word>
    var bufferLength: nat
    var bytesHashed: nat
    var finished: bool
    ghost var message: seq<Byte>

    ghost predicate Valid()
      reads this, state, buffer, words
    {
      state.Length == 8 && buffer.Length == 64 && words.Length == 64 && state != words
      && state as object != buffer
      && bytesHashed == |message| && bufferLength <= 64
      && (!finished ==> bufferLength < 64 && Carried(state[..], buffer[..], bufferLength, message))
    }

    constructor ()
      ensures Valid() && !finished && message == []
      ensures fresh(state) && fresh(buffer) && fresh(words)
    {
      state := new Word[8] [0x6a09e667, 0xbb67ae85, 0x3c6ef372, 0xa54ff53a,
                            0x510e527f, 0x9b05688c, 0x1f83d9ab, 0x5be0cd19];
      buffer := new Byte[64](_ => 0);
      words := new Word[64](_ => 0);
      bufferLength, bytesHashed, finished := 0, 0, false;
      message := [];
    }

    /** The message schedule, filled in place. */
    method LoadWords(block: array<Byte>, offset: nat)
      requires words.Length == 64 && offset + 64 <= block.Length
      modifies words
      ensures forall t :: 0 <= t < 16 ==> words[t] == Schedule(block[offset..offset + 64], t)
    {
      ghost var chunk: Block := block[offset..offset + 64];
      for index := 0 to 16
        invariant forall t :: 0 <= t < index ==> words[t] == BlockWord(chunk, t)
      {
        var cursor := offset + index * 4;
        assert chunk[4 * index] == block[cursor] && chunk[4 * index + 1] == block[cursor + 1];
        assert chunk[4 * index + 2] == block[cursor + 2] && chunk[4 * index + 3] == block[cursor + 3];
        JoinedBytes(block[cursor], block[cursor + 1], block[cursor + 2], block[cursor + 3]);
        words[index] := ToUint32(Or(Or(Or(ShiftLeft(block[cursor], 24), ShiftLeft(block[cursor + 1], 16)),
                                       ShiftLeft(block[cursor + 2], 8)), block[cursor + 3]));
      }
    }

    method ExtendWords(ghost chunk: Block)
      requires words.Length == 64
      requires forall t :: 0 <= t < 16 ==> words[t] == Schedule(chunk, t)
      modifies words
      ensures forall t :: 0 <= t < 64 ==> words[t] == Schedule(chunk, t)
    {
      hide RotationsAndShift, ToUint32, Schedule;
      for index := 16 to 64
        invariant forall t :: 0 <= t < index ==> words[t] == Schedule(chunk, t)
      {
        var previous, recent := words[index - 15], words[index - 2];
        var sigma0 := RotationsAndShift(previous, 7, 18, 3);
        var sigma1 := RotationsAndShift(recent, 17, 19, 10);
        ScheduleRefines(chunk, index);
        words[index] := ToUint32(words[index - 16] + sigma0 + words[index - 7] + sigma1);
      }
    }

    /** One application of the compression function, `#transform`. */
    method Transform(block: array<Byte>, offset: nat)
      requires state.Length == 8 && words.Length == 64 && state != words && offset + 64 <= block.Length
      modifies state, words
      ensures state[..] == Compress(old(state[..]), block[offset..offset + 64])
    {
      hide Schedule, Rounds, Add;
      ghost var chunk: Block := block[offset..offset + 64];
      LoadWords(block, offset);
      ExtendWords(chunk);
      var values := RunRounds(chunk);
      AddToState(values);
      assert Compress(old(state[..]), chunk) == AddRegisters(old(state[..]), Load(values));
    }

    method AddToState(values: seq<Word>)
      requires state.Length == 8 && |values| == 8
      modifies state
      ensures forall i :: 0 <= i < 8 ==> state[i] == Add(old(state[i]), values[i])
    {
      for index := 0 to 8
        invariant forall i :: 0 <= i < index ==> state[i] == Add(old(state[i]), values[i])
        invariant forall i :: index <= i < 8 ==> state[i] == old(state[i])
      {
        state[index] := ToUint32(state[index] as int + values[index]);
      }
    }

    method RunRounds(ghost chunk: Block) returns (values: seq<Word>)
      requires state.Length == 8 && words.Length == 64
      requires forall t :: 0 <= t < 64 ==> words[t] == Schedule(chunk, t)
      ensures |values| == 8 && Load(values) == Rounds(chunk, Load(state[..]), 64)
    {
      hide ToUint32, ToInt32, Rotations, Xor, And, Not, Round, Schedule;
      ghost var start: Hash := state[..];
      var a: Word, b: Word, c: Word, d: Word := state[0], state[1], state[2], state[3];
      var e: Word, f: Word, g: Word, h: Word := state[4], state[5], state[6], state[7];
      for index := 0 to 64
        invariant Registers(a, b, c, d, e, f, g, h) == Rounds(chunk, Load(start), index)
      {
        ghost var r := Registers(a, b, c, d, e, f, g, h);
        var sum1 := Rotations(e, 6, 11, 25);
        var choice := Xor(And(e, f), And(Not(e), g));
        var temporary1: int := ToUint32(h + sum1 + choice + K[index] + words[index]);
        var sum0 := Rotations(a, 2, 13, 22);
        var majority := Xor(Xor(And(a, b), And(a, c)), And(b, c));
        var temporary2: int := ToUint32(sum0 + majority);
        h, g, f := g, f, e;
        e := ToUint32(d + temporary1);
        d, c, b := c, b, a;
        a := ToUint32(temporary1 + temporary2);
        RoundRefines(r, K[index], words[index]);
      }
      values := [a, b, c, d, e, f, g, h];
    }

    /** Absorbs more of the message; only a finished object refuses. */
    method Update(bytes: array<Byte>) returns (ok: bool)
      requires Valid() && bytes != buffer
      requires !finished ==> |message| + bytes.Length <= MAX_COUNT
      modifies this, state, buffer, words
      ensures Valid() && finished == old(finished) && ok == !finished
      ensures message == if ok then old(message) + bytes[..] else old(message)
    {
      hide Carried, HashBlocks, Compress;
      if finished {
        return false;
      }
      ghost var before := message;
      assert before + bytes[..0] == before;
      bytesHashed := bytesHashed + bytes.Length;
      var offset := 0;
      if bufferLength > 0 {
        offset := TopUp(bytes, before);
      } else {
        assert Carried(state[..], buffer[..], 0, before + bytes[..0]);
      }
      offset := HashWhole(bytes, offset, before);
      if offset < bytes.Length {
        ghost var kept, h, done := buffer[..], state[..], before + bytes[..offset];
        assert Carried(h, kept, 0, done);
        bufferLength := bytes.Length - offset;
        CopyIn(bytes, offset, bufferLength, 0);
        CarryFill(h, kept, 0, done, bytes[offset..], buffer[..]);
        assert done + bytes[offset..] == before + bytes[..];
      } else {
        assert bytes[..offset] == bytes[..];
      }
      message := before + bytes[..];
      ok := true;
    }

    /** Fills the carry buffer first, and hashes it when that makes a whole block. */
    method TopUp(bytes: array<Byte>, ghost before: seq<Byte>) returns (size: nat)
      requires state.Length == 8 && buffer.Length == 64 && words.Length == 64 && state != words && bytes != buffer
      requires 0 < bufferLength < 64 && state as object != buffer && Carried(state[..], buffer[..], bufferLength, before)
      modifies this`bufferLength, state, buffer, words
      ensures size <= bytes.Length && bufferLength < 64
      ensures Carried(state[..], buffer[..], bufferLength, before + bytes[..size])
      ensures bufferLength == 0 || size == bytes.Length
    {
      hide Carried, Compress;
      size := if 64 - bufferLength < bytes.Length then 64 - bufferLength else bytes.Length;
      CopyIn(bytes, 0, size, bufferLength);
      assert old(buffer[..])[..bufferLength] == old(buffer[..bufferLength]);
      bufferLength := bufferLength + size;
      CarryFill(old(state[..]), old(buffer[..]), old(bufferLength), before, bytes[..size], buffer[..]);
      assert state[..] == old(state[..]);
      if bufferLength == 64 {
        HashBuffer();
      }
    }

    method HashBuffer()
      requires state.Length == 8 && buffer.Length == 64 && words.Length == 64 && state != words
      modifies this`bufferLength, state, words
      ensures bufferLength == 0 && buffer[..] == old(buffer[..])
      ensures state[..] == Compress(old(state[..]), old(buffer[..]))
    {
      hide Compress;
      assert buffer[0..64] == buffer[..];
      Transform(buffer, 0);
      bufferLength := 0;
    }

    /** `buffer.set(bytes.subarray(from, from + size), at)`. */
    method CopyIn(bytes: array<Byte>, from: nat, size: nat, at: nat)
      requires from + size <= bytes.Length && at + size <= buffer.Length
      requires bytes != buffer && state as object != buffer
      modifies buffer
      ensures buffer[..at] == old(buffer[..at]) && buffer[at..at + size] == bytes[from..from + size]
      ensures state[..] == old(state[..])
    {
      ghost var before, copied := buffer[..at], bytes[from..from + size];
      forall i | 0 <= i < size {
        buffer[at + i] := bytes[from + i];
      }
      assert forall i | 0 <= i < at :: buffer[..at][i] == before[i];
      assert forall i | 0 <= i < size :: buffer[at..at + size][i] == copied[i];
    }

    /** Hashes whole blocks straight from the argument. */
    method HashWhole(bytes: array<Byte>, from: nat, ghost before: seq<Byte>) returns (offset: nat)
      requires state.Length == 8 && buffer.Length == 64 && words.Length == 64 && state != words
      requires from <= bytes.Length && Carried(state[..], buffer[..], bufferLength, before + bytes[..from])
      requires bufferLength == 0 || from == bytes.Length
      modifies state, words
      ensures from <= offset <= bytes.Length && bytes.Length - offset < 64
      ensures Carried(state[..], buffer[..], bufferLength, before + bytes[..offset])
      ensures bufferLength == 0 || offset == bytes.Length
    {
      hide Carried, HashBlocks, Compress;
      offset := from;
      while offset + 64 <= bytes.Length
        invariant from <= offset <= bytes.Length
        invariant Carried(state[..], buffer[..], bufferLength, before + bytes[..offset])
        invariant bufferLength == 0 || offset == bytes.Length
      {
        ghost var done, block := before + bytes[..offset], bytes[offset..offset + 64];
        assert done + block == before + bytes[..offset + 64];
        CarryBlock(state[..], buffer[..], done, block);
        Transform(bytes, offset);
        offset := offset + 64;
      }
    }

    /** Pads in place, hashes the one or two tail blocks and prints the eight words. */
    method DigestHex() returns (result: HexResult)
      requires Valid()
      modifies this, state, buffer, words
      ensures Valid() && finished && message == old(message)
      ensures result == if old(finished) then AlreadyFinal else HexResult.Hex(HexText(Digest(message)))
    {
      hide Compress, HashBlocks;
      if finished {
        return AlreadyFinal;
      }
      finished := true;
      Finish();
      var hex := PrintState();
      result := Hex(hex);
    }

    method PrintState() returns (hex: string)
      requires state.Length == 8
      ensures hex == HexText(state[..])
    {
      hide HexDigits, ToHex, PadStart;
      hex := "";
      for index := 0 to 8
        invariant hex == HexText(state[..index])
      {
        PaddedWord(state[index]);
        hex := hex + PadStart(ToHex(state[index]), 8);
        assert state[..index + 1][..index] == state[..index];
      }
      assert state[..8] == state[..];
    }

    method Finish()
      requires state.Length == 8 && buffer.Length == 64 && words.Length == 64 && state != words
      requires state as object != buffer && bytesHashed == |message|
      requires Carried(state[..], buffer[..], bufferLength, message)
      modifies this`bufferLength, state, buffer, words
      ensures bufferLength <= 64 && state[..] == Digest(message)
    {
      hide HashBlocks, Compress, Digest, BigEndian;
      ghost var length := bufferLength;
      assert buffer[..length] == TailOf(message) && state[..] == HashBlocks(H0, WholeOf(message));
      AppendMarker();
      ghost var kept, h := buffer[..bufferLength], state[..];
      FillZeros(bufferLength, 56);
      WriteBitLength();
      assert state[..] == h;
      assert buffer[0..64] == kept + Zeros(56 - bufferLength) + BigEndian(8 * |message|, 8);
      Transform(buffer, 0);
      if length < 56 {
        PadsInOneBlock(message);
      } else {
        assert kept + Zeros(56) == Zeros(56);
        PadsInTwoBlocks(message);
      }
    }

    /** The marker byte; it takes a block of its own when the length would not fit behind it. */
    method AppendMarker()
      requires state.Length == 8 && buffer.Length == 64 && words.Length == 64 && state != words
      requires state as object != buffer && bufferLength < 64
      modifies this`bufferLength, state, buffer, words
      ensures old(bufferLength) < 56 ==>
        bufferLength == old(bufferLength) + 1 && state[..] == old(state[..])
        && buffer[..bufferLength] == old(buffer[..bufferLength]) + [0x80]
      ensures old(bufferLength) >= 56 ==>
        bufferLength == 0
        && state[..] == Compress(old(state[..]), old(buffer[..bufferLength]) + [0x80] + Zeros(63 - old(bufferLength)))
    {
      hide Compress;
      ghost var tail, h := buffer[..bufferLength], state[..];
      buffer[bufferLength] := 0x80;
      bufferLength := bufferLength + 1;
      assert buffer[..bufferLength] == tail + [0x80] && state[..] == h;
      if bufferLength > 56 {
        FillZeros(bufferLength, 64);
        assert buffer[0..64] == tail + [0x80] + Zeros(64 - bufferLength) && state[..] == h;
        Transform(buffer, 0);
        bufferLength := 0;
      }
    }

    method FillZeros(from: nat, to: nat)
      requires from <= to <= buffer.Length
      modifies buffer
      ensures buffer[..] == old(buffer[..from]) + Zeros(to - from) + old(buffer[to..])
    {
      forall i | from <= i < to {
        buffer[i] := 0;
      }
    }

    method WriteBitLength()
      requires buffer.Length == 64 && bytesHashed == |message|
      modifies buffer
      ensures buffer[..] == old(buffer[..56]) + BigEndian(8 * |message|, 8)
    {
      var bitLength: nat := bytesHashed * 8;
      for index := 64 downto 56
        invariant buffer[..56] == old(buffer[..56])
        invariant BigEndian(8 * |message|, 8) == BigEndian(bitLength, index - 56) + buffer[index..]
      {
        buffer[index] := bitLength % 256;
        bitLength := bitLength / 256;
        assert buffer[index..] == [buffer[index]] + buffer[index + 1..];
      }
      assert BigEndian(bitLength, 0) == [];
    }
  }

  /** The carried bytes and the in-place padding are exactly the padding of the standard. */
  lemma PadsInOneBlock(message: seq<Byte>)
    requires |TailOf(message)| < 56
    ensures
      var last := TailOf(message) + [0x80] + Zeros(55 - |TailOf(message)|) + BigEndian(8 * |message|, 8);
      |last| == 64 && Digest(message) == Compress(HashBlocks(H0, WholeOf(message)), last)
  {
    hide Compress, HashBlocks, BigEndian;
    var whole, tail := WholeOf(message), TailOf(message);
    var last := tail + [0x80] + Zeros(55 - |tail|) + BigEndian(8 * |message|, 8);
    assert PadZeros(|message|) == 55 - |tail|;
    assert Pad(message) == whole + last;
    HashBlocksAppend(H0, whole, last);
  }

  lemma PadsInTwoBlocks(message: seq<Byte>)
    requires |TailOf(message)| >= 56
    ensures
      var first := TailOf(message) + [0x80] + Zeros(63 - |TailOf(message)|);
      var last := Zeros(56) + BigEndian(8 * |message|, 8);
      |first| == |last| == 64
      && Digest(message) == Compress(Compress(HashBlocks(H0, WholeOf(message)), first), last)
  {
    hide Compress, HashBlocks, BigEndian;
    var whole, tail := WholeOf(message), TailOf(message);
    var first := tail + [0x80] + Zeros(63 - |tail|);
    var last := Zeros(56) + BigEndian(8 * |message|, 8);
    assert PadZeros(|message|) == 119 - |tail|;
    assert Zeros(119 - |tail|) == Zeros(63 - |tail|) + Zeros(56);
    assert Pad(message) == whole + first + last;
    HashBlocksAppend(H0, whole, first);
    HashBlocksAppend(H0, whole + first, last);
  }

  lemma PaddedWord(word: Word)
    ensures PadStart(ToHex(word), 8) == HexDigits(word, 8)
  {
    Pow2Of32();
    PaddedHexIsDigits(word, 8);
  }

  lemma JoinStep(x: int, y: int, high: nat, low: nat, k: nat)
    requires low < Pow2(k) && high * Pow2(k) < 0x1_0000_0000 && low < 0x1_0000_0000
    requires ToUint32(x) == high * Pow2(k) && ToUint32(y) == low
    ensures ToUint32(Or(x, y)) == high * Pow2(k) + low
  {
    hide Bitwise, ToUint32, ToInt32;
    OpIsWord(OrOp, x, y);
    JoinIsSum(high, low, k);
  }

  lemma ShiftedByte(b: Byte, n: nat)
    requires n == 8 || n == 16 || n == 24
    ensures Pow2(8) == 0x100 && Pow2(16) == 0x1_0000 && Pow2(24) == 0x100_0000
    ensures ToUint32(ShiftLeft(b, n)) == b * Pow2(n)
  {
    assert Pow2(8) == 0x100;
    Pow2Sum(8, 8);
    Pow2Sum(8, 16);
    hide ToInt32, Pow2;
    WordIsItself(b);
    WordIsItself(b * Pow2(n));
    SignedIsWord(b * Pow2(n));
  }

  /** The four shifted bytes, joined with `|` and read unsigned, are the big-endian word. */
  lemma JoinedBytes(b0: Byte, b1: Byte, b2: Byte, b3: Byte)
    ensures ToUint32(Or(Or(Or(ShiftLeft(b0, 24), ShiftLeft(b1, 16)), ShiftLeft(b2, 8)), b3))
         == BigEndianWord(b0, b1, b2, b3)
  {
    hide ToUint32, ToInt32, Or, ShiftLeft, Pow2;
    ShiftedByte(b0, 24);
    ShiftedByte(b1, 16);
    ShiftedByte(b2, 8);
    WordIsItself(b3);
    JoinStep(ShiftLeft(b0, 24), ShiftLeft(b1, 16), b0, b1 * 0x1_0000, 24);
    var two := Or(ShiftLeft(b0, 24), ShiftLeft(b1, 16));
    JoinStep(two, ShiftLeft(b2, 8), b0 * 0x100 + b1, b2 * 0x100, 16);
    JoinStep(Or(two, ShiftLeft(b2, 8)), b3, (b0 * 0x100 + b1) * 0x100 + b2, b3, 8);
  }

  lemma RoundTerms(r: Registers, k: Word, w: Word)
    ensures ToUint32(r.h + Rotations(r.e, 6, 11, 25) + Xor(And(r.e, r.f), And(Not(r.e), r.g)) + k + w)
         == Add(Add(Add(Add(r.h, BigSigma1(r.e)), Ch(r.e, r.f, r.g)), k), w)
    ensures ToUint32(Rotations(r.a, 2, 13, 22) + Xor(Xor(And(r.a, r.b), And(r.a, r.c)), And(r.b, r.c)))
         == Add(BigSigma0(r.a), Maj(r.a, r.b, r.c))
  {
    hide ToUint32, Add, Rotations, Xor, And, Not, Ch, Maj, Exclusive, Rotr;
    RotationsMix(r.e, 6, 11, 25);
    ChoiceIsCh(r.e, r.f, r.g);
    FiveTermSum(r.h, Rotations(r.e, 6, 11, 25), Xor(And(r.e, r.f), And(Not(r.e), r.g)), k, w);
    RotationsMix(r.a, 2, 13, 22);
    MajorityIsMaj(r.a, r.b, r.c);
    TwoTermSum(Rotations(r.a, 2, 13, 22), Xor(Xor(And(r.a, r.b), And(r.a, r.c)), And(r.b, r.c)));
  }

  /** One round on signed intermediates is one round of the standard. */
  lemma RoundRefines(r: Registers, k: Word, w: Word)
    ensures
      var temporary1 := ToUint32(r.h + Rotations(r.e, 6, 11, 25) + Xor(And(r.e, r.f), And(Not(r.e), r.g)) + k + w);
      var temporary2 := ToUint32(Rotations(r.a, 2, 13, 22) + Xor(Xor(And(r.a, r.b), And(r.a, r.c)), And(r.b, r.c)));
      Registers(ToUint32(temporary1 + temporary2), r.a, r.b, r.c, ToUint32(r.d + temporary1), r.e, r.f, r.g)
        == Round(r, k, w)
  {
    hide ToUint32, Add, Rotations, Xor, And, Not, Ch, Maj, BigSigma0, BigSigma1;
    RoundTerms(r, k, w);
    var t1 := Add(Add(Add(Add(r.h, BigSigma1(r.e)), Ch(r.e, r.f, r.g)), k), w);
    var t2 := Add(BigSigma0(r.a), Maj(r.a, r.b, r.c));
    WordIsItself(t1);
    WordIsItself(t2);
    WordIsItself(r.d);
    TwoTermSum(t1, t2);
    TwoTermSum(r.d, t1);
  }

  /** Every way of cutting a message into `update` calls gives the standard's digest of the whole. */
  method HashInChunks(chunks: seq<seq<Byte>>) returns (result: HexResult)
    requires |Flatten(chunks)| <= MAX_COUNT
    ensures result == Hex(HexText(Digest(Flatten(chunks))))
  {
    hide Pad, HashBlocks, Compress, HexText, HexDigits, Carried;
    var hash := new IncrementalSha256();
    var rest := chunks;
    while rest != []
      invariant hash.Valid() && !hash.finished
      invariant fresh(hash) && fresh(hash.state) && fresh(hash.buffer) && fresh(hash.words)
      invariant hash.message + Flatten(rest) == Flatten(chunks)
      decreases |rest|
    {
      var chunk := rest[0];
      var bytes := new Byte[|chunk|](i requires 0 <= i < |chunk| => chunk[i]);
      assert bytes[..] == chunk;
      assert hash.message + (chunk + Flatten(rest[1..])) == (hash.message + chunk) + Flatten(rest[1..]);
      assert Flatten(rest) == chunk + Flatten(rest[1..]);
      assert |hash.message| + bytes.Length <= |Flatten(chunks)|;
      var ok := hash.Update(bytes);
      rest := rest[1..];
    }
    assert hash.message + [] == hash.message;
    result := hash.DigestHex();
  }
}
