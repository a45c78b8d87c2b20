/** Where the constants of the standard come from: the roots of the first primes, to 32 bits after the point. */
module Fips180Constants {
  import opened Fips180

  /** The first 64 primes. */
  const PRIMES: seq<nat> :=
    [2, 3, 5, 7, 11, 13, 17, 19] +
    [23, 29, 31, 37, 41, 43, 47, 53] +
    [59, 61, 67, 71, 73, 79, 83, 89] +
    [97, 101, 103, 107, 109, 113, 127, 131] +
    [137, 139, 149, 151, 157, 163, 167, 173] +
    [179, 181, 191, 193, 197, 199, 211, 223] +
    [227, 229, 233, 239, 241, 251, 257, 263] +
    [269, 271, 277, 281, 283, 293, 307, 311]

  /** The first 32 bits after the point of the cube root: with the whole part before them they are the largest
      integer that is not above 2^32 times the root. */
  predicate CubeRootBits(word: int, whole: nat, n: nat) {
    var root := whole * 0x1_0000_0000 + word;
    && 0 <= word < 0x1_0000_0000
    && root * root * root <= n * 0x1_0000_0000_0000_0000_0000_0000 < (root + 1) * (root + 1) * (root + 1)
  }

  predicate SquareRootBits(word: int, whole: nat, n: nat) {
    var root := whole * 0x1_0000_0000 + word;
    && 0 <= word < 0x1_0000_0000
    && root * root <= n * 0x1_0000_0000_0000_0000 < (root + 1) * (root + 1)
  }

  /** The 64 constants of the rounds. */
  lemma RoundConstants()
    ensures |K| == |PRIMES| == 64 && forall t | 0 <= t < 64 :: exists whole :: CubeRootBits(K[t], whole, PRIMES[t])
  {
    Sizes();
    hide K, PRIMES;
    CubeRoots0();
    CubeRoots1();
    CubeRoots2();
    CubeRoots3();
    CubeRoots4();
    CubeRoots5();
    CubeRoots6();
    CubeRoots7();
    hide CubeRootBits;
  }

  lemma Sizes()
    ensures |K| == |PRIMES| == 64
  {
  }

  /** The eight words a digest starts from. */
  lemma InitialWords()
    ensures |H0| == 8 && forall i | 0 <= i < 8 :: exists whole :: SquareRootBits(H0[i], whole, PRIMES[i])
  {
    InitialRoots();
    assert |H0| == 8 && H0[0] == 0x6a09e667 && H0[1] == 0xbb67ae85 && H0[2] == 0x3c6ef372 && H0[3] == 0xa54ff53a &&
      H0[4] == 0x510e527f && H0[5] == 0x9b05688c && H0[6] == 0x1f83d9ab && H0[7] == 0x5be0cd19;
    Row0();
    hide SquareRootBits, H0, PRIMES;
    assert SquareRootBits(H0[0], 1, PRIMES[0]) && SquareRootBits(H0[1], 1, PRIMES[1]) && SquareRootBits(H0[2], 2, PRIMES[2]) && SquareRootBits(H0[3], 2, PRIMES[3]);
    assert SquareRootBits(H0[4], 3, PRIMES[4]) && SquareRootBits(H0[5], 3, PRIMES[5]) && SquareRootBits(H0[6], 4, PRIMES[6]) && SquareRootBits(H0[7], 4, PRIMES[7]);
  }

  lemma InitialRoots()
    ensures SquareRootBits(0x6a09e667, 1, 2) && SquareRootBits(0xbb67ae85, 1, 3) && SquareRootBits(0x3c6ef372, 2, 5) && SquareRootBits(0xa54ff53a, 2, 7)
    ensures SquareRootBits(0x510e527f, 3, 11) && SquareRootBits(0x9b05688c, 3, 13) && SquareRootBits(0x1f83d9ab, 4, 17) && SquareRootBits(0x5be0cd19, 4, 19)
  {
  }

  lemma Row0()
    ensures K[0] == 0x428a2f98 && K[1] == 0x71374491 && K[2] == 0xb5c0fbcf && K[3] == 0xe9b5dba5
    ensures PRIMES[0] == 2 && PRIMES[1] == 3 && PRIMES[2] == 5 && PRIMES[3] == 7
    ensures K[4] == 0x3956c25b && K[5] == 0x59f111f1 && K[6] == 0x923f82a4 && K[7] == 0xab1c5ed5
    ensures PRIMES[4] == 11 && PRIMES[5] == 13 && PRIMES[6] == 17 && PRIMES[7] == 19
  {
  }

  lemma CubeRoots0()
    ensures CubeRootBits(K[0], 1, PRIMES[0]) && CubeRootBits(K[1], 1, PRIMES[1]) && CubeRootBits(K[2], 1, PRIMES[2])
    ensures CubeRootBits(K[3], 1, PRIMES[3]) && CubeRootBits(K[4], 2, PRIMES[4]) && CubeRootBits(K[5], 2, PRIMES[5])
    ensures CubeRootBits(K[6], 2, PRIMES[6]) && CubeRootBits(K[7], 2, PRIMES[7])
  {
    hide K, PRIMES;
    Row0();
    assert CubeRootBits(0x428a2f98, 1, 2) && CubeRootBits(0x71374491, 1, 3) && CubeRootBits(0xb5c0fbcf, 1, 5);
    assert CubeRootBits(0xe9b5dba5, 1, 7) && CubeRootBits(0x3956c25b, 2, 11) && CubeRootBits(0x59f111f1, 2, 13);
    assert CubeRootBits(0x923f82a4, 2, 17) && CubeRootBits(0xab1c5ed5, 2, 19);
    hide CubeRootBits;
  }

  lemma Row1()
    ensures K[8] == 0xd807aa98 && K[9] == 0x12835b01 && K[10] == 0x243185be && K[11] == 0x550c7dc3
    ensures PRIMES[8] == 23 && PRIMES[9] == 29 && PRIMES[10] == 31 && PRIMES[11] == 37
    ensures K[12] == 0x72be5d74 && K[13] == 0x80deb1fe && K[14] == 0x9bdc06a7 && K[15] == 0xc19bf174
    ensures PRIMES[12] == 41 && PRIMES[13] == 43 && PRIMES[14] == 47 && PRIMES[15] == 53
  {
  }

  lemma CubeRoots1()
    ensures CubeRootBits(K[8], 2, PRIMES[8]) && CubeRootBits(K[9], 3, PRIMES[9]) && CubeRootBits(K[10], 3, PRIMES[10])
    ensures CubeRootBits(K[11], 3, PRIMES[11]) && CubeRootBits(K[12], 3, PRIMES[12]) && CubeRootBits(K[13], 3, PRIMES[13])
    ensures CubeRootBits(K[14], 3, PRIMES[14]) && CubeRootBits(K[15], 3, PRIMES[15])
  {
    hide K, PRIMES;
    Row1();
    assert CubeRootBits(0xd807aa98, 2, 23) && CubeRootBits(0x12835b01, 3, 29) && CubeRootBits(0x243185be, 3, 31);
    assert CubeRootBits(0x550c7dc3, 3, 37) && CubeRootBits(0x72be5d74, 3, 41) && CubeRootBits(0x80deb1fe, 3, 43);
    assert CubeRootBits(0x9bdc06a7, 3, 47) && CubeRootBits(0xc19bf174, 3, 53);
    hide CubeRootBits;
  }

  lemma Row2()
    ensures K[16] == 0xe49b69c1 && K[17] == 0xefbe4786 && K[18] == 0x0fc19dc6 && K[19] == 0x240ca1cc
    ensures PRIMES[16] == 59 && PRIMES[17] == 61 && PRIMES[18] == 67 && PRIMES[19] == 71
    ensures K[20] == 0x2de92c6f && K[21] == 0x4a7484aa && K[22] == 0x5cb0a9dc && K[23] == 0x76f988da
    ensures PRIMES[20] == 73 && PRIMES[21] == 79 && PRIMES[22] == 83 && PRIMES[23] == 89
  {
  }

  lemma CubeRoots2()
    ensures CubeRootBits(K[16], 3, PRIMES[16]) && CubeRootBits(K[17], 3, PRIMES[17]) && CubeRootBits(K[18], 4, PRIMES[18])
    ensures CubeRootBits(K[19], 4, PRIMES[19]) && CubeRootBits(K[20], 4, PRIMES[20]) && CubeRootBits(K[21], 4, PRIMES[21])
    ensures CubeRootBits(K[22], 4, PRIMES[22]) && CubeRootBits(K[23], 4, PRIMES[23])
  {
    hide K, PRIMES;
    Row2();
    assert CubeRootBits(0xe49b69c1, 3, 59) && CubeRootBits(0xefbe4786, 3, 61) && CubeRootBits(0x0fc19dc6, 4, 67);
    assert CubeRootBits(0x240ca1cc, 4, 71) && CubeRootBits(0x2de92c6f, 4, 73) && CubeRootBits(0x4a7484aa, 4, 79);
    assert CubeRootBits(0x5cb0a9dc, 4, 83) && CubeRootBits(0x76f988da, 4, 89);
    hide CubeRootBits;
  }

  lemma Row3()
    ensures K[24] == 0x983e5152 && K[25] == 0xa831c66d && K[26] == 0xb00327c8 && K[27] == 0xbf597fc7
    ensures PRIMES[24] == 97 && PRIMES[25] == 101 && PRIMES[26] == 103 && PRIMES[27] == 107
    ensures K[28] == 0xc6e00bf3 && K[29] == 0xd5a79147 && K[30] == 0x06ca6351 && K[31] == 0x14292967
    ensures PRIMES[28] == 109 && PRIMES[29] == 113 && PRIMES[30] == 127 && PRIMES[31] == 131
  {
  }

  lemma CubeRoots3()
    ensures CubeRootBits(K[24], 4, PRIMES[24]) && CubeRootBits(K[25], 4, PRIMES[25]) && CubeRootBits(K[26], 4, PRIMES[26])
    ensures CubeRootBits(K[27], 4, PRIMES[27]) && CubeRootBits(K[28], 4, PRIMES[28]) && CubeRootBits(K[29], 4, PRIMES[29])
    ensures CubeRootBits(K[30], 5, PRIMES[30]) && CubeRootBits(K[31], 5, PRIMES[31])
  {
    hide K, PRIMES;
    Row3();
    assert CubeRootBits(0x983e5152, 4, 97) && CubeRootBits(0xa831c66d, 4, 101) && CubeRootBits(0xb00327c8, 4, 103);
    assert CubeRootBits(0xbf597fc7, 4, 107) && CubeRootBits(0xc6e00bf3, 4, 109) && CubeRootBits(0xd5a79147, 4, 113);
    assert CubeRootBits(0x06ca6351, 5, 127) && CubeRootBits(0x14292967, 5, 131);
    hide CubeRootBits;
  }

  lemma Row4()
    ensures K[32] == 0x27b70a85 && K[33] == 0x2e1b2138 && K[34] == 0x4d2c6dfc && K[35] == 0x53380d13
    ensures PRIMES[32] == 137 && PRIMES[33] == 139 && PRIMES[34] == 149 && PRIMES[35] == 151
    ensures K[36] == 0x650a7354 && K[37] == 0x766a0abb && K[38] == 0x81c2c92e && K[39] == 0x92722c85
    ensures PRIMES[36] == 157 && PRIMES[37] == 163 && PRIMES[38] == 167 && PRIMES[39] == 173
  {
  }

  lemma CubeRoots4()
    ensures CubeRootBits(K[32], 5, PRIMES[32]) && CubeRootBits(K[33], 5, PRIMES[33]) && CubeRootBits(K[34], 5, PRIMES[34])
    ensures CubeRootBits(K[35], 5, PRIMES[35]) && CubeRootBits(K[36], 5, PRIMES[36]) && CubeRootBits(K[37], 5, PRIMES[37])
    ensures CubeRootBits(K[38], 5, PRIMES[38]) && CubeRootBits(K[39], 5, PRIMES[39])
  {
    hide K, PRIMES;
    Row4();
    assert CubeRootBits(0x27b70a85, 5, 137) && CubeRootBits(0x2e1b2138, 5, 139) && CubeRootBits(0x4d2c6dfc, 5, 149);
    assert CubeRootBits(0x53380d13, 5, 151) && CubeRootBits(0x650a7354, 5, 157) && CubeRootBits(0x766a0abb, 5, 163);
    assert CubeRootBits(0x81c2c92e, 5, 167) && CubeRootBits(0x92722c85, 5, 173);
    hide CubeRootBits;
  }

  lemma Row5()
    ensures K[40] == 0xa2bfe8a1 && K[41] == 0xa81a664b && K[42] == 0xc24b8b70 && K[43] == 0xc76c51a3
    ensures PRIMES[40] == 179 && PRIMES[41] == 181 && PRIMES[42] == 191 && PRIMES[43] == 193
    ensures K[44] == 0xd192e819 && K[45] == 0xd6990624 && K[46] == 0xf40e3585 && K[47] == 0x106aa070
    ensures PRIMES[44] == 197 && PRIMES[45] == 199 && PRIMES[46] == 211 && PRIMES[47] == 223
  {
  }

  lemma CubeRoots5()
    ensures CubeRootBits(K[40], 5, PRIMES[40]) && CubeRootBits(K[41], 5, PRIMES[41]) && CubeRootBits(K[42], 5, PRIMES[42])
    ensures CubeRootBits(K[43], 5, PRIMES[43]) && CubeRootBits(K[44], 5, PRIMES[44]) && CubeRootBits(K[45], 5, PRIMES[45])
    ensures CubeRootBits(K[46], 5, PRIMES[46]) && CubeRootBits(K[47], 6, PRIMES[47])
  {
    hide K, PRIMES;
    Row5();
    assert CubeRootBits(0xa2bfe8a1, 5, 179) && CubeRootBits(0xa81a664b, 5, 181) && CubeRootBits(0xc24b8b70, 5, 191);
    assert CubeRootBits(0xc76c51a3, 5, 193) && CubeRootBits(0xd192e819, 5, 197) && CubeRootBits(0xd6990624, 5, 199);
    assert CubeRootBits(0xf40e3585, 5, 211) && CubeRootBits(0x106aa070, 6, 223);
    hide CubeRootBits;
  }

  lemma Row6()
    ensures K[48] == 0x19a4c116 && K[49] == 0x1e376c08 && K[50] == 0x2748774c && K[51] == 0x34b0bcb5
    ensures PRIMES[48] == 227 && PRIMES[49] == 229 && PRIMES[50] == 233 && PRIMES[51] == 239
    ensures K[52] == 0x391c0cb3 && K[53] == 0x4ed8aa4a && K[54] == 0x5b9cca4f && K[55] == 0x682e6ff3
    ensures PRIMES[52] == 241 && PRIMES[53] == 251 && PRIMES[54] == 257 && PRIMES[55] == 263
  {
  }

  lemma CubeRoots6()
    ensures CubeRootBits(K[48], 6, PRIMES[48]) && CubeRootBits(K[49], 6, PRIMES[49]) && CubeRootBits(K[50], 6, PRIMES[50])
    ensures CubeRootBits(K[51], 6, PRIMES[51]) && CubeRootBits(K[52], 6, PRIMES[52]) && CubeRootBits(K[53], 6, PRIMES[53])
    ensures CubeRootBits(K[54], 6, PRIMES[54]) && CubeRootBits(K[55], 6, PRIMES[55])
  {
    hide K, PRIMES;
    Row6();
    assert CubeRootBits(0x19a4c116, 6, 227) && CubeRootBits(0x1e376c08, 6, 229) && CubeRootBits(0x2748774c, 6, 233);
    assert CubeRootBits(0x34b0bcb5, 6, 239) && CubeRootBits(0x391c0cb3, 6, 241) && CubeRootBits(0x4ed8aa4a, 6, 251);
    assert CubeRootBits(0x5b9cca4f, 6, 257) && CubeRootBits(0x682e6ff3, 6, 263);
    hide CubeRootBits;
  }

  lemma Row7()
    ensures K[56] == 0x748f82ee && K[57] == 0x78a5636f && K[58] == 0x84c87814 && K[59] == 0x8cc70208
    ensures PRIMES[56] == 269 && PRIMES[57] == 271 && PRIMES[58] == 277 && PRIMES[59] == 281
    ensures K[60] == 0x90befffa && K[61] == 0xa4506ceb && K[62] == 0xbef9a3f7 && K[63] == 0xc67178f2
    ensures PRIMES[60] == 283 && PRIMES[61] == 293 && PRIMES[62] == 307 && PRIMES[63] == 311
  {
  }

  lemma CubeRoots7()
    ensures CubeRootBits(K[56], 6, PRIMES[56]) && CubeRootBits(K[57], 6, PRIMES[57]) && CubeRootBits(K[58], 6, PRIMES[58])
    ensures CubeRootBits(K[59], 6, PRIMES[59]) && CubeRootBits(K[60], 6, PRIMES[60]) && CubeRootBits(K[61], 6, PRIMES[61])
    ensures CubeRootBits(K[62], 6, PRIMES[62]) && CubeRootBits(K[63], 6, PRIMES[63])
  {
    hide K, PRIMES;
    Row7();
    assert CubeRootBits(0x748f82ee, 6, 269) && CubeRootBits(0x78a5636f, 6, 271) && CubeRootBits(0x84c87814, 6, 277);
    assert CubeRootBits(0x8cc70208, 6, 281) && CubeRootBits(0x90befffa, 6, 283) && CubeRootBits(0xa4506ceb, 6, 293);
    assert CubeRootBits(0xbef9a3f7, 6, 307) && CubeRootBits(0xc67178f2, 6, 311);
    hide CubeRootBits;
  }
}
