// The constants of FIPS 180-4 are what sections 4.2.2 and 5.3.3 say they are: the first 32 bits of the
// fractional parts of the cube roots, and of the square roots, of the first primes.
module Sha256Constants {
  import opened Sha256Spec

  const PRIMES: seq<seq<nat>> := [
    [2, 3, 5, 7, 11, 13, 17, 19],
    [23, 29, 31, 37, 41, 43, 47, 53],
    [59, 61, 67, 71, 73, 79, 83, 89],
    [97, 101, 103, 107, 109, 113, 127, 131],
    [137, 139, 149, 151, 157, 163, 167, 173],
    [179, 181, 191, 193, 197, 199, 211, 223],
    [227, 229, 233, 239, 241, 251, 257, 263],
    [269, 271, 277, 281, 283, 293, 307, 311]]

  function Prime(i: nat): nat
    requires i < 64
  {
    PRIMES[i / 8][i % 8]
  }

  // The whole parts of the two roots, for the primes in question.
  function WholeCube(p: nat): nat
  {
    if p < 8 then 1 else if p < 27 then 2 else if p < 64 then 3 else if p < 125 then 4 else if p < 216 then 5 else 6
  }

  function WholeSquare(p: nat): nat { if p < 4 then 1 else if p < 9 then 2 else if p < 16 then 3 else 4 }

  // whole and the 32 binary places k are the cube root of p, cut off.
  predicate CubeRoot(p: nat, whole: nat, k: nat)
  {
    var x := whole * 0x1_0000_0000 + k;
    x * x * x <= p * 0x1_0000_0000_0000_0000_0000_0000 < (x + 1) * (x + 1) * (x + 1)
  }

  predicate SquareRoot(p: nat, whole: nat, k: nat)
  {
    var x := whole * 0x1_0000_0000 + k;
    x * x <= p * 0x1_0000_0000_0000_0000 < (x + 1) * (x + 1)
  }

  predicate CubeRootBits(p: nat, w: Word) { CubeRoot(p, WholeCube(p), w as nat) }

  predicate SquareRootBits(p: nat, w: Word) { SquareRoot(p, WholeSquare(p), w as nat) }

  // Not divisible by another prime up to 17; below 19 * 19 that is being prime.
  predicate TrialDivided(p: nat)
  {
    && 2 <= p < 361
    && (p == 2 || p % 2 != 0) && (p == 3 || p % 3 != 0) && (p == 5 || p % 5 != 0) && (p == 7 || p % 7 != 0)
    && (p == 11 || p % 11 != 0) && (p == 13 || p % 13 != 0) && (p == 17 || p % 17 != 0)
  }

  lemma Row0Powers()
    ensures CubeRoot(2, 1, 0x428A2F98)
    ensures CubeRoot(3, 1, 0x71374491)
    ensures CubeRoot(5, 1, 0xB5C0FBCF)
    ensures CubeRoot(7, 1, 0xE9B5DBA5)
    ensures CubeRoot(11, 2, 0x3956C25B)
    ensures CubeRoot(13, 2, 0x59F111F1)
    ensures CubeRoot(17, 2, 0x923F82A4)
    ensures CubeRoot(19, 2, 0xAB1C5ED5)
  {
  }

  lemma Row0(j: nat)
    requires j < 8
    ensures CubeRootBits(PRIMES[0][j], K[0][j])
  {
    hide CubeRoot;
    Row0Powers();
    var w := K[0][j];
    match j
    case 0 => assert w as nat == 0x428A2F98 && PRIMES[0][0] == 2;
    case 1 => assert w as nat == 0x71374491 && PRIMES[0][1] == 3;
    case 2 => assert w as nat == 0xB5C0FBCF && PRIMES[0][2] == 5;
    case 3 => assert w as nat == 0xE9B5DBA5 && PRIMES[0][3] == 7;
    case 4 => assert w as nat == 0x3956C25B && PRIMES[0][4] == 11;
    case 5 => assert w as nat == 0x59F111F1 && PRIMES[0][5] == 13;
    case 6 => assert w as nat == 0x923F82A4 && PRIMES[0][6] == 17;
    case _ => assert w as nat == 0xAB1C5ED5 && PRIMES[0][7] == 19;
  }

  lemma Row1Powers()
    ensures CubeRoot(23, 2, 0xD807AA98)
    ensures CubeRoot(29, 3, 0x12835B01)
    ensures CubeRoot(31, 3, 0x243185BE)
    ensures CubeRoot(37, 3, 0x550C7DC3)
    ensures CubeRoot(41, 3, 0x72BE5D74)
    ensures CubeRoot(43, 3, 0x80DEB1FE)
    ensures CubeRoot(47, 3, 0x9BDC06A7)
    ensures CubeRoot(53, 3, 0xC19BF174)
  {
  }

  lemma Row1(j: nat)
    requires j < 8
    ensures CubeRootBits(PRIMES[1][j], K[1][j])
  {
    hide CubeRoot;
    Row1Powers();
    var w := K[1][j];
    match j
    case 0 => assert w as nat == 0xD807AA98 && PRIMES[1][0] == 23;
    case 1 => assert w as nat == 0x12835B01 && PRIMES[1][1] == 29;
    case 2 => assert w as nat == 0x243185BE && PRIMES[1][2] == 31;
    case 3 => assert w as nat == 0x550C7DC3 && PRIMES[1][3] == 37;
    case 4 => assert w as nat == 0x72BE5D74 && PRIMES[1][4] == 41;
    case 5 => assert w as nat == 0x80DEB1FE && PRIMES[1][5] == 43;
    case 6 => assert w as nat == 0x9BDC06A7 && PRIMES[1][6] == 47;
    case _ => assert w as nat == 0xC19BF174 && PRIMES[1][7] == 53;
  }

  lemma Row2Powers()
    ensures CubeRoot(59, 3, 0xE49B69C1)
    ensures CubeRoot(61, 3, 0xEFBE4786)
    ensures CubeRoot(67, 4, 0x0FC19DC6)
    ensures CubeRoot(71, 4, 0x240CA1CC)
    ensures CubeRoot(73, 4, 0x2DE92C6F)
    ensures CubeRoot(79, 4, 0x4A7484AA)
    ensures CubeRoot(83, 4, 0x5CB0A9DC)
    ensures CubeRoot(89, 4, 0x76F988DA)
  {
  }

  lemma Row2(j: nat)
    requires j < 8
    ensures CubeRootBits(PRIMES[2][j], K[2][j])
  {
    hide CubeRoot;
    Row2Powers();
    var w := K[2][j];
    match j
    case 0 => assert w as nat == 0xE49B69C1 && PRIMES[2][0] == 59;
    case 1 => assert w as nat == 0xEFBE4786 && PRIMES[2][1] == 61;
    case 2 => assert w as nat == 0x0FC19DC6 && PRIMES[2][2] == 67;
    case 3 => assert w as nat == 0x240CA1CC && PRIMES[2][3] == 71;
    case 4 => assert w as nat == 0x2DE92C6F && PRIMES[2][4] == 73;
    case 5 => assert w as nat == 0x4A7484AA && PRIMES[2][5] == 79;
    case 6 => assert w as nat == 0x5CB0A9DC && PRIMES[2][6] == 83;
    case _ => assert w as nat == 0x76F988DA && PRIMES[2][7] == 89;
  }

  lemma Row3Powers()
    ensures CubeRoot(97, 4, 0x983E5152)
    ensures CubeRoot(101, 4, 0xA831C66D)
    ensures CubeRoot(103, 4, 0xB00327C8)
    ensures CubeRoot(107, 4, 0xBF597FC7)
    ensures CubeRoot(109, 4, 0xC6E00BF3)
    ensures CubeRoot(113, 4, 0xD5A79147)
    ensures CubeRoot(127, 5, 0x06CA6351)
    ensures CubeRoot(131, 5, 0x14292967)
  {
  }

  lemma Row3(j: nat)
    requires j < 8
    ensures CubeRootBits(PRIMES[3][j], K[3][j])
  {
    hide CubeRoot;
    Row3Powers();
    var w := K[3][j];
    match j
    case 0 => assert w as nat == 0x983E5152 && PRIMES[3][0] == 97;
    case 1 => assert w as nat == 0xA831C66D && PRIMES[3][1] == 101;
    case 2 => assert w as nat == 0xB00327C8 && PRIMES[3][2] == 103;
    case 3 => assert w as nat == 0xBF597FC7 && PRIMES[3][3] == 107;
    case 4 => assert w as nat == 0xC6E00BF3 && PRIMES[3][4] == 109;
    case 5 => assert w as nat == 0xD5A79147 && PRIMES[3][5] == 113;
    case 6 => assert w as nat == 0x06CA6351 && PRIMES[3][6] == 127;
    case _ => assert w as nat == 0x14292967 && PRIMES[3][7] == 131;
  }

  lemma Row4Powers()
    ensures CubeRoot(137, 5, 0x27B70A85)
    ensures CubeRoot(139, 5, 0x2E1B2138)
    ensures CubeRoot(149, 5, 0x4D2C6DFC)
    ensures CubeRoot(151, 5, 0x53380D13)
    ensures CubeRoot(157, 5, 0x650A7354)
    ensures CubeRoot(163, 5, 0x766A0ABB)
    ensures CubeRoot(167, 5, 0x81C2C92E)
    ensures CubeRoot(173, 5, 0x92722C85)
  {
  }

  lemma Row4(j: nat)
    requires j < 8
    ensures CubeRootBits(PRIMES[4][j], K[4][j])
  {
    hide CubeRoot;
    Row4Powers();
    var w := K[4][j];
    match j
    case 0 => assert w as nat == 0x27B70A85 && PRIMES[4][0] == 137;
    case 1 => assert w as nat == 0x2E1B2138 && PRIMES[4][1] == 139;
    case 2 => assert w as nat == 0x4D2C6DFC && PRIMES[4][2] == 149;
    case 3 => assert w as nat == 0x53380D13 && PRIMES[4][3] == 151;
    case 4 => assert w as nat == 0x650A7354 && PRIMES[4][4] == 157;
    case 5 => assert w as nat == 0x766A0ABB && PRIMES[4][5] == 163;
    case 6 => assert w as nat == 0x81C2C92E && PRIMES[4][6] == 167;
    case _ => assert w as nat == 0x92722C85 && PRIMES[4][7] == 173;
  }

  lemma Row5Powers()
    ensures CubeRoot(179, 5, 0xA2BFE8A1)
    ensures CubeRoot(181, 5, 0xA81A664B)
    ensures CubeRoot(191, 5, 0xC24B8B70)
    ensures CubeRoot(193, 5, 0xC76C51A3)
    ensures CubeRoot(197, 5, 0xD192E819)
    ensures CubeRoot(199, 5, 0xD6990624)
    ensures CubeRoot(211, 5, 0xF40E3585)
    ensures CubeRoot(223, 6, 0x106AA070)
  {
  }

  lemma Row5(j: nat)
    requires j < 8
    ensures CubeRootBits(PRIMES[5][j], K[5][j])
  {
    hide CubeRoot;
    Row5Powers();
    var w := K[5][j];
    match j
    case 0 => assert w as nat == 0xA2BFE8A1 && PRIMES[5][0] == 179;
    case 1 => assert w as nat == 0xA81A664B && PRIMES[5][1] == 181;
    case 2 => assert w as nat == 0xC24B8B70 && PRIMES[5][2] == 191;
    case 3 => assert w as nat == 0xC76C51A3 && PRIMES[5][3] == 193;
    case 4 => assert w as nat == 0xD192E819 && PRIMES[5][4] == 197;
    case 5 => assert w as nat == 0xD6990624 && PRIMES[5][5] == 199;
    case 6 => assert w as nat == 0xF40E3585 && PRIMES[5][6] == 211;
    case _ => assert w as nat == 0x106AA070 && PRIMES[5][7] == 223;
  }

  lemma Row6Powers()
    ensures CubeRoot(227, 6, 0x19A4C116)
    ensures CubeRoot(229, 6, 0x1E376C08)
    ensures CubeRoot(233, 6, 0x2748774C)
    ensures CubeRoot(239, 6, 0x34B0BCB5)
    ensures CubeRoot(241, 6, 0x391C0CB3)
    ensures CubeRoot(251, 6, 0x4ED8AA4A)
    ensures CubeRoot(257, 6, 0x5B9CCA4F)
    ensures CubeRoot(263, 6, 0x682E6FF3)
  {
  }

  lemma Row6(j: nat)
    requires j < 8
    ensures CubeRootBits(PRIMES[6][j], K[6][j])
  {
    hide CubeRoot;
    Row6Powers();
    var w := K[6][j];
    match j
    case 0 => assert w as nat == 0x19A4C116 && PRIMES[6][0] == 227;
    case 1 => assert w as nat == 0x1E376C08 && PRIMES[6][1] == 229;
    case 2 => assert w as nat == 0x2748774C && PRIMES[6][2] == 233;
    case 3 => assert w as nat == 0x34B0BCB5 && PRIMES[6][3] == 239;
    case 4 => assert w as nat == 0x391C0CB3 && PRIMES[6][4] == 241;
    case 5 => assert w as nat == 0x4ED8AA4A && PRIMES[6][5] == 251;
    case 6 => assert w as nat == 0x5B9CCA4F && PRIMES[6][6] == 257;
    case _ => assert w as nat == 0x682E6FF3 && PRIMES[6][7] == 263;
  }

  lemma Row7Powers()
    ensures CubeRoot(269, 6, 0x748F82EE)
    ensures CubeRoot(271, 6, 0x78A5636F)
    ensures CubeRoot(277, 6, 0x84C87814)
    ensures CubeRoot(281, 6, 0x8CC70208)
    ensures CubeRoot(283, 6, 0x90BEFFFA)
    ensures CubeRoot(293, 6, 0xA4506CEB)
    ensures CubeRoot(307, 6, 0xBEF9A3F7)
    ensures CubeRoot(311, 6, 0xC67178F2)
  {
  }

  lemma Row7(j: nat)
    requires j < 8
    ensures CubeRootBits(PRIMES[7][j], K[7][j])
  {
    hide CubeRoot;
    Row7Powers();
    var w := K[7][j];
    match j
    case 0 => assert w as nat == 0x748F82EE && PRIMES[7][0] == 269;
    case 1 => assert w as nat == 0x78A5636F && PRIMES[7][1] == 271;
    case 2 => assert w as nat == 0x84C87814 && PRIMES[7][2] == 277;
    case 3 => assert w as nat == 0x8CC70208 && PRIMES[7][3] == 281;
    case 4 => assert w as nat == 0x90BEFFFA && PRIMES[7][4] == 283;
    case 5 => assert w as nat == 0xA4506CEB && PRIMES[7][5] == 293;
    case 6 => assert w as nat == 0xBEF9A3F7 && PRIMES[7][6] == 307;
    case _ => assert w as nat == 0xC67178F2 && PRIMES[7][7] == 311;
  }

  // Each round constant is the fraction of the cube root of its prime.
  lemma RoundConstants(t: nat)
    requires t < 64
    ensures CubeRootBits(Prime(t), RoundConstant(t))
  {
    hide CubeRootBits;
    var j := t % 8;
    match t / 8
    case 0 => Row0(j);
    case 1 => Row1(j);
    case 2 => Row2(j);
    case 3 => Row3(j);
    case 4 => Row4(j);
    case 5 => Row5(j);
    case 6 => Row6(j);
    case _ => Row7(j);
  }

  lemma SquarePowers()
    ensures SquareRoot(2, 1, 0x6A09E667)
    ensures SquareRoot(3, 1, 0xBB67AE85)
    ensures SquareRoot(5, 2, 0x3C6EF372)
    ensures SquareRoot(7, 2, 0xA54FF53A)
    ensures SquareRoot(11, 3, 0x510E527F)
    ensures SquareRoot(13, 3, 0x9B05688C)
    ensures SquareRoot(17, 4, 0x1F83D9AB)
    ensures SquareRoot(19, 4, 0x5BE0CD19)
  {
  }

  // Each word of the initial hash value is the fraction of the square root of its prime.
  lemma InitialValue()
    ensures SquareRootBits(2, H0.a) && SquareRootBits(3, H0.b) && SquareRootBits(5, H0.c) && SquareRootBits(7, H0.d)
    ensures SquareRootBits(11, H0.e) && SquareRootBits(13, H0.f) && SquareRootBits(17, H0.g) && SquareRootBits(19, H0.h)
  {
    hide SquareRoot;
    SquarePowers();
  }

  // The list holds primes, each larger than the one before.
  lemma ArePrimes(i: nat)
    requires i < 64
    ensures TrialDivided(Prime(i)) && (i > 0 ==> Prime(i - 1) < Prime(i))
  {
    hide TrialDivided;
    RowPrimes(i / 8, i % 8);
    RowAscends(i / 8, i % 8);
    if i > 0 {
      if i % 8 > 0 {
        assert (i - 1) / 8 == i / 8 && (i - 1) % 8 == i % 8 - 1;
      } else {
        assert (i - 1) / 8 == i / 8 - 1 && (i - 1) % 8 == 7;
      }
    }
  }

  lemma RowPrimes(r: nat, j: nat)
    requires r < 8 && j < 8
    ensures TrialDivided(PRIMES[r][j])
  {
    hide TrialDivided;
    if r < 4 { EarlyPrimes(r, j); } else { LatePrimes(r, j); }
  }

  lemma EarlyPrimes(r: nat, j: nat)
    requires r < 4 && j < 8
    ensures TrialDivided(PRIMES[r][j])
  {
  }

  lemma LatePrimes(r: nat, j: nat)
    requires 4 <= r < 8 && j < 8
    ensures TrialDivided(PRIMES[r][j])
  {
  }

  lemma RowAscends(r: nat, j: nat)
    requires r < 8 && j < 8
    ensures j > 0 ==> PRIMES[r][j - 1] < PRIMES[r][j]
    ensures r > 0 ==> PRIMES[r - 1][7] < PRIMES[r][0]
  {
  }
}
