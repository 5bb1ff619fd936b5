/**
 * The constants of SHA-256 are the ones FIPS 180-4 describes in sections 4.2.2 and 5.3.3:
 * the first 32 bits of the fractional parts of the cube roots of the first 64 primes, and
 * of the square roots of the first eight.
 */
module Sha256Constants {
  import opened Bytes
  import opened Sha256Spec

  // ---------------------------------------------------------------------------
  // The first 64 primes
  // ---------------------------------------------------------------------------

  const P_ROW0: seq<nat> := [2, 3, 5, 7, 11, 13, 17, 19]
  const P_ROW1: seq<nat> := [23, 29, 31, 37, 41, 43, 47, 53]
  const P_ROW2: seq<nat> := [59, 61, 67, 71, 73, 79, 83, 89]
  const P_ROW3: seq<nat> := [97, 101, 103, 107, 109, 113, 127, 131]
  const P_ROW4: seq<nat> := [137, 139, 149, 151, 157, 163, 167, 173]
  const P_ROW5: seq<nat> := [179, 181, 191, 193, 197, 199, 211, 223]
  const P_ROW6: seq<nat> := [227, 229, 233, 239, 241, 251, 257, 263]
  const P_ROW7: seq<nat> := [269, 271, 277, 281, 283, 293, 307, 311]

  const PRIMES: seq<nat> := P_ROW0 + P_ROW1 + P_ROW2 + P_ROW3 + P_ROW4 + P_ROW5 + P_ROW6 + P_ROW7

  predicate IsPrime(n: nat) { 2 <= n && forall d :: 2 <= d < n ==> n % d != 0 }

  /** No prime up to 17 divides `n`, unless it is `n`. */
  predicate PassesSieve(n: nat) {
    && 2 <= n
    && (n % 2 != 0 || n == 2) && (n % 3 != 0 || n == 3) && (n % 5 != 0 || n == 5) && (n % 7 != 0 || n == 7)
    && (n % 11 != 0 || n == 11) && (n % 13 != 0 || n == 13) && (n % 17 != 0 || n == 17)
  }

  /** The least prime factor of a number from 2 to 18. */
  function LeastFactor(m: nat): nat { if m % 2 == 0 then 2 else if m % 3 == 0 then 3 else if m % 5 == 0 then 5 else m }

  /** The primes of the sieve. */
  predicate Sieves(p: nat) { p == 2 || p == 3 || p == 5 || p == 7 || p == 11 || p == 13 || p == 17 }

  lemma MultiplesFail(p: nat, n: nat)
    requires Sieves(p) && n > p && n % p == 0
    ensures !PassesSieve(n)
  {}

  lemma Multiple(p: nat, c: nat, e: nat)
    requires Sieves(p) && c >= 1 && e >= 2
    ensures p * c * e > p && (p * c * e) % p == 0
  {
    var x := c * e;
    assert x >= 2 by { assert c * e >= 1 * e; }
    assert p * c * e == x * p;
    assert x * p >= 2 * p;
    Remainder(x, p);
  }

  lemma Remainder(x: nat, p: nat)
    requires Sieves(p)
    ensures (x * p) % p == 0
  {
    if p == 2 { assert (x * 2) % 2 == 0; }
    else if p == 3 { assert (x * 3) % 3 == 0; }
    else if p == 5 { assert (x * 5) % 5 == 0; }
    else if p == 7 { assert (x * 7) % 7 == 0; }
    else if p == 11 { assert (x * 11) % 11 == 0; }
    else if p == 13 { assert (x * 13) % 13 == 0; }
    else { assert (x * 17) % 17 == 0; }
  }

  /** A product with a factor from 2 to 18 is sieved out. */
  lemma SmallFactorFails(m: nat, e: nat)
    requires 2 <= m <= 18 && 2 <= e
    ensures !PassesSieve(m * e)
  {
    hide PassesSieve;
    var p, c := LeastFactor(m), m / LeastFactor(m);
    assert Sieves(p) && m == p * c && c >= 1;
    Multiple(p, c, e);
    MultiplesFail(p, m * e);
  }

  /** Below 19 squared, the sieve finds exactly the primes. */
  lemma SieveIsExact(n: nat)
    requires n < 361
    ensures PassesSieve(n) <==> IsPrime(n)
  {
    if PassesSieve(n) {
      forall d | 2 <= d < n ensures n % d != 0 {
        if n % d == 0 { NoDivisor(n, d); }
      }
    }
  }

  lemma AtLeastTwo(d: nat, e: nat)
    requires d < d * e
    ensures e >= 2
  {}

  lemma OneIsSmall(d: nat, e: nat)
    requires d * e < 361
    ensures d <= 18 || e <= 18
  {}

  lemma NoDivisor(n: nat, d: nat)
    requires n < 361 && 2 <= d < n && n % d == 0
    ensures !PassesSieve(n)
  {
    var e := n / d;
    assert n == d * e;
    AtLeastTwo(d, e);
    if d <= 18 {
      SmallFactorFails(d, e);
    } else {
      OneIsSmall(d, e);
      SmallFactorFails(e, d);
    }
  }

  lemma EvenFails(n: nat)
    ensures PassesSieve(n) ==> n == 2 || n % 2 == 1
  {}

  lemma OddNumbers0()
    ensures PassesSieve(2) && PassesSieve(3) && PassesSieve(5) && PassesSieve(7) && PassesSieve(11) && PassesSieve(13)
    ensures PassesSieve(17) && PassesSieve(19)
    ensures !PassesSieve(1) && !PassesSieve(9) && !PassesSieve(15)
  {}

  lemma SievedIn0(n: nat)
    ensures n in P_ROW0 <==> 0 < n <= 19 && PassesSieve(n)
  {
    hide PassesSieve;
    OddNumbers0();
    EvenFails(n);
  }

  lemma OddNumbers1()
    ensures PassesSieve(23) && PassesSieve(29) && PassesSieve(31) && PassesSieve(37) && PassesSieve(41) && PassesSieve(43)
    ensures PassesSieve(47) && PassesSieve(53)
    ensures !PassesSieve(21) && !PassesSieve(25) && !PassesSieve(27) && !PassesSieve(33) && !PassesSieve(35) && !PassesSieve(39)
    ensures !PassesSieve(45) && !PassesSieve(49) && !PassesSieve(51)
  {}

  lemma SievedIn1(n: nat)
    ensures n in P_ROW1 <==> 19 < n <= 53 && PassesSieve(n)
  {
    hide PassesSieve;
    OddNumbers1();
    EvenFails(n);
  }

  lemma OddNumbers2()
    ensures PassesSieve(59) && PassesSieve(61) && PassesSieve(67) && PassesSieve(71) && PassesSieve(73) && PassesSieve(79)
    ensures PassesSieve(83) && PassesSieve(89)
    ensures !PassesSieve(55) && !PassesSieve(57) && !PassesSieve(63) && !PassesSieve(65) && !PassesSieve(69) && !PassesSieve(75)
    ensures !PassesSieve(77) && !PassesSieve(81) && !PassesSieve(85) && !PassesSieve(87)
  {}

  lemma SievedIn2(n: nat)
    ensures n in P_ROW2 <==> 53 < n <= 89 && PassesSieve(n)
  {
    hide PassesSieve;
    OddNumbers2();
    EvenFails(n);
  }

  lemma OddNumbers3()
    ensures PassesSieve(97) && PassesSieve(101) && PassesSieve(103) && PassesSieve(107) && PassesSieve(109) && PassesSieve(113)
    ensures PassesSieve(127) && PassesSieve(131)
    ensures !PassesSieve(91) && !PassesSieve(93) && !PassesSieve(95) && !PassesSieve(99) && !PassesSieve(105) && !PassesSieve(111)
    ensures !PassesSieve(115) && !PassesSieve(117) && !PassesSieve(119) && !PassesSieve(121) && !PassesSieve(123) && !PassesSieve(125)
    ensures !PassesSieve(129)
  {}

  lemma SievedIn3(n: nat)
    ensures n in P_ROW3 <==> 89 < n <= 131 && PassesSieve(n)
  {
    hide PassesSieve;
    OddNumbers3();
    EvenFails(n);
  }

  lemma OddNumbers4()
    ensures PassesSieve(137) && PassesSieve(139) && PassesSieve(149) && PassesSieve(151) && PassesSieve(157) && PassesSieve(163)
    ensures PassesSieve(167) && PassesSieve(173)
    ensures !PassesSieve(133) && !PassesSieve(135) && !PassesSieve(141) && !PassesSieve(143) && !PassesSieve(145) && !PassesSieve(147)
    ensures !PassesSieve(153) && !PassesSieve(155) && !PassesSieve(159) && !PassesSieve(161) && !PassesSieve(165) && !PassesSieve(169)
    ensures !PassesSieve(171)
  {}

  lemma SievedIn4(n: nat)
    ensures n in P_ROW4 <==> 131 < n <= 173 && PassesSieve(n)
  {
    hide PassesSieve;
    OddNumbers4();
    EvenFails(n);
  }

  lemma OddNumbers5()
    ensures PassesSieve(179) && PassesSieve(181) && PassesSieve(191) && PassesSieve(193) && PassesSieve(197) && PassesSieve(199)
    ensures PassesSieve(211) && PassesSieve(223)
    ensures !PassesSieve(175) && !PassesSieve(177) && !PassesSieve(183) && !PassesSieve(185) && !PassesSieve(187) && !PassesSieve(189)
    ensures !PassesSieve(195) && !PassesSieve(201) && !PassesSieve(203) && !PassesSieve(205) && !PassesSieve(207) && !PassesSieve(209)
    ensures !PassesSieve(213) && !PassesSieve(215) && !PassesSieve(217) && !PassesSieve(219) && !PassesSieve(221)
  {}

  lemma SievedIn5(n: nat)
    ensures n in P_ROW5 <==> 173 < n <= 223 && PassesSieve(n)
  {
    hide PassesSieve;
    OddNumbers5();
    EvenFails(n);
  }

  lemma OddNumbers6()
    ensures PassesSieve(227) && PassesSieve(229) && PassesSieve(233) && PassesSieve(239) && PassesSieve(241) && PassesSieve(251)
    ensures PassesSieve(257) && PassesSieve(263)
    ensures !PassesSieve(225) && !PassesSieve(231) && !PassesSieve(235) && !PassesSieve(237) && !PassesSieve(243) && !PassesSieve(245)
    ensures !PassesSieve(247) && !PassesSieve(249) && !PassesSieve(253) && !PassesSieve(255) && !PassesSieve(259) && !PassesSieve(261)
  {}

  lemma SievedIn6(n: nat)
    ensures n in P_ROW6 <==> 223 < n <= 263 && PassesSieve(n)
  {
    hide PassesSieve;
    OddNumbers6();
    EvenFails(n);
  }

  lemma OddNumbers7()
    ensures PassesSieve(269) && PassesSieve(271) && PassesSieve(277) && PassesSieve(281) && PassesSieve(283) && PassesSieve(293)
    ensures PassesSieve(307) && PassesSieve(311)
    ensures !PassesSieve(265) && !PassesSieve(267) && !PassesSieve(273) && !PassesSieve(275) && !PassesSieve(279) && !PassesSieve(285)
    ensures !PassesSieve(287) && !PassesSieve(289) && !PassesSieve(291) && !PassesSieve(295) && !PassesSieve(297) && !PassesSieve(299)
    ensures !PassesSieve(301) && !PassesSieve(303) && !PassesSieve(305) && !PassesSieve(309)
  {}

  lemma SievedIn7(n: nat)
    ensures n in P_ROW7 <==> 263 < n <= 311 && PassesSieve(n)
  {
    hide PassesSieve;
    OddNumbers7();
    EvenFails(n);
  }

  lemma InEightRows(n: nat, a: seq<nat>, b: seq<nat>, c: seq<nat>, d: seq<nat>, e: seq<nat>, f: seq<nat>, g: seq<nat>, h: seq<nat>)
    ensures n in a + b + c + d + e + f + g + h <==>
            n in a || n in b || n in c || n in d || n in e || n in f || n in g || n in h
  {}

  lemma PrimesAreSieved(n: nat)
    ensures n in PRIMES <==> n <= 311 && PassesSieve(n)
  {
    assert !PassesSieve(0);
    hide PassesSieve;
    InEightRows(n, P_ROW0, P_ROW1, P_ROW2, P_ROW3, P_ROW4, P_ROW5, P_ROW6, P_ROW7);
    SievedIn0(n); SievedIn1(n); SievedIn2(n); SievedIn3(n);
    SievedIn4(n); SievedIn5(n); SievedIn6(n); SievedIn7(n);
  }

  ghost predicate Ascends(s: seq<nat>) { forall i, j :: 0 <= i < j < |s| ==> s[i] < s[j] }

  /** The rows `a` and `b` ascend and the second starts where the first has ended. */
  lemma AscendJoin(a: seq<nat>, b: seq<nat>)
    requires a != [] && b != [] && Ascends(a) && Ascends(b) && a[|a| - 1] < b[0]
    ensures Ascends(a + b) && (a + b)[0] == a[0] && (a + b)[|a + b| - 1] == b[|b| - 1]
  {
    forall i, j | 0 <= i < j < |a + b| ensures (a + b)[i] < (a + b)[j] {
      if i < |a| <= j { assert a[i] <= a[|a| - 1] < b[0] <= b[j - |a|]; }
    }
  }

  lemma RowsAscend()
    ensures Ascends(P_ROW0) && Ascends(P_ROW1) && Ascends(P_ROW2) && Ascends(P_ROW3)
    ensures Ascends(P_ROW4) && Ascends(P_ROW5) && Ascends(P_ROW6) && Ascends(P_ROW7)
  {}

  lemma PrimesAscend()
    ensures |PRIMES| == 64 && Ascends(PRIMES)
  {
    hide Ascends;
    RowsAscend();
    AscendJoin(P_ROW0, P_ROW1);
    AscendJoin(P_ROW0 + P_ROW1, P_ROW2);
    AscendJoin(P_ROW0 + P_ROW1 + P_ROW2, P_ROW3);
    var p := P_ROW0 + P_ROW1 + P_ROW2 + P_ROW3;
    AscendJoin(p, P_ROW4);
    AscendJoin(p + P_ROW4, P_ROW5);
    AscendJoin(p + P_ROW4 + P_ROW5, P_ROW6);
    AscendJoin(p + P_ROW4 + P_ROW5 + P_ROW6, P_ROW7);
  }

  /** The table holds the first 64 primes: all the primes up to 311, in order. */
  lemma PrimesAreTheFirst()
    ensures |PRIMES| == 64 && Ascends(PRIMES)
    ensures forall n: nat :: n in PRIMES <==> n <= 311 && IsPrime(n)
  {
    hide PassesSieve, IsPrime, Ascends;
    PrimesAscend();
    forall n: nat ensures n in PRIMES <==> n <= 311 && IsPrime(n) {
      PrimesAreSieved(n);
      if n <= 311 { SieveIsExact(n); }
    }
  }

  // ---------------------------------------------------------------------------
  // Roots
  // ---------------------------------------------------------------------------

  /** `i + x / 2^32` is the square root of `p`, cut off after 32 binary places. */
  predicate IsSquareRoot(x: Word, i: nat, p: nat) {
    var q := i * TWO32 + x;
    q * q <= p * TWO32 * TWO32 < (q + 1) * (q + 1)
  }

  /** `i + x / 2^32` is the cube root of `p`, cut off after 32 binary places. */
  predicate IsCubeRoot(x: Word, i: nat, p: nat) {
    var q := i * TWO32 + x;
    q * q * q <= p * TWO32 * TWO32 * TWO32 < (q + 1) * (q + 1) * (q + 1)
  }

  /** `x` holds the first 32 bits of the fractional part of the square root of `p`. */
  predicate SquareRootBits(x: Word, p: nat) { exists i :: 0 <= i < 5 && IsSquareRoot(x, i, p) }

  /** The same for the cube root; those of the table lie below 7. */
  predicate CubeRootBits(x: Word, p: nat) { exists i :: 0 <= i < 7 && IsCubeRoot(x, i, p) }

  ghost predicate RowOfCubeRoots(xs: seq<Word>, ps: seq<nat>) {
    |xs| == |ps| && forall t :: 0 <= t < |xs| ==> CubeRootBits(xs[t], ps[t])
  }

  lemma CubeRootsRow0()
    ensures RowOfCubeRoots(K_ROW0, P_ROW0)
  {
    assert IsCubeRoot(0x428a2f98, 1, 2);
    assert IsCubeRoot(0x71374491, 1, 3);
    assert IsCubeRoot(0xb5c0fbcf, 1, 5);
    assert IsCubeRoot(0xe9b5dba5, 1, 7);
    assert IsCubeRoot(0x3956c25b, 2, 11);
    assert IsCubeRoot(0x59f111f1, 2, 13);
    assert IsCubeRoot(0x923f82a4, 2, 17);
    assert IsCubeRoot(0xab1c5ed5, 2, 19);
  }

  lemma CubeRootsRow1()
    ensures RowOfCubeRoots(K_ROW1, P_ROW1)
  {
    assert IsCubeRoot(0xd807aa98, 2, 23);
    assert IsCubeRoot(0x12835b01, 3, 29);
    assert IsCubeRoot(0x243185be, 3, 31);
    assert IsCubeRoot(0x550c7dc3, 3, 37);
    assert IsCubeRoot(0x72be5d74, 3, 41);
    assert IsCubeRoot(0x80deb1fe, 3, 43);
    assert IsCubeRoot(0x9bdc06a7, 3, 47);
    assert IsCubeRoot(0xc19bf174, 3, 53);
  }

  lemma CubeRootsRow2()
    ensures RowOfCubeRoots(K_ROW2, P_ROW2)
  {
    assert IsCubeRoot(0xe49b69c1, 3, 59);
    assert IsCubeRoot(0xefbe4786, 3, 61);
    assert IsCubeRoot(0x0fc19dc6, 4, 67);
    assert IsCubeRoot(0x240ca1cc, 4, 71);
    assert IsCubeRoot(0x2de92c6f, 4, 73);
    assert IsCubeRoot(0x4a7484aa, 4, 79);
    assert IsCubeRoot(0x5cb0a9dc, 4, 83);
    assert IsCubeRoot(0x76f988da, 4, 89);
  }

  lemma CubeRootsRow3()
    ensures RowOfCubeRoots(K_ROW3, P_ROW3)
  {
    assert IsCubeRoot(0x983e5152, 4, 97);
    assert IsCubeRoot(0xa831c66d, 4, 101);
    assert IsCubeRoot(0xb00327c8, 4, 103);
    assert IsCubeRoot(0xbf597fc7, 4, 107);
    assert IsCubeRoot(0xc6e00bf3, 4, 109);
    assert IsCubeRoot(0xd5a79147, 4, 113);
    assert IsCubeRoot(0x06ca6351, 5, 127);
    assert IsCubeRoot(0x14292967, 5, 131);
  }

  lemma CubeRootsRow4()
    ensures RowOfCubeRoots(K_ROW4, P_ROW4)
  {
    assert IsCubeRoot(0x27b70a85, 5, 137);
    assert IsCubeRoot(0x2e1b2138, 5, 139);
    assert IsCubeRoot(0x4d2c6dfc, 5, 149);
    assert IsCubeRoot(0x53380d13, 5, 151);
    assert IsCubeRoot(0x650a7354, 5, 157);
    assert IsCubeRoot(0x766a0abb, 5, 163);
    assert IsCubeRoot(0x81c2c92e, 5, 167);
    assert IsCubeRoot(0x92722c85, 5, 173);
  }

  lemma CubeRootsRow5()
    ensures RowOfCubeRoots(K_ROW5, P_ROW5)
  {
    assert IsCubeRoot(0xa2bfe8a1, 5, 179);
    assert IsCubeRoot(0xa81a664b, 5, 181);
    assert IsCubeRoot(0xc24b8b70, 5, 191);
    assert IsCubeRoot(0xc76c51a3, 5, 193);
    assert IsCubeRoot(0xd192e819, 5, 197);
    assert IsCubeRoot(0xd6990624, 5, 199);
    assert IsCubeRoot(0xf40e3585, 5, 211);
    assert IsCubeRoot(0x106aa070, 6, 223);
  }

  lemma CubeRootsRow6()
    ensures RowOfCubeRoots(K_ROW6, P_ROW6)
  {
    assert IsCubeRoot(0x19a4c116, 6, 227);
    assert IsCubeRoot(0x1e376c08, 6, 229);
    assert IsCubeRoot(0x2748774c, 6, 233);
    assert IsCubeRoot(0x34b0bcb5, 6, 239);
    assert IsCubeRoot(0x391c0cb3, 6, 241);
    assert IsCubeRoot(0x4ed8aa4a, 6, 251);
    assert IsCubeRoot(0x5b9cca4f, 6, 257);
    assert IsCubeRoot(0x682e6ff3, 6, 263);
  }

  lemma CubeRootsRow7()
    ensures RowOfCubeRoots(K_ROW7, P_ROW7)
  {
    assert IsCubeRoot(0x748f82ee, 6, 269);
    assert IsCubeRoot(0x78a5636f, 6, 271);
    assert IsCubeRoot(0x84c87814, 6, 277);
    assert IsCubeRoot(0x8cc70208, 6, 281);
    assert IsCubeRoot(0x90befffa, 6, 283);
    assert IsCubeRoot(0xa4506ceb, 6, 293);
    assert IsCubeRoot(0xbef9a3f7, 6, 307);
    assert IsCubeRoot(0xc67178f2, 6, 311);
  }

  lemma RowsJoin(xs: seq<Word>, ps: seq<nat>, ys: seq<Word>, qs: seq<nat>)
    requires RowOfCubeRoots(xs, ps) && RowOfCubeRoots(ys, qs)
    ensures RowOfCubeRoots(xs + ys, ps + qs)
  {
    hide CubeRootBits;
  }

  /** Round constant `t` is made of the cube root of the t-th prime, for all 64. */
  lemma RoundConstantsAreCubeRoots()
    ensures RowOfCubeRoots(K, PRIMES)
  {
    hide RowOfCubeRoots;
    CubeRootsRow0(); CubeRootsRow1(); CubeRootsRow2(); CubeRootsRow3();
    CubeRootsRow4(); CubeRootsRow5(); CubeRootsRow6(); CubeRootsRow7();
    RowsJoin(K_ROW0, P_ROW0, K_ROW1, P_ROW1);
    RowsJoin(K_ROW0 + K_ROW1, P_ROW0 + P_ROW1, K_ROW2, P_ROW2);
    RowsJoin(K_ROW0 + K_ROW1 + K_ROW2, P_ROW0 + P_ROW1 + P_ROW2, K_ROW3, P_ROW3);
    var k, p := K_ROW0 + K_ROW1 + K_ROW2 + K_ROW3, P_ROW0 + P_ROW1 + P_ROW2 + P_ROW3;
    RowsJoin(k, p, K_ROW4, P_ROW4);
    RowsJoin(k + K_ROW4, p + P_ROW4, K_ROW5, P_ROW5);
    RowsJoin(k + K_ROW4 + K_ROW5, p + P_ROW4 + P_ROW5, K_ROW6, P_ROW6);
    RowsJoin(k + K_ROW4 + K_ROW5 + K_ROW6, p + P_ROW4 + P_ROW5 + P_ROW6, K_ROW7, P_ROW7);
  }

  /** The initial hash is made of the square roots of the first eight primes. */
  lemma InitialHashIsSquareRoots()
    ensures var h := [H0.a, H0.b, H0.c, H0.d, H0.e, H0.f, H0.g, H0.h];
            |P_ROW0| == 8 && forall t :: 0 <= t < 8 ==> SquareRootBits(h[t], P_ROW0[t])
  {
    assert IsSquareRoot(0x6a09e667, 1, 2);
    assert IsSquareRoot(0xbb67ae85, 1, 3);
    assert IsSquareRoot(0x3c6ef372, 2, 5);
    assert IsSquareRoot(0xa54ff53a, 2, 7);
    assert IsSquareRoot(0x510e527f, 3, 11);
    assert IsSquareRoot(0x9b05688c, 3, 13);
    assert IsSquareRoot(0x1f83d9ab, 4, 17);
    assert IsSquareRoot(0x5be0cd19, 4, 19);
  }
}
