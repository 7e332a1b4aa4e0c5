/** The constants of SHA-256 are what section 4.2.2 and section 5.3.3 of FIPS 180-4 say they are:
    the first thirty-two bits of the fractional parts of the cube roots of the first sixty-four
    primes, and of the square roots of the first eight. */
module Sha256Constants {
  import opened Arithmetic
  import opened Sha256Standard

  // ---- the first sixty-four primes ----

  const P0: seq<nat> := [2, 3, 5, 7, 11, 13, 17, 19]
  const P1: seq<nat> := [23, 29, 31, 37, 41, 43, 47, 53]
  const P2: seq<nat> := [59, 61, 67, 71, 73, 79, 83, 89]
  const P3: seq<nat> := [97, 101, 103, 107, 109, 113, 127, 131]
  const P4: seq<nat> := [137, 139, 149, 151, 157, 163, 167, 173]
  const P5: seq<nat> := [179, 181, 191, 193, 197, 199, 211, 223]
  const P6: seq<nat> := [227, 229, 233, 239, 241, 251, 257, 263]
  const P7: seq<nat> := [269, 271, 277, 281, 283, 293, 307, 311]

  function Prime(t: nat): nat
    requires t < 64
  {
    if t < 32 then
      if t < 8 then P0[t] else if t < 16 then P1[t - 8] else if t < 24 then P2[t - 16] else P3[t - 24]
    else
      if t < 40 then P4[t - 32] else if t < 48 then P5[t - 40] else if t < 56 then P6[t - 48] else P7[t - 56]
  }

  ghost predicate IsPrime(n: nat) {
    n >= 2 && forall d :: 2 <= d < n ==> n % d != 0
  }

  /** A number below 18 squared with none of these divisors is prime. */
  predicate Sieved(n: nat) {
    n in {2, 3, 5, 7, 11, 13, 17} ||
    (n >= 2 && n % 2 != 0 && n % 3 != 0 && n % 5 != 0 && n % 7 != 0 && n % 11 != 0 && n % 13 != 0 && n % 17 != 0)
  }

  lemma SmallFactor(n: nat, m: nat, k: nat)
    requires n == m * k && 2 <= m < 18
    ensures n % 2 == 0 || n % 3 == 0 || n % 5 == 0 || n % 7 == 0 || n % 11 == 0 || n % 13 == 0 || n % 17 == 0
  {
    var p := if m % 2 == 0 then 2 else if m % 3 == 0 then 3 else m;
    assert p in {2, 3, 5, 7, 11, 13, 17};
    var q := m / p;
    assert m == p * q;
    Regroup(p, q, k);
    Divides(p, q * k);
  }

  lemma Regroup(p: nat, q: nat, k: nat)
    ensures (p * q) * k == p * (q * k)
  {
  }

  lemma Divides(p: nat, q: nat)
    requires p in {2, 3, 5, 7, 11, 13, 17}
    ensures (p * q) % p == 0
  {
    QuotientIs(p * q, p, q);
  }

  lemma SmallerFactor(d: nat, k: nat)
    requires d * k < 324
    ensures d < 18 || k < 18
  {
    if d >= 18 && k >= 18 {
      Gap(18, d, k);
      assert false;
    }
  }

  lemma SieveIsExact(n: nat)
    requires n < 324
    ensures Sieved(n) <==> IsPrime(n)
  {
    if Sieved(n) && n !in {2, 3, 5, 7, 11, 13, 17} {
      forall d | 2 <= d < n
        ensures n % d != 0
      {
        if n % d == 0 { FactorIsSieved(n, d, n / d); }
      }
    }
  }

  lemma FactorIsSieved(n: nat, d: nat, k: nat)
    requires n < 324 && 2 <= d < n && n == d * k
    ensures n % 2 == 0 || n % 3 == 0 || n % 5 == 0 || n % 7 == 0 || n % 11 == 0 || n % 13 == 0 || n % 17 == 0
  {
    if k < 2 { Gap(k, 1, d); }
    SmallerFactor(d, k);
    if d < 18 { SmallFactor(n, d, k); } else { SmallFactor(n, k, d); }
  }

  /** No number of [lo, hi) passes the sieve. */
  predicate NoneSieved(lo: nat, hi: nat)
    decreases hi - lo
  {
    lo >= hi || (!Sieved(lo) && NoneSieved(lo + 1, hi))
  }

  lemma {:induction false} NoneIsPrime(lo: nat, hi: nat, n: nat)
    requires NoneSieved(lo, hi) && lo <= n < hi < 324
    ensures !IsPrime(n)
    decreases hi - lo
  {
    SieveIsExact(lo);
    if lo < n { NoneIsPrime(lo + 1, hi, n); }
  }

  predicate NextSieved(p: nat, q: nat) {
    p < q && Sieved(q) && NoneSieved(p + 1, q)
  }

  lemma Row0()
    ensures NextSieved(1, 2) && NextSieved(2, 3) && NextSieved(3, 5) && NextSieved(5, 7)
    ensures NextSieved(7, 11) && NextSieved(11, 13) && NextSieved(13, 17) && NextSieved(17, 19)
  {
  }

  lemma Row1()
    ensures NextSieved(19, 23) && NextSieved(23, 29) && NextSieved(29, 31) && NextSieved(31, 37)
    ensures NextSieved(37, 41) && NextSieved(41, 43) && NextSieved(43, 47) && NextSieved(47, 53)
  {
  }

  lemma Row2()
    ensures NextSieved(53, 59) && NextSieved(59, 61) && NextSieved(61, 67) && NextSieved(67, 71)
    ensures NextSieved(71, 73) && NextSieved(73, 79) && NextSieved(79, 83) && NextSieved(83, 89)
  {
  }

  lemma Row3()
    ensures NextSieved(89, 97) && NextSieved(97, 101) && NextSieved(101, 103) && NextSieved(103, 107)
    ensures NextSieved(107, 109) && NextSieved(109, 113) && NextSieved(113, 127) && NextSieved(127, 131)
  {
  }

  lemma Row4()
    ensures NextSieved(131, 137) && NextSieved(137, 139) && NextSieved(139, 149) && NextSieved(149, 151)
    ensures NextSieved(151, 157) && NextSieved(157, 163) && NextSieved(163, 167) && NextSieved(167, 173)
  {
  }

  lemma Row5()
    ensures NextSieved(173, 179) && NextSieved(179, 181) && NextSieved(181, 191) && NextSieved(191, 193)
    ensures NextSieved(193, 197) && NextSieved(197, 199) && NextSieved(199, 211) && NextSieved(211, 223)
  {
  }

  lemma Row6()
    ensures NextSieved(223, 227) && NextSieved(227, 229) && NextSieved(229, 233) && NextSieved(233, 239)
    ensures NextSieved(239, 241) && NextSieved(241, 251) && NextSieved(251, 257) && NextSieved(257, 263)
  {
  }

  lemma Row7()
    ensures NextSieved(263, 269) && NextSieved(269, 271) && NextSieved(271, 277) && NextSieved(277, 281)
    ensures NextSieved(281, 283) && NextSieved(283, 293) && NextSieved(293, 307) && NextSieved(307, 311)
  {
  }

  function Before(t: nat): nat
    requires t < 64
  {
    if t == 0 then 1 else Prime(t - 1)
  }

  lemma TableIsSieved(t: nat)
    requires t < 64
    ensures NextSieved(Before(t), Prime(t))
  {
    hide NextSieved;
    if t < 8 { Row0(); }
    else if t < 16 { Row1(); }
    else if t < 24 { Row2(); }
    else if t < 32 { Row3(); }
    else if t < 40 { Row4(); }
    else if t < 48 { Row5(); }
    else if t < 56 { Row6(); }
    else { Row7(); }
  }

  /** The table lists the first sixty-four primes in order: each entry is the next prime after the
      one before it. */
  lemma TableIsThePrimes(t: nat)
    requires t < 64
    ensures Before(t) < Prime(t) < 312 && IsPrime(Prime(t))
    ensures forall n :: Before(t) < n < Prime(t) ==> !IsPrime(n)
  {
    TableIsSieved(t);
    SieveIsExact(Prime(t));
    forall n | Before(t) < n < Prime(t)
      ensures !IsPrime(n)
    {
      NoneIsPrime(Before(t) + 1, Prime(t), n);
    }
  }

  // ---- section 4.2.2: cube roots ----

  const TWO_32: nat := 0x1_0000_0000

  function WholeCubeRoot(p: nat): nat {
    if p < 8 then 1 else if p < 27 then 2 else if p < 64 then 3 else if p < 125 then 4 else if p < 216 then 5 else 6
  }

  /** c is the whole part of the cube root of p, k the first thirty-two bits of its fraction. */
  predicate CubeRootBits(p: nat, c: nat, k: nat) {
    var r := c * TWO_32 + k;
    && c * c * c <= p < (c + 1) * (c + 1) * (c + 1)
    && k < TWO_32
    && r * r * r <= p * 0x1_0000_0000_0000_0000_0000_0000 < (r + 1) * (r + 1) * (r + 1)
  }

  lemma RootRow0()
    ensures CubeRootBits(2, 1, 0x428a2f98)
    ensures CubeRootBits(3, 1, 0x71374491)
    ensures CubeRootBits(5, 1, 0xb5c0fbcf)
    ensures CubeRootBits(7, 1, 0xe9b5dba5)
    ensures CubeRootBits(11, 2, 0x3956c25b)
    ensures CubeRootBits(13, 2, 0x59f111f1)
    ensures CubeRootBits(17, 2, 0x923f82a4)
    ensures CubeRootBits(19, 2, 0xab1c5ed5)
  {
  }

  lemma Constants0()
    ensures K(0) == 0x428a2f98 && K(1) == 0x71374491
    ensures K(2) == 0xb5c0fbcf && K(3) == 0xe9b5dba5
  {
  }

  lemma Constants4()
    ensures K(4) == 0x3956c25b && K(5) == 0x59f111f1
    ensures K(6) == 0x923f82a4 && K(7) == 0xab1c5ed5
  {
  }

  lemma RoundRow0(t: nat) returns (c: nat)
    requires 0 <= t < 8
    ensures CubeRootBits(Prime(t), c, K(t) as nat)
  {
    hide CubeRootBits;
    Constants0();
    Constants4();
    RootRow0();
    hide K;
    c := WholeCubeRoot(Prime(t));
  }

  lemma RootRow1()
    ensures CubeRootBits(23, 2, 0xd807aa98)
    ensures CubeRootBits(29, 3, 0x12835b01)
    ensures CubeRootBits(31, 3, 0x243185be)
    ensures CubeRootBits(37, 3, 0x550c7dc3)
    ensures CubeRootBits(41, 3, 0x72be5d74)
    ensures CubeRootBits(43, 3, 0x80deb1fe)
    ensures CubeRootBits(47, 3, 0x9bdc06a7)
    ensures CubeRootBits(53, 3, 0xc19bf174)
  {
  }

  lemma Constants8()
    ensures K(8) == 0xd807aa98 && K(9) == 0x12835b01
    ensures K(10) == 0x243185be && K(11) == 0x550c7dc3
  {
  }

  lemma Constants12()
    ensures K(12) == 0x72be5d74 && K(13) == 0x80deb1fe
    ensures K(14) == 0x9bdc06a7 && K(15) == 0xc19bf174
  {
  }

  lemma RoundRow1(t: nat) returns (c: nat)
    requires 8 <= t < 16
    ensures CubeRootBits(Prime(t), c, K(t) as nat)
  {
    hide CubeRootBits;
    Constants8();
    Constants12();
    RootRow1();
    hide K;
    c := WholeCubeRoot(Prime(t));
  }

  lemma RootRow2()
    ensures CubeRootBits(59, 3, 0xe49b69c1)
    ensures CubeRootBits(61, 3, 0xefbe4786)
    ensures CubeRootBits(67, 4, 0x0fc19dc6)
    ensures CubeRootBits(71, 4, 0x240ca1cc)
    ensures CubeRootBits(73, 4, 0x2de92c6f)
    ensures CubeRootBits(79, 4, 0x4a7484aa)
    ensures CubeRootBits(83, 4, 0x5cb0a9dc)
    ensures CubeRootBits(89, 4, 0x76f988da)
  {
  }

  lemma Constants16()
    ensures K(16) == 0xe49b69c1 && K(17) == 0xefbe4786
    ensures K(18) == 0x0fc19dc6 && K(19) == 0x240ca1cc
  {
  }

  lemma Constants20()
    ensures K(20) == 0x2de92c6f && K(21) == 0x4a7484aa
    ensures K(22) == 0x5cb0a9dc && K(23) == 0x76f988da
  {
  }

  lemma RoundRow2(t: nat) returns (c: nat)
    requires 16 <= t < 24
    ensures CubeRootBits(Prime(t), c, K(t) as nat)
  {
    hide CubeRootBits;
    Constants16();
    Constants20();
    RootRow2();
    hide K;
    c := WholeCubeRoot(Prime(t));
  }

  lemma RootRow3()
    ensures CubeRootBits(97, 4, 0x983e5152)
    ensures CubeRootBits(101, 4, 0xa831c66d)
    ensures CubeRootBits(103, 4, 0xb00327c8)
    ensures CubeRootBits(107, 4, 0xbf597fc7)
    ensures CubeRootBits(109, 4, 0xc6e00bf3)
    ensures CubeRootBits(113, 4, 0xd5a79147)
    ensures CubeRootBits(127, 5, 0x06ca6351)
    ensures CubeRootBits(131, 5, 0x14292967)
  {
  }

  lemma Constants24()
    ensures K(24) == 0x983e5152 && K(25) == 0xa831c66d
    ensures K(26) == 0xb00327c8 && K(27) == 0xbf597fc7
  {
  }

  lemma Constants28()
    ensures K(28) == 0xc6e00bf3 && K(29) == 0xd5a79147
    ensures K(30) == 0x06ca6351 && K(31) == 0x14292967
  {
  }

  lemma RoundRow3(t: nat) returns (c: nat)
    requires 24 <= t < 32
    ensures CubeRootBits(Prime(t), c, K(t) as nat)
  {
    hide CubeRootBits;
    Constants24();
    Constants28();
    RootRow3();
    hide K;
    c := WholeCubeRoot(Prime(t));
  }

  lemma RootRow4()
    ensures CubeRootBits(137, 5, 0x27b70a85)
    ensures CubeRootBits(139, 5, 0x2e1b2138)
    ensures CubeRootBits(149, 5, 0x4d2c6dfc)
    ensures CubeRootBits(151, 5, 0x53380d13)
    ensures CubeRootBits(157, 5, 0x650a7354)
    ensures CubeRootBits(163, 5, 0x766a0abb)
    ensures CubeRootBits(167, 5, 0x81c2c92e)
    ensures CubeRootBits(173, 5, 0x92722c85)
  {
  }

  lemma Constants32()
    ensures K(32) == 0x27b70a85 && K(33) == 0x2e1b2138
    ensures K(34) == 0x4d2c6dfc && K(35) == 0x53380d13
  {
  }

  lemma Constants36()
    ensures K(36) == 0x650a7354 && K(37) == 0x766a0abb
    ensures K(38) == 0x81c2c92e && K(39) == 0x92722c85
  {
  }

  lemma RoundRow4(t: nat) returns (c: nat)
    requires 32 <= t < 40
    ensures CubeRootBits(Prime(t), c, K(t) as nat)
  {
    hide CubeRootBits;
    Constants32();
    Constants36();
    RootRow4();
    hide K;
    c := WholeCubeRoot(Prime(t));
  }

  lemma RootRow5()
    ensures CubeRootBits(179, 5, 0xa2bfe8a1)
    ensures CubeRootBits(181, 5, 0xa81a664b)
    ensures CubeRootBits(191, 5, 0xc24b8b70)
    ensures CubeRootBits(193, 5, 0xc76c51a3)
    ensures CubeRootBits(197, 5, 0xd192e819)
    ensures CubeRootBits(199, 5, 0xd6990624)
    ensures CubeRootBits(211, 5, 0xf40e3585)
    ensures CubeRootBits(223, 6, 0x106aa070)
  {
  }

  lemma Constants40()
    ensures K(40) == 0xa2bfe8a1 && K(41) == 0xa81a664b
    ensures K(42) == 0xc24b8b70 && K(43) == 0xc76c51a3
  {
  }

  lemma Constants44()
    ensures K(44) == 0xd192e819 && K(45) == 0xd6990624
    ensures K(46) == 0xf40e3585 && K(47) == 0x106aa070
  {
  }

  lemma RoundRow5(t: nat) returns (c: nat)
    requires 40 <= t < 48
    ensures CubeRootBits(Prime(t), c, K(t) as nat)
  {
    hide CubeRootBits;
    Constants40();
    Constants44();
    RootRow5();
    hide K;
    c := WholeCubeRoot(Prime(t));
  }

  lemma RootRow6()
    ensures CubeRootBits(227, 6, 0x19a4c116)
    ensures CubeRootBits(229, 6, 0x1e376c08)
    ensures CubeRootBits(233, 6, 0x2748774c)
    ensures CubeRootBits(239, 6, 0x34b0bcb5)
    ensures CubeRootBits(241, 6, 0x391c0cb3)
    ensures CubeRootBits(251, 6, 0x4ed8aa4a)
    ensures CubeRootBits(257, 6, 0x5b9cca4f)
    ensures CubeRootBits(263, 6, 0x682e6ff3)
  {
  }

  lemma Constants48()
    ensures K(48) == 0x19a4c116 && K(49) == 0x1e376c08
    ensures K(50) == 0x2748774c && K(51) == 0x34b0bcb5
  {
  }

  lemma Constants52()
    ensures K(52) == 0x391c0cb3 && K(53) == 0x4ed8aa4a
    ensures K(54) == 0x5b9cca4f && K(55) == 0x682e6ff3
  {
  }

  lemma RoundRow6(t: nat) returns (c: nat)
    requires 48 <= t < 56
    ensures CubeRootBits(Prime(t), c, K(t) as nat)
  {
    hide CubeRootBits;
    Constants48();
    Constants52();
    RootRow6();
    hide K;
    c := WholeCubeRoot(Prime(t));
  }

  lemma RootRow7()
    ensures CubeRootBits(269, 6, 0x748f82ee)
    ensures CubeRootBits(271, 6, 0x78a5636f)
    ensures CubeRootBits(277, 6, 0x84c87814)
    ensures CubeRootBits(281, 6, 0x8cc70208)
    ensures CubeRootBits(283, 6, 0x90befffa)
    ensures CubeRootBits(293, 6, 0xa4506ceb)
    ensures CubeRootBits(307, 6, 0xbef9a3f7)
    ensures CubeRootBits(311, 6, 0xc67178f2)
  {
  }

  lemma Constants56()
    ensures K(56) == 0x748f82ee && K(57) == 0x78a5636f
    ensures K(58) == 0x84c87814 && K(59) == 0x8cc70208
  {
  }

  lemma Constants60()
    ensures K(60) == 0x90befffa && K(61) == 0xa4506ceb
    ensures K(62) == 0xbef9a3f7 && K(63) == 0xc67178f2
  {
  }

  lemma RoundRow7(t: nat) returns (c: nat)
    requires 56 <= t < 64
    ensures CubeRootBits(Prime(t), c, K(t) as nat)
  {
    hide CubeRootBits;
    Constants56();
    Constants60();
    RootRow7();
    hide K;
    c := WholeCubeRoot(Prime(t));
  }

  /** Every round constant is the first thirty-two fractional bits of the cube root of its prime. */
  lemma RoundConstantsAreCubeRoots(t: nat) returns (c: nat)
    requires t < 64
    ensures CubeRootBits(Prime(t), c, K(t) as nat)
  {
    hide CubeRootBits, K, Prime;
    if t < 8 {
      c := RoundRow0(t);
    } else if t < 16 {
      c := RoundRow1(t);
    } else if t < 24 {
      c := RoundRow2(t);
    } else if t < 32 {
      c := RoundRow3(t);
    } else if t < 40 {
      c := RoundRow4(t);
    } else if t < 48 {
      c := RoundRow5(t);
    } else if t < 56 {
      c := RoundRow6(t);
    } else {
      c := RoundRow7(t);
    }
  }

  // ---- section 5.3.3: square roots ----

  predicate SquareRootBits(p: nat, c: nat, k: nat) {
    var r := c * TWO_32 + k;
    && c * c <= p < (c + 1) * (c + 1)
    && k < TWO_32
    && r * r <= p * 0x1_0000_0000_0000_0000 < (r + 1) * (r + 1)
  }

  /** The initial hash value is the first thirty-two fractional bits of the square roots of the
      first eight primes. */
  lemma InitialValueIsSquareRoots()
    ensures SquareRootBits(Prime(0), 1, INITIAL.a as nat)
    ensures SquareRootBits(Prime(1), 1, INITIAL.b as nat)
    ensures SquareRootBits(Prime(2), 2, INITIAL.c as nat)
    ensures SquareRootBits(Prime(3), 2, INITIAL.d as nat)
    ensures SquareRootBits(Prime(4), 3, INITIAL.e as nat)
    ensures SquareRootBits(Prime(5), 3, INITIAL.f as nat)
    ensures SquareRootBits(Prime(6), 4, INITIAL.g as nat)
    ensures SquareRootBits(Prime(7), 4, INITIAL.h as nat)
  {
  }
}
