/** What sections 4.1.2, 4.2.2 and 5.3.3 of FIPS 180-4 say about the functions
    and the constants of SHA-256. */
module Sha256Constants {
  import opened Sha256Words
  import opened Sha256Spec

  // ----- The functions -----

  lemma Rotr2Rotates(x: Word)
    ensures Rotr2(x) == x.RotateRight(2)
  {
  }

  lemma Rotr6Rotates(x: Word)
    ensures Rotr6(x) == x.RotateRight(6)
  {
  }

  lemma Rotr7Rotates(x: Word)
    ensures Rotr7(x) == x.RotateRight(7)
  {
  }

  lemma Rotr11Rotates(x: Word)
    ensures Rotr11(x) == x.RotateRight(11)
  {
  }

  lemma Rotr13Rotates(x: Word)
    ensures Rotr13(x) == x.RotateRight(13)
  {
  }

  lemma Rotr17Rotates(x: Word)
    ensures Rotr17(x) == x.RotateRight(17)
  {
  }

  lemma Rotr18Rotates(x: Word)
    ensures Rotr18(x) == x.RotateRight(18)
  {
  }

  lemma Rotr19Rotates(x: Word)
    ensures Rotr19(x) == x.RotateRight(19)
  {
  }

  lemma Rotr22Rotates(x: Word)
    ensures Rotr22(x) == x.RotateRight(22)
  {
  }

  lemma Rotr25Rotates(x: Word)
    ensures Rotr25(x) == x.RotateRight(25)
  {
  }

  lemma BigSigma0Is(x: Word)
    ensures BigSigma0(x) == Xor(Xor(x.RotateRight(2), x.RotateRight(13)), x.RotateRight(22))
  {
    hide Xor, Rotr2, Rotr13, Rotr22;
    Rotr2Rotates(x);
    Rotr13Rotates(x);
    Rotr22Rotates(x);
  }

  lemma BigSigma1Is(x: Word)
    ensures BigSigma1(x) == Xor(Xor(x.RotateRight(6), x.RotateRight(11)), x.RotateRight(25))
  {
    hide Xor, Rotr6, Rotr11, Rotr25;
    Rotr6Rotates(x);
    Rotr11Rotates(x);
    Rotr25Rotates(x);
  }

  lemma SmallSigma0Is(x: Word)
    ensures SmallSigma0(x) == Xor(Xor(x.RotateRight(7), x.RotateRight(18)), Shr3(x))
  {
    hide Xor, Rotr7, Rotr18, Shr3;
    Rotr7Rotates(x);
    Rotr18Rotates(x);
  }

  lemma SmallSigma1Is(x: Word)
    ensures SmallSigma1(x) == Xor(Xor(x.RotateRight(17), x.RotateRight(19)), Shr10(x))
  {
    hide Xor, Rotr17, Rotr19, Shr10;
    Rotr17Rotates(x);
    Rotr19Rotates(x);
  }

  lemma Chooses(v: Word, x: Word, y: Word, z: Word, m: Word)
    requires v == (x & y) ^ (!x & z)
    ensures x & m == m ==> v & m == y & m
    ensures x & m == 0 ==> v & m == z & m
  {
  }

  lemma PlainMajMasked(x: Word, y: Word, z: Word, m: Word)
    ensures ((x & y) ^ (x & z) ^ (y & z)) & m == ((x & m) & (y & m)) ^ ((x & m) & (z & m)) ^ ((y & m) & (z & m))
  {
  }

  lemma MajMasked(x: Word, y: Word, z: Word, m: Word)
    ensures And(Maj(x, y, z), m) == Maj(And(x, m), And(y, m), And(z, m))
  {
    PlainMaj(x, y, z);
    PlainMaj(x & m, y & m, z & m);
    hide Maj;
    PlainMajMasked(x, y, z, m);
  }

  lemma XorCancels(p: Word, q: Word)
    ensures Xor(Xor(p, q), q) == p && Xor(Xor(q, p), q) == p && Xor(Xor(q, q), p) == p
  {
  }

  lemma AndFacts(p: Word, r: Word)
    ensures And(p, p) == p && And(r, p) == And(p, r)
  {
  }

  lemma MajOfTwo(p: Word, r: Word)
    ensures Maj(p, p, r) == p && Maj(p, r, p) == p && Maj(r, p, p) == p
  {
    hide And, Xor;
    AndFacts(p, r);
    XorCancels(p, And(p, r));
  }

  /** On the places of any mask, `Ch` takes y where x is set and z where not. */
  lemma ChChooses(x: Word, y: Word, z: Word, m: Word)
    ensures x & m == m ==> Ch(x, y, z) & m == y & m
    ensures x & m == 0 ==> Ch(x, y, z) & m == z & m
  {
    PlainCh(x, y, z);
    hide Ch;
    Chooses(Ch(x, y, z), x, y, z, m);
  }

  /** On the places of any mask, where two arguments agree `Maj` agrees with them. */
  lemma MajAgrees(x: Word, y: Word, z: Word, m: Word)
    ensures And(x, m) == And(y, m) ==> And(Maj(x, y, z), m) == And(x, m)
    ensures And(x, m) == And(z, m) ==> And(Maj(x, y, z), m) == And(x, m)
    ensures And(y, m) == And(z, m) ==> And(Maj(x, y, z), m) == And(y, m)
  {
    hide And, Maj;
    MajMasked(x, y, z, m);
    MajOfTwo(And(x, m), And(z, m));
    MajOfTwo(And(x, m), And(y, m));
    MajOfTwo(And(y, m), And(x, m));
  }

  // ----- The first 64 primes -----

  function Prime(t: nat): nat {
    if t < 8 then
      if t == 0 then 2 else if t == 1 then 3 else if t == 2 then 5
      else if t == 3 then 7 else if t == 4 then 11 else if t == 5 then 13
      else if t == 6 then 17 else 19
    else if t < 16 then
      if t == 8 then 23 else if t == 9 then 29 else if t == 10 then 31
      else if t == 11 then 37 else if t == 12 then 41 else if t == 13 then 43
      else if t == 14 then 47 else 53
    else if t < 24 then
      if t == 16 then 59 else if t == 17 then 61 else if t == 18 then 67
      else if t == 19 then 71 else if t == 20 then 73 else if t == 21 then 79
      else if t == 22 then 83 else 89
    else if t < 32 then
      if t == 24 then 97 else if t == 25 then 101 else if t == 26 then 103
      else if t == 27 then 107 else if t == 28 then 109 else if t == 29 then 113
      else if t == 30 then 127 else 131
    else if t < 40 then
      if t == 32 then 137 else if t == 33 then 139 else if t == 34 then 149
      else if t == 35 then 151 else if t == 36 then 157 else if t == 37 then 163
      else if t == 38 then 167 else 173
    else if t < 48 then
      if t == 40 then 179 else if t == 41 then 181 else if t == 42 then 191
      else if t == 43 then 193 else if t == 44 then 197 else if t == 45 then 199
      else if t == 46 then 211 else 223
    else if t < 56 then
      if t == 48 then 227 else if t == 49 then 229 else if t == 50 then 233
      else if t == 51 then 239 else if t == 52 then 241 else if t == 53 then 251
      else if t == 54 then 257 else 263
    else
      if t == 56 then 269 else if t == 57 then 271 else if t == 58 then 277
      else if t == 59 then 281 else if t == 60 then 283 else if t == 61 then 293
      else if t == 62 then 307 else 311
  }

  ghost predicate IsPrime(n: nat) {
    n >= 2 && forall d :: 2 <= d < n ==> n % d != 0
  }

  /** No prime below 18 divides `n`, except itself. */
  predicate Sieved(n: nat) {
    (n == 2 || n % 2 != 0) && (n == 3 || n % 3 != 0) && (n == 5 || n % 5 != 0) && (n == 7 || n % 7 != 0) &&
    (n == 11 || n % 11 != 0) && (n == 13 || n % 13 != 0) && (n == 17 || n % 17 != 0)
  }

  lemma Multiple(n: nat, p: nat, k: nat)
    requires p in {2, 3, 5, 7, 11, 13, 17} && n == p * k
    ensures n % p == 0
  {
  }

  /** A factor from 2 to 17 brings in one of the primes of the sieve. */
  lemma PrimeFactor(d: nat) returns (p: nat, q: nat)
    requires 2 <= d < 18
    ensures p in {2, 3, 5, 7, 11, 13, 17} && d == p * q && q > 0
  {
    p := if d % 2 == 0 then 2 else if d % 3 == 0 then 3 else if d % 5 == 0 then 5 else d;
    q := d / p;
  }

  lemma Reassociate(n: nat, p: nat, q: nat, k: nat)
    requires n == (p * q) * k
    ensures n == p * (q * k)
  {
  }

  lemma MultipleFails(n: nat, p: nat, m: nat)
    requires p in {2, 3, 5, 7, 11, 13, 17} && n == p * m && m >= 2
    ensures !Sieved(n)
  {
    Multiple(n, p, m);
    assert n != p;
  }

  lemma SmallFactor(n: nat, d: nat, k: nat)
    requires n == d * k && 2 <= d < 18 && 2 <= k
    ensures !Sieved(n)
  {
    hide Sieved;
    var p, q := PrimeFactor(d);
    Reassociate(n, p, q, k);
    assert q * k >= 2 by {
      assert q * k >= k;
    }
    MultipleFails(n, p, q * k);
  }

  lemma ProductGrows(d: nat, k: nat)
    requires d >= 18 && k >= 18
    ensures d * k >= 324
  {
  }

  lemma CompositeFails(n: nat, d: nat)
    requires n < 324 && 2 <= d < n && n % d == 0
    ensures !Sieved(n)
  {
    hide Sieved;
    var k := n / d;
    assert n == d * k;
    if d < 18 {
      SmallFactor(n, d, k);
    } else if k < 18 {
      SmallFactor(n, k, d);
    } else {
      ProductGrows(d, k);
    }
  }

  /** Up to 323 sieving by these primes is enough. */
  lemma SievedIsPrime(n: nat)
    requires 2 <= n < 324
    ensures Sieved(n) <==> IsPrime(n)
  {
    if !Sieved(n) {
      var d :| d in {2, 3, 5, 7, 11, 13, 17} && n != d && n % d == 0;
      assert 2 <= d < n;
    } else if d :| 2 <= d < n && n % d == 0 {
      CompositeFails(n, d);
    }
  }

  /** None of n, ..., m - 1 passes the sieve. */
  predicate NoneUpTo(n: nat, m: nat)
    decreases m - n
  {
    n >= m || (!Sieved(n) && NoneUpTo(n + 1, m))
  }

  lemma {:induction false} NoneBetween(n: nat, m: nat, k: nat)
    requires NoneUpTo(n, m) && n <= k < m
    ensures !Sieved(k)
    decreases m - n
  {
    if n < k {
      NoneBetween(n + 1, m, k);
    }
  }

  /** `n` passes the sieve and `m` is the next number that can. */
  predicate Gap(n: nat, m: nat) {
    Sieved(n) && n < m <= 311 && NoneUpTo(n + 1, m)
  }

  predicate IsNext(t: nat) {
    Gap(Prime(t), Prime(t + 1))
  }

  lemma Gaps0()
    ensures Gap(2, 3) && Gap(3, 5) && Gap(5, 7) && Gap(7, 11)
    ensures Gap(11, 13) && Gap(13, 17) && Gap(17, 19) && Gap(19, 23)
  {
  }

  lemma Primes0Fit()
    ensures IsNext(0) && IsNext(1) && IsNext(2) && IsNext(3)
    ensures IsNext(4) && IsNext(5) && IsNext(6) && IsNext(7)
  {
    Gaps0();
    hide Gap;
  }

  lemma Gaps1()
    ensures Gap(23, 29) && Gap(29, 31) && Gap(31, 37) && Gap(37, 41)
    ensures Gap(41, 43) && Gap(43, 47) && Gap(47, 53) && Gap(53, 59)
  {
  }

  lemma Primes1Fit()
    ensures IsNext(8) && IsNext(9) && IsNext(10) && IsNext(11)
    ensures IsNext(12) && IsNext(13) && IsNext(14) && IsNext(15)
  {
    Gaps1();
    hide Gap;
  }

  lemma Gaps2()
    ensures Gap(59, 61) && Gap(61, 67) && Gap(67, 71) && Gap(71, 73)
    ensures Gap(73, 79) && Gap(79, 83) && Gap(83, 89) && Gap(89, 97)
  {
  }

  lemma Primes2Fit()
    ensures IsNext(16) && IsNext(17) && IsNext(18) && IsNext(19)
    ensures IsNext(20) && IsNext(21) && IsNext(22) && IsNext(23)
  {
    Gaps2();
    hide Gap;
  }

  lemma Gaps3()
    ensures Gap(97, 101) && Gap(101, 103) && Gap(103, 107) && Gap(107, 109)
    ensures Gap(109, 113) && Gap(113, 127) && Gap(127, 131) && Gap(131, 137)
  {
  }

  lemma Primes3Fit()
    ensures IsNext(24) && IsNext(25) && IsNext(26) && IsNext(27)
    ensures IsNext(28) && IsNext(29) && IsNext(30) && IsNext(31)
  {
    Gaps3();
    hide Gap;
  }

  lemma Gaps4()
    ensures Gap(137, 139) && Gap(139, 149) && Gap(149, 151) && Gap(151, 157)
    ensures Gap(157, 163) && Gap(163, 167) && Gap(167, 173) && Gap(173, 179)
  {
  }

  lemma Primes4Fit()
    ensures IsNext(32) && IsNext(33) && IsNext(34) && IsNext(35)
    ensures IsNext(36) && IsNext(37) && IsNext(38) && IsNext(39)
  {
    Gaps4();
    hide Gap;
  }

  lemma Gaps5()
    ensures Gap(179, 181) && Gap(181, 191) && Gap(191, 193) && Gap(193, 197)
    ensures Gap(197, 199) && Gap(199, 211) && Gap(211, 223) && Gap(223, 227)
  {
  }

  lemma Primes5Fit()
    ensures IsNext(40) && IsNext(41) && IsNext(42) && IsNext(43)
    ensures IsNext(44) && IsNext(45) && IsNext(46) && IsNext(47)
  {
    Gaps5();
    hide Gap;
  }

  lemma Gaps6()
    ensures Gap(227, 229) && Gap(229, 233) && Gap(233, 239) && Gap(239, 241)
    ensures Gap(241, 251) && Gap(251, 257) && Gap(257, 263) && Gap(263, 269)
  {
  }

  lemma Primes6Fit()
    ensures IsNext(48) && IsNext(49) && IsNext(50) && IsNext(51)
    ensures IsNext(52) && IsNext(53) && IsNext(54) && IsNext(55)
  {
    Gaps6();
    hide Gap;
  }

  lemma Gaps7()
    ensures Gap(269, 271) && Gap(271, 277) && Gap(277, 281) && Gap(281, 283)
    ensures Gap(283, 293) && Gap(293, 307) && Gap(307, 311)
  {
  }

  lemma Primes7Fit()
    ensures IsNext(56) && IsNext(57) && IsNext(58) && IsNext(59)
    ensures IsNext(60) && IsNext(61) && IsNext(62)
  {
    Gaps7();
    hide Gap;
  }

  // ----- The constants -----

  /** `x` is the square root of `p` to 32 binary places, times 2^32. */
  predicate SquareRoot(x: nat, p: nat) {
    x * x <= p * 0x1_0000_0000_0000_0000 < (x + 1) * (x + 1)
  }

  predicate CubeRoot(x: nat, p: nat) {
    x * x * x <= p * 0x1_0000_0000_0000_0000_0000_0000 < (x + 1) * (x + 1) * (x + 1)
  }

  /** The number whose fractional places are `w`, above the integer `r`. */
  function Scaled(w: Word, r: nat): nat {
    r * 0x1_0000_0000 + (w as nat)
  }

  function HashWord(h: Eight, t: nat): Word {
    if t == 0 then h.a else if t == 1 then h.b else if t == 2 then h.c else if t == 3 then h.d
    else if t == 4 then h.e else if t == 5 then h.f else if t == 6 then h.g else h.h
  }

  /** The integer parts of the roots of the t-th prime, as far as needed. */
  function SquareFloor(t: nat): nat { 1 + t / 2 }

  function CubeFloor(t: nat): nat {
    if t < 4 then 1 else if t < 9 then 2 else if t < 18 then 3 else if t < 30 then 4 else if t < 47 then 5 else 6
  }

  predicate IsSquareRoot(t: nat) {
    SquareRoot(Scaled(HashWord(InitialHash(), t), SquareFloor(t)), Prime(t))
  }

  predicate IsCubeRoot(t: nat) {
    CubeRoot(Scaled(K(t), CubeFloor(t)), Prime(t))
  }

  lemma Squares()
    ensures SquareRoot(0x1_6a09e667, 2) && SquareRoot(0x1_bb67ae85, 3)
    ensures SquareRoot(0x2_3c6ef372, 5) && SquareRoot(0x2_a54ff53a, 7)
    ensures SquareRoot(0x3_510e527f, 11) && SquareRoot(0x3_9b05688c, 13)
    ensures SquareRoot(0x4_1f83d9ab, 17) && SquareRoot(0x4_5be0cd19, 19)
  {
  }

  lemma SquareRootsFit()
    ensures IsSquareRoot(0) && IsSquareRoot(1) && IsSquareRoot(2) && IsSquareRoot(3)
    ensures IsSquareRoot(4) && IsSquareRoot(5) && IsSquareRoot(6) && IsSquareRoot(7)
  {
    Squares();
    hide SquareRoot;
  }

  /** The words of the initial hash value are the fractional parts of the square
      roots of the first eight primes. */
  lemma InitialHashIsSquareRoots(t: nat)
    requires t < 8
    ensures SquareRoot(Scaled(HashWord(InitialHash(), t), SquareFloor(t)), Prime(t))
  {
    hide SquareRoot, Scaled, SquareFloor, HashWord, Prime, InitialHash;
    SquareRootsFit();
    SquareCases(t);
  }

  lemma SquareCases(t: nat)
    requires t < 8 && IsSquareRoot(0) && IsSquareRoot(1) && IsSquareRoot(2) && IsSquareRoot(3)
    requires IsSquareRoot(4) && IsSquareRoot(5) && IsSquareRoot(6) && IsSquareRoot(7)
    ensures IsSquareRoot(t)
  {
    hide IsSquareRoot, SquareRoot, Scaled, SquareFloor, Prime, HashWord, InitialHash;
  }

  lemma Cubes0()
    ensures CubeRoot(0x1_428a2f98, 2) && CubeRoot(0x1_71374491, 3)
    ensures CubeRoot(0x1_b5c0fbcf, 5) && CubeRoot(0x1_e9b5dba5, 7)
    ensures CubeRoot(0x2_3956c25b, 11) && CubeRoot(0x2_59f111f1, 13)
    ensures CubeRoot(0x2_923f82a4, 17) && CubeRoot(0x2_ab1c5ed5, 19)
  {
  }

  lemma CubeRoots0Fit()
    ensures IsCubeRoot(0) && IsCubeRoot(1) && IsCubeRoot(2) && IsCubeRoot(3)
    ensures IsCubeRoot(4) && IsCubeRoot(5) && IsCubeRoot(6) && IsCubeRoot(7)
  {
    Cubes0();
    hide CubeRoot;
  }

  lemma Cubes1()
    ensures CubeRoot(0x2_d807aa98, 23) && CubeRoot(0x3_12835b01, 29)
    ensures CubeRoot(0x3_243185be, 31) && CubeRoot(0x3_550c7dc3, 37)
    ensures CubeRoot(0x3_72be5d74, 41) && CubeRoot(0x3_80deb1fe, 43)
    ensures CubeRoot(0x3_9bdc06a7, 47) && CubeRoot(0x3_c19bf174, 53)
  {
  }

  lemma CubeRoots1Fit()
    ensures IsCubeRoot(8) && IsCubeRoot(9) && IsCubeRoot(10) && IsCubeRoot(11)
    ensures IsCubeRoot(12) && IsCubeRoot(13) && IsCubeRoot(14) && IsCubeRoot(15)
  {
    Cubes1();
    hide CubeRoot;
  }

  lemma Cubes2()
    ensures CubeRoot(0x3_e49b69c1, 59) && CubeRoot(0x3_efbe4786, 61)
    ensures CubeRoot(0x4_0fc19dc6, 67) && CubeRoot(0x4_240ca1cc, 71)
    ensures CubeRoot(0x4_2de92c6f, 73) && CubeRoot(0x4_4a7484aa, 79)
    ensures CubeRoot(0x4_5cb0a9dc, 83) && CubeRoot(0x4_76f988da, 89)
  {
  }

  lemma CubeRoots2Fit()
    ensures IsCubeRoot(16) && IsCubeRoot(17) && IsCubeRoot(18) && IsCubeRoot(19)
    ensures IsCubeRoot(20) && IsCubeRoot(21) && IsCubeRoot(22) && IsCubeRoot(23)
  {
    Cubes2();
    hide CubeRoot;
  }

  lemma Cubes3()
    ensures CubeRoot(0x4_983e5152, 97) && CubeRoot(0x4_a831c66d, 101)
    ensures CubeRoot(0x4_b00327c8, 103) && CubeRoot(0x4_bf597fc7, 107)
    ensures CubeRoot(0x4_c6e00bf3, 109) && CubeRoot(0x4_d5a79147, 113)
    ensures CubeRoot(0x5_06ca6351, 127) && CubeRoot(0x5_14292967, 131)
  {
  }

  lemma CubeRoots3Fit()
    ensures IsCubeRoot(24) && IsCubeRoot(25) && IsCubeRoot(26) && IsCubeRoot(27)
    ensures IsCubeRoot(28) && IsCubeRoot(29) && IsCubeRoot(30) && IsCubeRoot(31)
  {
    Cubes3();
    hide CubeRoot;
  }

  lemma Cubes4()
    ensures CubeRoot(0x5_27b70a85, 137) && CubeRoot(0x5_2e1b2138, 139)
    ensures CubeRoot(0x5_4d2c6dfc, 149) && CubeRoot(0x5_53380d13, 151)
    ensures CubeRoot(0x5_650a7354, 157) && CubeRoot(0x5_766a0abb, 163)
    ensures CubeRoot(0x5_81c2c92e, 167) && CubeRoot(0x5_92722c85, 173)
  {
  }

  lemma CubeRoots4Fit()
    ensures IsCubeRoot(32) && IsCubeRoot(33) && IsCubeRoot(34) && IsCubeRoot(35)
    ensures IsCubeRoot(36) && IsCubeRoot(37) && IsCubeRoot(38) && IsCubeRoot(39)
  {
    Cubes4();
    hide CubeRoot;
  }

  lemma Cubes5()
    ensures CubeRoot(0x5_a2bfe8a1, 179) && CubeRoot(0x5_a81a664b, 181)
    ensures CubeRoot(0x5_c24b8b70, 191) && CubeRoot(0x5_c76c51a3, 193)
    ensures CubeRoot(0x5_d192e819, 197) && CubeRoot(0x5_d6990624, 199)
    ensures CubeRoot(0x5_f40e3585, 211) && CubeRoot(0x6_106aa070, 223)
  {
  }

  lemma CubeRoots5Fit()
    ensures IsCubeRoot(40) && IsCubeRoot(41) && IsCubeRoot(42) && IsCubeRoot(43)
    ensures IsCubeRoot(44) && IsCubeRoot(45) && IsCubeRoot(46) && IsCubeRoot(47)
  {
    Cubes5();
    hide CubeRoot;
  }

  lemma Cubes6()
    ensures CubeRoot(0x6_19a4c116, 227) && CubeRoot(0x6_1e376c08, 229)
    ensures CubeRoot(0x6_2748774c, 233) && CubeRoot(0x6_34b0bcb5, 239)
    ensures CubeRoot(0x6_391c0cb3, 241) && CubeRoot(0x6_4ed8aa4a, 251)
    ensures CubeRoot(0x6_5b9cca4f, 257) && CubeRoot(0x6_682e6ff3, 263)
  {
  }

  lemma CubeRoots6Fit()
    ensures IsCubeRoot(48) && IsCubeRoot(49) && IsCubeRoot(50) && IsCubeRoot(51)
    ensures IsCubeRoot(52) && IsCubeRoot(53) && IsCubeRoot(54) && IsCubeRoot(55)
  {
    Cubes6();
    hide CubeRoot;
  }

  lemma Cubes7()
    ensures CubeRoot(0x6_748f82ee, 269) && CubeRoot(0x6_78a5636f, 271)
    ensures CubeRoot(0x6_84c87814, 277) && CubeRoot(0x6_8cc70208, 281)
    ensures CubeRoot(0x6_90befffa, 283) && CubeRoot(0x6_a4506ceb, 293)
    ensures CubeRoot(0x6_bef9a3f7, 307) && CubeRoot(0x6_c67178f2, 311)
  {
  }

  lemma CubeRoots7Fit()
    ensures IsCubeRoot(56) && IsCubeRoot(57) && IsCubeRoot(58) && IsCubeRoot(59)
    ensures IsCubeRoot(60) && IsCubeRoot(61) && IsCubeRoot(62) && IsCubeRoot(63)
  {
    Cubes7();
    hide CubeRoot;
  }

  lemma EarlyCubeRoots(t: nat)
    requires t < 32
    ensures IsCubeRoot(t)
  {
    hide IsCubeRoot, CubeRoot, Scaled, CubeFloor, K, Prime;
    if t < 8 {
      CubeRoots0Fit();
    } else if t < 16 {
      CubeRoots1Fit();
    } else if t < 24 {
      CubeRoots2Fit();
    } else {
      CubeRoots3Fit();
    }
  }

  lemma LateCubeRoots(t: nat)
    requires 32 <= t < 64
    ensures IsCubeRoot(t)
  {
    hide IsCubeRoot, CubeRoot, Scaled, CubeFloor, K, Prime;
    if t < 40 {
      CubeRoots4Fit();
    } else if t < 48 {
      CubeRoots5Fit();
    } else if t < 56 {
      CubeRoots6Fit();
    } else {
      CubeRoots7Fit();
    }
  }

  lemma EarlyPrimes(t: nat)
    requires t < 32
    ensures IsNext(t)
  {
    hide IsNext, Gap, Prime;
    if t < 8 {
      Primes0Fit();
    } else if t < 16 {
      Primes1Fit();
    } else if t < 24 {
      Primes2Fit();
    } else {
      Primes3Fit();
    }
  }

  lemma LatePrimes(t: nat)
    requires 32 <= t < 63
    ensures IsNext(t)
  {
    hide IsNext, Gap, Prime;
    if t < 40 {
      Primes4Fit();
    } else if t < 48 {
      Primes5Fit();
    } else if t < 56 {
      Primes6Fit();
    } else {
      Primes7Fit();
    }
  }

  /** `Prime` lists the primes from 2 on without a gap. */
  lemma PrimesWithoutGap(t: nat)
    requires t < 63
    ensures Prime(0) == 2 && IsPrime(Prime(t)) && Prime(t) < Prime(t + 1)
    ensures forall n :: Prime(t) < n < Prime(t + 1) ==> !IsPrime(n)
  {
    assert Prime(0) == 2;
    hide Prime, Sieved, NoneUpTo, IsPrime;
    if t < 32 {
      EarlyPrimes(t);
    } else {
      LatePrimes(t);
    }
    assert Prime(t) >= 2 by { IncreasingFrom2(t); }
    SievedIsPrime(Prime(t));
    forall n | Prime(t) < n < Prime(t + 1) ensures !IsPrime(n) {
      NoneBetween(Prime(t) + 1, Prime(t + 1), n);
      SievedIsPrime(n);
    }
  }

  lemma {:induction false} IncreasingFrom2(t: nat)
    requires t < 63
    ensures Prime(t) >= 2
  {
    if t > 0 {
      IncreasingFrom2(t - 1);
      if t - 1 < 32 {
        EarlyPrimes(t - 1);
      } else {
        LatePrimes(t - 1);
      }
    }
  }

  /** The round constants are the fractional parts of the cube roots of the first
      64 primes. */
  lemma ConstantsAreCubeRoots(t: nat)
    requires t < 64
    ensures CubeRoot(Scaled(K(t), CubeFloor(t)), Prime(t))
  {
    hide K, Prime, CubeRoot, Scaled, CubeFloor;
    if t < 32 {
      EarlyCubeRoots(t);
    } else {
      LateCubeRoots(t);
    }
  }
}
