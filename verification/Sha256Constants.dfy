// The constants and bit functions of SHA-256 in terms other than their own definition: roots of primes, choice,
// majority and the movement of bits.
module Sha256Constants {
  import opened Bytes
  import opened Sha256

  // ---- the constants ----

  const PRIMES: seq<nat> :=
    [2, 3, 5, 7, 11, 13, 17, 19] +
    [23, 29, 31, 37, 41, 43, 47, 53] +
    [59, 61, 67, 71, 73, 79, 83, 89] +
    [97, 101, 103, 107, 109, 113, 127, 131] +
    [137, 139, 149, 151, 157, 163, 167, 173] +
    [179, 181, 191, 193, 197, 199, 211, 223] +
    [227, 229, 233, 239, 241, 251, 257, 263] +
    [269, 271, 277, 281, 283, 293, 307, 311]

  ghost predicate Prime(n: nat) { n >= 2 && forall d :: 2 <= d < n ==> n % d != 0 }

  predicate SmallPrime(p: nat) { p == 2 || p == 3 || p == 5 || p == 7 || p == 11 || p == 13 || p == 17 }

  // No small prime other than itself divides it.
  predicate Sieved(n: nat) {
    && (n == 2 || n % 2 != 0) && (n == 3 || n % 3 != 0) && (n == 5 || n % 5 != 0) && (n == 7 || n % 7 != 0)
    && (n == 11 || n % 11 != 0) && (n == 13 || n % 13 != 0) && (n == 17 || n % 17 != 0)
  }

  lemma HasSmallFactor(m: nat) returns (q: nat, a: nat)
    requires 2 <= m <= 18
    ensures SmallPrime(q) && q <= m && m == q * a
  {
    if m % 2 == 0 {
      q, a := 2, m / 2;
    } else if m % 3 == 0 {
      q, a := 3, m / 3;
    } else {
      q, a := m, 1;
    }
  }

  lemma Multiples(x: nat)
    ensures (2 * x) % 2 == 0 && (3 * x) % 3 == 0 && (5 * x) % 5 == 0 && (7 * x) % 7 == 0
    ensures (11 * x) % 11 == 0 && (13 * x) % 13 == 0 && (17 * x) % 17 == 0
  {
  }

  lemma Regroup(q: nat, a: nat, k: nat)
    ensures (q * a) * k == q * (a * k)
  {
  }

  lemma FactorOfProduct(q: nat, a: nat, k: nat)
    requires SmallPrime(q)
    ensures ((q * a) * k) % q == 0
  {
    Regroup(q, a, k);
    Multiples(a * k);
  }

  lemma ProductBounds(d: nat, e: nat)
    ensures d >= 19 && e >= 19 ==> d * e >= 361
    ensures e <= 1 ==> d * e <= d
    ensures d >= 2 ==> d * e >= 2 * e
  {
  }

  lemma SievedIsPrime(n: nat, d: nat)
    requires Sieved(n) && n < 361 && 2 <= d < n
    ensures n % d != 0
  {
    if n % d == 0 {
      var e := n / d;
      assert n == d * e;
      var m, k := if d <= e then d else e, if d <= e then e else d;
      assert m * k == n;
      ProductBounds(d, e);
      var q, a := HasSmallFactor(m);
      FactorOfProduct(q, a, k);
    }
  }

  lemma PrimeIsSieved(n: nat)
    requires 2 <= n < 361
    ensures Prime(n) == Sieved(n)
  {
    if Sieved(n) {
      forall d | 2 <= d < n
        ensures n % d != 0
      {
        SievedIsPrime(n, d);
      }
    }
  }

  // The next prime after p is q.
  ghost predicate NextPrime(p: nat, q: nat) { p < q && Prime(q) && forall n :: p < n < q ==> !Prime(n) }

  // The numbers after p and before q are not sieved.
  predicate NoneBetween(p: nat, q: nat)
    decreases q - p
  {
    p + 1 < q ==> !Sieved(p + 1) && NoneBetween(p + 1, q)
  }

  predicate NextSieved(p: nat, q: nat) { p < q && Sieved(q) && NoneBetween(p, q) }

  lemma {:induction false} NoneIsSieved(p: nat, q: nat, n: nat)
    requires NoneBetween(p, q) && p < n < q
    ensures !Sieved(n)
    decreases q - p
  {
    hide Sieved;
    if n > p + 1 { NoneIsSieved(p + 1, q, n); }
  }

  lemma SievedIsNext(p: nat, q: nat)
    requires 1 <= p && 2 <= q < 361 && NextSieved(p, q)
    ensures NextPrime(p, q)
  {
    hide Sieved, Prime;
    PrimeIsSieved(q);
    forall n | p < n < q
      ensures !Prime(n)
    {
      NoneIsSieved(p, q, n);
      PrimeIsSieved(n);
    }
  }

  // k is what follows the binary point of the cube root of p, to 32 places; c is what precedes it.
  predicate CubeRootBits(p: nat, c: nat, k: Word) {
    var r := c * 0x1_0000_0000 + k as int;
    r * r * r <= p * 0x1_0000_0000_0000_0000_0000_0000 < (r + 1) * (r + 1) * (r + 1)
  }

  // And of the square root.
  predicate SquareRootBits(p: nat, c: nat, k: Word) {
    var r := c * 0x1_0000_0000 + k as int;
    r * r <= p * 0x1_0000_0000_0000_0000 < (r + 1) * (r + 1)
  }

  function CubeRoot(p: nat): nat {
    if p < 8 then 1 else if p < 27 then 2 else if p < 64 then 3 else if p < 125 then 4 else if p < 216 then 5 else 6
  }

  predicate RoundConstant(i: nat)
    requires i < 64 && |PRIMES| == |K| == 64
  {
    && (if i == 0 then PRIMES[0] == 2 else NextSieved(PRIMES[i - 1], PRIMES[i]))
    && CubeRootBits(PRIMES[i], CubeRoot(PRIMES[i]), K[i])
  }

  lemma Lengths()
    ensures |PRIMES| == |K| == 64
  {
  }

  lemma Cubes0()
    ensures CubeRootBits(2, 1, 0x428a_2f98) && CubeRootBits(3, 1, 0x7137_4491)
    ensures CubeRootBits(5, 1, 0xb5c0_fbcf) && CubeRootBits(7, 1, 0xe9b5_dba5)
  {
  }

  lemma Cubes4()
    ensures CubeRootBits(11, 2, 0x3956_c25b) && CubeRootBits(13, 2, 0x59f1_11f1)
    ensures CubeRootBits(17, 2, 0x923f_82a4) && CubeRootBits(19, 2, 0xab1c_5ed5)
  {
  }

  lemma Primes0()
    ensures NextSieved(1, 2) && NextSieved(2, 3) && NextSieved(3, 5) && NextSieved(5, 7)
    ensures NextSieved(7, 11) && NextSieved(11, 13) && NextSieved(13, 17) && NextSieved(17, 19)
  {
  }

  lemma Constants0(i: nat)
    requires 0 <= i < 8 && |PRIMES| == |K| == 64
    ensures RoundConstant(i)
  {
    hide CubeRootBits, NextSieved;
    Cubes0();
    Cubes4();
    Primes0();
  }

  lemma Cubes8()
    ensures CubeRootBits(23, 2, 0xd807_aa98) && CubeRootBits(29, 3, 0x1283_5b01)
    ensures CubeRootBits(31, 3, 0x2431_85be) && CubeRootBits(37, 3, 0x550c_7dc3)
  {
  }

  lemma Cubes12()
    ensures CubeRootBits(41, 3, 0x72be_5d74) && CubeRootBits(43, 3, 0x80de_b1fe)
    ensures CubeRootBits(47, 3, 0x9bdc_06a7) && CubeRootBits(53, 3, 0xc19b_f174)
  {
  }

  lemma Primes8()
    ensures NextSieved(19, 23) && NextSieved(23, 29) && NextSieved(29, 31) && NextSieved(31, 37)
    ensures NextSieved(37, 41) && NextSieved(41, 43) && NextSieved(43, 47) && NextSieved(47, 53)
  {
  }

  lemma Constants8(i: nat)
    requires 8 <= i < 16 && |PRIMES| == |K| == 64
    ensures RoundConstant(i)
  {
    hide CubeRootBits, NextSieved;
    Cubes8();
    Cubes12();
    Primes8();
  }

  lemma Cubes16()
    ensures CubeRootBits(59, 3, 0xe49b_69c1) && CubeRootBits(61, 3, 0xefbe_4786)
    ensures CubeRootBits(67, 4, 0x0fc1_9dc6) && CubeRootBits(71, 4, 0x240c_a1cc)
  {
  }

  lemma Cubes20()
    ensures CubeRootBits(73, 4, 0x2de9_2c6f) && CubeRootBits(79, 4, 0x4a74_84aa)
    ensures CubeRootBits(83, 4, 0x5cb0_a9dc) && CubeRootBits(89, 4, 0x76f9_88da)
  {
  }

  lemma Primes16()
    ensures NextSieved(53, 59) && NextSieved(59, 61) && NextSieved(61, 67) && NextSieved(67, 71)
    ensures NextSieved(71, 73) && NextSieved(73, 79) && NextSieved(79, 83) && NextSieved(83, 89)
  {
  }

  lemma Constants16(i: nat)
    requires 16 <= i < 24 && |PRIMES| == |K| == 64
    ensures RoundConstant(i)
  {
    hide CubeRootBits, NextSieved;
    Cubes16();
    Cubes20();
    Primes16();
  }

  lemma Cubes24()
    ensures CubeRootBits(97, 4, 0x983e_5152) && CubeRootBits(101, 4, 0xa831_c66d)
    ensures CubeRootBits(103, 4, 0xb003_27c8) && CubeRootBits(107, 4, 0xbf59_7fc7)
  {
  }

  lemma Cubes28()
    ensures CubeRootBits(109, 4, 0xc6e0_0bf3) && CubeRootBits(113, 4, 0xd5a7_9147)
    ensures CubeRootBits(127, 5, 0x06ca_6351) && CubeRootBits(131, 5, 0x1429_2967)
  {
  }

  lemma Primes24()
    ensures NextSieved(89, 97) && NextSieved(97, 101) && NextSieved(101, 103) && NextSieved(103, 107)
    ensures NextSieved(107, 109) && NextSieved(109, 113) && NextSieved(113, 127) && NextSieved(127, 131)
  {
  }

  lemma Constants24(i: nat)
    requires 24 <= i < 32 && |PRIMES| == |K| == 64
    ensures RoundConstant(i)
  {
    hide CubeRootBits, NextSieved;
    Cubes24();
    Cubes28();
    Primes24();
  }

  lemma Cubes32()
    ensures CubeRootBits(137, 5, 0x27b7_0a85) && CubeRootBits(139, 5, 0x2e1b_2138)
    ensures CubeRootBits(149, 5, 0x4d2c_6dfc) && CubeRootBits(151, 5, 0x5338_0d13)
  {
  }

  lemma Cubes36()
    ensures CubeRootBits(157, 5, 0x650a_7354) && CubeRootBits(163, 5, 0x766a_0abb)
    ensures CubeRootBits(167, 5, 0x81c2_c92e) && CubeRootBits(173, 5, 0x9272_2c85)
  {
  }

  lemma Primes32()
    ensures NextSieved(131, 137) && NextSieved(137, 139) && NextSieved(139, 149) && NextSieved(149, 151)
    ensures NextSieved(151, 157) && NextSieved(157, 163) && NextSieved(163, 167) && NextSieved(167, 173)
  {
  }

  lemma Constants32(i: nat)
    requires 32 <= i < 40 && |PRIMES| == |K| == 64
    ensures RoundConstant(i)
  {
    hide CubeRootBits, NextSieved;
    Cubes32();
    Cubes36();
    Primes32();
  }

  lemma Cubes40()
    ensures CubeRootBits(179, 5, 0xa2bf_e8a1) && CubeRootBits(181, 5, 0xa81a_664b)
    ensures CubeRootBits(191, 5, 0xc24b_8b70) && CubeRootBits(193, 5, 0xc76c_51a3)
  {
  }

  lemma Cubes44()
    ensures CubeRootBits(197, 5, 0xd192_e819) && CubeRootBits(199, 5, 0xd699_0624)
    ensures CubeRootBits(211, 5, 0xf40e_3585) && CubeRootBits(223, 6, 0x106a_a070)
  {
  }

  lemma Primes40()
    ensures NextSieved(173, 179) && NextSieved(179, 181) && NextSieved(181, 191) && NextSieved(191, 193)
    ensures NextSieved(193, 197) && NextSieved(197, 199) && NextSieved(199, 211) && NextSieved(211, 223)
  {
  }

  lemma Constants40(i: nat)
    requires 40 <= i < 48 && |PRIMES| == |K| == 64
    ensures RoundConstant(i)
  {
    hide CubeRootBits, NextSieved;
    Cubes40();
    Cubes44();
    Primes40();
  }

  lemma Cubes48()
    ensures CubeRootBits(227, 6, 0x19a4_c116) && CubeRootBits(229, 6, 0x1e37_6c08)
    ensures CubeRootBits(233, 6, 0x2748_774c) && CubeRootBits(239, 6, 0x34b0_bcb5)
  {
  }

  lemma Cubes52()
    ensures CubeRootBits(241, 6, 0x391c_0cb3) && CubeRootBits(251, 6, 0x4ed8_aa4a)
    ensures CubeRootBits(257, 6, 0x5b9c_ca4f) && CubeRootBits(263, 6, 0x682e_6ff3)
  {
  }

  lemma Primes48()
    ensures NextSieved(223, 227) && NextSieved(227, 229) && NextSieved(229, 233) && NextSieved(233, 239)
    ensures NextSieved(239, 241) && NextSieved(241, 251) && NextSieved(251, 257) && NextSieved(257, 263)
  {
  }

  lemma Constants48(i: nat)
    requires 48 <= i < 56 && |PRIMES| == |K| == 64
    ensures RoundConstant(i)
  {
    hide CubeRootBits, NextSieved;
    Cubes48();
    Cubes52();
    Primes48();
  }

  lemma Cubes56()
    ensures CubeRootBits(269, 6, 0x748f_82ee) && CubeRootBits(271, 6, 0x78a5_636f)
    ensures CubeRootBits(277, 6, 0x84c8_7814) && CubeRootBits(281, 6, 0x8cc7_0208)
  {
  }

  lemma Cubes60()
    ensures CubeRootBits(283, 6, 0x90be_fffa) && CubeRootBits(293, 6, 0xa450_6ceb)
    ensures CubeRootBits(307, 6, 0xbef9_a3f7) && CubeRootBits(311, 6, 0xc671_78f2)
  {
  }

  lemma Primes56()
    ensures NextSieved(263, 269) && NextSieved(269, 271) && NextSieved(271, 277) && NextSieved(277, 281)
    ensures NextSieved(281, 283) && NextSieved(283, 293) && NextSieved(293, 307) && NextSieved(307, 311)
  {
  }

  lemma Constants56(i: nat)
    requires 56 <= i < 64 && |PRIMES| == |K| == 64
    ensures RoundConstant(i)
  {
    hide CubeRootBits, NextSieved;
    Cubes56();
    Cubes60();
    Primes56();
  }

  lemma AllConstants(i: nat)
    requires i < 64 && |PRIMES| == |K| == 64
    ensures RoundConstant(i)
  {
    hide RoundConstant, K, PRIMES;
    if i < 8 { Constants0(i); }
    else if i < 16 { Constants8(i); }
    else if i < 24 { Constants16(i); }
    else if i < 32 { Constants24(i); }
    else if i < 40 { Constants32(i); }
    else if i < 48 { Constants40(i); }
    else if i < 56 { Constants48(i); }
    else { Constants56(i); }
  }

  lemma {:induction false} InRange(i: nat)
    requires i < 64 && |PRIMES| == |K| == 64
    ensures 2 <= PRIMES[i] < 361
  {
  }

  // The round constants are the first 32 bits of the fractional parts of the cube roots of the first 64 primes
  // (section 4.2.2).
  lemma RoundConstants(i: nat)
    requires i < 64
    ensures |PRIMES| == |K| == 64
    ensures CubeRootBits(PRIMES[i], CubeRoot(PRIMES[i]), K[i])
    ensures if i == 0 then PRIMES[0] == 2 else NextPrime(PRIMES[i - 1], PRIMES[i])
  {
    hide CubeRootBits, NextSieved, NextPrime, K, PRIMES, CubeRoot;
    Lengths();
    AllConstants(i);
    InRange(i);
    if i > 0 {
      InRange(i - 1);
      SievedIsNext(PRIMES[i - 1], PRIMES[i]);
    }
  }

  function SquareRoot(p: nat): nat { if p < 4 then 1 else if p < 9 then 2 else if p < 16 then 3 else 4 }

  lemma Squares()
    ensures SquareRootBits(2, 1, 0x6a09_e667) && SquareRootBits(3, 1, 0xbb67_ae85)
    ensures SquareRootBits(5, 2, 0x3c6e_f372) && SquareRootBits(7, 2, 0xa54f_f53a)
    ensures SquareRootBits(11, 3, 0x510e_527f) && SquareRootBits(13, 3, 0x9b05_688c)
    ensures SquareRootBits(17, 4, 0x1f83_d9ab) && SquareRootBits(19, 4, 0x5be0_cd19)
  {
  }

  // And the initial hash value those of the square roots of the first eight (section 5.3.3).
  lemma InitialHashValue(i: nat)
    requires i < 8
    ensures |PRIMES| == 64 && SquareRootBits(PRIMES[i], SquareRoot(PRIMES[i]), H0[i])
  {
    hide SquareRootBits;
    Squares();
  }

  // ---- the functions, bit by bit ----

  // Where x has a one, Ch has the bit of y, and where x has a zero, that of z.
  lemma ChChooses(x: Word, y: Word, z: Word)
    ensures Ch(x, y, z) & x == y & x
    ensures Ch(x, y, z) & !x == z & !x
  {
  }

  // Where x and y have the same bit, Maj has it; where they differ, z decides.
  lemma MajIsMajority(x: Word, y: Word, z: Word)
    ensures Maj(x, y, z) & !(x ^ y) == x & !(x ^ y)
    ensures Maj(x, y, z) & (x ^ y) == z & (x ^ y)
  {
  }

  predicate Bit(x: Word, i: bv5) { (x >> i) & 1 == 1 }

  // Bit i + n goes to place i, going round; for the ten amounts that occur.
  lemma RotrMovesBits(x: Word, n: bv6, i: bv5)
    requires n == 2 || n == 6 || n == 7 || n == 11 || n == 13 || n == 17 || n == 18 || n == 19 || n == 22 || n == 25
    ensures Bit(Rotr(x, n), i) == Bit(x, i + (n as bv5))
  {
    if n == 2 {
    } else if n == 6 {
    } else if n == 7 {
    } else if n == 11 {
    } else if n == 13 {
    } else if n == 17 {
    } else if n == 18 {
    } else if n == 19 {
    } else if n == 22 {
    } else {
    }
  }
}
