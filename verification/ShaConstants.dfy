/** The constants of SHA-256 are the numbers FIPS 180-4 describes: the first 32 bits
    of the fractional parts of the cube roots of the first 64 primes (section 4.2.2)
    and of the square roots of the first eight (section 5.3.3). */
module ShaConstants {
  import opened Sha256
  import opened Bits

  // ---------- primes ----------

  function Product(a: nat, b: nat): nat { a * b }

  /** At least two, and no product of two such numbers. */
  ghost predicate IsPrime(n: nat) { n >= 2 && forall a: nat, b: nat | a >= 2 && b >= 2 :: Product(a, b) != n }

  /** A divisor among the primes below 18. */
  predicate SmallFactor(n: nat) {
    n % 2 == 0 || n % 3 == 0 || n % 5 == 0 || n % 7 == 0 || n % 11 == 0 || n % 13 == 0 || n % 17 == 0
  }

  /** Trial division for numbers below 18 * 18. */
  predicate Prime(n: nat) {
    if n < 18 then n == 2 || n == 3 || n == 5 || n == 7 || n == 11 || n == 13 || n == 17 else !SmallFactor(n)
  }

  lemma Large(a: nat, b: nat)
    requires 18 <= a <= b
    ensures Product(a, b) >= 324
  {
    assert a * b >= 18 * b;
  }

  lemma Scaled(f: nat, c: nat, b: nat)
    ensures Product(f * c, b) == f * Product(c, b)
  {
  }

  lemma MultipleOf(f: nat, c: nat, b: nat)
    requires f > 0
    ensures Product(f * c, b) % f == 0
  {
    Scaled(f, c, b);
    Remainder(Product(f * c, b), f, Product(c, b), 0);
  }

  lemma HasSmallFactor(n: nat, f: nat)
    requires (f == 2 || f == 3 || f == 5 || f == 7 || f == 11 || f == 13 || f == 17) && n % f == 0
    ensures SmallFactor(n)
  {
  }

  lemma SmallMultiple(a: nat, b: nat)
    requires 2 <= a < 18
    ensures SmallFactor(Product(a, b))
  {
    var f := if a % 2 == 0 then 2 else if a % 3 == 0 then 3 else if a % 5 == 0 then 5 else a;
    MultipleOf(f, a / f, b);
    HasSmallFactor(Product(a, b), f);
  }

  lemma NoFactor(n: nat, a: nat, b: nat)
    requires n < 324 && Prime(n) && 2 <= a <= b
    ensures Product(a, b) != n
  {
    if a < 18 {
      SmallMultiple(a, b);
      if n < 18 { SmallProduct(a, b); }
    } else {
      Large(a, b);
    }
  }

  lemma SmallProduct(a: nat, b: nat)
    requires 2 <= a <= b
    ensures Product(a, b) < 18 ==> !Prime(Product(a, b))
  {
    if a == 2 { assert Product(a, b) == 2 * b; }
    else if a == 3 { assert Product(a, b) == 3 * b; }
    else if a == 4 { assert Product(a, b) == 4 * b; }
    else { assert a * b >= 5 * b; }
  }

  lemma TrialFindsPrimes(n: nat)
    requires n < 324 && Prime(n)
    ensures IsPrime(n)
  {
    forall a: nat, b: nat | a >= 2 && b >= 2 ensures Product(a, b) != n {
      if a <= b {
        NoFactor(n, a, b);
      } else {
        NoFactor(n, b, a);
        assert Product(a, b) == Product(b, a);
      }
    }
  }

  lemma TrialFindsComposites(n: nat)
    requires !Prime(n)
    ensures !IsPrime(n)
  {
    if n >= 2 {
      if n % 2 == 0 { assert Product(2, n / 2) == n; }
      else if n % 3 == 0 { assert Product(3, n / 3) == n; }
      else if n % 5 == 0 { assert Product(5, n / 5) == n; }
      else if n % 7 == 0 { assert Product(7, n / 7) == n; }
      else if n % 11 == 0 { assert Product(11, n / 11) == n; }
      else if n % 13 == 0 { assert Product(13, n / 13) == n; }
      else { assert Product(17, n / 17) == n; }
    }
  }

  /** No prime lies strictly between. */
  ghost predicate Gap(a: nat, b: nat) { forall n: nat | a < n < b :: !IsPrime(n) }

  // ---------- roots ----------

  function Square(x: int): int { x * x }
  function Cube(x: int): int { x * x * x }

  /** `k` is the first 32 bits of the fractional part of the cube root of `p`: the
      low 32 bits of the integer part of the cube root of p * 2^96. */
  ghost predicate CubeFraction(k: Word, p: nat) {
    exists r: nat :: Cube(r) <= p * 0x1_0000_0000_0000_0000_0000_0000 < Cube(r + 1) && k == r % 0x1_0000_0000
  }

  /** The same for the square root. */
  ghost predicate SquareFraction(h: Word, p: nat) {
    exists r: nat :: Square(r) <= p * 0x1_0000_0000_0000_0000 < Square(r + 1) && h == r % 0x1_0000_0000
  }

  lemma CubeRoot(r: nat, p: nat, k: Word)
    requires Cube(r) <= p * 0x1_0000_0000_0000_0000_0000_0000 < Cube(r + 1) && k == r % 0x1_0000_0000
    ensures CubeFraction(k, p)
  {
  }

  lemma SquareRoot(r: nat, p: nat, h: Word)
    requires Square(r) <= p * 0x1_0000_0000_0000_0000 < Square(r + 1) && h == r % 0x1_0000_0000
    ensures SquareFraction(h, p)
  {
  }

  function NonePrime(a: nat, b: nat): bool
    decreases b - a
  {
    a >= b || (!Prime(a) && NonePrime(a + 1, b))
  }

  lemma {:induction false} NoneIsPrime(a: nat, b: nat, n: nat)
    requires NonePrime(a, b) && a <= n < b
    ensures !IsPrime(n)
    decreases b - a
  {
    if n == a { TrialFindsComposites(n); } else { NoneIsPrime(a + 1, b, n); }
  }

  /** The next prime after `before`, where `first` is the number after it. */
  lemma Next(before: nat, first: nat, p: nat)
    requires before + 1 == first <= p < 324 && NonePrime(first, p) && Prime(p)
    ensures before < p && IsPrime(p) && Gap(before, p)
  {
    TrialFindsPrimes(p);
    forall n: nat | before < n < p ensures !IsPrime(n) { NoneIsPrime(first, p, n); }
  }

  const P0: seq<nat> := [2, 3, 5, 7, 11, 13, 17, 19]
  const P1: seq<nat> := [23, 29, 31, 37, 41, 43, 47, 53]
  const P2: seq<nat> := [59, 61, 67, 71, 73, 79, 83, 89]
  const P3: seq<nat> := [97, 101, 103, 107, 109, 113, 127, 131]
  const P4: seq<nat> := [137, 139, 149, 151, 157, 163, 167, 173]
  const P5: seq<nat> := [179, 181, 191, 193, 197, 199, 211, 223]
  const P6: seq<nat> := [227, 229, 233, 239, 241, 251, 257, 263]
  const P7: seq<nat> := [269, 271, 277, 281, 283, 293, 307, 311]

  /** The first 64 primes. */
  const PRIMES: seq<nat> := P0 + P1 + P2 + P3 + P4 + P5 + P6 + P7

  lemma Primes0(i: nat)
    requires i < 8
    ensures var before := if i == 0 then 1 else P0[i - 1];
            before < P0[i] && IsPrime(P0[i]) && Gap(before, P0[i])
  {
    match i
    case 0 => Next(1, 2, 2);
    case 1 => Next(2, 3, 3);
    case 2 => Next(3, 4, 5);
    case 3 => Next(5, 6, 7);
    case 4 => Next(7, 8, 11);
    case 5 => Next(11, 12, 13);
    case 6 => Next(13, 14, 17);
    case _ => Next(17, 18, 19);
  }

  lemma Primes1(i: nat)
    requires i < 8
    ensures var before := if i == 0 then 19 else P1[i - 1];
            before < P1[i] && IsPrime(P1[i]) && Gap(before, P1[i])
  {
    match i
    case 0 => Next(19, 20, 23);
    case 1 => Next(23, 24, 29);
    case 2 => Next(29, 30, 31);
    case 3 => Next(31, 32, 37);
    case 4 => Next(37, 38, 41);
    case 5 => Next(41, 42, 43);
    case 6 => Next(43, 44, 47);
    case _ => Next(47, 48, 53);
  }

  lemma Primes2(i: nat)
    requires i < 8
    ensures var before := if i == 0 then 53 else P2[i - 1];
            before < P2[i] && IsPrime(P2[i]) && Gap(before, P2[i])
  {
    match i
    case 0 => Next(53, 54, 59);
    case 1 => Next(59, 60, 61);
    case 2 => Next(61, 62, 67);
    case 3 => Next(67, 68, 71);
    case 4 => Next(71, 72, 73);
    case 5 => Next(73, 74, 79);
    case 6 => Next(79, 80, 83);
    case _ => Next(83, 84, 89);
  }

  lemma Primes3(i: nat)
    requires i < 8
    ensures var before := if i == 0 then 89 else P3[i - 1];
            before < P3[i] && IsPrime(P3[i]) && Gap(before, P3[i])
  {
    match i
    case 0 => Next(89, 90, 97);
    case 1 => Next(97, 98, 101);
    case 2 => Next(101, 102, 103);
    case 3 => Next(103, 104, 107);
    case 4 => Next(107, 108, 109);
    case 5 => Next(109, 110, 113);
    case 6 => Next(113, 114, 127);
    case _ => Next(127, 128, 131);
  }

  lemma Primes4(i: nat)
    requires i < 8
    ensures var before := if i == 0 then 131 else P4[i - 1];
            before < P4[i] && IsPrime(P4[i]) && Gap(before, P4[i])
  {
    match i
    case 0 => Next(131, 132, 137);
    case 1 => Next(137, 138, 139);
    case 2 => Next(139, 140, 149);
    case 3 => Next(149, 150, 151);
    case 4 => Next(151, 152, 157);
    case 5 => Next(157, 158, 163);
    case 6 => Next(163, 164, 167);
    case _ => Next(167, 168, 173);
  }

  lemma Primes5(i: nat)
    requires i < 8
    ensures var before := if i == 0 then 173 else P5[i - 1];
            before < P5[i] && IsPrime(P5[i]) && Gap(before, P5[i])
  {
    match i
    case 0 => Next(173, 174, 179);
    case 1 => Next(179, 180, 181);
    case 2 => Next(181, 182, 191);
    case 3 => Next(191, 192, 193);
    case 4 => Next(193, 194, 197);
    case 5 => Next(197, 198, 199);
    case 6 => Next(199, 200, 211);
    case _ => Next(211, 212, 223);
  }

  lemma Primes6(i: nat)
    requires i < 8
    ensures var before := if i == 0 then 223 else P6[i - 1];
            before < P6[i] && IsPrime(P6[i]) && Gap(before, P6[i])
  {
    match i
    case 0 => Next(223, 224, 227);
    case 1 => Next(227, 228, 229);
    case 2 => Next(229, 230, 233);
    case 3 => Next(233, 234, 239);
    case 4 => Next(239, 240, 241);
    case 5 => Next(241, 242, 251);
    case 6 => Next(251, 252, 257);
    case _ => Next(257, 258, 263);
  }

  lemma Primes7(i: nat)
    requires i < 8
    ensures var before := if i == 0 then 263 else P7[i - 1];
            before < P7[i] && IsPrime(P7[i]) && Gap(before, P7[i])
  {
    match i
    case 0 => Next(263, 264, 269);
    case 1 => Next(269, 270, 271);
    case 2 => Next(271, 272, 277);
    case 3 => Next(277, 278, 281);
    case 4 => Next(281, 282, 283);
    case 5 => Next(283, 284, 293);
    case 6 => Next(293, 294, 307);
    case _ => Next(307, 308, 311);
  }

  lemma Roots0(i: nat)
    requires i < 8
    ensures CubeFraction(K0[i], P0[i])
  {
    match i
    case 0 => CubeRoot(0x1_428a_2f98, 2, 0x428a_2f98);
    case 1 => CubeRoot(0x1_7137_4491, 3, 0x7137_4491);
    case 2 => CubeRoot(0x1_b5c0_fbcf, 5, 0xb5c0_fbcf);
    case 3 => CubeRoot(0x1_e9b5_dba5, 7, 0xe9b5_dba5);
    case 4 => CubeRoot(0x2_3956_c25b, 11, 0x3956_c25b);
    case 5 => CubeRoot(0x2_59f1_11f1, 13, 0x59f1_11f1);
    case 6 => CubeRoot(0x2_923f_82a4, 17, 0x923f_82a4);
    case _ => CubeRoot(0x2_ab1c_5ed5, 19, 0xab1c_5ed5);
  }

  lemma Roots1(i: nat)
    requires i < 8
    ensures CubeFraction(K1[i], P1[i])
  {
    match i
    case 0 => CubeRoot(0x2_d807_aa98, 23, 0xd807_aa98);
    case 1 => CubeRoot(0x3_1283_5b01, 29, 0x1283_5b01);
    case 2 => CubeRoot(0x3_2431_85be, 31, 0x2431_85be);
    case 3 => CubeRoot(0x3_550c_7dc3, 37, 0x550c_7dc3);
    case 4 => CubeRoot(0x3_72be_5d74, 41, 0x72be_5d74);
    case 5 => CubeRoot(0x3_80de_b1fe, 43, 0x80de_b1fe);
    case 6 => CubeRoot(0x3_9bdc_06a7, 47, 0x9bdc_06a7);
    case _ => CubeRoot(0x3_c19b_f174, 53, 0xc19b_f174);
  }

  lemma Roots2(i: nat)
    requires i < 8
    ensures CubeFraction(K2[i], P2[i])
  {
    match i
    case 0 => CubeRoot(0x3_e49b_69c1, 59, 0xe49b_69c1);
    case 1 => CubeRoot(0x3_efbe_4786, 61, 0xefbe_4786);
    case 2 => CubeRoot(0x4_0fc1_9dc6, 67, 0x0fc1_9dc6);
    case 3 => CubeRoot(0x4_240c_a1cc, 71, 0x240c_a1cc);
    case 4 => CubeRoot(0x4_2de9_2c6f, 73, 0x2de9_2c6f);
    case 5 => CubeRoot(0x4_4a74_84aa, 79, 0x4a74_84aa);
    case 6 => CubeRoot(0x4_5cb0_a9dc, 83, 0x5cb0_a9dc);
    case _ => CubeRoot(0x4_76f9_88da, 89, 0x76f9_88da);
  }

  lemma Roots3(i: nat)
    requires i < 8
    ensures CubeFraction(K3[i], P3[i])
  {
    match i
    case 0 => CubeRoot(0x4_983e_5152, 97, 0x983e_5152);
    case 1 => CubeRoot(0x4_a831_c66d, 101, 0xa831_c66d);
    case 2 => CubeRoot(0x4_b003_27c8, 103, 0xb003_27c8);
    case 3 => CubeRoot(0x4_bf59_7fc7, 107, 0xbf59_7fc7);
    case 4 => CubeRoot(0x4_c6e0_0bf3, 109, 0xc6e0_0bf3);
    case 5 => CubeRoot(0x4_d5a7_9147, 113, 0xd5a7_9147);
    case 6 => CubeRoot(0x5_06ca_6351, 127, 0x06ca_6351);
    case _ => CubeRoot(0x5_1429_2967, 131, 0x1429_2967);
  }

  lemma Roots4(i: nat)
    requires i < 8
    ensures CubeFraction(K4[i], P4[i])
  {
    match i
    case 0 => CubeRoot(0x5_27b7_0a85, 137, 0x27b7_0a85);
    case 1 => CubeRoot(0x5_2e1b_2138, 139, 0x2e1b_2138);
    case 2 => CubeRoot(0x5_4d2c_6dfc, 149, 0x4d2c_6dfc);
    case 3 => CubeRoot(0x5_5338_0d13, 151, 0x5338_0d13);
    case 4 => CubeRoot(0x5_650a_7354, 157, 0x650a_7354);
    case 5 => CubeRoot(0x5_766a_0abb, 163, 0x766a_0abb);
    case 6 => CubeRoot(0x5_81c2_c92e, 167, 0x81c2_c92e);
    case _ => CubeRoot(0x5_9272_2c85, 173, 0x9272_2c85);
  }

  lemma Roots5(i: nat)
    requires i < 8
    ensures CubeFraction(K5[i], P5[i])
  {
    match i
    case 0 => CubeRoot(0x5_a2bf_e8a1, 179, 0xa2bf_e8a1);
    case 1 => CubeRoot(0x5_a81a_664b, 181, 0xa81a_664b);
    case 2 => CubeRoot(0x5_c24b_8b70, 191, 0xc24b_8b70);
    case 3 => CubeRoot(0x5_c76c_51a3, 193, 0xc76c_51a3);
    case 4 => CubeRoot(0x5_d192_e819, 197, 0xd192_e819);
    case 5 => CubeRoot(0x5_d699_0624, 199, 0xd699_0624);
    case 6 => CubeRoot(0x5_f40e_3585, 211, 0xf40e_3585);
    case _ => CubeRoot(0x6_106a_a070, 223, 0x106a_a070);
  }

  lemma Roots6(i: nat)
    requires i < 8
    ensures CubeFraction(K6[i], P6[i])
  {
    match i
    case 0 => CubeRoot(0x6_19a4_c116, 227, 0x19a4_c116);
    case 1 => CubeRoot(0x6_1e37_6c08, 229, 0x1e37_6c08);
    case 2 => CubeRoot(0x6_2748_774c, 233, 0x2748_774c);
    case 3 => CubeRoot(0x6_34b0_bcb5, 239, 0x34b0_bcb5);
    case 4 => CubeRoot(0x6_391c_0cb3, 241, 0x391c_0cb3);
    case 5 => CubeRoot(0x6_4ed8_aa4a, 251, 0x4ed8_aa4a);
    case 6 => CubeRoot(0x6_5b9c_ca4f, 257, 0x5b9c_ca4f);
    case _ => CubeRoot(0x6_682e_6ff3, 263, 0x682e_6ff3);
  }

  lemma Roots7(i: nat)
    requires i < 8
    ensures CubeFraction(K7[i], P7[i])
  {
    match i
    case 0 => CubeRoot(0x6_748f_82ee, 269, 0x748f_82ee);
    case 1 => CubeRoot(0x6_78a5_636f, 271, 0x78a5_636f);
    case 2 => CubeRoot(0x6_84c8_7814, 277, 0x84c8_7814);
    case 3 => CubeRoot(0x6_8cc7_0208, 281, 0x8cc7_0208);
    case 4 => CubeRoot(0x6_90be_fffa, 283, 0x90be_fffa);
    case 5 => CubeRoot(0x6_a450_6ceb, 293, 0xa450_6ceb);
    case 6 => CubeRoot(0x6_bef9_a3f7, 307, 0xbef9_a3f7);
    case _ => CubeRoot(0x6_c671_78f2, 311, 0xc671_78f2);
  }

  function HashWord(i: nat): Word
    requires i < 8
  {
    match i
    case 0 => H0.a
    case 1 => H0.b
    case 2 => H0.c
    case 3 => H0.d
    case 4 => H0.e
    case 5 => H0.f
    case 6 => H0.g
    case _ => H0.h
  }

  /** The initial hash value belongs to the first eight primes. */
  lemma InitialHash(i: nat)
    requires i < 8
    ensures SquareFraction(HashWord(i), PRIMES[i])
  {
    match i
    case 0 => SquareRoot(0x1_6a09_e667, 2, 0x6a09_e667);
    case 1 => SquareRoot(0x1_bb67_ae85, 3, 0xbb67_ae85);
    case 2 => SquareRoot(0x2_3c6e_f372, 5, 0x3c6e_f372);
    case 3 => SquareRoot(0x2_a54f_f53a, 7, 0xa54f_f53a);
    case 4 => SquareRoot(0x3_510e_527f, 11, 0x510e_527f);
    case 5 => SquareRoot(0x3_9b05_688c, 13, 0x9b05_688c);
    case 6 => SquareRoot(0x4_1f83_d9ab, 17, 0x1f83_d9ab);
    case _ => SquareRoot(0x4_5be0_cd19, 19, 0x5be0_cd19);
  }

  // ---------- all constants ----------

  /** PRIMES[t] is prime, greater than the one before it, and no prime lies between. */
  lemma RowAt<T>(r0: seq<T>, r1: seq<T>, r2: seq<T>, r3: seq<T>, r4: seq<T>, r5: seq<T>, r6: seq<T>, r7: seq<T>, t: nat)
    requires |r0| == |r1| == |r2| == |r3| == |r4| == |r5| == |r6| == |r7| == 8 && t < 64
    ensures var all := r0 + r1 + r2 + r3 + r4 + r5 + r6 + r7;
            |all| == 64 && all[t] == if t < 8 then r0[t] else if t < 16 then r1[t - 8] else if t < 24 then r2[t - 16]
                                     else if t < 32 then r3[t - 24] else if t < 40 then r4[t - 32]
                                     else if t < 48 then r5[t - 40] else if t < 56 then r6[t - 48] else r7[t - 56]
  {
  }

  lemma PrimesAt(t: nat)
    requires t < 64
    ensures |PRIMES| == 64
    ensures PRIMES[t] == if t < 8 then P0[t] else if t < 16 then P1[t - 8] else if t < 24 then P2[t - 16]
                         else if t < 32 then P3[t - 24] else if t < 40 then P4[t - 32]
                         else if t < 48 then P5[t - 40] else if t < 56 then P6[t - 48] else P7[t - 56]
  {
    RowAt(P0, P1, P2, P3, P4, P5, P6, P7, t);
  }

  lemma PrimeInFirstHalf(t: nat)
    requires t < 32
    ensures IsPrime(PRIMES[t])
    ensures var before := if t == 0 then 1 else PRIMES[t - 1]; before < PRIMES[t] && Gap(before, PRIMES[t])
  {
    PrimesAt(t);
    if t > 0 { PrimesAt(t - 1); }
    if
    case 0 <= t < 8 => Primes0(t);
    case 8 <= t < 16 => Primes1(t - 8);
    case 16 <= t < 24 => Primes2(t - 16);
    case 24 <= t < 32 => Primes3(t - 24);
  }

  lemma PrimeInSecondHalf(t: nat)
    requires 32 <= t < 64
    ensures IsPrime(PRIMES[t])
    ensures PRIMES[t - 1] < PRIMES[t] && Gap(PRIMES[t - 1], PRIMES[t])
  {
    PrimesAt(t);
    PrimesAt(t - 1);
    if
    case 32 <= t < 40 => Primes4(t - 32);
    case 40 <= t < 48 => Primes5(t - 40);
    case 48 <= t < 56 => Primes6(t - 48);
    case 56 <= t < 64 => Primes7(t - 56);
  }

  lemma PrimeAt(t: nat)
    requires t < 64
    ensures IsPrime(PRIMES[t])
    ensures var before := if t == 0 then 1 else PRIMES[t - 1]; before < PRIMES[t] && Gap(before, PRIMES[t])
  {
    if t < 32 { PrimeInFirstHalf(t); } else { PrimeInSecondHalf(t); }
  }

  /** PRIMES[t] is the prime with index `t`: the primes up to it are those before it in
      the list, and itself. */
  lemma {:induction false} FirstPrimes(t: nat, n: nat)
    requires t < 64 && n <= PRIMES[t]
    ensures IsPrime(n) <==> exists i :: 0 <= i <= t && PRIMES[i] == n
  {
    PrimeAt(t);
    if t > 0 && n <= PRIMES[t - 1] { FirstPrimes(t - 1, n); }
    if i :| 0 <= i <= t && PRIMES[i] == n { PrimeAt(i); }
  }

  /** Every round constant is the first 32 bits of the fractional part of the cube root
      of the prime with its index. */
  lemma RoundConstants(t: nat)
    requires t < 64
    ensures |K| == 64 && CubeFraction(K[t], PRIMES[t])
  {
    RowAt(K0, K1, K2, K3, K4, K5, K6, K7, t);
    PrimesAt(t);
    if
    case 0 <= t < 8 => Roots0(t);
    case 8 <= t < 16 => Roots1(t - 8);
    case 16 <= t < 24 => Roots2(t - 16);
    case 24 <= t < 32 => Roots3(t - 24);
    case 32 <= t < 40 => Roots4(t - 32);
    case 40 <= t < 48 => Roots5(t - 40);
    case 48 <= t < 56 => Roots6(t - 48);
    case 56 <= t < 64 => Roots7(t - 56);
  }
}
