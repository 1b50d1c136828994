/** What the words of SHA-256 are, apart from how the program computes them: bit by bit, as roots of primes,
    and in one worked message (FIPS 180-4, sections 3.2, 4.1.2, 4.2.2, 5.3.3 and 6.2.2). */
module Sha256Standard {
  import opened Crc
  import opened Sha256

  // ---- bit by bit -----------------------------------------------------------------------------------------

  /** Bit `k` of a word, the lowest first. */
  predicate Bit(x: Word, k: bv32)
    requires k < 32
  {
    (x.v >> k) & 1 == 1
  }

  lemma FirstBit(x: Word)
    ensures Bit(x, 0) == Odd(x)
  {
  }

  lemma NextBit(x: Word, k: bv32)
    requires 0 < k < 32
    ensures Bit(x, k) == Bit(Half(x), k - 1)
  {
  }

  lemma HalfOfXor(x: Word, y: Word)
    ensures Half(Xor(x, y)) == Xor(Half(x), Half(y)) && (Odd(Xor(x, y)) <==> Odd(x) != Odd(y))
  {
  }

  lemma HalfOfAnd(x: Word, y: Word)
    ensures Half(And(x, y)) == And(Half(x), Half(y)) && (Odd(And(x, y)) <==> Odd(x) && Odd(y))
  {
  }

  lemma HalfOfCh(x: Word, y: Word, z: Word)
    ensures Half(Ch(x, y, z)) == Ch(Half(x), Half(y), Half(z))
    ensures Odd(Ch(x, y, z)) == if Odd(x) then Odd(y) else Odd(z)
  {
  }

  lemma {:induction false} XorBit(x: Word, y: Word, k: bv32)
    requires k < 32
    ensures Bit(Xor(x, y), k) <==> Bit(x, k) != Bit(y, k)
    decreases k
  {
    hide Bit, Xor, Half, Odd;
    HalfOfXor(x, y);
    if k == 0 {
      FirstBit(x);
      FirstBit(y);
      FirstBit(Xor(x, y));
    } else {
      NextBit(x, k);
      NextBit(y, k);
      NextBit(Xor(x, y), k);
      XorBit(Half(x), Half(y), k - 1);
    }
  }

  lemma {:induction false} AndBit(x: Word, y: Word, k: bv32)
    requires k < 32
    ensures Bit(And(x, y), k) <==> Bit(x, k) && Bit(y, k)
    decreases k
  {
    hide Bit, And, Half, Odd;
    HalfOfAnd(x, y);
    if k == 0 {
      FirstBit(x);
      FirstBit(y);
      FirstBit(And(x, y));
    } else {
      NextBit(x, k);
      NextBit(y, k);
      NextBit(And(x, y), k);
      AndBit(Half(x), Half(y), k - 1);
    }
  }

  /** Each bit of `x` chooses: the bit of `y` where it is one, that of `z` where it is zero. */
  lemma {:induction false} ChBit(x: Word, y: Word, z: Word, k: bv32)
    requires k < 32
    ensures Bit(Ch(x, y, z), k) == if Bit(x, k) then Bit(y, k) else Bit(z, k)
    decreases k
  {
    hide Bit, Ch, Half, Odd;
    HalfOfCh(x, y, z);
    if k == 0 {
      FirstBit(x);
      FirstBit(y);
      FirstBit(z);
      FirstBit(Ch(x, y, z));
    } else {
      NextBit(x, k);
      NextBit(y, k);
      NextBit(z, k);
      NextBit(Ch(x, y, z), k);
      ChBit(Half(x), Half(y), Half(z), k - 1);
    }
  }

  lemma NoShift(x: Word)
    ensures Shr(x, 0) == x && !Bit(Half(x), 31)
  {
  }

  lemma MoreShifts(x: Word, n: bv32)
    requires 0 < n < 32
    ensures Shr(x, n) == Shr(Half(x), n - 1)
  {
  }

  /** Shifting moves it too, but what falls off is lost. */
  lemma {:induction false} ShrBit(x: Word, n: bv32, k: bv32)
    requires n < 32 && k < 32
    ensures Bit(Shr(x, n), k) <==> k + n < 32 && Bit(x, k + n)
    decreases n
  {
    hide Bit, Shr, Half;
    NoShift(x);
    if n > 0 {
      MoreShifts(x, n);
      ShrBit(Half(x), n - 1, k);
      if k + n < 32 { NextBit(x, k + n); }
    }
  }

  function Shl(x: Word, n: bv32): Word
    requires n <= 32
  {
    Word(x.v << n)
  }

  function Or(x: Word, y: Word): Word { Word(x.v | y.v) }

  lemma HalfOfOr(x: Word, y: Word)
    ensures Half(Or(x, y)) == Or(Half(x), Half(y)) && (Odd(Or(x, y)) <==> Odd(x) || Odd(y))
  {
  }

  lemma {:induction false} OrBit(x: Word, y: Word, k: bv32)
    requires k < 32
    ensures Bit(Or(x, y), k) <==> Bit(x, k) || Bit(y, k)
    decreases k
  {
    hide Bit, Or, Half, Odd;
    HalfOfOr(x, y);
    if k == 0 {
      FirstBit(x);
      FirstBit(y);
      FirstBit(Or(x, y));
    } else {
      NextBit(x, k);
      NextBit(y, k);
      NextBit(Or(x, y), k);
      OrBit(Half(x), Half(y), k - 1);
    }
  }

  lemma OneShl(x: Word, k: bv32)
    requires k < 32
    ensures Bit(Shl(x, 1), k) <==> k > 0 && Bit(x, k - 1)
    ensures Shl(x, 0) == x
  {
  }

  lemma MoreShl(x: Word, n: bv32)
    requires 0 < n < 32
    ensures Shl(x, n) == Shl(Shl(x, 1), n - 1)
  {
  }

  lemma {:induction false} ShlBit(x: Word, n: bv32, k: bv32)
    requires n < 32 && k < 32
    ensures Bit(Shl(x, n), k) <==> k >= n && Bit(x, k - n)
    decreases n
  {
    hide Bit, Shl;
    if n == 0 {
      OneShl(x, k);
    } else {
      MoreShl(x, n);
      ShlBit(Shl(x, 1), n - 1, k);
      if k >= n - 1 { OneShl(x, k - (n - 1)); }
    }
  }

  lemma RotrIs(x: Word, n: bv32)
    requires 0 < n < 32
    ensures Rotr(x, n) == Or(Shr(x, n), Shl(x, 32 - n))
  {
  }

  lemma Round(k: bv32, n: bv32)
    requires k < 32 && 0 < n < 32
    ensures (k + n) % 32 == if k + n < 32 then k + n else k - (32 - n)
    ensures k + n < 32 <==> k < 32 - n
  {
  }

  /** Rotating moves bit `k + n`, counted round the word, to bit `k`. */
  lemma RotrBit(x: Word, n: bv32, k: bv32)
    requires 0 < n < 32 && k < 32
    ensures Bit(Rotr(x, n), k) == Bit(x, (k + n) % 32)
  {
    hide Bit, Rotr, Or, Shr, Shl;
    RotrIs(x, n);
    OrBit(Shr(x, n), Shl(x, 32 - n), k);
    ShrBit(x, n, k);
    ShlBit(x, 32 - n, k);
    Round(k, n);
  }

  function Ones(a: bool, b: bool, c: bool): nat {
    (if a then 1 else 0) + (if b then 1 else 0) + if c then 1 else 0
  }

  /** The bit that at least two of the three have. */
  lemma MajBit(x: Word, y: Word, z: Word, k: bv32)
    requires k < 32
    ensures Bit(Maj(x, y, z), k) <==> Ones(Bit(x, k), Bit(y, k), Bit(z, k)) >= 2
  {
    hide Bit, And, Xor;
    XorOfThree(And(x, y), And(x, z), And(y, z), k);
    AndBit(x, y, k);
    AndBit(x, z, k);
    AndBit(y, z, k);
  }

  /** The sums of rotations of section 4.1.2. */
  lemma BigSigmaBits(x: Word, k: bv32)
    requires k < 32
    ensures Bit(BigSigma0(x), k) <==>
            Ones(Bit(x, (k + 2) % 32), Bit(x, (k + 13) % 32), Bit(x, (k + 22) % 32)) % 2 == 1
    ensures Bit(BigSigma1(x), k) <==>
            Ones(Bit(x, (k + 6) % 32), Bit(x, (k + 11) % 32), Bit(x, (k + 25) % 32)) % 2 == 1
  {
    hide Bit, Rotr, Xor;
    XorOfThree(Rotr(x, 2), Rotr(x, 13), Rotr(x, 22), k);
    RotrBit(x, 2, k);
    RotrBit(x, 13, k);
    RotrBit(x, 22, k);
    XorOfThree(Rotr(x, 6), Rotr(x, 11), Rotr(x, 25), k);
    RotrBit(x, 6, k);
    RotrBit(x, 11, k);
    RotrBit(x, 25, k);
  }

  lemma SmallSigmaBits(x: Word, k: bv32)
    requires k < 32
    ensures Bit(SmallSigma0(x), k) <==>
            Ones(Bit(x, (k + 7) % 32), Bit(x, (k + 18) % 32), k + 3 < 32 && Bit(x, k + 3)) % 2 == 1
    ensures Bit(SmallSigma1(x), k) <==>
            Ones(Bit(x, (k + 17) % 32), Bit(x, (k + 19) % 32), k + 10 < 32 && Bit(x, k + 10)) % 2 == 1
  {
    hide Bit, Rotr, Shr, Xor;
    XorOfThree(Rotr(x, 7), Rotr(x, 18), Shr(x, 3), k);
    RotrBit(x, 7, k);
    RotrBit(x, 18, k);
    ShrBit(x, 3, k);
    XorOfThree(Rotr(x, 17), Rotr(x, 19), Shr(x, 10), k);
    RotrBit(x, 17, k);
    RotrBit(x, 19, k);
    ShrBit(x, 10, k);
  }

  lemma XorOfThree(a: Word, b: Word, c: Word, k: bv32)
    requires k < 32
    ensures Bit(Xor(Xor(a, b), c), k) <==> Ones(Bit(a, k), Bit(b, k), Bit(c, k)) % 2 == 1
  {
    hide Bit, Xor;
    XorBit(Xor(a, b), c, k);
    XorBit(a, b, k);
  }

  // ---- the constants --------------------------------------------------------------------------------------

  /** The first 64 primes, sixteen at a time as the constants. */
  const PRIMES_0: seq<nat> := [
    2, 3, 5, 7, 11, 13, 17, 19, 23, 29, 31, 37, 41, 43, 47, 53]
  const PRIMES_1: seq<nat> := [
    59, 61, 67, 71, 73, 79, 83, 89, 97, 101, 103, 107, 109, 113, 127, 131]
  const PRIMES_2: seq<nat> := [
    137, 139, 149, 151, 157, 163, 167, 173, 179, 181, 191, 193, 197, 199, 211, 223]
  const PRIMES_3: seq<nat> := [
    227, 229, 233, 239, 241, 251, 257, 263, 269, 271, 277, 281, 283, 293, 307, 311]

  function PrimeAt(t: nat): nat
    requires t < 64
  {
    if t < 16 then PRIMES_0[t] else if t < 32 then PRIMES_1[t - 16]
    else if t < 48 then PRIMES_2[t - 32] else PRIMES_3[t - 48]
  }

  function Square(c: nat): nat { c * c }

  function Cube(c: nat): nat { c * c * c }

  /** `w` holds the first 32 bits of the fraction of the square root of `p`. */
  ghost predicate SquareRootBits(p: nat, w: bv32) {
    exists c: nat :: Square(c) <= p * 0x1_0000_0000_0000_0000 < Square(c + 1) && w as nat == c % 0x1_0000_0000
  }

  /** `w` holds the first 32 bits of the fraction of the cube root of `p`. */
  ghost predicate CubeRootBits(p: nat, w: bv32) {
    exists c: nat :: Cube(c) <= p * 0x1_0000_0000_0000_0000_0000_0000 < Cube(c + 1) && w as nat == c % 0x1_0000_0000
  }

  lemma SquareRoot(p: nat, w: bv32, c: nat)
    requires Square(c) <= p * 0x1_0000_0000_0000_0000 < Square(c + 1) && w as nat == c % 0x1_0000_0000
    ensures SquareRootBits(p, w)
  {
  }

  lemma CubeRoot(p: nat, w: bv32, c: nat)
    requires Cube(c) <= p * 0x1_0000_0000_0000_0000_0000_0000 < Cube(c + 1) && w as nat == c % 0x1_0000_0000
    ensures CubeRootBits(p, w)
  {
  }

  /** The hash starts from the square roots of the first eight primes. */
  lemma InitialIsRoots()
    ensures SquareRootBits(2, INITIAL.a.v) && SquareRootBits(3, INITIAL.b.v)
    ensures SquareRootBits(5, INITIAL.c.v) && SquareRootBits(7, INITIAL.d.v)
    ensures SquareRootBits(11, INITIAL.e.v) && SquareRootBits(13, INITIAL.f.v)
    ensures SquareRootBits(17, INITIAL.g.v) && SquareRootBits(19, INITIAL.h.v)
  {
    hide SquareRootBits;
    SquareRoot(2, INITIAL.a.v, 0x1_6a09e667);
    SquareRoot(3, INITIAL.b.v, 0x1_bb67ae85);
    SquareRoot(5, INITIAL.c.v, 0x2_3c6ef372);
    SquareRoot(7, INITIAL.d.v, 0x2_a54ff53a);
    SquareRoot(11, INITIAL.e.v, 0x3_510e527f);
    SquareRoot(13, INITIAL.f.v, 0x3_9b05688c);
    SquareRoot(17, INITIAL.g.v, 0x4_1f83d9ab);
    SquareRoot(19, INITIAL.h.v, 0x4_5be0cd19);
  }

  lemma Roots0(t: nat)
    requires 0 <= t < 8
    ensures CubeRootBits(PRIMES_0[t], K_0[t])
  {
    hide CubeRootBits, PrimeAt, Constant;
    if t == 0 {
      CubeRoot(2, 0x428a2f98, 0x1_428a2f98);
    } else if t == 1 {
      CubeRoot(3, 0x71374491, 0x1_71374491);
    } else if t == 2 {
      CubeRoot(5, 0xb5c0fbcf, 0x1_b5c0fbcf);
    } else if t == 3 {
      CubeRoot(7, 0xe9b5dba5, 0x1_e9b5dba5);
    } else if t == 4 {
      CubeRoot(11, 0x3956c25b, 0x2_3956c25b);
    } else if t == 5 {
      CubeRoot(13, 0x59f111f1, 0x2_59f111f1);
    } else if t == 6 {
      CubeRoot(17, 0x923f82a4, 0x2_923f82a4);
    } else {
      CubeRoot(19, 0xab1c5ed5, 0x2_ab1c5ed5);
    }
  }

  lemma Roots1(t: nat)
    requires 8 <= t < 16
    ensures CubeRootBits(PRIMES_0[t], K_0[t])
  {
    hide CubeRootBits, PrimeAt, Constant;
    if t == 8 {
      CubeRoot(23, 0xd807aa98, 0x2_d807aa98);
    } else if t == 9 {
      CubeRoot(29, 0x12835b01, 0x3_12835b01);
    } else if t == 10 {
      CubeRoot(31, 0x243185be, 0x3_243185be);
    } else if t == 11 {
      CubeRoot(37, 0x550c7dc3, 0x3_550c7dc3);
    } else if t == 12 {
      CubeRoot(41, 0x72be5d74, 0x3_72be5d74);
    } else if t == 13 {
      CubeRoot(43, 0x80deb1fe, 0x3_80deb1fe);
    } else if t == 14 {
      CubeRoot(47, 0x9bdc06a7, 0x3_9bdc06a7);
    } else {
      CubeRoot(53, 0xc19bf174, 0x3_c19bf174);
    }
  }

  lemma Roots2(t: nat)
    requires 0 <= t < 8
    ensures CubeRootBits(PRIMES_1[t], K_1[t])
  {
    hide CubeRootBits, PrimeAt, Constant;
    if t == 0 {
      CubeRoot(59, 0xe49b69c1, 0x3_e49b69c1);
    } else if t == 1 {
      CubeRoot(61, 0xefbe4786, 0x3_efbe4786);
    } else if t == 2 {
      CubeRoot(67, 0x0fc19dc6, 0x4_0fc19dc6);
    } else if t == 3 {
      CubeRoot(71, 0x240ca1cc, 0x4_240ca1cc);
    } else if t == 4 {
      CubeRoot(73, 0x2de92c6f, 0x4_2de92c6f);
    } else if t == 5 {
      CubeRoot(79, 0x4a7484aa, 0x4_4a7484aa);
    } else if t == 6 {
      CubeRoot(83, 0x5cb0a9dc, 0x4_5cb0a9dc);
    } else {
      CubeRoot(89, 0x76f988da, 0x4_76f988da);
    }
  }

  lemma Roots3(t: nat)
    requires 8 <= t < 16
    ensures CubeRootBits(PRIMES_1[t], K_1[t])
  {
    hide CubeRootBits, PrimeAt, Constant;
    if t == 8 {
      CubeRoot(97, 0x983e5152, 0x4_983e5152);
    } else if t == 9 {
      CubeRoot(101, 0xa831c66d, 0x4_a831c66d);
    } else if t == 10 {
      CubeRoot(103, 0xb00327c8, 0x4_b00327c8);
    } else if t == 11 {
      CubeRoot(107, 0xbf597fc7, 0x4_bf597fc7);
    } else if t == 12 {
      CubeRoot(109, 0xc6e00bf3, 0x4_c6e00bf3);
    } else if t == 13 {
      CubeRoot(113, 0xd5a79147, 0x4_d5a79147);
    } else if t == 14 {
      CubeRoot(127, 0x06ca6351, 0x5_06ca6351);
    } else {
      CubeRoot(131, 0x14292967, 0x5_14292967);
    }
  }

  lemma Roots4(t: nat)
    requires 0 <= t < 8
    ensures CubeRootBits(PRIMES_2[t], K_2[t])
  {
    hide CubeRootBits, PrimeAt, Constant;
    if t == 0 {
      CubeRoot(137, 0x27b70a85, 0x5_27b70a85);
    } else if t == 1 {
      CubeRoot(139, 0x2e1b2138, 0x5_2e1b2138);
    } else if t == 2 {
      CubeRoot(149, 0x4d2c6dfc, 0x5_4d2c6dfc);
    } else if t == 3 {
      CubeRoot(151, 0x53380d13, 0x5_53380d13);
    } else if t == 4 {
      CubeRoot(157, 0x650a7354, 0x5_650a7354);
    } else if t == 5 {
      CubeRoot(163, 0x766a0abb, 0x5_766a0abb);
    } else if t == 6 {
      CubeRoot(167, 0x81c2c92e, 0x5_81c2c92e);
    } else {
      CubeRoot(173, 0x92722c85, 0x5_92722c85);
    }
  }

  lemma Roots5(t: nat)
    requires 8 <= t < 16
    ensures CubeRootBits(PRIMES_2[t], K_2[t])
  {
    hide CubeRootBits, PrimeAt, Constant;
    if t == 8 {
      CubeRoot(179, 0xa2bfe8a1, 0x5_a2bfe8a1);
    } else if t == 9 {
      CubeRoot(181, 0xa81a664b, 0x5_a81a664b);
    } else if t == 10 {
      CubeRoot(191, 0xc24b8b70, 0x5_c24b8b70);
    } else if t == 11 {
      CubeRoot(193, 0xc76c51a3, 0x5_c76c51a3);
    } else if t == 12 {
      CubeRoot(197, 0xd192e819, 0x5_d192e819);
    } else if t == 13 {
      CubeRoot(199, 0xd6990624, 0x5_d6990624);
    } else if t == 14 {
      CubeRoot(211, 0xf40e3585, 0x5_f40e3585);
    } else {
      CubeRoot(223, 0x106aa070, 0x6_106aa070);
    }
  }

  lemma Roots6(t: nat)
    requires 0 <= t < 8
    ensures CubeRootBits(PRIMES_3[t], K_3[t])
  {
    hide CubeRootBits, PrimeAt, Constant;
    if t == 0 {
      CubeRoot(227, 0x19a4c116, 0x6_19a4c116);
    } else if t == 1 {
      CubeRoot(229, 0x1e376c08, 0x6_1e376c08);
    } else if t == 2 {
      CubeRoot(233, 0x2748774c, 0x6_2748774c);
    } else if t == 3 {
      CubeRoot(239, 0x34b0bcb5, 0x6_34b0bcb5);
    } else if t == 4 {
      CubeRoot(241, 0x391c0cb3, 0x6_391c0cb3);
    } else if t == 5 {
      CubeRoot(251, 0x4ed8aa4a, 0x6_4ed8aa4a);
    } else if t == 6 {
      CubeRoot(257, 0x5b9cca4f, 0x6_5b9cca4f);
    } else {
      CubeRoot(263, 0x682e6ff3, 0x6_682e6ff3);
    }
  }

  lemma Roots7(t: nat)
    requires 8 <= t < 16
    ensures CubeRootBits(PRIMES_3[t], K_3[t])
  {
    hide CubeRootBits, PrimeAt, Constant;
    if t == 8 {
      CubeRoot(269, 0x748f82ee, 0x6_748f82ee);
    } else if t == 9 {
      CubeRoot(271, 0x78a5636f, 0x6_78a5636f);
    } else if t == 10 {
      CubeRoot(277, 0x84c87814, 0x6_84c87814);
    } else if t == 11 {
      CubeRoot(281, 0x8cc70208, 0x6_8cc70208);
    } else if t == 12 {
      CubeRoot(283, 0x90befffa, 0x6_90befffa);
    } else if t == 13 {
      CubeRoot(293, 0xa4506ceb, 0x6_a4506ceb);
    } else if t == 14 {
      CubeRoot(307, 0xbef9a3f7, 0x6_bef9a3f7);
    } else {
      CubeRoot(311, 0xc67178f2, 0x6_c67178f2);
    }
  }

  /** The constant of round `t` comes from the cube root of the prime at `t`. */
  lemma ConstantIsRoot(t: nat)
    requires t < 64
    ensures CubeRootBits(PrimeAt(t), Constant(t).v)
  {
    hide CubeRootBits, K_0, K_1, K_2, K_3, PRIMES_0, PRIMES_1, PRIMES_2, PRIMES_3;
    var k := t % 16;
    if t < 16 {
      if k < 8 { Roots0(k); } else { Roots1(k); }
    } else if t < 32 {
      if k < 8 { Roots2(k); } else { Roots3(k); }
    } else if t < 48 {
      if k < 8 { Roots4(k); } else { Roots5(k); }
    } else {
      if k < 8 { Roots6(k); } else { Roots7(k); }
    }
  }
}
