/** CRC-32 over the reflected polynomial 0xEDB88320 (sigan/src/frame.cpp): the table-driven loop
    against the bit-serial register, and what a wrong byte does to the result. */
module Crc {
  import opened Bytes

  /** A 32-bit register. */
  datatype Word = Word(v: bv32)

  const POLYNOMIAL: bv32 := 0xEDB88320
  const ZERO := Word(0)

  // ---- word operations ----------------------------------------------------------------------

  function Xor(a: Word, b: Word): Word { Word(a.v ^ b.v) }

  function Not(a: Word): Word { Word(!a.v) }

  function Half(a: Word): Word { Word(a.v >> 1) }

  function Drop8(a: Word): Word { Word(a.v >> 8) }

  function Low1(a: Word): Word { Word(a.v & 1) }

  function High31(a: Word): Word { Word(a.v & 0xFFFFFFFE) }

  function Low8(a: Word): Word { Word(a.v & 0xFF) }

  function High24(a: Word): Word { Word(a.v & 0xFFFFFF00) }

  predicate Odd(a: Word) { a.v & 1 == 1 }

  /** One shift of the register. */
  function Step(c: Word): Word {
    if Odd(c) then Xor(Word(POLYNOMIAL), Half(c)) else Half(c)
  }

  lemma XorCommutes(a: Word, b: Word)
    ensures Xor(a, b) == Xor(b, a)
  {
  }

  lemma XorZero(a: Word)
    ensures Xor(a, ZERO) == a
  {
  }

  lemma XorUndone(a: Word, b: Word)
    ensures Xor(Xor(a, b), b) == a
  {
  }

  lemma XorAssociates(a: Word, b: Word, x: Word)
    ensures Xor(Xor(a, b), x) == Xor(a, Xor(b, x))
  {
  }

  lemma XorCancels(a: Word, b: Word, x: Word)
    requires Xor(a, x) == Xor(b, x)
    ensures a == b
  {
    hide Xor;
    XorUndone(a, x);
    XorUndone(b, x);
  }

  lemma NotInjective(a: Word, b: Word)
    requires Not(a) == Not(b)
    ensures a == b
  {
  }

  lemma OddXor(x: Word, y: Word)
    ensures Odd(Xor(x, y)) <==> Odd(x) != Odd(y)
  {
  }

  lemma HalfXor(x: Word, y: Word)
    ensures Half(Xor(x, y)) == Xor(Half(x), Half(y))
  {
  }

  /** The register is linear over exclusive or. */
  lemma StepLinear(x: Word, y: Word)
    ensures Step(Xor(x, y)) == Xor(Step(x), Step(y))
  {
    hide Xor, Odd, Half;
    var p, hx, hy := Word(POLYNOMIAL), Half(x), Half(y);
    OddXor(x, y);
    HalfXor(x, y);
    XorAssociates(p, hx, hy);
    if Odd(y) {
      XorCommutes(hx, Xor(p, hy));
      XorAssociates(p, hy, hx);
      XorCommutes(hx, hy);
      if Odd(x) {
        XorAssociates(p, hx, Xor(p, hy));
        XorCommutes(p, Xor(p, Xor(hx, hy)));
        XorCommutes(p, Xor(hx, hy));
        XorUndone(Xor(hx, hy), p);
      }
    }
  }

  /** The polynomial's top bit is set, so a shift can be undone. */
  lemma StepInjective(x: Word, y: Word)
    requires Step(x) == Step(y)
    ensures x == y
  {
  }

  lemma SplitLowBit(b: Word)
    ensures b == Xor(Low1(b), High31(b))
  {
  }

  lemma StepHigh31(b: Word)
    ensures Step(High31(b)) == Half(b)
  {
  }

  lemma SplitLowByte(x: Word)
    ensures x == Xor(Low8(x), High24(x))
  {
  }

  lemma DropHigh24(x: Word)
    ensures Drop8(High24(x)) == Drop8(x)
  {
  }

  // ---- bytes as words ------------------------------------------------------------------------

  /** `b` put below the bits of `w`. */
  function Push(b: bool, w: Word): Word { Word((w.v << 1) | if b then 1 else 0) }

  /** The low `k` bits of `n` as a word. */
  function Bits(n: nat, k: nat): Word
    decreases k
  {
    if k == 0 then ZERO else Push(n % 2 == 1, Bits(n / 2, k - 1))
  }

  /** The low `k` bits of a word as a number. */
  function Number(c: Word, k: nat): nat
    decreases k
  {
    if k == 0 then 0 else (if Odd(c) then 1 else 0) + 2 * Number(Half(c), k - 1)
  }

  function Power2(k: nat): nat { if k == 0 then 1 else 2 * Power2(k - 1) }

  lemma {:induction false} NumberBound(c: Word, k: nat)
    ensures Number(c, k) < Power2(k)
    decreases k
  {
    hide Odd, Half;
    if k > 0 { NumberBound(Half(c), k - 1); }
  }

  lemma EightBits()
    ensures Power2(8) == 0x100
  {
    assert Power2(4) == 16;
  }

  /** A byte widened to 32 bits. */
  function Widen(n: u8): Word { Bits(n, 8) }

  /** `c & 0xFF` as a table index or stored byte. */
  function LowByte(c: Word): u8 {
    NumberBound(c, 8);
    EightBits();
    Number(c, 8)
  }

  /** Words below `2^k`, for byte-sized `k`. */
  predicate Fits(w: bv32, k: nat)
    requires k <= 8
  {
    w <= (0xFF as bv32) >> (8 - k)
  }

  lemma PushFits(b: bool, w: bv32, k: nat)
    requires k < 8 && Fits(w, k)
    ensures Fits(Push(b, Word(w)).v, k + 1)
  {
  }

  lemma PushHalf(b: bool, w: Word)
    requires w.v <= 0xFF
    ensures Half(Push(b, w)) == w && Odd(Push(b, w)) == b
  {
  }

  lemma FitsByte(w: bv32, k: nat)
    requires k <= 8 && Fits(w, k)
    ensures w <= 0xFF
  {
  }

  lemma {:induction false} BitsFit(n: nat, k: nat)
    requires k <= 8
    ensures Fits(Bits(n, k).v, k)
    decreases k
  {
    hide Fits, Push;
    if k > 0 {
      BitsFit(n / 2, k - 1);
      PushFits(n % 2 == 1, Bits(n / 2, k - 1).v, k - 1);
    } else {
      ZeroFits();
    }
  }

  lemma ZeroFits()
    ensures Fits(0, 0)
  {
  }

  lemma {:induction false} NumberOfBits(n: nat, k: nat)
    requires k <= 8 && n < Power2(k)
    ensures Number(Bits(n, k), k) == n
    decreases k
  {
    hide Fits, Push, Odd, Half;
    if k > 0 {
      NumberOfBits(n / 2, k - 1);
      BitsFit(n / 2, k - 1);
      FitsByte(Bits(n / 2, k - 1).v, k - 1);
      PushHalf(n % 2 == 1, Bits(n / 2, k - 1));
    }
  }

  /** Different bytes stay different as words. */
  lemma WidenInjective(n: u8, m: u8)
    requires Widen(n) == Widen(m)
    ensures n == m
  {
    hide Bits, Number;
    EightBits();
    NumberOfBits(n, 8);
    NumberOfBits(m, 8);
  }

  function Masked(c: Word, k: nat): Word
    requires k <= 8
  {
    Word(c.v & ((0xFF as bv32) >> (8 - k)))
  }

  lemma PushMasked(c: Word, k: nat)
    requires 0 < k <= 8
    ensures Push(Odd(c), Masked(Half(c), k - 1)) == Masked(c, k)
  {
  }

  lemma MaskedNone(c: Word)
    ensures Masked(c, 0) == ZERO
  {
  }

  lemma MaskedEight(c: Word)
    ensures Masked(c, 8) == Low8(c)
  {
  }

  lemma {:induction false} BitsOfNumber(c: Word, k: nat)
    requires k <= 8
    ensures Bits(Number(c, k), k) == Masked(c, k)
    decreases k
  {
    hide Push, Odd, Half, Masked;
    if k > 0 {
      var r := Number(Half(c), k - 1);
      BitsOfNumber(Half(c), k - 1);
      PushMasked(c, k);
      assert Number(c, k) / 2 == r && (Number(c, k) % 2 == 1 <==> Odd(c));
    } else {
      MaskedNone(c);
    }
  }

  lemma WidenLowByte(c: Word)
    ensures Widen(LowByte(c)) == Low8(c)
  {
    hide Bits, Number, Low8, Masked;
    BitsOfNumber(c, 8);
    MaskedEight(c);
  }

  lemma WidenSmall(n: u8)
    ensures Widen(n).v <= 0xFF && Drop8(Widen(n)) == ZERO
  {
    hide Bits, Fits;
    BitsFit(n, 8);
    FitsByte(Widen(n).v, 8);
    SmallDrops(Widen(n));
  }

  lemma SmallDrops(w: Word)
    requires w.v <= 0xFF
    ensures Drop8(w) == ZERO
  {
  }

  lemma DropXor(c: Word, n: u8)
    ensures Drop8(Xor(c, Widen(n))) == Drop8(c)
  {
    hide Widen;
    WidenSmall(n);
    DropXorBits(c.v, Widen(n).v);
  }

  lemma DropXorBits(c: bv32, b: bv32)
    requires b <= 0xFF
    ensures (c ^ b) >> 8 == c >> 8
  {
  }

  // ---- repeated steps ------------------------------------------------------------------------

  function Steps(c: Word, k: nat): Word
    decreases k
  {
    if k == 0 then c else Steps(Step(c), k - 1)
  }

  lemma {:induction false} StepsLinear(x: Word, y: Word, k: nat)
    ensures Steps(Xor(x, y), k) == Xor(Steps(x, k), Steps(y, k))
    decreases k
  {
    hide Step, Xor;
    if k > 0 {
      StepLinear(x, y);
      StepsLinear(Step(x), Step(y), k - 1);
    }
  }

  lemma {:induction false} StepsInjective(x: Word, y: Word, k: nat)
    requires Steps(x, k) == Steps(y, k)
    ensures x == y
    decreases k
  {
    hide Step;
    if k > 0 {
      StepsInjective(Step(x), Step(y), k - 1);
      StepInjective(x, y);
    }
  }

  function Halved(b: Word, k: nat): Word
    decreases k
  {
    if k == 0 then b else Halved(Half(b), k - 1)
  }

  lemma HalvedEight(b: Word)
    ensures Halved(b, 8) == Drop8(b)
  {
    hide Half, Drop8;
    var b1 := Half(b);
    var b2 := Half(b1);
    var b3 := Half(b2);
    var b4 := Half(b3);
    assert Halved(b, 8) == Halved(b4, 4) by {
      assert Halved(b2, 6) == Halved(b3, 5) == Halved(b4, 4);
    }
    var b5 := Half(b4);
    var b6 := Half(b5);
    var b7 := Half(b6);
    assert Halved(b4, 4) == Half(b7) by {
      assert Halved(b6, 2) == Halved(b7, 1) == Half(b7);
    }
    HalfEight(b);
  }

  lemma HalfEight(b: Word)
    ensures Half(Half(Half(Half(Half(Half(Half(Half(b)))))))) == Drop8(b)
  {
  }

  /** Zeros below bit `k`: the register only shifts. */
  predicate LowClear(x: Word, k: nat)
    decreases k
  {
    k == 0 || (Step(x) == Half(x) && LowClear(Half(x), k - 1))
  }

  lemma {:induction false} OnlyShifts(x: Word, k: nat)
    requires LowClear(x, k)
    ensures Steps(x, k) == Halved(x, k)
    decreases k
  {
    hide Step, Half;
    if k > 0 { OnlyShifts(Half(x), k - 1); }
  }

  lemma EvenStep(x: bv32)
    requires x & 1 == 0
    ensures Step(Word(x)) == Half(Word(x))
  {
  }

  /** The low `8 - i` bits of `x` are zero. */
  lemma {:induction false} LowClearBits(x: bv32, i: nat)
    requires i <= 8 && x & ((0xFF as bv32) >> i) == 0
    ensures LowClear(Word(x), 8 - i)
    decreases 8 - i
  {
    hide Step, Half;
    if i < 8 {
      ShiftMask(x, i);
      EvenStep(x);
      LowClearBits(x >> 1, i + 1);
      HalfIs(x);
    }
  }

  lemma HalfIs(x: bv32)
    ensures Half(Word(x)) == Word(x >> 1)
  {
  }

  lemma ShiftMask(x: bv32, i: nat)
    requires i < 8 && x & ((0xFF as bv32) >> i) == 0
    ensures x & 1 == 0 && (x >> 1) & ((0xFF as bv32) >> (i + 1)) == 0
  {
  }

  lemma MaskedZero(x: bv32)
    ensures (x & 0xFFFFFF00) & ((0xFF as bv32) >> 0) == 0
  {
  }

  lemma HighClear(x: Word)
    ensures LowClear(High24(x), 8)
  {
    hide LowClear;
    MaskedZero(x.v);
    LowClearBits(x.v & 0xFFFFFF00, 0);
  }

  // ---- three ways to feed a byte -------------------------------------------------------------

  /** Bit-serial: each message bit, low bit first, meets the register's low bit. */
  function FeedBits(c: Word, b: Word, k: nat): Word
    decreases k
  {
    if k == 0 then c else FeedBits(Step(Xor(c, Low1(b))), Half(b), k - 1)
  }

  /** Feeding bits one by one is folding in the whole word first and shifting afterwards. */
  lemma {:induction false} BitsAreSteps(c: Word, b: Word, k: nat)
    ensures Steps(Xor(c, b), k) == Xor(FeedBits(c, b, k), Halved(b, k))
    decreases k
  {
    hide Step, Xor, Low1, High31, Half;
    if k > 0 {
      var c', b' := Step(Xor(c, Low1(b))), Half(b);
      SplitLowBit(b);
      StepHigh31(b);
      XorAssociates(c, Low1(b), High31(b));
      StepLinear(Xor(c, Low1(b)), High31(b));
      BitsAreSteps(c', b', k - 1);
    }
  }

  /** The step of the source: one table entry, eight shifts at once. */
  function TableStep(c: Word, b: u8): Word {
    Xor(Steps(Low8(Xor(c, Widen(b))), 8), Drop8(c))
  }

  /** The table step, the eight shifts and the bit-serial register agree. */
  lemma TableIsBitSerial(c: Word, b: u8)
    ensures TableStep(c, b) == Steps(Xor(c, Widen(b)), 8) == FeedBits(c, Widen(b), 8)
  {
    hide Step, Steps, FeedBits, Halved, LowClear, Xor, Widen, Drop8, Low8, High24;
    var x := Xor(c, Widen(b));
    SplitLowByte(x);
    DropHigh24(x);
    StepsLinear(Low8(x), High24(x), 8);
    HighClear(x);
    OnlyShifts(High24(x), 8);
    HalvedEight(High24(x));
    DropXor(c, b);
    BitsAreSteps(c, Widen(b), 8);
    HalvedEight(Widen(b));
    WidenSmall(b);
    XorZero(FeedBits(c, Widen(b), 8));
  }

  // ---- whole messages ------------------------------------------------------------------------

  /** The register after a message, one bit at a time. */
  function BitSerial(c: Word, data: seq<u8>): Word {
    if |data| == 0 then c else FeedBits(BitSerial(c, data[..|data| - 1]), Widen(data[|data| - 1]), 8)
  }

  /** CRC-32 with the given seed, by the bit-serial register. */
  function Crc32(data: seq<u8>, seed: Word): Word {
    Not(BitSerial(Not(seed), data))
  }

  /** Entry `i` is the register after eight steps from `i`. */
  ghost predicate IsTable(table: seq<Word>) {
    |table| == 256 && forall i: u8 :: table[i] == Steps(Widen(i), 8)
  }

  /** The 256-entry table, built as the source's constant initialiser does. */
  method BuildTable() returns (table: seq<Word>)
    ensures IsTable(table)
  {
    hide Step, Widen;
    table := [];
    var i := 0;
    while i < 256
      invariant 0 <= i <= 256 && |table| == i
      invariant forall j: u8 :: j < i ==> table[j] == Steps(Widen(j), 8)
    {
      var c := Widen(i);
      var k := 0;
      while k < 8
        invariant 0 <= k <= 8 && Steps(c, 8 - k) == Steps(Widen(i), 8)
      {
        c := Step(c);
        k := k + 1;
      }
      table := table + [c];
      i := i + 1;
    }
  }

  /** The table-driven loop computes the bit-serial CRC. */
  method ComputeCrc32(table: seq<Word>, data: seq<u8>, seed: Word) returns (crc: Word)
    requires IsTable(table)
    ensures crc == Crc32(data, seed)
  {
    hide Step, Steps, FeedBits, Widen, LowByte, Low8, Drop8, Xor, Not;
    var c := Not(seed);
    var i := 0;
    while i < |data|
      invariant 0 <= i <= |data| && c == BitSerial(Not(seed), data[..i])
    {
      assert data[..i + 1][..i] == data[..i];
      TableIsBitSerial(c, data[i]);
      WidenLowByte(Xor(c, Widen(data[i])));
      c := Xor(table[LowByte(Xor(c, Widen(data[i])))], Drop8(c));
      i := i + 1;
    }
    assert data[..i] == data;
    crc := Not(c);
  }

  // ---- what a wrong byte does ----------------------------------------------------------------

  lemma {:induction false} BitSerialInjective(c: Word, d: Word, data: seq<u8>)
    requires BitSerial(c, data) == BitSerial(d, data)
    ensures c == d
    decreases |data|
  {
    hide Step, Steps, FeedBits, TableStep, Widen, Xor;
    if |data| > 0 {
      var n := |data| - 1;
      var rc, rd := BitSerial(c, data[..n]), BitSerial(d, data[..n]);
      TableIsBitSerial(rc, data[n]);
      TableIsBitSerial(rd, data[n]);
      StepsInjective(Xor(rc, Widen(data[n])), Xor(rd, Widen(data[n])), 8);
      XorCancels(rc, rd, Widen(data[n]));
      BitSerialInjective(c, d, data[..n]);
    }
  }

  lemma {:induction false} BitSerialConcat(c: Word, a: seq<u8>, b: seq<u8>)
    ensures BitSerial(c, a + b) == BitSerial(BitSerial(c, a), b)
    decreases |b|
  {
    hide FeedBits, Widen;
    if |b| == 0 {
      assert a + b == a;
    } else {
      var n := |b| - 1;
      assert (a + b)[..|a + b| - 1] == a + b[..n];
      BitSerialConcat(c, a, b[..n]);
    }
  }

  lemma OneByte(c: Word, b: u8)
    ensures BitSerial(c, [b]) == Steps(Xor(c, Widen(b)), 8)
  {
    hide Step, Steps, FeedBits, TableStep, Widen, Xor;
    TableIsBitSerial(c, b);
    assert [b][..0] == [];
    assert BitSerial(c, [b]) == FeedBits(BitSerial(c, []), Widen(b), 8);
  }

  /** Changing any single byte of a message changes its CRC. */
  lemma WrongByteDetected(data: seq<u8>, i: nat, v: u8, seed: Word)
    requires i < |data| && v != data[i]
    ensures Crc32(data[i := v], seed) != Crc32(data, seed)
  {
    hide Step, Steps, FeedBits, Widen, BitSerial, Xor, Not;
    var pre, post := data[..i], data[i + 1..];
    assert data == pre + [data[i]] + post && data[i := v] == pre + [v] + post;
    var c := BitSerial(Not(seed), pre);
    BitSerialConcat(Not(seed), pre + [data[i]], post);
    BitSerialConcat(Not(seed), pre + [v], post);
    BitSerialConcat(Not(seed), pre, [data[i]]);
    BitSerialConcat(Not(seed), pre, [v]);
    OneByte(c, data[i]);
    OneByte(c, v);
    if Crc32(data[i := v], seed) == Crc32(data, seed) {
      NotInjective(BitSerial(Not(seed), data[i := v]), BitSerial(Not(seed), data));
      BitSerialInjective(BitSerial(c, [data[i]]), BitSerial(c, [v]), post);
      StepsInjective(Xor(c, Widen(data[i])), Xor(c, Widen(v)), 8);
      XorCommutes(c, Widen(data[i]));
      XorCommutes(c, Widen(v));
      XorCancels(Widen(data[i]), Widen(v), c);
      WidenInjective(data[i], v);
    }
  }

  // ---- the stored form -----------------------------------------------------------------------

  /** `putU32` of a CRC. */
  function PutCrc(c: Word): (r: seq<u8>)
    ensures |r| == 4
  {
    [LowByte(c), LowByte(Drop8(c)), LowByte(Drop8(Drop8(c))), LowByte(Drop8(Drop8(Drop8(c))))]
  }

  function Join(a0: Word, a1: Word, a2: Word, a3: Word): Word {
    Word(a0.v | (a1.v << 8) | (a2.v << 16) | (a3.v << 24))
  }

  /** `getU32` of a CRC. */
  function GetCrc(p: seq<u8>): Word
    requires |p| == 4
  {
    Join(Widen(p[0]), Widen(p[1]), Widen(p[2]), Widen(p[3]))
  }

  lemma JoinParts(c: Word)
    ensures Join(Low8(c), Low8(Drop8(c)), Low8(Drop8(Drop8(c))), Low8(Drop8(Drop8(Drop8(c))))) == c
  {
  }

  lemma JoinInjective(a0: Word, a1: Word, a2: Word, a3: Word, b0: Word, b1: Word, b2: Word, b3: Word)
    requires a0.v <= 0xFF && a1.v <= 0xFF && a2.v <= 0xFF && a3.v <= 0xFF
    requires b0.v <= 0xFF && b1.v <= 0xFF && b2.v <= 0xFF && b3.v <= 0xFF
    requires Join(a0, a1, a2, a3) == Join(b0, b1, b2, b3)
    ensures a0 == b0 && a1 == b1 && a2 == b2 && a3 == b3
  {
  }

  lemma GetPutCrc(c: Word)
    ensures GetCrc(PutCrc(c)) == c
  {
    hide Widen, LowByte, Join, Drop8, Low8;
    WidenLowByte(c);
    WidenLowByte(Drop8(c));
    WidenLowByte(Drop8(Drop8(c)));
    WidenLowByte(Drop8(Drop8(Drop8(c))));
    JoinParts(c);
  }

  /** Equal stored words are equal byte for byte. */
  lemma GetCrcInjective(p: seq<u8>, q: seq<u8>)
    requires |p| == |q| == 4 && GetCrc(p) == GetCrc(q)
    ensures p == q
  {
    hide Widen, Join, Drop8;
    forall i | 0 <= i < 4
      ensures Widen(p[i]).v <= 0xFF && Widen(q[i]).v <= 0xFF
    {
      WidenSmall(p[i]);
      WidenSmall(q[i]);
    }
    JoinInjective(Widen(p[0]), Widen(p[1]), Widen(p[2]), Widen(p[3]), Widen(q[0]), Widen(q[1]), Widen(q[2]),
      Widen(q[3]));
    WidenInjective(p[0], q[0]);
    WidenInjective(p[1], q[1]);
    WidenInjective(p[2], q[2]);
    WidenInjective(p[3], q[3]);
  }
}
