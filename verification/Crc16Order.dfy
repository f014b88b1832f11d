/** Powers of x modulo the generator of the two-octet check sequence. */
module Crc16Order {
  import opened Bits
  import opened Gf2
  import opened Gf2Order
  import opened Crc16

  // ------------------------------------------------------------------ times x^2

  function Twice(r: bv16): bv16 {
    if r & 0x8000 != 0 then (if r & 0x4000 != 0 then (r << 2) ^ 0x3063 else (r << 2) ^ 0x2042)
    else if r & 0x4000 != 0 then (r << 2) ^ 0x1021 else r << 2
  }

  lemma StepHigh(c: bv16)
    requires c & 0x8000 != 0
    ensures Step(c) == (c << 1) ^ 0x1021
  {
  }

  lemma StepLow(c: bv16)
    requires c & 0x8000 == 0
    ensures Step(c) == c << 1
  {
  }

  lemma ShiftedTop(r: bv16)
    ensures (r << 1) & 0x8000 != 0 <==> r & 0x4000 != 0
  {
  }

  lemma FedBackTop(r: bv16)
    ensures ((r << 1) ^ 0x1021) & 0x8000 != 0 <==> r & 0x4000 != 0
  {
  }

  lemma FedBackLow(r: bv16)
    ensures ((r << 1) ^ 0x1021) << 1 == (r << 2) ^ 0x2042
  {
  }

  lemma FedBackHigh(r: bv16)
    ensures (((r << 1) ^ 0x1021) << 1) ^ 0x1021 == (r << 2) ^ 0x3063
  {
  }

  lemma ShiftTwice(r: bv16)
    ensures (r << 1) << 1 == r << 2
  {
  }

  lemma TwiceIs11(r: bv16)
    requires r & 0x8000 != 0 && r & 0x4000 != 0
    ensures Twice(r) == (r << 2) ^ 0x3063
  {
  }

  lemma Twice11(r: bv16)
    requires r & 0x8000 != 0 && r & 0x4000 != 0
    ensures Twice(r) == Step(Step(r))
  {
    hide Step, Twice;
    TwiceIs11(r);
    StepHigh(r);
    FedBackTop(r);
    StepHigh(Step(r));
    FedBackHigh(r);
  }

  lemma TwiceIs10(r: bv16)
    requires r & 0x8000 != 0 && r & 0x4000 == 0
    ensures Twice(r) == (r << 2) ^ 0x2042
  {
  }

  lemma Twice10(r: bv16)
    requires r & 0x8000 != 0 && r & 0x4000 == 0
    ensures Twice(r) == Step(Step(r))
  {
    hide Step, Twice;
    TwiceIs10(r);
    StepHigh(r);
    FedBackTop(r);
    StepLow(Step(r));
    FedBackLow(r);
  }

  lemma TwiceIs01(r: bv16)
    requires r & 0x8000 == 0 && r & 0x4000 != 0
    ensures Twice(r) == (r << 2) ^ 0x1021
  {
  }

  lemma Twice01(r: bv16)
    requires r & 0x8000 == 0 && r & 0x4000 != 0
    ensures Twice(r) == Step(Step(r))
  {
    hide Step, Twice;
    TwiceIs01(r);
    StepLow(r);
    ShiftedTop(r);
    StepHigh(Step(r));
    ShiftTwice(r);
  }

  lemma TwiceIs00(r: bv16)
    requires r & 0x8000 == 0 && r & 0x4000 == 0
    ensures Twice(r) == r << 2
  {
  }

  lemma Twice00(r: bv16)
    requires r & 0x8000 == 0 && r & 0x4000 == 0
    ensures Twice(r) == Step(Step(r))
  {
    hide Step, Twice;
    TwiceIs00(r);
    StepLow(r);
    ShiftedTop(r);
    StepLow(Step(r));
    ShiftTwice(r);
  }

  lemma TwiceSteps(r: bv16)
    ensures Twice(r) == Step(Step(r))
  {
    hide Step, Twice;
    if r & 0x8000 != 0 {
      if r & 0x4000 != 0 { Twice11(r); } else { Twice10(r); }
    } else {
      if r & 0x4000 != 0 { Twice01(r); } else { Twice00(r); }
    }
  }

  // -------------------------------------------------------- squaring a register

  /** Times x^2, plus the bit of `w` under the mask. */
  function Next(r: bv16, w: bv16, mask: bv16): bv16 {
    if w & mask != 0 then Twice(r) ^ 1 else Twice(r)
  }

  /** The first `i` bits of `w` as a polynomial, evaluated at x^2. */
  function SquareTop(w: bv16, i: nat): bv16 {
    if i == 0 then 0 else Next(SquareTop(w, i - 1), w, WordMask(i - 1))
  }

  /** All of them, with the masks written out. */
  function Square(w: bv16): bv16 {
    var r1 := Next(0, w, 0x8000);
    var r2 := Next(r1, w, 0x4000);
    var r3 := Next(r2, w, 0x2000);
    var r4 := Next(r3, w, 0x1000);
    var r5 := Next(r4, w, 0x0800);
    var r6 := Next(r5, w, 0x0400);
    var r7 := Next(r6, w, 0x0200);
    var r8 := Next(r7, w, 0x0100);
    var r9 := Next(r8, w, 0x0080);
    var r10 := Next(r9, w, 0x0040);
    var r11 := Next(r10, w, 0x0020);
    var r12 := Next(r11, w, 0x0010);
    var r13 := Next(r12, w, 0x0008);
    var r14 := Next(r13, w, 0x0004);
    var r15 := Next(r14, w, 0x0002);
    Next(r15, w, 0x0001)
  }

  lemma OneBitMore(w: bv16, i: nat)
    ensures SquareTop(w, i + 1) == Next(SquareTop(w, i), w, WordMask(i))
  {
    hide Next;
  }

  lemma Masks()
    ensures WordMask(0) == 0x8000 && WordMask(1) == 0x4000 && WordMask(2) == 0x2000 && WordMask(3) == 0x1000
    ensures WordMask(4) == 0x0800 && WordMask(5) == 0x0400 && WordMask(6) == 0x0200 && WordMask(7) == 0x0100
    ensures WordMask(8) == 0x0080 && WordMask(9) == 0x0040 && WordMask(10) == 0x0020 && WordMask(11) == 0x0010
    ensures WordMask(12) == 0x0008 && WordMask(13) == 0x0004 && WordMask(14) == 0x0002 && WordMask(15) == 0x0001
  {
    assert WordMask(4) == 0x0800;
    assert WordMask(8) == 0x0080;
    assert WordMask(12) == 0x0008;
  }

  lemma SquareUnrolled(w: bv16)
    ensures SquareTop(w, 16) == Square(w)
  {
    assert SquareTop(w, 0) == 0;
    Masks();
    hide Next, SquareTop, WordMask;
    OneBitMore(w, 0);
    OneBitMore(w, 1);
    OneBitMore(w, 2);
    OneBitMore(w, 3);
    OneBitMore(w, 4);
    OneBitMore(w, 5);
    OneBitMore(w, 6);
    OneBitMore(w, 7);
    OneBitMore(w, 8);
    OneBitMore(w, 9);
    OneBitMore(w, 10);
    OneBitMore(w, 11);
    OneBitMore(w, 12);
    OneBitMore(w, 13);
    OneBitMore(w, 14);
    OneBitMore(w, 15);
  }

  lemma {:induction false} ZeroMaskStays(i: nat, n: nat)
    requires WordMask(i) == 0
    ensures WordMask(i + n) == 0
  {
    if n > 0 { ZeroMaskStays(i, n - 1); }
  }

  lemma SingleLowBit(m: bv16)
    requires IsSingle(m) && m >> 1 != 0
    ensures m & 1 == 0
  {
  }

  lemma LowBit(m: bv16)
    ensures WordBit(1, m) == (m & 1 != 0) && !WordBit(0, m)
  {
  }

  lemma BitAt(w: bv16, i: nat)
    requires i < 16
    ensures WordBits(w)[i] == WordBit(w, WordMask(i)) == (w & WordMask(i) != 0)
  {
  }

  lemma OneBit()
    ensures WordBits(1) == One(16) && WordBits(0) == Zeros(16)
  {
    forall i | 0 <= i < 16 ensures WordBits(1)[i] == One(16)[i] && !WordBits(0)[i] { OneBitAt(i); }
  }

  lemma OneBitAt(i: nat)
    requires i < 16
    ensures WordBits(1)[i] == (i == 15) && !WordBits(0)[i]
  {
    BitAt(1, i);
    BitAt(0, i);
    Masks();
    LowBit(WordMask(i));
    if i < 15 {
      MaskIsSingle(i);
      assert WordMask(i + 1) == WordMask(i) >> 1;
      hide WordBits, WordBit, WordMask, IsSingle;
      if WordMask(i + 1) == 0 { ZeroMaskStays(i + 1, 15 - i - 1); }
      SingleLowBit(WordMask(i));
    }
  }

  lemma IsGen()
    ensures IsGenerator(G) && |G| == 16 + 1
  {
    GeneratorEnds();
  }

  lemma NextBits(r: bv16, w: bv16, i: nat)
    requires i < 16 && IsGenerator(G) && |G| == 16 + 1
    ensures WordBits(Next(r, w, WordMask(i))) == Xor(Turn(G, Turn(G, WordBits(r))), Unit(16, WordBits(w)[i]))
  {
    BitAt(w, i);
    hide Step, Twice, WordBits, Clock, WordMask;
    TwiceSteps(r);
    StepIsClock(r);
    StepIsClock(Step(r));
    OneBit();
    if w & WordMask(i) != 0 {
      XorBits(Twice(r), 1);
    } else {
      XorZero(WordBits(Twice(r)));
    }
  }

  lemma {:induction false} SquareTopBits(w: bv16, i: nat)
    requires i <= 16 && IsGenerator(G) && |G| == 16 + 1
    ensures WordBits(SquareTop(w, i)) == AtSquare(G, WordBits(w)[..i])
  {
    hide Next, WordBits, Turn, Unit;
    OneBit();
    if i > 0 {
      SquareTopBits(w, i - 1);
      NextBits(SquareTop(w, i - 1), w, i - 1);
      assert WordBits(w)[..i] == WordBits(w)[..i - 1] + [WordBits(w)[i - 1]];
      AtSquareThen(G, WordBits(w)[..i - 1], WordBits(w)[i - 1]);
    }
  }

  lemma SquareBits(w: bv16)
    requires IsGenerator(G) && |G| == 16 + 1
    ensures WordBits(Square(w)) == AtSquare(G, WordBits(w))
  {
    hide Square, SquareTop, WordBits, AtSquare;
    SquareUnrolled(w);
    SquareTopBits(w, 16);
    assert WordBits(w)[..16] == WordBits(w);
  }

  // --------------------------------------------------------------- powers of x

  function Eight(c: bv16): bv16 {
    Step(Step(Step(Step(Step(Step(Step(Step(c))))))))
  }

  lemma EightSteps(c: bv16)
    ensures Steps(c, 8) == Eight(c)
  {
    hide Step;
    assert Steps(c, 1) == Step(c);
    assert Steps(c, 2) == Step(Step(c));
    assert Steps(c, 3) == Step(Step(Step(c)));
    assert Steps(c, 4) == Step(Step(Step(Step(c))));
    assert Steps(c, 5) == Step(Step(Step(Step(Step(c)))));
    assert Steps(c, 6) == Step(Step(Step(Step(Step(Step(c))))));
    assert Steps(c, 7) == Step(Step(Step(Step(Step(Step(Step(c)))))));
  }

  lemma Advance(n: nat, c: bv16, k: nat, r: bv16)
    requires IsGenerator(G) && |G| == 16 + 1 && Power(G, n) == WordBits(c) && Steps(c, k) == r
    ensures Power(G, n + k) == WordBits(r)
  {
    hide Power, WordBits, Steps, Feed;
    PowerAdd(G, n, k);
    StepsAreFeed(c, k);
  }

  lemma AdvanceByte(n: nat, c: bv16, r: bv16)
    requires IsGenerator(G) && |G| == 16 + 1 && Power(G, n) == WordBits(c) && Eight(c) == r
    ensures Power(G, n + 8) == WordBits(r)
  {
    hide Power, WordBits, Eight, Steps;
    EightSteps(c);
    Advance(n, c, 8, r);
  }

  lemma Doubles(n: nat, c: bv16, r: bv16)
    requires IsGenerator(G) && |G| == 16 + 1 && VanishesAtSquare(G) && Power(G, n) == WordBits(c) && Square(c) == r
    ensures Power(G, 2 * n) == WordBits(r)
  {
    hide Power, WordBits, Square, AtSquare, VanishesAtSquare;
    PowerDoubles(G, n);
    SquareBits(c);
  }

  lemma FirstPower()
    requires IsGenerator(G) && |G| == 16 + 1
    ensures Power(G, 0) == WordBits(1) && Power(G, 1) == WordBits(2)
  {
    hide WordBits;
    OneBit();
    assert Power(G, 0) == One(16);
    assert Steps(1, 1) == 2;
    hide Power, Steps;
    Advance(0, 1, 1, 2);
  }

  lemma Vanishes()
    requires IsGenerator(G) && |G| == 16 + 1
    ensures VanishesAtSquare(G)
  {
    assert Eight(0x1021) == 0x3331;
    assert Eight(0x3331) == 0x3730;
    assert Square(0x1021) == 0x3730;
    hide Power, WordBits, Square, Eight, AtSquare;
    FirstFeedback(G);
    assert G[1..] == WordBits(POLYNOMIAL_CRC16);
    AdvanceByte(16, 0x1021, 0x3331);
    AdvanceByte(24, 0x3331, 0x3730);
    SquareBits(POLYNOMIAL_CRC16);
  }

  lemma To32()
    requires IsGenerator(G) && |G| == 16 + 1 && VanishesAtSquare(G) && Power(G, 1) == WordBits(0x0002)
    ensures Power(G, 32) == WordBits(0x3730)
  {
    assert Square(0x0002) == 0x0004;
    assert Square(0x0004) == 0x0010;
    assert Square(0x0010) == 0x0100;
    assert Square(0x0100) == 0x1021;
    assert Square(0x1021) == 0x3730;
    hide Power, WordBits, Square, VanishesAtSquare;
    Doubles(1, 0x0002, 0x0004);
    Doubles(2, 0x0004, 0x0010);
    Doubles(4, 0x0010, 0x0100);
    Doubles(8, 0x0100, 0x1021);
    Doubles(16, 0x1021, 0x3730);
  }

  lemma To256()
    requires IsGenerator(G) && |G| == 16 + 1 && VanishesAtSquare(G) && Power(G, 32) == WordBits(0x3730)
    ensures Power(G, 256) == WordBits(0x8E29)
  {
    assert Square(0x3730) == 0xB861;
    assert Square(0xB861) == 0xAEFC;
    assert Square(0xAEFC) == 0x8E29;
    hide Power, WordBits, Square, VanishesAtSquare;
    Doubles(32, 0x3730, 0xB861);
    Doubles(64, 0xB861, 0xAEFC);
    Doubles(128, 0xAEFC, 0x8E29);
  }

  lemma To1024()
    requires IsGenerator(G) && |G| == 16 + 1 && VanishesAtSquare(G) && Power(G, 256) == WordBits(0x8E29)
    ensures Power(G, 1024) == WordBits(0x36C4)
  {
    assert Square(0x8E29) == 0x13FC;
    assert Square(0x13FC) == 0x36C4;
    hide Power, WordBits, Square, VanishesAtSquare;
    Doubles(256, 0x8E29, 0x13FC);
    Doubles(512, 0x13FC, 0x36C4);
  }

  lemma To32768()
    requires IsGenerator(G) && |G| == 16 + 1 && VanishesAtSquare(G) && Power(G, 1024) == WordBits(0x36C4)
    ensures Power(G, 32768) == WordBits(0x0002)
  {
    assert Square(0x36C4) == 0xFD50;
    assert Square(0xFD50) == 0xAA9E;
    assert Square(0xAA9E) == 0x881C;
    assert Square(0x881C) == 0x4458;
    assert Square(0x4458) == 0x0002;
    hide Power, WordBits, Square, VanishesAtSquare;
    Doubles(1024, 0x36C4, 0xFD50);
    Doubles(2048, 0xFD50, 0xAA9E);
    Doubles(4096, 0xAA9E, 0x881C);
    Doubles(8192, 0x881C, 0x4458);
    Doubles(16384, 0x4458, 0x0002);
  }

  /** Registers that differ in a bit differ. */
  lemma Differ(a: bv16, b: bv16, i: nat)
    requires i < 16 && WordBit(a, WordMask(i)) != WordBit(b, WordMask(i))
    ensures WordBits(a) != WordBits(b)
  {
    BitAt(a, i);
    BitAt(b, i);
  }

  lemma Not217()
    requires IsGenerator(G) && |G| == 17 && Power(G, 32) == WordBits(0x3730) && Power(G, 256) == WordBits(0x8E29)
    ensures !Returns(G, 217)
  {
    assert Steps(0x3730, 7) == 0x3B5A;
    assert WordMask(0) == 0x8000;
    Differ(0x3B5A, 0x8E29, 0);
    hide Power, WordBits, Steps;
    Advance(32, 0x3730, 7, 0x3B5A);
    if Returns(G, 217) { ReturnsThen(G, 217, 39); }
  }

  lemma Not1057()
    requires IsGenerator(G) && |G| == 17 && Power(G, 1024) == WordBits(0x36C4)
    ensures !Returns(G, 1057)
  {
    assert Eight(0x36C4) == 0x9295;
    assert Eight(0x9295) == 0x36FB;
    assert Eight(0x36FB) == 0xAD95;
    assert Eight(0xAD95) == 0xF147;
    assert Step(0xF147) == 0xF2AF;
    assert WordMask(0) == 0x8000;
    Differ(0xF2AF, 1, 0);
    OneBit();
    hide Power, WordBits, Eight, Step;
    AdvanceByte(1024, 0x36C4, 0x9295);
    AdvanceByte(1032, 0x9295, 0x36FB);
    AdvanceByte(1040, 0x36FB, 0xAD95);
    AdvanceByte(1048, 0xAD95, 0xF147);
    PowerThen(G, 1057);
    StepIsClock(0xF147);
  }

  lemma Prime151()
    ensures IsPrime(151)
  {
    assert NoDivisor(151, 6);
    assert NoDivisor(151, 12);
    hide NoDivisor;
    PrimeByRoot(151, 12);
  }

  lemma Prime31()
    ensures IsPrime(31)
  {
    assert NoDivisor(31, 5);
    hide NoDivisor;
    PrimeByRoot(31, 5);
  }

  /** x^32767 is one; 151 and 31 are its prime factors that a lower power would have to miss, and cannot. */
  lemma NoEarlyReturn(d: nat)
    requires 0 < d < 4681
    ensures IsGenerator(G) && !Returns(G, d)
  {
    IsGen();
    hide Returns, Power, WordBits, VanishesAtSquare, IsPrime;
    Vanishes();
    FirstPower();
    To32();
    To256();
    To1024();
    To32768();
    Cancel(G, 1, 32767);
    Not217();
    Not1057();
    Prime151();
    Prime31();
    if Returns(G, d) {
      if d % 151 != 0 {
        PrimeStep(G, 151, 217, d);
      } else {
        assert d % 31 != 0;
        PrimeStep(G, 31, 1057, d);
      }
    }
  }
}
