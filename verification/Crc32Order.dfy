/** Powers of x modulo the generator of the four-octet check sequence. */
module Crc32Order {
  import opened Bits
  import opened Gf2
  import opened Gf2Order
  import opened Crc32

  // ------------------------------------------------------------------ times x^2

  function Twice(r: bv32): bv32 {
    if r & 0x80000000 != 0 then (if r & 0x40000000 != 0 then (r << 2) ^ 0x0D4326D9 else (r << 2) ^ 0x09823B6E)
    else if r & 0x40000000 != 0 then (r << 2) ^ 0x04C11DB7 else r << 2
  }

  lemma StepHigh(c: bv32)
    requires c & 0x80000000 != 0
    ensures Step(c) == (c << 1) ^ 0x04C11DB7
  {
  }

  lemma StepLow(c: bv32)
    requires c & 0x80000000 == 0
    ensures Step(c) == c << 1
  {
  }

  lemma ShiftedTop(r: bv32)
    ensures (r << 1) & 0x80000000 != 0 <==> r & 0x40000000 != 0
  {
  }

  lemma FedBackTop(r: bv32)
    ensures ((r << 1) ^ 0x04C11DB7) & 0x80000000 != 0 <==> r & 0x40000000 != 0
  {
  }

  lemma FedBackLow(r: bv32)
    ensures ((r << 1) ^ 0x04C11DB7) << 1 == (r << 2) ^ 0x09823B6E
  {
  }

  lemma FedBackHigh(r: bv32)
    ensures (((r << 1) ^ 0x04C11DB7) << 1) ^ 0x04C11DB7 == (r << 2) ^ 0x0D4326D9
  {
  }

  lemma ShiftTwice(r: bv32)
    ensures (r << 1) << 1 == r << 2
  {
  }

  lemma TwiceIs11(r: bv32)
    requires r & 0x80000000 != 0 && r & 0x40000000 != 0
    ensures Twice(r) == (r << 2) ^ 0x0D4326D9
  {
  }

  lemma Twice11(r: bv32)
    requires r & 0x80000000 != 0 && r & 0x40000000 != 0
    ensures Twice(r) == Step(Step(r))
  {
    hide Step, Twice;
    TwiceIs11(r);
    StepHigh(r);
    FedBackTop(r);
    StepHigh(Step(r));
    FedBackHigh(r);
  }

  lemma TwiceIs10(r: bv32)
    requires r & 0x80000000 != 0 && r & 0x40000000 == 0
    ensures Twice(r) == (r << 2) ^ 0x09823B6E
  {
  }

  lemma Twice10(r: bv32)
    requires r & 0x80000000 != 0 && r & 0x40000000 == 0
    ensures Twice(r) == Step(Step(r))
  {
    hide Step, Twice;
    TwiceIs10(r);
    StepHigh(r);
    FedBackTop(r);
    StepLow(Step(r));
    FedBackLow(r);
  }

  lemma TwiceIs01(r: bv32)
    requires r & 0x80000000 == 0 && r & 0x40000000 != 0
    ensures Twice(r) == (r << 2) ^ 0x04C11DB7
  {
  }

  lemma Twice01(r: bv32)
    requires r & 0x80000000 == 0 && r & 0x40000000 != 0
    ensures Twice(r) == Step(Step(r))
  {
    hide Step, Twice;
    TwiceIs01(r);
    StepLow(r);
    ShiftedTop(r);
    StepHigh(Step(r));
    ShiftTwice(r);
  }

  lemma TwiceIs00(r: bv32)
    requires r & 0x80000000 == 0 && r & 0x40000000 == 0
    ensures Twice(r) == r << 2
  {
  }

  lemma Twice00(r: bv32)
    requires r & 0x80000000 == 0 && r & 0x40000000 == 0
    ensures Twice(r) == Step(Step(r))
  {
    hide Step, Twice;
    TwiceIs00(r);
    StepLow(r);
    ShiftedTop(r);
    StepLow(Step(r));
    ShiftTwice(r);
  }

  lemma TwiceSteps(r: bv32)
    ensures Twice(r) == Step(Step(r))
  {
    hide Step, Twice;
    if r & 0x80000000 != 0 {
      if r & 0x40000000 != 0 { Twice11(r); } else { Twice10(r); }
    } else {
      if r & 0x40000000 != 0 { Twice01(r); } else { Twice00(r); }
    }
  }

  // -------------------------------------------------------- squaring a register

  /** Times x^2, plus the bit of `w` under the mask. */
  function Next(r: bv32, w: bv32, mask: bv32): bv32 {
    if w & mask != 0 then Twice(r) ^ 1 else Twice(r)
  }

  /** The first `i` bits of `w` as a polynomial, evaluated at x^2. */
  function SquareTop(w: bv32, i: nat): bv32 {
    if i == 0 then 0 else Next(SquareTop(w, i - 1), w, WordMask(i - 1))
  }

  /** All of them, with the masks written out. */
  function Square(w: bv32): bv32 {
    var r1 := Next(0, w, 0x80000000);
    var r2 := Next(r1, w, 0x40000000);
    var r3 := Next(r2, w, 0x20000000);
    var r4 := Next(r3, w, 0x10000000);
    var r5 := Next(r4, w, 0x08000000);
    var r6 := Next(r5, w, 0x04000000);
    var r7 := Next(r6, w, 0x02000000);
    var r8 := Next(r7, w, 0x01000000);
    var r9 := Next(r8, w, 0x00800000);
    var r10 := Next(r9, w, 0x00400000);
    var r11 := Next(r10, w, 0x00200000);
    var r12 := Next(r11, w, 0x00100000);
    var r13 := Next(r12, w, 0x00080000);
    var r14 := Next(r13, w, 0x00040000);
    var r15 := Next(r14, w, 0x00020000);
    var r16 := Next(r15, w, 0x00010000);
    var r17 := Next(r16, w, 0x00008000);
    var r18 := Next(r17, w, 0x00004000);
    var r19 := Next(r18, w, 0x00002000);
    var r20 := Next(r19, w, 0x00001000);
    var r21 := Next(r20, w, 0x00000800);
    var r22 := Next(r21, w, 0x00000400);
    var r23 := Next(r22, w, 0x00000200);
    var r24 := Next(r23, w, 0x00000100);
    var r25 := Next(r24, w, 0x00000080);
    var r26 := Next(r25, w, 0x00000040);
    var r27 := Next(r26, w, 0x00000020);
    var r28 := Next(r27, w, 0x00000010);
    var r29 := Next(r28, w, 0x00000008);
    var r30 := Next(r29, w, 0x00000004);
    var r31 := Next(r30, w, 0x00000002);
    Next(r31, w, 0x00000001)
  }

  lemma OneBitMore(w: bv32, i: nat)
    ensures SquareTop(w, i + 1) == Next(SquareTop(w, i), w, WordMask(i))
  {
    hide Next;
  }

  lemma Masks()
    ensures WordMask(0) == 0x80000000 && WordMask(1) == 0x40000000 && WordMask(2) == 0x20000000 && WordMask(3) == 0x10000000
    ensures WordMask(4) == 0x08000000 && WordMask(5) == 0x04000000 && WordMask(6) == 0x02000000 && WordMask(7) == 0x01000000
    ensures WordMask(8) == 0x00800000 && WordMask(9) == 0x00400000 && WordMask(10) == 0x00200000 && WordMask(11) == 0x00100000
    ensures WordMask(12) == 0x00080000 && WordMask(13) == 0x00040000 && WordMask(14) == 0x00020000 && WordMask(15) == 0x00010000
    ensures WordMask(16) == 0x00008000 && WordMask(17) == 0x00004000 && WordMask(18) == 0x00002000 && WordMask(19) == 0x00001000
    ensures WordMask(20) == 0x00000800 && WordMask(21) == 0x00000400 && WordMask(22) == 0x00000200 && WordMask(23) == 0x00000100
    ensures WordMask(24) == 0x00000080 && WordMask(25) == 0x00000040 && WordMask(26) == 0x00000020 && WordMask(27) == 0x00000010
    ensures WordMask(28) == 0x00000008 && WordMask(29) == 0x00000004 && WordMask(30) == 0x00000002 && WordMask(31) == 0x00000001
  {
    assert WordMask(4) == 0x08000000;
    assert WordMask(8) == 0x00800000;
    assert WordMask(12) == 0x00080000;
    assert WordMask(16) == 0x00008000;
    assert WordMask(20) == 0x00000800;
    assert WordMask(24) == 0x00000080;
    assert WordMask(28) == 0x00000008;
  }

  lemma SquareUnrolled(w: bv32)
    ensures SquareTop(w, 32) == Square(w)
  {
    assert SquareTop(w, 0) == 0;
    Masks();
    hide Next, SquareTop, WordMask;
    OneBitMore(w, 0);
    OneBitMore(w, 1);
    OneBitMore(w, 2);
    OneBitMore(w, 3);
    OneBitMore(w, 4);
    OneBitMore(w, 5);
    OneBitMore(w, 6);
    OneBitMore(w, 7);
    OneBitMore(w, 8);
    OneBitMore(w, 9);
    OneBitMore(w, 10);
    OneBitMore(w, 11);
    OneBitMore(w, 12);
    OneBitMore(w, 13);
    OneBitMore(w, 14);
    OneBitMore(w, 15);
    OneBitMore(w, 16);
    OneBitMore(w, 17);
    OneBitMore(w, 18);
    OneBitMore(w, 19);
    OneBitMore(w, 20);
    OneBitMore(w, 21);
    OneBitMore(w, 22);
    OneBitMore(w, 23);
    OneBitMore(w, 24);
    OneBitMore(w, 25);
    OneBitMore(w, 26);
    OneBitMore(w, 27);
    OneBitMore(w, 28);
    OneBitMore(w, 29);
    OneBitMore(w, 30);
    OneBitMore(w, 31);
  }

  lemma {:induction false} ZeroMaskStays(i: nat, n: nat)
    requires WordMask(i) == 0
    ensures WordMask(i + n) == 0
  {
    if n > 0 { ZeroMaskStays(i, n - 1); }
  }

  lemma SingleLowBit(m: bv32)
    requires IsSingle(m) && m >> 1 != 0
    ensures m & 1 == 0
  {
  }

  lemma LowBit(m: bv32)
    ensures WordBit(1, m) == (m & 1 != 0) && !WordBit(0, m)
  {
  }

  lemma BitAt(w: bv32, i: nat)
    requires i < 32
    ensures WordBits(w)[i] == WordBit(w, WordMask(i)) == (w & WordMask(i) != 0)
  {
  }

  lemma OneBit()
    ensures WordBits(1) == One(32) && WordBits(0) == Zeros(32)
  {
    forall i | 0 <= i < 32 ensures WordBits(1)[i] == One(32)[i] && !WordBits(0)[i] { OneBitAt(i); }
  }

  lemma OneBitAt(i: nat)
    requires i < 32
    ensures WordBits(1)[i] == (i == 31) && !WordBits(0)[i]
  {
    BitAt(1, i);
    BitAt(0, i);
    Masks();
    LowBit(WordMask(i));
    if i < 31 {
      MaskIsSingle(i);
      assert WordMask(i + 1) == WordMask(i) >> 1;
      hide WordBits, WordBit, WordMask, IsSingle;
      if WordMask(i + 1) == 0 { ZeroMaskStays(i + 1, 31 - i - 1); }
      SingleLowBit(WordMask(i));
    }
  }

  lemma IsGen()
    ensures IsGenerator(G) && |G| == 32 + 1
  {
    GeneratorEnds();
  }

  lemma NextBits(r: bv32, w: bv32, i: nat)
    requires i < 32 && IsGenerator(G) && |G| == 32 + 1
    ensures WordBits(Next(r, w, WordMask(i))) == Xor(Turn(G, Turn(G, WordBits(r))), Unit(32, WordBits(w)[i]))
  {
    BitAt(w, i);
    hide Step, Twice, WordBits, Clock, WordMask;
    TwiceSteps(r);
    StepIsClock(r);
    StepIsClock(Step(r));
    OneBit();
    if w & WordMask(i) != 0 {
      XorBits(Twice(r), 1);
    } else {
      XorZero(WordBits(Twice(r)));
    }
  }

  lemma {:induction false} SquareTopBits(w: bv32, i: nat)
    requires i <= 32 && IsGenerator(G) && |G| == 32 + 1
    ensures WordBits(SquareTop(w, i)) == AtSquare(G, WordBits(w)[..i])
  {
    hide Next, WordBits, Turn, Unit;
    OneBit();
    if i > 0 {
      SquareTopBits(w, i - 1);
      NextBits(SquareTop(w, i - 1), w, i - 1);
      assert WordBits(w)[..i] == WordBits(w)[..i - 1] + [WordBits(w)[i - 1]];
      AtSquareThen(G, WordBits(w)[..i - 1], WordBits(w)[i - 1]);
    }
  }

  lemma SquareBits(w: bv32)
    requires IsGenerator(G) && |G| == 32 + 1
    ensures WordBits(Square(w)) == AtSquare(G, WordBits(w))
  {
    hide Square, SquareTop, WordBits, AtSquare;
    SquareUnrolled(w);
    SquareTopBits(w, 32);
    assert WordBits(w)[..32] == WordBits(w);
  }

  // --------------------------------------------------------------- powers of x

  function Eight(c: bv32): bv32 {
    Step(Step(Step(Step(Step(Step(Step(Step(c))))))))
  }

  lemma EightSteps(c: bv32)
    ensures Steps(c, 8) == Eight(c)
  {
    hide Step;
    assert Steps(c, 1) == Step(c);
    assert Steps(c, 2) == Step(Step(c));
    assert Steps(c, 3) == Step(Step(Step(c)));
    assert Steps(c, 4) == Step(Step(Step(Step(c))));
    assert Steps(c, 5) == Step(Step(Step(Step(Step(c)))));
    assert Steps(c, 6) == Step(Step(Step(Step(Step(Step(c))))));
    assert Steps(c, 7) == Step(Step(Step(Step(Step(Step(Step(c)))))));
  }

  lemma Advance(n: nat, c: bv32, k: nat, r: bv32)
    requires IsGenerator(G) && |G| == 32 + 1 && Power(G, n) == WordBits(c) && Steps(c, k) == r
    ensures Power(G, n + k) == WordBits(r)
  {
    hide Power, WordBits, Steps, Feed;
    PowerAdd(G, n, k);
    StepsAreFeed(c, k);
  }

  lemma AdvanceByte(n: nat, c: bv32, r: bv32)
    requires IsGenerator(G) && |G| == 32 + 1 && Power(G, n) == WordBits(c) && Eight(c) == r
    ensures Power(G, n + 8) == WordBits(r)
  {
    hide Power, WordBits, Eight, Steps;
    EightSteps(c);
    Advance(n, c, 8, r);
  }

  lemma Doubles(n: nat, c: bv32, r: bv32)
    requires IsGenerator(G) && |G| == 32 + 1 && VanishesAtSquare(G) && Power(G, n) == WordBits(c) && Square(c) == r
    ensures Power(G, 2 * n) == WordBits(r)
  {
    hide Power, WordBits, Square, AtSquare, VanishesAtSquare;
    PowerDoubles(G, n);
    SquareBits(c);
  }

  lemma FirstPower()
    requires IsGenerator(G) && |G| == 32 + 1
    ensures Power(G, 0) == WordBits(1) && Power(G, 1) == WordBits(2)
  {
    hide WordBits;
    OneBit();
    assert Power(G, 0) == One(32);
    assert Steps(1, 1) == 2;
    hide Power, Steps;
    Advance(0, 1, 1, 2);
  }

  lemma Vanishes()
    requires IsGenerator(G) && |G| == 32 + 1
    ensures VanishesAtSquare(G)
  {
    assert Eight(0x04C11DB7) == 0xD219C1DC;
    assert Eight(0xD219C1DC) == 0x01D8AC87;
    assert Eight(0x01D8AC87) == 0xDC6D9AB7;
    assert Eight(0xDC6D9AB7) == 0x490D678D;
    assert Square(0x04C11DB7) == 0x490D678D;
    hide Power, WordBits, Square, Eight, AtSquare;
    FirstFeedback(G);
    assert G[1..] == WordBits(POLYNOMIAL_CRC32);
    AdvanceByte(32, 0x04C11DB7, 0xD219C1DC);
    AdvanceByte(40, 0xD219C1DC, 0x01D8AC87);
    AdvanceByte(48, 0x01D8AC87, 0xDC6D9AB7);
    AdvanceByte(56, 0xDC6D9AB7, 0x490D678D);
    SquareBits(POLYNOMIAL_CRC32);
  }

  lemma To4()
    requires IsGenerator(G) && |G| == 32 + 1 && VanishesAtSquare(G) && Power(G, 1) == WordBits(0x00000002)
    ensures Power(G, 16) == WordBits(0x00010000)
  {
    assert Square(0x00000002) == 0x00000004;
    assert Square(0x00000004) == 0x00000010;
    assert Square(0x00000010) == 0x00000100;
    assert Square(0x00000100) == 0x00010000;
    hide Power, WordBits, Square, VanishesAtSquare;
    Doubles(1, 0x00000002, 0x00000004);
    Doubles(2, 0x00000004, 0x00000010);
    Doubles(4, 0x00000010, 0x00000100);
    Doubles(8, 0x00000100, 0x00010000);
  }

  lemma To8()
    requires IsGenerator(G) && |G| == 32 + 1 && VanishesAtSquare(G) && Power(G, 16) == WordBits(0x00010000)
    ensures Power(G, 256) == WordBits(0x75BE46B7)
  {
    assert Square(0x00010000) == 0x04C11DB7;
    assert Square(0x04C11DB7) == 0x490D678D;
    assert Square(0x490D678D) == 0xE8A45605;
    assert Square(0xE8A45605) == 0x75BE46B7;
    hide Power, WordBits, Square, VanishesAtSquare;
    Doubles(16, 0x00010000, 0x04C11DB7);
    Doubles(32, 0x04C11DB7, 0x490D678D);
    Doubles(64, 0x490D678D, 0xE8A45605);
    Doubles(128, 0xE8A45605, 0x75BE46B7);
  }

  lemma To12()
    requires IsGenerator(G) && |G| == 32 + 1 && VanishesAtSquare(G) && Power(G, 256) == WordBits(0x75BE46B7)
    ensures Power(G, 4096) == WordBits(0x0E857E71)
  {
    assert Square(0x75BE46B7) == 0xE6228B11;
    assert Square(0xE6228B11) == 0x567FDDEB;
    assert Square(0x567FDDEB) == 0x88FE2237;
    assert Square(0x88FE2237) == 0x0E857E71;
    hide Power, WordBits, Square, VanishesAtSquare;
    Doubles(256, 0x75BE46B7, 0xE6228B11);
    Doubles(512, 0xE6228B11, 0x567FDDEB);
    Doubles(1024, 0x567FDDEB, 0x88FE2237);
    Doubles(2048, 0x88FE2237, 0x0E857E71);
  }

  lemma To16()
    requires IsGenerator(G) && |G| == 32 + 1 && VanishesAtSquare(G) && Power(G, 4096) == WordBits(0x0E857E71)
    ensures Power(G, 65536) == WordBits(0xF0B4A1C1)
  {
    assert Square(0x0E857E71) == 0x7001E426;
    assert Square(0x7001E426) == 0x075DE2B2;
    assert Square(0x075DE2B2) == 0xF12A7F90;
    assert Square(0xF12A7F90) == 0xF0B4A1C1;
    hide Power, WordBits, Square, VanishesAtSquare;
    Doubles(4096, 0x0E857E71, 0x7001E426);
    Doubles(8192, 0x7001E426, 0x075DE2B2);
    Doubles(16384, 0x075DE2B2, 0xF12A7F90);
    Doubles(32768, 0xF12A7F90, 0xF0B4A1C1);
  }

  lemma To20()
    requires IsGenerator(G) && |G| == 32 + 1 && VanishesAtSquare(G) && Power(G, 65536) == WordBits(0xF0B4A1C1)
    ensures Power(G, 1048576) == WordBits(0x544037F9)
  {
    assert Square(0xF0B4A1C1) == 0x58F46C0C;
    assert Square(0x58F46C0C) == 0xC3395ADE;
    assert Square(0xC3395ADE) == 0x96837F8C;
    assert Square(0x96837F8C) == 0x544037F9;
    hide Power, WordBits, Square, VanishesAtSquare;
    Doubles(65536, 0xF0B4A1C1, 0x58F46C0C);
    Doubles(131072, 0x58F46C0C, 0xC3395ADE);
    Doubles(262144, 0xC3395ADE, 0x96837F8C);
    Doubles(524288, 0x96837F8C, 0x544037F9);
  }

  lemma To24()
    requires IsGenerator(G) && |G| == 32 + 1 && VanishesAtSquare(G) && Power(G, 1048576) == WordBits(0x544037F9)
    ensures Power(G, 16777216) == WordBits(0xEC709B5D)
  {
    assert Square(0x544037F9) == 0x23B7B136;
    assert Square(0x23B7B136) == 0xB2E16BA8;
    assert Square(0xB2E16BA8) == 0x725E7BFA;
    assert Square(0x725E7BFA) == 0xEC709B5D;
    hide Power, WordBits, Square, VanishesAtSquare;
    Doubles(1048576, 0x544037F9, 0x23B7B136);
    Doubles(2097152, 0x23B7B136, 0xB2E16BA8);
    Doubles(4194304, 0xB2E16BA8, 0x725E7BFA);
    Doubles(8388608, 0x725E7BFA, 0xEC709B5D);
  }

  lemma To28()
    requires IsGenerator(G) && |G| == 32 + 1 && VanishesAtSquare(G) && Power(G, 16777216) == WordBits(0xEC709B5D)
    ensures Power(G, 268435456) == WordBits(0x79695942)
  {
    assert Square(0xEC709B5D) == 0xF77A7274;
    assert Square(0xF77A7274) == 0x2845D572;
    assert Square(0x2845D572) == 0x034E2515;
    assert Square(0x034E2515) == 0x79695942;
    hide Power, WordBits, Square, VanishesAtSquare;
    Doubles(16777216, 0xEC709B5D, 0xF77A7274);
    Doubles(33554432, 0xF77A7274, 0x2845D572);
    Doubles(67108864, 0x2845D572, 0x034E2515);
    Doubles(134217728, 0x034E2515, 0x79695942);
  }

  lemma To32()
    requires IsGenerator(G) && |G| == 32 + 1 && VanishesAtSquare(G) && Power(G, 268435456) == WordBits(0x79695942)
    ensures Power(G, 4294967296) == WordBits(0x00000002)
  {
    assert Square(0x79695942) == 0x540CB128;
    assert Square(0x540CB128) == 0x0B65D023;
    assert Square(0x0B65D023) == 0x3C344723;
    assert Square(0x3C344723) == 0x00000002;
    hide Power, WordBits, Square, VanishesAtSquare;
    Doubles(268435456, 0x79695942, 0x540CB128);
    Doubles(536870912, 0x540CB128, 0x0B65D023);
    Doubles(1073741824, 0x0B65D023, 0x3C344723);
    Doubles(2147483648, 0x3C344723, 0x00000002);
  }

  /** Registers that differ in a bit differ. */
  lemma Differ(a: bv32, b: bv32, i: nat)
    requires i < 32 && WordBit(a, WordMask(i)) != WordBit(b, WordMask(i))
    ensures WordBits(a) != WordBits(b)
  {
    BitAt(a, i);
    BitAt(b, i);
  }

  lemma NoDivisor64()
    ensures NoDivisor(65537, 64)
  {
    assert NoDivisor(65537, 8);
    assert NoDivisor(65537, 16);
    assert NoDivisor(65537, 24);
    assert NoDivisor(65537, 32);
    assert NoDivisor(65537, 40);
    assert NoDivisor(65537, 48);
    assert NoDivisor(65537, 56);
    assert NoDivisor(65537, 64);
  }

  lemma NoDivisor128()
    requires NoDivisor(65537, 64)
    ensures NoDivisor(65537, 128)
  {
    assert NoDivisor(65537, 72);
    assert NoDivisor(65537, 80);
    assert NoDivisor(65537, 88);
    assert NoDivisor(65537, 96);
    assert NoDivisor(65537, 104);
    assert NoDivisor(65537, 112);
    assert NoDivisor(65537, 120);
    assert NoDivisor(65537, 128);
  }

  lemma NoDivisor192()
    requires NoDivisor(65537, 128)
    ensures NoDivisor(65537, 192)
  {
    assert NoDivisor(65537, 136);
    assert NoDivisor(65537, 144);
    assert NoDivisor(65537, 152);
    assert NoDivisor(65537, 160);
    assert NoDivisor(65537, 168);
    assert NoDivisor(65537, 176);
    assert NoDivisor(65537, 184);
    assert NoDivisor(65537, 192);
  }

  lemma NoDivisor256()
    requires NoDivisor(65537, 192)
    ensures NoDivisor(65537, 256)
  {
    assert NoDivisor(65537, 200);
    assert NoDivisor(65537, 208);
    assert NoDivisor(65537, 216);
    assert NoDivisor(65537, 224);
    assert NoDivisor(65537, 232);
    assert NoDivisor(65537, 240);
    assert NoDivisor(65537, 248);
    assert NoDivisor(65537, 256);
  }

  lemma Prime65537()
    ensures IsPrime(65537)
  {
    hide NoDivisor, IsPrime;
    NoDivisor64();
    NoDivisor128();
    NoDivisor192();
    NoDivisor256();
    PrimeByRoot(65537, 256);
  }

  lemma FullTurn()
    requires IsGenerator(G) && |G| == 33
    ensures Power(G, 65536) == WordBits(0xF0B4A1C1) && Power(G, 1) == WordBits(2) && Power(G, 4294967296) == WordBits(2)
  {
    hide Power, WordBits, VanishesAtSquare;
    Vanishes();
    FirstPower();
    To4();
    To8();
    To12();
    To16();
    To20();
    To24();
    To28();
    To32();
  }

  /** x^(2^32 - 1) is one; a lower return below the prime 65537 would make x^65535 one, which it is not. */
  lemma NoEarlyReturn(d: nat)
    requires 0 < d < 65537
    ensures IsGenerator(G) && !Returns(G, d)
  {
    IsGen();
    Differ(0xF0B4A1C1, 2, 0);
    hide Returns, Power, WordBits, IsPrime;
    FullTurn();
    Cancel(G, 1, 4294967295);
    Prime65537();
    if Returns(G, d) {
      PrimeStep(G, 65537, 65535, d);
      ReturnsThen(G, 65535, 1);
    }
  }
}
