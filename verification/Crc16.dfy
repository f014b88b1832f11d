/** The two-octet frame check sequence of lr11xx_halo.c: the code's shift register, and the
    polynomial remainder it computes. */
module Crc16 {
  import opened Bits
  import opened Gf2

  const POLYNOMIAL_CRC16: bv16 := 0x1021

  /** The mask of the i-th most significant bit; zero past the word. */
  function WordMask(i: nat): bv16 {
    if i == 0 then 0x8000 else WordMask(i - 1) >> 1
  }

  predicate WordBit(c: bv16, m: bv16) {
    c & m != 0
  }

  predicate IsSingle(m: bv16) {
    m & (m - 1) == 0
  }

  function WordBits(c: bv16): (r: seq<bool>)
    ensures |r| == 16
  {
    seq(16, i requires 0 <= i < 16 => WordBit(c, WordMask(i)))
  }

  /** x^16 + x^12 + x^5 + 1 */
  ghost const G: seq<bool> := [true] + WordBits(POLYNOMIAL_CRC16)

  // ---------------------------------------------------------- the code's register

  function Step(c: bv16): bv16 {
    if c & 0x8000 != 0 then (c << 1) ^ POLYNOMIAL_CRC16 else c << 1
  }

  function Steps(c: bv16, n: nat): bv16 {
    if n == 0 then c else Step(Steps(c, n - 1))
  }

  /** One shift for each bit. */
  function ShiftOut(c: bv16, bits: seq<bool>): bv16 {
    Steps(c, |bits|)
  }

  /** A byte is added to the register's high end and shifted through. */
  function Absorb(c: bv16, b: bv8): bv16 {
    ShiftOut(c ^ (b as bv16 << 8), ByteBits(b))
  }

  function Register(c: bv16, s: seq<bv8>): bv16 {
    if s == [] then c else Absorb(Register(c, s[..|s| - 1]), s[|s| - 1])
  }

  function Crc16(s: seq<bv8>): bv16 {
    Register(0, s)
  }

  /** A word as bytes, most significant first. */
  function WordBytes(c: bv16): (r: seq<bv8>)
    ensures |r| == 2
  {
    [((c >> 8) & 0xFF) as bv8, (c & 0xFF) as bv8]
  }

  method AbsorbByte(crc: bv16, b: bv8) returns (r: bv16)
    ensures r == Absorb(crc, b)
  {
    r := crc ^ (b as bv16 << 8);
    ghost var start := r;
    for i := 0 to 8
      invariant r == Steps(start, i)
    {
      r := Step(r);
    }
    assert r == ShiftOut(start, ByteBits(b));
  }

  lemma RegisterSnoc(c: bv16, s: seq<bv8>, n: nat)
    requires n < |s|
    ensures Register(c, s[..n + 1]) == Absorb(Register(c, s[..n]), s[n])
  {
    hide Absorb;
    assert s[..n + 1][..n] == s[..n];
  }

  method ComputeCrc16(buffer: array?<bv8>, length: uint16) returns (crc16: bv16)
    requires buffer != null ==> length <= buffer.Length
    ensures crc16 == Crc16(if buffer == null then [] else buffer[..length])
  {
    if buffer == null || length == 0 {
      return 0;
    }
    hide Absorb;
    crc16 := 0;
    for index := 0 to length
      invariant crc16 == Register(0, buffer[..index])
    {
      RegisterSnoc(0, buffer[..], index);
      assert buffer[..][..index] == buffer[..index] && buffer[..][..index + 1] == buffer[..index + 1];
      crc16 := AbsorbByte(crc16, buffer[index]);
    }
  }

  // ------------------------------------------------- the register divides by G

  lemma MaskHalves(i: nat)
    requires 0 < i < 8
    ensures Mask(i) == Mask(i - 1) >> 1
  {
  }

  lemma MaskIsSingle(i: nat)
    ensures IsSingle(WordMask(i))
  {
    if i > 0 {
      MaskIsSingle(i - 1);
      HalfIsSingle(WordMask(i - 1));
    }
  }

  lemma HalfIsSingle(m: bv16)
    requires IsSingle(m)
    ensures IsSingle(m >> 1)
  {
  }

  lemma WordMaskXor(a: bv16, b: bv16, m: bv16)
    requires IsSingle(m)
    ensures WordBit(a ^ b, m) == (WordBit(a, m) != WordBit(b, m))
  {
  }

  lemma ShiftBit(c: bv16, m: bv16)
    ensures WordBit(c << 1, m) == WordBit(c, m >> 1)
  {
  }

  /** Masks for whole bytes, and none beyond the word. */
  lemma ByteMasks()
    ensures WordMask(8) == 0x0080
    ensures WordMask(16) == 0x0000
  {
    assert WordMask(4) == 0x0800;
    assert WordMask(8) == 0x0080;
    assert WordMask(12) == 0x0008;
    assert WordMask(16) == 0x0000;
  }

  lemma XorBits(x: bv16, y: bv16)
    ensures WordBits(x ^ y) == Xor(WordBits(x), WordBits(y))
  {
    forall i | 0 <= i < 16 ensures WordBits(x ^ y)[i] == (WordBits(x)[i] != WordBits(y)[i]) {
      MaskIsSingle(i);
      WordMaskXor(x, y, WordMask(i));
    }
  }

  lemma ShiftedBit(c: bv16, i: nat)
    ensures WordBit(c << 1, WordMask(i)) == WordBit(c, WordMask(i + 1))
  {
    ShiftBit(c, WordMask(i));
  }

  lemma NoBitPastWord(c: bv16)
    ensures !WordBit(c, WordMask(16))
  {
    ByteMasks();
  }

  /** Shifting a word left by one drops its first bit and appends a zero. */
  lemma ShiftBits(c: bv16)
    ensures WordBits(c << 1) == WordBits(c)[1..] + [false]
  {
    var a, b := WordBits(c << 1), WordBits(c)[1..] + [false];
    forall i | 0 <= i < 16 ensures a[i] == b[i] {
      ShiftedBit(c, i);
      if i == 16 - 1 {
        NoBitPastWord(c);
      } else {
        assert b[i] == WordBits(c)[i + 1];
      }
    }
  }

  lemma FirstBit(c: bv16)
    ensures WordBits(c)[0] == (c & 0x8000 != 0)
  {
  }

  lemma StepIsClock(c: bv16)
    ensures WordBits(Step(c)) == Clock(G, WordBits(c), false)
  {
    ShiftBits(c);
    XorBits(c << 1, POLYNOMIAL_CRC16);
    FirstBit(c);
  }

  lemma {:induction false} StepsAreFeed(c: bv16, n: nat)
    ensures WordBits(Steps(c, n)) == Feed(G, WordBits(c), Zeros(n))
  {
    if n > 0 {
      StepsAreFeed(c, n - 1);
      assert Zeros(n)[..n - 1] == Zeros(n - 1);
      StepIsClock(Steps(c, n - 1));
    }
  }

  lemma HalfIsLess(m: bv16)
    ensures m >> 1 <= m
  {
  }

  /** Below the first byte the masks are small. */
  lemma {:induction false} LowMask(i: nat)
    requires i >= 8
    ensures WordMask(i) < 0x100
  {
    if i == 8 {
      ByteMasks();
    } else {
      LowMask(i - 1);
      HalfIsLess(WordMask(i - 1));
    }
  }

  lemma {:induction false} HighMask(i: nat)
    requires i < 8
    ensures WordMask(i) == Mask(i) as bv16 << 8
  {
    if i > 0 {
      HighMask(i - 1);
      MaskHalves(i);
      assert (Mask(i - 1) as bv16 << 8) >> 1 == (Mask(i - 1) >> 1) as bv16 << 8;
    }
  }

  lemma HighByteBit(b: bv8, m: bv8)
    ensures WordBit(b as bv16 << 8, m as bv16 << 8) == Bit(b, m)
  {
  }

  lemma NoLowBit(b: bv8, m: bv16)
    requires m < 0x100
    ensures !WordBit(b as bv16 << 8, m)
  {
  }

  lemma HighByte(b: bv8)
    ensures WordBits(b as bv16 << 8) == ByteBits(b) + Zeros(8)
  {
    forall i | 0 <= i < 16 ensures WordBits(b as bv16 << 8)[i] == (ByteBits(b) + Zeros(8))[i] {
      if i < 8 {
        HighMask(i);
        HighByteBit(b, Mask(i));
      } else {
        LowMask(i);
        NoLowBit(b, WordMask(i));
      }
    }
  }

  lemma ByteIsFeed(c: bv16, b: bv8)
    ensures WordBits(Absorb(c, b)) == Feed(G, WordBits(c), ByteBits(b))
  {
    hide Steps, Feed, WordBits, ByteBits;
    XorBits(c, b as bv16 << 8);
    HighByte(b);
    ByteShifted(c, c ^ (b as bv16 << 8), b);
  }

  /** `loaded` is the register with the byte added to it. */
  lemma ByteShifted(c: bv16, loaded: bv16, b: bv8)
    requires WordBits(loaded) == Xor(WordBits(c), ByteBits(b) + Zeros(8))
    ensures WordBits(ShiftOut(loaded, ByteBits(b))) == Feed(G, WordBits(c), ByteBits(b))
  {
    hide Steps, Feed, WordBits, ByteBits;
    StepsAreFeed(loaded, |ByteBits(b)|);
    Preload(G, WordBits(c), ByteBits(b));
  }

  lemma {:induction false} RegisterIsFeed(c: bv16, s: seq<bv8>)
    ensures WordBits(Register(c, s)) == Feed(G, WordBits(c), BytesBits(s))
  {
    if s != [] {
      var n := |s| - 1;
      RegisterIsFeed(c, s[..n]);
      FeedConcat(G, WordBits(c), BytesBits(s[..n]), ByteBits(s[n]));
      ByteIsFeed(Register(c, s[..n]), s[n]);
    }
  }

  lemma {:induction false} MaskOfByte1(i: nat)
    requires i < 8
    ensures WordMask(8 + i) == Mask(i) as bv16
  {
    if i == 0 {
      ByteMasks();
    } else {
      MaskOfByte1(i - 1);
      MaskHalves(i);
      assert (Mask(i - 1) as bv16) >> 1 == (Mask(i - 1) >> 1) as bv16;
    }
  }

  lemma BitOfByte0(c: bv16, m: bv8)
    ensures Bit(((c >> 8) & 0xFF) as bv8, m) == WordBit(c, m as bv16 << 8)
  {
  }

  lemma BitOfByte1(c: bv16, m: bv8)
    ensures Bit((c & 0xFF) as bv8, m) == WordBit(c, m as bv16)
  {
  }

  lemma SliceOfByte0(c: bv16)
    ensures WordBits(c)[..8] == ByteBits(((c >> 8) & 0xFF) as bv8)
  {
    var slice := WordBits(c)[..8];
    forall i | 0 <= i < 8 ensures slice[i] == ByteBits(((c >> 8) & 0xFF) as bv8)[i] {
      HighMask(i);
      BitOfByte0(c, Mask(i));
      assert slice[i] == WordBits(c)[i];
    }
  }

  lemma SliceOfByte1(c: bv16)
    ensures WordBits(c)[8..16] == ByteBits((c & 0xFF) as bv8)
  {
    var slice := WordBits(c)[8..16];
    forall i | 0 <= i < 8 ensures slice[i] == ByteBits((c & 0xFF) as bv8)[i] {
      MaskOfByte1(i);
      BitOfByte1(c, Mask(i));
      assert slice[i] == WordBits(c)[8 + i];
    }
  }

  lemma WordBytesBits(c: bv16)
    ensures BytesBits(WordBytes(c)) == WordBits(c)
  {
    SliceOfByte0(c);
    SliceOfByte1(c);
    BytesBitsFromSlices(WordBits(c), WordBytes(c));
  }

  // ------------------------------------------------------------- what it computes

  lemma ZeroBits()
    ensures WordBits(0) == Zeros(16)
  {
    forall i | 0 <= i < 16 ensures !WordBits(0)[i] { NoBits(WordMask(i)); }
  }

  lemma NoBits(m: bv16)
    ensures !WordBit(0, m)
  {
  }

  lemma GeneratorEnds()
    ensures |G| == 17 && G[0] && G[16] && !Parity(G)
  {
    SliceOfByte0(POLYNOMIAL_CRC16);
    SliceOfByte1(POLYNOMIAL_CRC16);
    var g := WordBits(POLYNOMIAL_CRC16);
    assert g == g[..8] + g[8..16];
    var a, b := ByteBits(0x10), ByteBits(0x21);
    assert a == [false, false, false, true, false, false, false, false];
    assert b == [false, false, true, false, false, false, false, true];
    assert G == [true] + Zeros(3) + [true] + Zeros(6) + [true] + Zeros(4) + [true];
    ParityZeros(3); ParityZeros(6); ParityZeros(4);
    assert Parity([true]) by { assert [true][..0] == []; }
    ParityConcat([true], Zeros(3));
    ParityConcat([true] + Zeros(3), [true]);
    ParityConcat([true] + Zeros(3) + [true], Zeros(6));
    ParityConcat([true] + Zeros(3) + [true] + Zeros(6), [true]);
    ParityConcat([true] + Zeros(3) + [true] + Zeros(6) + [true], Zeros(4));
    ParityConcat([true] + Zeros(3) + [true] + Zeros(6) + [true] + Zeros(4), [true]);
  }

  lemma CrcBits(s: seq<bv8>)
    ensures BytesBits(WordBytes(Crc16(s))) == Feed(G, Zeros(16), BytesBits(s))
  {
    RegisterIsFeed(0, s);
    ZeroBits();
    WordBytesBits(Crc16(s));
  }

  /** compute_crc16 is the remainder of m(x) * x^16 by x^16 + x^12 + x^5 + 1, and only that. */
  lemma CrcIsTheRemainder(s: seq<bv8>, r: seq<bool>)
    ensures IsRemainder(G, Zeros(16), BytesBits(s), r) <==> r == BytesBits(WordBytes(Crc16(s)))
  {
    GeneratorEnds();
    FeedIsTheRemainder(G, Zeros(16), BytesBits(s), r);
    CrcBits(s);
  }

  /** The difference of two check sequences is a function of the difference of the inputs. */
  lemma CrcDifference(s: seq<bv8>, t: seq<bv8>)
    requires |s| == |t|
    ensures BytesBits(XorBytes(WordBytes(Crc16(s)), WordBytes(Crc16(t))))
         == Feed(G, Zeros(16), BytesBits(XorBytes(s, t)))
  {
    BytesBitsXor(s, t);
    BytesBitsXor(WordBytes(Crc16(s)), WordBytes(Crc16(t)));
    CrcBits(s);
    CrcBits(t);
    assert Xor(Zeros(16), Zeros(16)) == Zeros(16);
    FeedLinear(G, Zeros(16), Zeros(16), BytesBits(s), BytesBits(t));
  }

  /** A corrupted input and check sequence still agree exactly when the error is a multiple of G. */
  lemma ErrorPassesCheck(s: seq<bv8>, e: seq<bv8>, f: seq<bv8>)
    requires |s| == |e| && |f| == 2
    ensures XorBytes(WordBytes(Crc16(s)), f) == WordBytes(Crc16(XorBytes(s, e)))
       <==> Feed(G, Zeros(16), BytesBits(e + f)) == Zeros(16)
  {
    var s', c, c' := XorBytes(s, e), WordBytes(Crc16(s)), WordBytes(Crc16(XorBytes(s, e)));
    XorBytesTwice(s, e);
    CrcDifference(s, s');
    XorBytesSolve(c, f, c');
    if BytesBits(XorBytes(c, c')) == BytesBits(f) {
      BytesBitsInjective(XorBytes(c, c'), f);
    }
    GeneratorEnds();
    BytesBitsConcat(e, f);
    CheckEqualsFeedThrough(G, BytesBits(e), BytesBits(f));
  }
}
