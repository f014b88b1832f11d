/** The four-octet frame check sequence of lr11xx_halo.c: the code's shift register, and the
    polynomial remainder it computes. */
module Crc32 {
  import opened Bits
  import opened Gf2

  const POLYNOMIAL_CRC32: bv32 := 0x04C11DB7

  /** The mask of the i-th most significant bit; zero past the word. */
  function WordMask(i: nat): bv32 {
    if i == 0 then 0x8000_0000 else WordMask(i - 1) >> 1
  }

  predicate WordBit(c: bv32, m: bv32) {
    c & m != 0
  }

  predicate IsSingle(m: bv32) {
    m & (m - 1) == 0
  }

  function WordBits(c: bv32): (r: seq<bool>)
    ensures |r| == 32
  {
    seq(32, i requires 0 <= i < 32 => WordBit(c, WordMask(i)))
  }

  /** The generator of the IEEE 802.3 check sequence. */
  ghost const G: seq<bool> := [true] + WordBits(POLYNOMIAL_CRC32)

  // ---------------------------------------------------------- the code's register

  function Step(c: bv32): bv32 {
    if c & 0x8000_0000 != 0 then (c << 1) ^ POLYNOMIAL_CRC32 else c << 1
  }

  function Steps(c: bv32, n: nat): bv32 {
    if n == 0 then c else Step(Steps(c, n - 1))
  }

  /** One shift for each bit. */
  function ShiftOut(c: bv32, bits: seq<bool>): bv32 {
    Steps(c, |bits|)
  }

  /** A byte is added to the register's high end and shifted through. */
  function Absorb(c: bv32, b: bv8): bv32 {
    ShiftOut(c ^ (b as bv32 << 24), ByteBits(b))
  }

  function Register(c: bv32, s: seq<bv8>): bv32 {
    if s == [] then c else Absorb(Register(c, s[..|s| - 1]), s[|s| - 1])
  }

  /** Inputs of one to three bytes are extended to four with zero bytes. */
  function PadToWord(s: seq<bv8>): (r: seq<bv8>)
    ensures |s| >= 4 ==> r == s
  {
    if 0 < |s| < 4 then s + seq(4 - |s|, _ => 0) else s
  }

  function Crc32(s: seq<bv8>): bv32 {
    if s == [] then 0 else !Register(0xFFFF_FFFF, PadToWord(s))
  }

  /** A word as bytes, most significant first. */
  function WordBytes(c: bv32): (r: seq<bv8>)
    ensures |r| == 4
  {
    [((c >> 24) & 0xFF) as bv8, ((c >> 16) & 0xFF) as bv8, ((c >> 8) & 0xFF) as bv8, (c & 0xFF) as bv8]
  }

  method AbsorbByte(crc: bv32, b: bv8) returns (r: bv32)
    ensures r == Absorb(crc, b)
  {
    r := crc ^ (b as bv32 << 24);
    ghost var start := r;
    for i := 0 to 8
      invariant r == Steps(start, i)
    {
      r := Step(r);
    }
    assert r == ShiftOut(start, ByteBits(b));
  }

  lemma RegisterSnoc(c: bv32, s: seq<bv8>, n: nat)
    requires n < |s|
    ensures Register(c, s[..n + 1]) == Absorb(Register(c, s[..n]), s[n])
  {
    hide Absorb;
    assert s[..n + 1][..n] == s[..n];
  }

  /** The outer loop and the final complement: bytes at or past `length` are taken as zero. */
  method AbsorbBuffer(buffer: array<bv8>, length: nat, lengthLocal: nat, ghost input: seq<bv8>) returns (crc32: bv32)
    requires length <= lengthLocal <= buffer.Length && input != [] && PadToWord(input) == buffer[..lengthLocal]
    requires forall i :: length <= i < lengthLocal ==> buffer[i] == 0
    ensures crc32 == Crc32(input)
  {
    hide Absorb;
    ghost var padded := PadToWord(input);
    crc32 := 0xFFFF_FFFF;
    for index := 0 to lengthLocal
      invariant crc32 == Register(0xFFFF_FFFF, padded[..index])
    {
      RegisterSnoc(0xFFFF_FFFF, padded, index);
      assert padded[index] == buffer[index];
      crc32 := AbsorbByte(crc32, if index < length then buffer[index] else 0);
    }
    assert padded[..lengthLocal] == padded;
    crc32 := !crc32;
  }

  method ComputeCrc32(buffer: array?<bv8>, length: uint16) returns (crc32: bv32)
    requires buffer != null ==> length <= buffer.Length
    ensures crc32 == Crc32(if buffer == null then [] else buffer[..length])
  {
    if buffer == null || length == 0 {
      return 0;
    }
    ghost var input := buffer[..length];
    var bufferLocal, lengthLocal := buffer, length;
    if length < 4 {
      var tempBuffer := new bv8[4](_ => 0);
      forall i | 0 <= i < length { tempBuffer[i] := buffer[i]; }
      bufferLocal, lengthLocal := tempBuffer, 4;
    }
    crc32 := AbsorbBuffer(bufferLocal, length, lengthLocal, input);
    assert input == buffer[..length];
  }

  // ------------------------------------------------- the register divides by G

  lemma MaskHalves(i: nat)
    requires 0 < i < 8
    ensures Mask(i) == Mask(i - 1) >> 1
  {
  }

  lemma MaskIsSingle(i: nat)
    ensures IsSingle(WordMask(i))
  {
    if i > 0 {
      MaskIsSingle(i - 1);
      HalfIsSingle(WordMask(i - 1));
    }
  }

  lemma HalfIsSingle(m: bv32)
    requires IsSingle(m)
    ensures IsSingle(m >> 1)
  {
  }

  lemma WordMaskXor(a: bv32, b: bv32, m: bv32)
    requires IsSingle(m)
    ensures WordBit(a ^ b, m) == (WordBit(a, m) != WordBit(b, m))
  {
  }

  lemma ShiftBit(c: bv32, m: bv32)
    ensures WordBit(c << 1, m) == WordBit(c, m >> 1)
  {
  }

  /** Masks for whole bytes, and none beyond the word. */
  lemma ByteMasks()
    ensures WordMask(8) == 0x00800000
    ensures WordMask(16) == 0x00008000
    ensures WordMask(24) == 0x00000080
    ensures WordMask(32) == 0x00000000
  {
    assert WordMask(4) == 0x08000000;
    assert WordMask(8) == 0x00800000;
    assert WordMask(12) == 0x00080000;
    assert WordMask(16) == 0x00008000;
    assert WordMask(20) == 0x00000800;
    assert WordMask(24) == 0x00000080;
    assert WordMask(28) == 0x00000008;
    assert WordMask(32) == 0x00000000;
  }

  lemma XorBits(x: bv32, y: bv32)
    ensures WordBits(x ^ y) == Xor(WordBits(x), WordBits(y))
  {
    forall i | 0 <= i < 32 ensures WordBits(x ^ y)[i] == (WordBits(x)[i] != WordBits(y)[i]) {
      MaskIsSingle(i);
      WordMaskXor(x, y, WordMask(i));
    }
  }

  lemma ShiftedBit(c: bv32, i: nat)
    ensures WordBit(c << 1, WordMask(i)) == WordBit(c, WordMask(i + 1))
  {
    ShiftBit(c, WordMask(i));
  }

  lemma NoBitPastWord(c: bv32)
    ensures !WordBit(c, WordMask(32))
  {
    ByteMasks();
  }

  /** Shifting a word left by one drops its first bit and appends a zero. */
  lemma ShiftBits(c: bv32)
    ensures WordBits(c << 1) == WordBits(c)[1..] + [false]
  {
    var a, b := WordBits(c << 1), WordBits(c)[1..] + [false];
    forall i | 0 <= i < 32 ensures a[i] == b[i] {
      ShiftedBit(c, i);
      if i == 32 - 1 {
        NoBitPastWord(c);
      } else {
        assert b[i] == WordBits(c)[i + 1];
      }
    }
  }

  lemma FirstBit(c: bv32)
    ensures WordBits(c)[0] == (c & 0x8000_0000 != 0)
  {
  }

  lemma StepIsClock(c: bv32)
    ensures WordBits(Step(c)) == Clock(G, WordBits(c), false)
  {
    ShiftBits(c);
    XorBits(c << 1, POLYNOMIAL_CRC32);
    FirstBit(c);
  }

  lemma {:induction false} StepsAreFeed(c: bv32, n: nat)
    ensures WordBits(Steps(c, n)) == Feed(G, WordBits(c), Zeros(n))
  {
    if n > 0 {
      StepsAreFeed(c, n - 1);
      assert Zeros(n)[..n - 1] == Zeros(n - 1);
      StepIsClock(Steps(c, n - 1));
    }
  }

  lemma HalfIsLess(m: bv32)
    ensures m >> 1 <= m
  {
  }

  /** Below the first byte the masks are small. */
  lemma {:induction false} LowMask(i: nat)
    requires i >= 8
    ensures WordMask(i) < 0x100_0000
  {
    if i == 8 {
      ByteMasks();
    } else {
      LowMask(i - 1);
      HalfIsLess(WordMask(i - 1));
    }
  }

  lemma {:induction false} HighMask(i: nat)
    requires i < 8
    ensures WordMask(i) == Mask(i) as bv32 << 24
  {
    if i > 0 {
      HighMask(i - 1);
      MaskHalves(i);
      assert (Mask(i - 1) as bv32 << 24) >> 1 == (Mask(i - 1) >> 1) as bv32 << 24;
    }
  }

  lemma HighByteBit(b: bv8, m: bv8)
    ensures WordBit(b as bv32 << 24, m as bv32 << 24) == Bit(b, m)
  {
  }

  lemma NoLowBit(b: bv8, m: bv32)
    requires m < 0x100_0000
    ensures !WordBit(b as bv32 << 24, m)
  {
  }

  lemma HighByte(b: bv8)
    ensures WordBits(b as bv32 << 24) == ByteBits(b) + Zeros(24)
  {
    forall i | 0 <= i < 32 ensures WordBits(b as bv32 << 24)[i] == (ByteBits(b) + Zeros(24))[i] {
      if i < 8 {
        HighMask(i);
        HighByteBit(b, Mask(i));
      } else {
        LowMask(i);
        NoLowBit(b, WordMask(i));
      }
    }
  }

  lemma ByteIsFeed(c: bv32, b: bv8)
    ensures WordBits(Absorb(c, b)) == Feed(G, WordBits(c), ByteBits(b))
  {
    hide Steps, Feed, WordBits, ByteBits;
    XorBits(c, b as bv32 << 24);
    HighByte(b);
    ByteShifted(c, c ^ (b as bv32 << 24), b);
  }

  /** `loaded` is the register with the byte added to it. */
  lemma ByteShifted(c: bv32, loaded: bv32, b: bv8)
    requires WordBits(loaded) == Xor(WordBits(c), ByteBits(b) + Zeros(24))
    ensures WordBits(ShiftOut(loaded, ByteBits(b))) == Feed(G, WordBits(c), ByteBits(b))
  {
    hide Steps, Feed, WordBits, ByteBits;
    StepsAreFeed(loaded, |ByteBits(b)|);
    Preload(G, WordBits(c), ByteBits(b));
  }

  lemma {:induction false} RegisterIsFeed(c: bv32, s: seq<bv8>)
    ensures WordBits(Register(c, s)) == Feed(G, WordBits(c), BytesBits(s))
  {
    if s != [] {
      var n := |s| - 1;
      RegisterIsFeed(c, s[..n]);
      FeedConcat(G, WordBits(c), BytesBits(s[..n]), ByteBits(s[n]));
      ByteIsFeed(Register(c, s[..n]), s[n]);
    }
  }

  lemma {:induction false} MaskOfByte1(i: nat)
    requires i < 8
    ensures WordMask(8 + i) == Mask(i) as bv32 << 16
  {
    if i == 0 {
      ByteMasks();
    } else {
      MaskOfByte1(i - 1);
      MaskHalves(i);
      assert (Mask(i - 1) as bv32 << 16) >> 1 == (Mask(i - 1) >> 1) as bv32 << 16;
    }
  }

  lemma {:induction false} MaskOfByte2(i: nat)
    requires i < 8
    ensures WordMask(16 + i) == Mask(i) as bv32 << 8
  {
    if i == 0 {
      ByteMasks();
    } else {
      MaskOfByte2(i - 1);
      MaskHalves(i);
      assert (Mask(i - 1) as bv32 << 8) >> 1 == (Mask(i - 1) >> 1) as bv32 << 8;
    }
  }

  lemma {:induction false} MaskOfByte3(i: nat)
    requires i < 8
    ensures WordMask(24 + i) == Mask(i) as bv32
  {
    if i == 0 {
      ByteMasks();
    } else {
      MaskOfByte3(i - 1);
      MaskHalves(i);
      assert (Mask(i - 1) as bv32) >> 1 == (Mask(i - 1) >> 1) as bv32;
    }
  }

  lemma BitOfByte0(c: bv32, m: bv8)
    ensures Bit(((c >> 24) & 0xFF) as bv8, m) == WordBit(c, m as bv32 << 24)
  {
  }

  lemma BitOfByte1(c: bv32, m: bv8)
    ensures Bit(((c >> 16) & 0xFF) as bv8, m) == WordBit(c, m as bv32 << 16)
  {
  }

  lemma BitOfByte2(c: bv32, m: bv8)
    ensures Bit(((c >> 8) & 0xFF) as bv8, m) == WordBit(c, m as bv32 << 8)
  {
  }

  lemma BitOfByte3(c: bv32, m: bv8)
    ensures Bit((c & 0xFF) as bv8, m) == WordBit(c, m as bv32)
  {
  }

  lemma SliceOfByte0(c: bv32)
    ensures WordBits(c)[..8] == ByteBits(((c >> 24) & 0xFF) as bv8)
  {
    var slice := WordBits(c)[..8];
    forall i | 0 <= i < 8 ensures slice[i] == ByteBits(((c >> 24) & 0xFF) as bv8)[i] {
      HighMask(i);
      BitOfByte0(c, Mask(i));
      assert slice[i] == WordBits(c)[i];
    }
  }

  lemma SliceOfByte1(c: bv32)
    ensures WordBits(c)[8..16] == ByteBits(((c >> 16) & 0xFF) as bv8)
  {
    var slice := WordBits(c)[8..16];
    forall i | 0 <= i < 8 ensures slice[i] == ByteBits(((c >> 16) & 0xFF) as bv8)[i] {
      MaskOfByte1(i);
      BitOfByte1(c, Mask(i));
      assert slice[i] == WordBits(c)[8 + i];
    }
  }

  lemma SliceOfByte2(c: bv32)
    ensures WordBits(c)[16..24] == ByteBits(((c >> 8) & 0xFF) as bv8)
  {
    var slice := WordBits(c)[16..24];
    forall i | 0 <= i < 8 ensures slice[i] == ByteBits(((c >> 8) & 0xFF) as bv8)[i] {
      MaskOfByte2(i);
      BitOfByte2(c, Mask(i));
      assert slice[i] == WordBits(c)[16 + i];
    }
  }

  lemma SliceOfByte3(c: bv32)
    ensures WordBits(c)[24..32] == ByteBits((c & 0xFF) as bv8)
  {
    var slice := WordBits(c)[24..32];
    forall i | 0 <= i < 8 ensures slice[i] == ByteBits((c & 0xFF) as bv8)[i] {
      MaskOfByte3(i);
      BitOfByte3(c, Mask(i));
      assert slice[i] == WordBits(c)[24 + i];
    }
  }

  lemma WordBytesBits(c: bv32)
    ensures BytesBits(WordBytes(c)) == WordBits(c)
  {
    SliceOfByte0(c);
    SliceOfByte1(c);
    SliceOfByte2(c);
    SliceOfByte3(c);
    BytesBitsFromSlices(WordBits(c), WordBytes(c));
  }

  // ------------------------------------------------------------- what it computes

  lemma {:induction false} MaskStaysZero(i: nat, n: nat)
    requires WordMask(i) == 0
    ensures WordMask(i + n) == 0
  {
    if n > 0 {
      MaskStaysZero(i, n - 1);
    }
  }

  lemma MaskIsNotZero(i: nat)
    requires i < 32
    ensures WordMask(i) != 0
  {
    MaskOfByte3(7);
    if WordMask(i) == 0 {
      MaskStaysZero(i, 31 - i);
    }
  }

  lemma AllBits(m: bv32)
    ensures WordBit(0xFFFF_FFFF, m) == (m != 0)
  {
  }

  lemma OneBits()
    ensures WordBits(0xFFFF_FFFF) == Ones(32)
  {
    forall i | 0 <= i < 32 ensures WordBits(0xFFFF_FFFF)[i] {
      MaskIsNotZero(i);
      AllBits(WordMask(i));
    }
  }

  lemma NotIsXor(c: bv32)
    ensures !c == c ^ 0xFFFF_FFFF
  {
  }

  lemma ComplementBits(c: bv32)
    ensures WordBits(!c) == Complement(WordBits(c))
  {
    NotIsXor(c);
    XorBits(c, 0xFFFF_FFFF);
    OneBits();
  }

  lemma GeneratorEnds()
    ensures |G| == 33 && G[0] && G[32]
  {
    MaskOfByte3(7);
    assert WordBits(POLYNOMIAL_CRC32)[31] == WordBit(POLYNOMIAL_CRC32, 1);
  }

  lemma CrcBits(s: seq<bv8>)
    requires s != []
    ensures BytesBits(WordBytes(Crc32(s))) == Complement(Feed(G, Ones(32), BytesBits(PadToWord(s))))
  {
    RegisterIsFeed(0xFFFF_FFFF, PadToWord(s));
    OneBits();
    ComplementBits(Register(0xFFFF_FFFF, PadToWord(s)));
    WordBytesBits(Crc32(s));
  }

  /** compute_crc32 of a non-empty buffer is the complement of the remainder of the padded
      message with the register preset to ones, and only that. */
  lemma CrcIsTheRemainder(s: seq<bv8>, r: seq<bool>)
    requires s != []
    ensures IsRemainder(G, Ones(32), BytesBits(PadToWord(s)), Complement(r)) <==> r == BytesBits(WordBytes(Crc32(s)))
  {
    GeneratorEnds();
    FeedIsTheRemainder(G, Ones(32), BytesBits(PadToWord(s)), Complement(r));
    CrcBits(s);
    var f := Feed(G, Ones(32), BytesBits(PadToWord(s)));
    assert Complement(Complement(r)) == r && Complement(Complement(f)) == f;
  }

  lemma PadXor(s: seq<bv8>, t: seq<bv8>)
    requires |s| == |t|
    ensures |PadToWord(s)| == |PadToWord(t)| && PadToWord(XorBytes(s, t)) == XorBytes(PadToWord(s), PadToWord(t))
  {
    var a, b := PadToWord(XorBytes(s, t)), XorBytes(PadToWord(s), PadToWord(t));
    forall i | 0 <= i < |a| ensures a[i] == b[i] {
      assert i >= |s| ==> b[i] == 0 ^ 0;
    }
  }

  /** The difference of two check sequences is a function of the difference of the inputs. */
  lemma CrcDifference(s: seq<bv8>, t: seq<bv8>)
    requires |s| == |t| > 0
    ensures BytesBits(XorBytes(WordBytes(Crc32(s)), WordBytes(Crc32(t))))
         == Feed(G, Zeros(32), BytesBits(PadToWord(XorBytes(s, t))))
  {
    var p, q := PadToWord(s), PadToWord(t);
    PadXor(s, t);
    BytesBitsXor(p, q);
    BytesBitsXor(WordBytes(Crc32(s)), WordBytes(Crc32(t)));
    CrcBits(s);
    CrcBits(t);
    assert Xor(Ones(32), Ones(32)) == Zeros(32);
    FeedLinear(G, Ones(32), Ones(32), BytesBits(p), BytesBits(q));
    ComplementCancels(Feed(G, Ones(32), BytesBits(p)), Feed(G, Ones(32), BytesBits(q)));
  }

  lemma ComplementCancels(a: seq<bool>, b: seq<bool>)
    requires |a| == |b|
    ensures Xor(Complement(a), Complement(b)) == Xor(a, b)
  {
  }

  /** A corrupted input and check sequence still agree exactly when the padded error is a multiple of G. */
  lemma ErrorPassesCheck(s: seq<bv8>, e: seq<bv8>, f: seq<bv8>)
    requires |s| == |e| > 0 && |f| == 4
    ensures XorBytes(WordBytes(Crc32(s)), f) == WordBytes(Crc32(XorBytes(s, e)))
       <==> Feed(G, Zeros(32), BytesBits(PadToWord(e) + f)) == Zeros(32)
  {
    var s', c, c' := XorBytes(s, e), WordBytes(Crc32(s)), WordBytes(Crc32(XorBytes(s, e)));
    XorBytesTwice(s, e);
    CrcDifference(s, s');
    XorBytesSolve(c, f, c');
    if BytesBits(XorBytes(c, c')) == BytesBits(f) {
      BytesBitsInjective(XorBytes(c, c'), f);
    }
    GeneratorEnds();
    BytesBitsConcat(PadToWord(e), f);
    CheckEqualsFeedThrough(G, BytesBits(PadToWord(e)), BytesBits(f));
  }
}
