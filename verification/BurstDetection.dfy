/** Which errors on the air the receiver is certain to reject. */
module BurstDetection {
  import opened Bits
  import opened Gf2
  import opened RadioTypes
  import opened Whitening
  import opened FskFrame
  import opened FskReceive
  import Crc16
  import Crc32

  // ------------------------------------------------- an error passes iff G divides it

  lemma XorBytesSplit(a: seq<bv8>, b: seq<bv8>, e: seq<bv8>)
    requires |e| == |a| + |b|
    ensures XorBytes(a + b, e) == XorBytes(a, e[..|a|]) + XorBytes(b, e[|a|..])
  {
  }

  /** The error as the four-octet check sequence sees it: short payloads are padded before the check bytes. */
  ghost function PaddedError(n: nat, e: seq<bv8>): seq<bv8>
    requires n <= |e|
  {
    Crc32.PadToWord(e[..n]) + e[n..]
  }

  ghost predicate IsCodeword(fcsType: nat, n: nat, e: seq<bv8>)
    requires n <= |e|
  {
    if fcsType == FCS_TYPE_0 then Feed(Crc32.G, Zeros(32), BytesBits(PaddedError(n, e))) == Zeros(32)
    else Feed(Crc16.G, Zeros(16), BytesBits(e)) == Zeros(16)
  }

  lemma MatchesIffCodeword(fcsType: nat, payload: seq<bv8>, e: seq<bv8>)
    requires Supported(fcsType) && payload != [] && |e| == |payload| + FcsLength(fcsType)
    ensures FcsMatches(fcsType, XorBytes(payload + Fcs(fcsType, payload), e)) <==> IsCodeword(fcsType, |payload|, e)
  {
    var n, fcs := |payload|, Fcs(fcsType, payload);
    var plain := XorBytes(payload + fcs, e);
    XorBytesSplit(payload, fcs, e);
    assert plain[..n] == XorBytes(payload, e[..n]) && plain[n..] == XorBytes(fcs, e[n..]);
    if fcsType == FCS_TYPE_0 {
      Crc32.ErrorPassesCheck(payload, e[..n], e[n..]);
    } else {
      Crc16.ErrorPassesCheck(payload, e[..n], e[n..]);
      assert e[..n] + e[n..] == e;
    }
  }

  /** The frame is received with `e` added to the PSDU on the air. */
  ghost function Corrupted(hdr: PhyHdr, payload: seq<bv8>, e: seq<bv8>): (air: seq<bv8>)
    requires |e| == |payload| + FcsLength(hdr.fcsType)
    ensures |air| == |e|
  {
    XorBytes(Psdu(hdr, payload), e)
  }

  lemma PlainOfCorrupted(hdr: PhyHdr, payload: seq<bv8>, e: seq<bv8>)
    requires |e| == |payload| + FcsLength(hdr.fcsType)
    ensures Plain(hdr.isDataWhiteningEnabled, Corrupted(hdr, payload, e))
         == XorBytes(payload + Fcs(hdr.fcsType, payload), e)
  {
    if hdr.isDataWhiteningEnabled {
      WhitenKeepsDifference(WHITENING_SEED, Psdu(hdr, payload), e);
    }
    PlainOfPsdu(hdr, payload);
  }

  /** Whitened or not, the receiver takes a corrupted frame exactly when the generator divides the error. */
  lemma AcceptedIffCodeword(buffer: seq<bv8>, payloadLen: uint8, hdr: PhyHdr, payload: seq<bv8>, e: seq<bv8>, noise: seq<bv8>)
    requires |e| == |payload| + FcsLength(hdr.fcsType)
    requires Arrives(buffer, hdr, payload, Corrupted(hdr, payload, e), noise)
    ensures var r := Receive(buffer, payloadLen, hdr, payload, Corrupted(hdr, payload, e), noise);
            if IsCodeword(hdr.fcsType, |payload|, e) then r.err == NoError && r.status == StatusOk
            else r.err == Generic && r.status == BadCrc
  {
    ReceiveChecks(buffer, payloadLen, hdr, payload, Corrupted(hdr, payload, e), noise);
    PlainOfCorrupted(hdr, payload, e);
    MatchesIffCodeword(hdr.fcsType, payload, e);
  }

  // ------------------------------------------------------------------- bursts

  lemma BurstIsNoCodeword(fcsType: nat, n: nat, e: seq<bv8>, at: nat)
    requires Supported(fcsType) && |e| == n + FcsLength(fcsType) && n >= 1
    requires IsBurst(BytesBits(e), at, 8 * FcsLength(fcsType))
    requires fcsType == FCS_TYPE_1 || n == 1 || n >= 4
    ensures !IsCodeword(fcsType, n, e)
  {
    if fcsType == FCS_TYPE_1 {
      Crc16.GeneratorEnds();
      BurstLeavesRemainder(Crc16.G, 16, BytesBits(e), at);
    } else if n >= 4 {
      LongBurst(n, e, at);
    } else {
      OneByteBurst(e, at);
    }
  }

  lemma LongBurst(n: nat, e: seq<bv8>, at: nat)
    requires |e| == n + 4 && n >= 4 && IsBurst(BytesBits(e), at, 32)
    ensures !IsCodeword(FCS_TYPE_0, n, e)
  {
    assert PaddedError(n, e) == e;
    Crc32.GeneratorEnds();
    BurstLeavesRemainder(Crc32.G, 32, BytesBits(e), at);
  }

  /** Any non-zero error within 16 consecutive PSDU bits (two-octet check) or 32 (four-octet check,
      payload of one byte or of four and more) is answered with an error, never with success. */
  lemma BurstRejected(buffer: seq<bv8>, payloadLen: uint8, hdr: PhyHdr, payload: seq<bv8>, e: seq<bv8>, at: nat, noise: seq<bv8>)
    requires |e| == |payload| + FcsLength(hdr.fcsType)
    requires Arrives(buffer, hdr, payload, Corrupted(hdr, payload, e), noise)
    requires IsBurst(BytesBits(e), at, 8 * FcsLength(hdr.fcsType))
    requires hdr.fcsType == FCS_TYPE_1 || |payload| == 1 || |payload| >= 4
    ensures var r := Receive(buffer, payloadLen, hdr, payload, Corrupted(hdr, payload, e), noise);
            r.err == Generic && r.status == BadCrc
  {
    BurstIsNoCodeword(hdr.fcsType, |payload|, e, at);
    AcceptedIffCodeword(buffer, payloadLen, hdr, payload, e, noise);
  }

  /** With the two-octet check sequence every error that flips an odd number of bits is rejected. */
  lemma OddErrorRejected(buffer: seq<bv8>, payloadLen: uint8, hdr: PhyHdr, payload: seq<bv8>, e: seq<bv8>, noise: seq<bv8>)
    requires |e| == |payload| + FcsLength(hdr.fcsType) && hdr.fcsType == FCS_TYPE_1
    requires Arrives(buffer, hdr, payload, Corrupted(hdr, payload, e), noise)
    requires Parity(BytesBits(e))
    ensures var r := Receive(buffer, payloadLen, hdr, payload, Corrupted(hdr, payload, e), noise);
            r.err == Generic && r.status == BadCrc
  {
    Crc16.GeneratorEnds();
    FeedKeepsParity(Crc16.G, Zeros(16), BytesBits(e));
    ParityZeros(16);
    AcceptedIffCodeword(buffer, payloadLen, hdr, payload, e, noise);
  }

  // ----------------------------------------------- four-octet check, short payloads

  /** The register after a word, started from zero. */
  function Residue(a: bv8, b: bv8, c: bv8): bv32 {
    Crc32.Absorb(Crc32.Absorb(Crc32.Absorb(Crc32.Absorb(0, a), b), c), 0)
  }

  lemma AbsorbTo(c: bv32, b: bv8, loaded: bv32, r: bv32)
    requires loaded == c ^ (b as bv32 << 24) && Crc32.Steps(loaded, 8) == r
    ensures Crc32.Absorb(c, b) == r
  {
  }

  lemma ZeroWordBits()
    ensures Crc32.WordBits(0) == Zeros(32)
  {
    forall i | 0 <= i < 32 ensures !Crc32.WordBits(0)[i] { NoBits(Crc32.WordMask(i)); }
  }

  lemma NoBits(m: bv32)
    ensures !Crc32.WordBit(0, m)
  {
  }

  lemma RegisterOfWord(s: seq<bv8>)
    requires |s| == 4 && s[3] == 0
    ensures Crc32.Register(0, s) == Residue(s[0], s[1], s[2])
  {
    Crc32.RegisterSnoc(0, s, 0);
    Crc32.RegisterSnoc(0, s, 1);
    Crc32.RegisterSnoc(0, s, 2);
    Crc32.RegisterSnoc(0, s, 3);
    assert s[..0] == [] && s[..4] == s;
  }

  /** For payloads under four bytes: the error passes when its check bytes are the residue of its payload bytes. */
  lemma ShortCodeword(n: nat, e: seq<bv8>)
    requires 1 <= n < 4 && |e| == n + 4
    ensures var p := Crc32.PadToWord(e[..n]);
            IsCodeword(FCS_TYPE_0, n, e) <==> e[n..] == Crc32.WordBytes(Residue(p[0], p[1], p[2]))
  {
    var p, f := Crc32.PadToWord(e[..n]), e[n..];
    var w := Crc32.Register(0, p);
    RegisterOfWord(p);
    Crc32.RegisterIsFeed(0, p);
    ZeroWordBits();
    Crc32.WordBytesBits(w);
    BytesBitsConcat(p, f);
    Crc32.GeneratorEnds();
    CheckEqualsFeedThrough(Crc32.G, BytesBits(p), BytesBits(f));
    if BytesBits(f) == BytesBits(Crc32.WordBytes(w)) {
      BytesBitsInjective(f, Crc32.WordBytes(w));
    }
  }

  lemma WordBytesOf(c: bv32, b0: bv8, b1: bv8, b2: bv8, b3: bv8)
    requires c == (b0 as bv32 << 24) | (b1 as bv32 << 16) | (b2 as bv32 << 8) | b3 as bv32
    ensures Crc32.WordBytes(c) == [b0, b1, b2, b3]
  {
  }

  /** The error that flips some bits of a one-byte payload and the check bits they feed. */
  lemma MakeCodeword(b: bv8, w: bv32) returns (c: seq<bv8>)
    requires Residue(b, 0, 0) == w
    ensures |c| == 5 && IsCodeword(FCS_TYPE_0, 1, c) && c[0] == b && c[4] == (w & 0xFF) as bv8
  {
    c := [b] + Crc32.WordBytes(w);
    ShortCodeword(1, c);
    assert c[..1] == [b] && c[1..] == Crc32.WordBytes(w);
    assert c[4] == c[1..][3];
  }

  lemma Basis0() returns (c: seq<bv8>)
    ensures |c| == 5 && IsCodeword(FCS_TYPE_0, 1, c) && c[0] == 0x01 && c[4] == 0xB7
  {
    assert Crc32.Steps(0x01000000, 8) == 0x04C11DB7;
    AbsorbTo(0x00000000, 0x01, 0x01000000, 0x04C11DB7);
    assert Crc32.Steps(0x04C11DB7, 8) == 0xD219C1DC;
    AbsorbTo(0x04C11DB7, 0x00, 0x04C11DB7, 0xD219C1DC);
    assert Crc32.Steps(0xD219C1DC, 8) == 0x01D8AC87;
    AbsorbTo(0xD219C1DC, 0x00, 0xD219C1DC, 0x01D8AC87);
    assert Crc32.Steps(0x01D8AC87, 8) == 0xDC6D9AB7;
    AbsorbTo(0x01D8AC87, 0x00, 0x01D8AC87, 0xDC6D9AB7);
    c := MakeCodeword(0x01, 0xDC6D9AB7);
  }

  lemma Basis1() returns (c: seq<bv8>)
    ensures |c| == 5 && IsCodeword(FCS_TYPE_0, 1, c) && c[0] == 0x02 && c[4] == 0xD9
  {
    assert Crc32.Steps(0x02000000, 8) == 0x09823B6E;
    AbsorbTo(0x00000000, 0x02, 0x02000000, 0x09823B6E);
    assert Crc32.Steps(0x09823B6E, 8) == 0xA0F29E0F;
    AbsorbTo(0x09823B6E, 0x00, 0x09823B6E, 0xA0F29E0F);
    assert Crc32.Steps(0xA0F29E0F, 8) == 0x03B1590E;
    AbsorbTo(0xA0F29E0F, 0x00, 0xA0F29E0F, 0x03B1590E);
    assert Crc32.Steps(0x03B1590E, 8) == 0xBC1A28D9;
    AbsorbTo(0x03B1590E, 0x00, 0x03B1590E, 0xBC1A28D9);
    c := MakeCodeword(0x02, 0xBC1A28D9);
  }

  lemma Basis2() returns (c: seq<bv8>)
    ensures |c| == 5 && IsCodeword(FCS_TYPE_0, 1, c) && c[0] == 0x04 && c[4] == 0x05
  {
    assert Crc32.Steps(0x04000000, 8) == 0x130476DC;
    AbsorbTo(0x00000000, 0x04, 0x04000000, 0x130476DC);
    assert Crc32.Steps(0x130476DC, 8) == 0x452421A9;
    AbsorbTo(0x130476DC, 0x00, 0x130476DC, 0x452421A9);
    assert Crc32.Steps(0x452421A9, 8) == 0x0762B21C;
    AbsorbTo(0x452421A9, 0x00, 0x452421A9, 0x0762B21C);
    assert Crc32.Steps(0x0762B21C, 8) == 0x7CF54C05;
    AbsorbTo(0x0762B21C, 0x00, 0x0762B21C, 0x7CF54C05);
    c := MakeCodeword(0x04, 0x7CF54C05);
  }

  lemma Basis3() returns (c: seq<bv8>)
    ensures |c| == 5 && IsCodeword(FCS_TYPE_0, 1, c) && c[0] == 0x08 && c[4] == 0x0A
  {
    assert Crc32.Steps(0x08000000, 8) == 0x2608EDB8;
    AbsorbTo(0x00000000, 0x08, 0x08000000, 0x2608EDB8);
    assert Crc32.Steps(0x2608EDB8, 8) == 0x8A484352;
    AbsorbTo(0x2608EDB8, 0x00, 0x2608EDB8, 0x8A484352);
    assert Crc32.Steps(0x8A484352, 8) == 0x0EC56438;
    AbsorbTo(0x8A484352, 0x00, 0x8A484352, 0x0EC56438);
    assert Crc32.Steps(0x0EC56438, 8) == 0xF9EA980A;
    AbsorbTo(0x0EC56438, 0x00, 0x0EC56438, 0xF9EA980A);
    c := MakeCodeword(0x08, 0xF9EA980A);
  }

  lemma Basis4() returns (c: seq<bv8>)
    ensures |c| == 5 && IsCodeword(FCS_TYPE_0, 1, c) && c[0] == 0x10 && c[4] == 0xA3
  {
    assert Crc32.Steps(0x10000000, 8) == 0x4C11DB70;
    AbsorbTo(0x00000000, 0x10, 0x10000000, 0x4C11DB70);
    assert Crc32.Steps(0x4C11DB70, 8) == 0x10519B13;
    AbsorbTo(0x4C11DB70, 0x00, 0x4C11DB70, 0x10519B13);
    assert Crc32.Steps(0x10519B13, 8) == 0x1D8AC870;
    AbsorbTo(0x10519B13, 0x00, 0x10519B13, 0x1D8AC870);
    assert Crc32.Steps(0x1D8AC870, 8) == 0xF7142DA3;
    AbsorbTo(0x1D8AC870, 0x00, 0x1D8AC870, 0xF7142DA3);
    c := MakeCodeword(0x10, 0xF7142DA3);
  }

  lemma Basis5() returns (c: seq<bv8>)
    ensures |c| == 5 && IsCodeword(FCS_TYPE_0, 1, c) && c[0] == 0x20 && c[4] == 0xF1
  {
    assert Crc32.Steps(0x20000000, 8) == 0x9823B6E0;
    AbsorbTo(0x00000000, 0x20, 0x20000000, 0x9823B6E0);
    assert Crc32.Steps(0x9823B6E0, 8) == 0x20A33626;
    AbsorbTo(0x9823B6E0, 0x00, 0x9823B6E0, 0x20A33626);
    assert Crc32.Steps(0x20A33626, 8) == 0x3B1590E0;
    AbsorbTo(0x20A33626, 0x00, 0x20A33626, 0x3B1590E0);
    assert Crc32.Steps(0x3B1590E0, 8) == 0xEAE946F1;
    AbsorbTo(0x3B1590E0, 0x00, 0x3B1590E0, 0xEAE946F1);
    c := MakeCodeword(0x20, 0xEAE946F1);
  }

  lemma Basis6() returns (c: seq<bv8>)
    ensures |c| == 5 && IsCodeword(FCS_TYPE_0, 1, c) && c[0] == 0x40 && c[4] == 0x55
  {
    assert Crc32.Steps(0x40000000, 8) == 0x34867077;
    AbsorbTo(0x00000000, 0x40, 0x40000000, 0x34867077);
    assert Crc32.Steps(0x34867077, 8) == 0x41466C4C;
    AbsorbTo(0x34867077, 0x00, 0x34867077, 0x41466C4C);
    assert Crc32.Steps(0x41466C4C, 8) == 0x762B21C0;
    AbsorbTo(0x41466C4C, 0x00, 0x41466C4C, 0x762B21C0);
    assert Crc32.Steps(0x762B21C0, 8) == 0xD1139055;
    AbsorbTo(0x762B21C0, 0x00, 0x762B21C0, 0xD1139055);
    c := MakeCodeword(0x40, 0xD1139055);
  }

  lemma Basis7() returns (c: seq<bv8>)
    ensures |c| == 5 && IsCodeword(FCS_TYPE_0, 1, c) && c[0] == 0x80 && c[4] == 0x1D
  {
    assert Crc32.Steps(0x80000000, 8) == 0x690CE0EE;
    AbsorbTo(0x00000000, 0x80, 0x80000000, 0x690CE0EE);
    assert Crc32.Steps(0x690CE0EE, 8) == 0x828CD898;
    AbsorbTo(0x690CE0EE, 0x00, 0x690CE0EE, 0x828CD898);
    assert Crc32.Steps(0x828CD898, 8) == 0xEC564380;
    AbsorbTo(0x828CD898, 0x00, 0x828CD898, 0xEC564380);
    assert Crc32.Steps(0xEC564380, 8) == 0xA6E63D1D;
    AbsorbTo(0xEC564380, 0x00, 0xEC564380, 0xA6E63D1D);
    c := MakeCodeword(0x80, 0xA6E63D1D);
  }

  lemma CodewordXor(e: seq<bv8>, d: seq<bv8>)
    requires |e| == |d| == 5 && IsCodeword(FCS_TYPE_0, 1, e) && IsCodeword(FCS_TYPE_0, 1, d)
    ensures IsCodeword(FCS_TYPE_0, 1, XorBytes(e, d))
  {
    var x := XorBytes(e, d);
    assert x[..1] == XorBytes(e[..1], d[..1]) && x[1..] == XorBytes(e[1..], d[1..]);
    Crc32.PadXor(e[..1], d[..1]);
    var pe, pd := PaddedError(1, e), PaddedError(1, d);
    assert PaddedError(1, x) == XorBytes(pe, pd);
    BytesBitsXor(pe, pd);
    assert Xor(Zeros(32), Zeros(32)) == Zeros(32);
    Crc32.GeneratorEnds();
    FeedLinear(Crc32.G, Zeros(32), Zeros(32), BytesBits(pe), BytesBits(pd));
  }

  /** Adding `c` when its payload bit is set in `e` removes that bit. */
  lemma ClearBit(e: seq<bv8>, c: seq<bv8>) returns (d: seq<bv8>)
    requires |e| == |c| == 5 && IsCodeword(FCS_TYPE_0, 1, e) && IsCodeword(FCS_TYPE_0, 1, c)
    ensures |d| == 5 && IsCodeword(FCS_TYPE_0, 1, d)
    ensures d[0] == if e[0] & c[0] != 0 then e[0] ^ c[0] else e[0]
    ensures d[4] == if e[0] & c[0] != 0 then e[4] ^ c[4] else e[4]
  {
    d := e;
    if e[0] & c[0] != 0 {
      CodewordXor(e, c);
      d := XorBytes(e, c);
    }
  }

  lemma ZeroCodeword(e: seq<bv8>)
    requires |e| == 5 && e[0] == 0 && IsCodeword(FCS_TYPE_0, 1, e)
    ensures e == seq(5, _ => 0)
  {
    ShortCodeword(1, e);
    var p := Crc32.PadToWord(e[..1]);
    assert p[0] == 0 && p[1] == 0 && p[2] == 0;
    assert Crc32.Steps(0, 8) == 0;
    AbsorbTo(0, 0, 0, 0);
    WordBytesOf(0, 0, 0, 0, 0);
    assert e == [e[0]] + e[1..];
  }

  /** The last check byte that a payload byte's error needs in order to pass. */
  function LastByteFor(a: bv8): bv8 {
    (if a & 0x01 != 0 then 0xB7 else 0) ^
    (if a & 0x02 != 0 then 0xD9 else 0) ^
    (if a & 0x04 != 0 then 0x05 else 0) ^
    (if a & 0x08 != 0 then 0x0A else 0) ^
    (if a & 0x10 != 0 then 0xA3 else 0) ^
    (if a & 0x20 != 0 then 0xF1 else 0) ^
    (if a & 0x40 != 0 then 0x55 else 0) ^
    (if a & 0x80 != 0 then 0x1D else 0)
  }

  lemma LowBitsForced(e: seq<bv8>) returns (d: seq<bv8>)
    requires |e| == 5 && IsCodeword(FCS_TYPE_0, 1, e)
    ensures |d| == 5 && IsCodeword(FCS_TYPE_0, 1, d)
    ensures d[0] == e[0] & 0xF0 && d[4] == e[4] ^ LastByteFor(e[0] & 0x0F)
  {
    var c0 := Basis0();
    var c1 := Basis1();
    var c2 := Basis2();
    var c3 := Basis3();
    d := ClearBit(e, c0);
    d := ClearBit(d, c1);
    d := ClearBit(d, c2);
    d := ClearBit(d, c3);
  }

  lemma HighBitsForced(e: seq<bv8>)
    requires |e| == 5 && IsCodeword(FCS_TYPE_0, 1, e) && e[0] & 0x0F == 0
    ensures e[4] ^ LastByteFor(e[0]) == 0
  {
    var c4 := Basis4();
    var c5 := Basis5();
    var c6 := Basis6();
    var c7 := Basis7();
    var d := ClearBit(e, c4);
    d := ClearBit(d, c5);
    d := ClearBit(d, c6);
    d := ClearBit(d, c7);
    ZeroCodeword(d);
  }

  lemma LastByteSplits(a: bv8, f: bv8, high: bv8, g: bv8)
    requires high == a & 0xF0 && g == f ^ LastByteFor(a & 0x0F) && g ^ LastByteFor(high) == 0
    ensures f == LastByteFor(a)
  {
  }

  lemma LastByteIsForced(e: seq<bv8>)
    requires |e| == 5 && IsCodeword(FCS_TYPE_0, 1, e)
    ensures e[4] == LastByteFor(e[0])
  {
    var d := LowBitsForced(e);
    HighBitsForced(d);
    LastByteSplits(e[0], e[4], d[0], d[4]);
  }

  /** With no payload bit set before `at`, some bit of the forced byte is set at or after it. */
  lemma NoGap(a: bv8, at: nat)
    requires forall i :: 0 <= i < 8 && Bit(a, Mask(i)) ==> at <= i
    requires forall j :: 0 <= j < 8 && Bit(LastByteFor(a), Mask(j)) ==> j < at
    ensures a == 0
  {
    var l := LastByteFor(a);
    assert at <= 0 || !Bit(a, Mask(0));
    assert at <= 1 || !Bit(a, Mask(1));
    assert at <= 2 || !Bit(a, Mask(2));
    assert at <= 3 || !Bit(a, Mask(3));
    assert at <= 4 || !Bit(a, Mask(4));
    assert at <= 5 || !Bit(a, Mask(5));
    assert at <= 6 || !Bit(a, Mask(6));
    assert at <= 7 || !Bit(a, Mask(7));
    assert at > 0 || !Bit(l, Mask(0));
    assert at > 1 || !Bit(l, Mask(1));
    assert at > 2 || !Bit(l, Mask(2));
    assert at > 3 || !Bit(l, Mask(3));
    assert at > 4 || !Bit(l, Mask(4));
    assert at > 5 || !Bit(l, Mask(5));
    assert at > 6 || !Bit(l, Mask(6));
    assert at > 7 || !Bit(l, Mask(7));
  }

  lemma OneByteBurst(e: seq<bv8>, at: nat)
    requires |e| == 5 && IsBurst(BytesBits(e), at, 32)
    ensures !IsCodeword(FCS_TYPE_0, 1, e)
  {
    var bits := BytesBits(e);
    var set1 :| 0 <= set1 < |bits| && bits[set1];
    assert bits != Zeros(40) by { assert !Zeros(40)[set1]; }
    forall i | 0 <= i < 8 && Bit(e[0], Mask(i)) ensures at <= i {
      BytesBitsAt(e, 0, i);
      assert bits[i];
    }
    forall j | 0 <= j < 8 && Bit(e[4], Mask(j)) ensures j < at {
      BytesBitsAt(e, 4, j);
      assert bits[32 + j];
    }
    if IsCodeword(FCS_TYPE_0, 1, e) {
      LastByteIsForced(e);
      NoGap(e[0], at);
      ZeroCodeword(e);
      BytesBitsZeros(5);
    }
  }

  lemma ResidueOfTwoBytes()
    ensures Residue(0x01, 0xD1, 0x00) == 0x5A429C00
  {
    assert Crc32.Steps(0x01000000, 8) == 0x04C11DB7;
    AbsorbTo(0x00000000, 0x01, 0x01000000, 0x04C11DB7);
    assert Crc32.Steps(0xD5C11DB7, 8) == 0xC7439782;
    AbsorbTo(0x04C11DB7, 0xD1, 0xD5C11DB7, 0xC7439782);
    assert Crc32.Steps(0xC7439782, 8) == 0x005A429C;
    AbsorbTo(0xC7439782, 0x00, 0xC7439782, 0x005A429C);
    assert Crc32.Steps(0x005A429C, 8) == 0x5A429C00;
    AbsorbTo(0x005A429C, 0x00, 0x005A429C, 0x5A429C00);
  }

  lemma ResidueOfThreeBytes()
    ensures Residue(0x00, 0x00, 0x01) == 0xD219C1DC
  {
    assert Crc32.Steps(0x00000000, 8) == 0x00000000;
    AbsorbTo(0x00000000, 0x00, 0x00000000, 0x00000000);
    assert Crc32.Steps(0x00000000, 8) == 0x00000000;
    AbsorbTo(0x00000000, 0x00, 0x00000000, 0x00000000);
    assert Crc32.Steps(0x01000000, 8) == 0x04C11DB7;
    AbsorbTo(0x00000000, 0x01, 0x01000000, 0x04C11DB7);
    assert Crc32.Steps(0x04C11DB7, 8) == 0xD219C1DC;
    AbsorbTo(0x04C11DB7, 0x00, 0x04C11DB7, 0xD219C1DC);
  }

  /** Bytes whose set bits all lie in 32 consecutive positions, told byte by byte. */
  lemma BurstFromBytes(e: seq<bv8>, at: nat, k1: nat, j1: nat)
    requires k1 < |e| && j1 < 8 && Bit(e[k1], Mask(j1))
    requires forall k, j :: 0 <= k < |e| && 0 <= j < 8 && Bit(e[k], Mask(j)) ==> at <= 8 * k + j < at + 32
    ensures IsBurst(BytesBits(e), at, 32)
  {
    var bits := BytesBits(e);
    forall i | 0 <= i < |bits| && bits[i] ensures at <= i < at + 32 {
      var k, j := i / 8, i % 8;
      assert i == 8 * k + j;
      SetBit(e, k, j);
    }
    BytesBitsAt(e, k1, j1);
    assert bits[8 * k1 + j1];
  }

  lemma SetBit(e: seq<bv8>, k: nat, j: nat)
    requires k < |e| && j < 8 && BytesBits(e)[8 * k + j]
    ensures Bit(e[k], Mask(j))
  {
    BytesBitsAt(e, k, j);
  }

  /** Two payload bytes: an error within 31 bits that passes. */
  lemma TwoByteBurstPasses() returns (e: seq<bv8>, at: nat)
    ensures |e| == 6 && IsBurst(BytesBits(e), at, 32) && IsCodeword(FCS_TYPE_0, 2, e)
  {
    e, at := [0x01, 0xD1, 0x5A, 0x42, 0x9C, 0x00], 7;
    ShortCodeword(2, e);
    ResidueOfTwoBytes();
    WordBytesOf(0x5A429C00, 0x5A, 0x42, 0x9C, 0x00);
    assert e[..2] == [0x01, 0xD1] && e[2..] == [0x5A, 0x42, 0x9C, 0x00];
    BurstFromBytes(e, at, 0, 7);
  }

  /** Three payload bytes: likewise. */
  lemma ThreeByteBurstPasses() returns (e: seq<bv8>, at: nat)
    ensures |e| == 7 && IsBurst(BytesBits(e), at, 32) && IsCodeword(FCS_TYPE_0, 3, e)
  {
    e, at := [0x00, 0x00, 0x01, 0xD2, 0x19, 0xC1, 0xDC], 23;
    ShortCodeword(3, e);
    ResidueOfThreeBytes();
    WordBytesOf(0xD219C1DC, 0xD2, 0x19, 0xC1, 0xDC);
    assert e[..3] == [0x00, 0x00, 0x01] && e[3..] == [0xD2, 0x19, 0xC1, 0xDC];
    BurstFromBytes(e, at, 2, 7);
  }

  /** Every frame with `n` payload bytes, hit by any burst no longer than its check sequence, is refused. */
  ghost predicate RefusesBursts(hdr: PhyHdr, n: nat) {
    forall payload, e, at: nat, buffer, payloadLen: uint8, noise ::
      && |payload| == n && |e| == n + FcsLength(hdr.fcsType)
      && Arrives(buffer, hdr, payload, Corrupted(hdr, payload, e), noise)
      && IsBurst(BytesBits(e), at, 8 * FcsLength(hdr.fcsType))
      ==> Receive(buffer, payloadLen, hdr, payload, Corrupted(hdr, payload, e), noise).err != NoError
  }

  /** The burst guarantee holds except for the four-octet check over two or three payload bytes. */
  lemma BurstGuarantee(hdr: PhyHdr, n: nat)
    requires Supported(hdr.fcsType) && 1 <= n <= MaxPayload(hdr.fcsType)
    ensures RefusesBursts(hdr, n) <==> hdr.fcsType == FCS_TYPE_1 || n == 1 || n >= 4
  {
    if hdr.fcsType == FCS_TYPE_1 || n == 1 || n >= 4 {
      forall payload, e, at: nat, buffer, payloadLen: uint8, noise |
        && |payload| == n && |e| == n + FcsLength(hdr.fcsType)
        && Arrives(buffer, hdr, payload, Corrupted(hdr, payload, e), noise)
        && IsBurst(BytesBits(e), at, 8 * FcsLength(hdr.fcsType))
        ensures Receive(buffer, payloadLen, hdr, payload, Corrupted(hdr, payload, e), noise).err != NoError
      {
        BurstRejected(buffer, payloadLen, hdr, payload, e, at, noise);
      }
    } else {
      ShortBurstAccepted(hdr, n);
    }
  }

  lemma CodewordAccepted(hdr: PhyHdr, payload: seq<bv8>, e: seq<bv8>, at: nat, buffer: seq<bv8>, noise: seq<bv8>)
    requires |e| == |payload| + FcsLength(hdr.fcsType) && IsCodeword(hdr.fcsType, |payload|, e)
    requires Arrives(buffer, hdr, payload, Corrupted(hdr, payload, e), noise)
    requires IsBurst(BytesBits(e), at, 8 * FcsLength(hdr.fcsType))
    ensures !RefusesBursts(hdr, |payload|)
  {
    AcceptedIffCodeword(buffer, 0, hdr, payload, e, noise);
    assert Receive(buffer, 0, hdr, payload, Corrupted(hdr, payload, e), noise).err == NoError;
  }

  lemma ShortBurstAccepted(hdr: PhyHdr, n: nat)
    requires hdr.fcsType == FCS_TYPE_0 && (n == 2 || n == 3)
    ensures !RefusesBursts(hdr, n)
  {
    var e, at;
    if n == 2 {
      e, at := TwoByteBurstPasses();
    } else {
      e, at := ThreeByteBurstPasses();
    }
    var payload: seq<bv8>, filler: seq<bv8> := seq(n, _ => 0), seq(RX_PAYLOAD_MAX_SIZE, _ => 0);
    CodewordAccepted(hdr, payload, e, at, filler, filler);
  }
}
