/** Two flipped bits anywhere in a frame are always seen, and with the two-octet check sequence up to three. */
module FewBitErrors {
  import opened Bits
  import opened Gf2
  import opened Gf2Order
  import opened RadioTypes
  import opened FskFrame
  import opened FskReceive
  import opened BurstDetection
  import Crc16
  import Crc16Order
  import Crc32
  import Crc32Order

  function Weight(e: seq<bool>): nat {
    if e == [] then 0 else Weight(e[..|e| - 1]) + if e[|e| - 1] then 1 else 0
  }

  lemma {:induction false} ParityOfWeight(e: seq<bool>)
    ensures Parity(e) <==> Weight(e) % 2 == 1
  {
    if e != [] { ParityOfWeight(e[..|e| - 1]); }
  }

  lemma {:induction false} NoBit(e: seq<bool>)
    requires Weight(e) == 0
    ensures forall i :: 0 <= i < |e| ==> !e[i]
  {
    if e != [] {
      NoBit(e[..|e| - 1]);
      assert forall i :: 0 <= i < |e| - 1 ==> e[i] == e[..|e| - 1][i];
    }
  }

  lemma {:induction false} OneBit(e: seq<bool>) returns (a: nat)
    requires Weight(e) == 1
    ensures a < |e| && forall i :: 0 <= i < |e| ==> (e[i] <==> i == a)
  {
    var n := |e| - 1;
    assert forall i :: 0 <= i < n ==> e[i] == e[..n][i];
    if e[n] {
      NoBit(e[..n]);
      a := n;
    } else {
      a := OneBit(e[..n]);
    }
  }

  lemma {:induction false} TwoBits(e: seq<bool>) returns (a: nat, b: nat)
    requires Weight(e) == 2
    ensures IsPair(e, a, b)
  {
    var n := |e| - 1;
    assert forall i :: 0 <= i < n ==> e[i] == e[..n][i];
    if e[n] {
      a := OneBit(e[..n]);
      b := n;
    } else {
      a, b := TwoBits(e[..n]);
    }
  }

  // ------------------------------------------------- the four-octet check sequence

  /** Exactly the bits `a` and `b` are set, which may be the same. */
  ghost predicate IsMarked(e: seq<bool>, a: nat, b: nat) {
    a <= b < |e| && forall i :: 0 <= i < |e| ==> (e[i] <==> i == a || i == b)
  }

  /** Zeros put between two parts move marks and make no others. */
  lemma MarksSpread(x: seq<bool>, k: nat, y: seq<bool>, a: nat, b: nat) returns (a': nat, b': nat)
    requires IsMarked(x + y, a, b)
    ensures IsMarked(x + Zeros(k) + y, a', b') && b' - a' <= b - a + k && (a' == b' <==> a == b)
  {
    a' := if a < |x| then a else a + k;
    b' := if b < |x| then b else b + k;
    var e, f := x + y, x + Zeros(k) + y;
    forall i | 0 <= i < |f| ensures f[i] <==> i == a' || i == b' {
      if i < |x| { assert f[i] == e[i]; } else if i >= |x| + k { assert f[i] == e[i - k]; }
    }
  }

  lemma PaddedMarks(n: nat, e: seq<bv8>, a: nat, b: nat) returns (a': nat, b': nat)
    requires 1 <= n <= |e| <= 255 && IsMarked(BytesBits(e), a, b)
    ensures IsMarked(BytesBits(PaddedError(n, e)), a', b') && b' - a' < 65537 && (a' == b' <==> a == b)
  {
    var x, y := e[..n], e[n..];
    assert e == x + y;
    BytesBitsConcat(x, y);
    if n >= 4 {
      a', b' := a, b;
    } else {
      var k := 4 - n;
      var zeros := seq(k, _ => 0 as bv8);
      BytesBitsConcat(x, zeros);
      BytesBitsConcat(x + zeros, y);
      BytesBitsZeros(k);
      a', b' := MarksSpread(BytesBits(x), 8 * k, BytesBits(y), a, b);
    }
  }

  lemma NoDivisor32(e: seq<bool>, a: nat, b: nat)
    requires IsMarked(e, a, b) && b - a < 65537
    ensures Feed(Crc32.G, Zeros(32), e) != Zeros(32)
  {
    Crc32Order.IsGen();
    hide Feed;
    if a == b {
      assert e[a] && IsBurst(e, a, 32);
      BurstLeavesRemainder(Crc32.G, 32, e, a);
    } else {
      Crc32Order.NoEarlyReturn(b - a);
      if Feed(Crc32.G, Zeros(32), e) == Zeros(32) { PairDividesOnlyIf(Crc32.G, e, a, b); }
    }
  }

  lemma NoDivisor16(e: seq<bool>, a: nat, b: nat)
    requires IsPair(e, a, b) && b - a < 4681
    ensures Feed(Crc16.G, Zeros(16), e) != Zeros(16)
  {
    Crc16Order.IsGen();
    hide Feed;
    Crc16Order.NoEarlyReturn(b - a);
    if Feed(Crc16.G, Zeros(16), e) == Zeros(16) { PairDividesOnlyIf(Crc16.G, e, a, b); }
  }

  /** One bit or two are no codeword of the four-octet check sequence, padded or not. */
  lemma MarksAreNoCodeword(n: nat, e: seq<bv8>, a: nat, b: nat)
    requires 1 <= n <= |e| <= 255 && IsMarked(BytesBits(e), a, b)
    ensures !IsCodeword(FCS_TYPE_0, n, e)
  {
    hide Feed, BytesBits, PaddedError, IsMarked;
    var a', b' := PaddedMarks(n, e, a, b);
    NoDivisor32(BytesBits(PaddedError(n, e)), a', b');
  }

  lemma PairIsNoCodeword(fcsType: nat, n: nat, e: seq<bv8>, a: nat, b: nat)
    requires Supported(fcsType) && 1 <= n <= |e| <= 255 && IsPair(BytesBits(e), a, b)
    ensures !IsCodeword(fcsType, n, e)
  {
    if fcsType == FCS_TYPE_0 {
      hide IsCodeword;
      MarksAreNoCodeword(n, e, a, b);
    } else {
      hide Feed, BytesBits, IsPair;
      PairNear(e, a, b);
      NoDivisor16(BytesBits(e), a, b);
    }
  }

  lemma PairNear(e: seq<bv8>, a: nat, b: nat)
    requires |e| <= 255 && IsPair(BytesBits(e), a, b)
    ensures b - a < 2040
  {
  }

  lemma ErrorFits(buffer: seq<bv8>, hdr: PhyHdr, payload: seq<bv8>, air: seq<bv8>, noise: seq<bv8>)
    requires Arrives(buffer, hdr, payload, air, noise)
    ensures |air| <= 255 && Supported(hdr.fcsType) && 1 <= |payload|
  {
  }

  /** Two bits flipped, however far apart and whichever check sequence: an error, never success. */
  lemma PairRejected(buffer: seq<bv8>, payloadLen: uint8, hdr: PhyHdr, payload: seq<bv8>, e: seq<bv8>, a: nat, b: nat, noise: seq<bv8>)
    requires |e| == |payload| + FcsLength(hdr.fcsType)
    requires Arrives(buffer, hdr, payload, Corrupted(hdr, payload, e), noise)
    requires IsPair(BytesBits(e), a, b)
    ensures
      var r := Receive(buffer, payloadLen, hdr, payload, Corrupted(hdr, payload, e), noise);
      r.err == Generic && r.status == BadCrc
  {
    hide Receive, Corrupted, IsCodeword, Arrives, IsPair, FcsLength, Supported;
    ErrorFits(buffer, hdr, payload, Corrupted(hdr, payload, e), noise);
    PairIsNoCodeword(hdr.fcsType, |payload|, e, a, b);
    AcceptedIffCodeword(buffer, payloadLen, hdr, payload, e, noise);
  }

  /** One bit flipped. */
  lemma OneRejected(buffer: seq<bv8>, payloadLen: uint8, hdr: PhyHdr, payload: seq<bv8>, e: seq<bv8>, noise: seq<bv8>)
    requires |e| == |payload| + FcsLength(hdr.fcsType) && hdr.fcsType == FCS_TYPE_0
    requires Arrives(buffer, hdr, payload, Corrupted(hdr, payload, e), noise)
    requires Weight(BytesBits(e)) == 1
    ensures
      var r := Receive(buffer, payloadLen, hdr, payload, Corrupted(hdr, payload, e), noise);
      r.err == Generic && r.status == BadCrc
  {
    hide Receive, Corrupted, IsCodeword, Arrives, Weight, FcsLength, Supported;
    var a := OneBit(BytesBits(e));
    ErrorFits(buffer, hdr, payload, Corrupted(hdr, payload, e), noise);
    MarksAreNoCodeword(|payload|, e, a, a);
    AcceptedIffCodeword(buffer, payloadLen, hdr, payload, e, noise);
  }

  /** One bit or two flipped, and with the two-octet check sequence three: an error, never success. */
  lemma FewBitsRejected(buffer: seq<bv8>, payloadLen: uint8, hdr: PhyHdr, payload: seq<bv8>, e: seq<bv8>, noise: seq<bv8>)
    requires |e| == |payload| + FcsLength(hdr.fcsType)
    requires Arrives(buffer, hdr, payload, Corrupted(hdr, payload, e), noise)
    requires 1 <= Weight(BytesBits(e)) <= if hdr.fcsType == FCS_TYPE_1 then 3 else 2
    ensures
      var r := Receive(buffer, payloadLen, hdr, payload, Corrupted(hdr, payload, e), noise);
      r.err == Generic && r.status == BadCrc
  {
    hide Receive, Corrupted, Arrives, IsPair, Weight, Parity, FcsLength;
    ErrorFits(buffer, hdr, payload, Corrupted(hdr, payload, e), noise);
    if Weight(BytesBits(e)) == 2 {
      var a, b := TwoBits(BytesBits(e));
      PairRejected(buffer, payloadLen, hdr, payload, e, a, b, noise);
    } else if hdr.fcsType == FCS_TYPE_1 {
      ParityOfWeight(BytesBits(e));
      OddErrorRejected(buffer, payloadLen, hdr, payload, e, noise);
    } else {
      OneRejected(buffer, payloadLen, hdr, payload, e, noise);
    }
  }
}
