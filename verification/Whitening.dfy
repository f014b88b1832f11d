/** perform_data_whitening of lr11xx_halo.c, and the PN9 sequence it adds to the data. */
module Whitening {
  import opened Bits

  /** Four shifts of the nine-bit register at once. */
  function NibbleStep(lfsr: bv16): bv16 {
    var xorOut := ((lfsr >> 5) & 0x0F) ^ (lfsr & 0x0F);
    (lfsr >> 4) | (xorOut << 5)
  }

  function NextLfsr(lfsr: bv16): bv16 {
    NibbleStep(NibbleStep(lfsr))
  }

  /** The eight bits shifted in for one byte, oldest in bit 0. */
  function ShiftedIn(lfsr: bv16): bv8 {
    var first := NibbleStep(lfsr);
    var second := NibbleStep(first);
    (((first >> 5) & 0x0F) | ((second >> 1) & 0xF0)) as bv8
  }

  function Reverse(ret: bv8): bv8 {
    ((ret & 0x80) >> 7) | ((ret & 0x40) >> 5) | ((ret & 0x20) >> 3) | ((ret & 0x10) >> 1) |
    ((ret & 0x08) << 1) | ((ret & 0x04) << 3) | ((ret & 0x02) << 5) | ((ret & 0x01) << 7)
  }

  function KeyByte(lfsr: bv16): bv8 {
    Reverse(ShiftedIn(lfsr))
  }

  /** The register before byte `i`. */
  function LfsrAt(seed: bv16, i: nat): bv16
    decreases i
  {
    if i == 0 then seed else NextLfsr(LfsrAt(seed, i - 1))
  }

  function Key(seed: bv16, n: nat): (k: seq<bv8>)
    ensures |k| == n
  {
    seq(n, i requires 0 <= i < n => KeyByte(LfsrAt(seed, i)))
  }

  function Whiten(seed: bv16, s: seq<bv8>): (r: seq<bv8>)
    ensures |r| == |s|
  {
    XorBytes(s, Key(seed, |s|))
  }

  /** Bit `j` of byte `i`, in transmission order, is inverted exactly where PN9 bit 8i + j past the seed is one. */
  ghost predicate AddsPn9(seed: bv16, before: seq<bv8>, after: seq<bv8>) {
    |after| == |before| && forall i, j :: 0 <= i < |before| && 0 <= j < 8 ==>
      ByteBits(after[i])[j] == (ByteBits(before[i])[j] != Pn9(seed, 9 + 8 * i + j))
  }

  /** `bufferIn + inAt` and `bufferOut + outAt` are the two pointers; they may be the same one. */
  method PerformDataWhitening(seed: bv16, bufferIn: array<bv8>, inAt: nat, bufferOut: array<bv8>, outAt: nat, length: uint16)
    requires inAt + length <= bufferIn.Length && outAt + length <= bufferOut.Length
    requires bufferIn != bufferOut || outAt <= inAt || inAt + length <= outAt
    modifies bufferOut
    ensures bufferOut[outAt..outAt + length] == Whiten(seed, old(bufferIn[inAt..inAt + length]))
    ensures bufferOut[..outAt] == old(bufferOut[..outAt])
    ensures bufferOut[outAt + length..] == old(bufferOut[outAt + length..])
    ensures seed < 512 ==> AddsPn9(seed, old(bufferIn[inAt..inAt + length]), bufferOut[outAt..outAt + length])
  {
    var lfsr := seed;
    for index := 0 to length
      invariant lfsr == LfsrAt(seed, index)
      invariant forall i :: 0 <= i < index ==> bufferOut[outAt + i] == old(bufferIn[inAt + i]) ^ KeyByte(LfsrAt(seed, i))
      invariant forall i :: 0 <= i < bufferOut.Length && !(outAt <= i < outAt + index) ==> bufferOut[i] == old(bufferOut[i])
    {
      var result := KeyByte(lfsr);
      bufferOut[outAt + index] := bufferIn[inAt + index] ^ result;
      lfsr := NextLfsr(lfsr);
    }
    ghost var source := old(bufferIn[inAt..inAt + length]);
    forall i | 0 <= i < length
      ensures bufferOut[outAt..outAt + length][i] == Whiten(seed, source)[i]
    {
      assert source[i] == old(bufferIn[inAt + i]);
      assert bufferOut[outAt..outAt + length][i] == bufferOut[outAt + i];
    }
    if seed < 512 { WhitenAddsPn9(seed, source); }
  }

  /** Whitening twice restores the data. */
  lemma WhitenTwice(seed: bv16, s: seq<bv8>)
    ensures Whiten(seed, Whiten(seed, s)) == s
  {
    var k := Key(seed, |s|);
    forall i | 0 <= i < |s| ensures Whiten(seed, Whiten(seed, s))[i] == s[i] {
      XorTwice(k[i], s[i]);
      assert (s[i] ^ k[i]) ^ k[i] == k[i] ^ (k[i] ^ s[i]);
    }
  }

  /** An error added on the air is the same error after whitening is removed. */
  lemma WhitenKeepsDifference(seed: bv16, s: seq<bv8>, e: seq<bv8>)
    requires |s| == |e|
    ensures Whiten(seed, XorBytes(s, e)) == XorBytes(Whiten(seed, s), e)
  {
    var k := Key(seed, |s|);
    forall i | 0 <= i < |s| ensures Whiten(seed, XorBytes(s, e))[i] == XorBytes(Whiten(seed, s), e)[i] {
      assert (s[i] ^ e[i]) ^ k[i] == (s[i] ^ k[i]) ^ e[i];
    }
  }

  // ------------------------------------------------------------------------- PN9

  predicate LfsrBit(lfsr: bv16, mask: bv16) {
    lfsr & mask != 0
  }

  function LfsrMask(k: nat): bv16
    requires k < 9
  {
    if k == 0 then 0x001 else if k == 1 then 0x002 else if k == 2 then 0x004 else
    if k == 3 then 0x008 else if k == 4 then 0x010 else if k == 5 then 0x020 else
    if k == 6 then 0x040 else if k == 7 then 0x080 else 0x100
  }

  /** The sequence of x^9 + x^5 + 1: nine seed bits, then each bit the sum of those nine and four before it. */
  ghost function Pn9(seed: bv16, t: nat): bool
    decreases t
  {
    if t < 9 then LfsrBit(seed, LfsrMask(t)) else Pn9(seed, t - 9) != Pn9(seed, t - 4)
  }

  /** The register holds the nine sequence bits from `t`. */
  ghost predicate Holds(lfsr: bv16, seed: bv16, t: nat) {
    lfsr < 512 && forall k :: 0 <= k < 9 ==> LfsrBit(lfsr, LfsrMask(k)) == Pn9(seed, t + k)
  }

  lemma NibbleBits(l: bv16, k: nat)
    requires l < 512 && k < 9
    ensures NibbleStep(l) < 512
    ensures k < 5 ==> LfsrBit(NibbleStep(l), LfsrMask(k)) == LfsrBit(l, LfsrMask(k + 4))
    ensures k >= 5 ==> LfsrBit(NibbleStep(l), LfsrMask(k)) == (LfsrBit(l, LfsrMask(k - 5)) != LfsrBit(l, LfsrMask(k)))
  {
  }

  lemma NibbleHolds(l: bv16, seed: bv16, t: nat)
    requires Holds(l, seed, t)
    ensures Holds(NibbleStep(l), seed, t + 4)
  {
    NibbleBits(l, 0);
    forall k | 0 <= k < 9 ensures LfsrBit(NibbleStep(l), LfsrMask(k)) == Pn9(seed, t + 4 + k) {
      NibbleBits(l, k);
      if k < 5 {
        assert LfsrBit(l, LfsrMask(k + 4)) == Pn9(seed, t + (k + 4));
      } else {
        assert LfsrBit(l, LfsrMask(k - 5)) == Pn9(seed, t + (k - 5));
      }
    }
  }

  lemma {:induction false} LfsrHolds(seed: bv16, i: nat)
    requires seed < 512
    ensures Holds(LfsrAt(seed, i), seed, 8 * i)
    decreases i
  {
    if i > 0 {
      LfsrHolds(seed, i - 1);
      NibbleHolds(LfsrAt(seed, i - 1), seed, 8 * i - 8);
      NibbleHolds(NibbleStep(LfsrAt(seed, i - 1)), seed, 8 * i - 4);
    }
  }

  lemma ReverseBit(ret: bv8, j: nat)
    requires j < 8
    ensures Bit(Reverse(ret), Mask(j)) == Bit(ret, Mask(7 - j))
  {
  }

  lemma ShiftedInBit(l: bv16, j: nat)
    requires j < 8
    ensures Bit(ShiftedIn(l), Mask(7 - j))
         == if j < 4 then LfsrBit(NibbleStep(l), LfsrMask(5 + j)) else LfsrBit(NextLfsr(l), LfsrMask(1 + j))
  {
  }

  /** Bit `j` of key byte `i`, in transmission order, is PN9 bit 8i + j past the seed. */
  lemma KeyIsPn9(seed: bv16, i: nat, j: nat)
    requires seed < 512 && j < 8
    ensures ByteBits(KeyByte(LfsrAt(seed, i)))[j] == Pn9(seed, 9 + 8 * i + j)
  {
    var l := LfsrAt(seed, i);
    LfsrHolds(seed, i);
    NibbleHolds(l, seed, 8 * i);
    NibbleHolds(NibbleStep(l), seed, 8 * i + 4);
    ReverseBit(ShiftedIn(l), j);
    ShiftedInBit(l, j);
    if j < 4 {
      assert LfsrBit(NibbleStep(l), LfsrMask(5 + j)) == Pn9(seed, 8 * i + 4 + (5 + j));
    } else {
      assert LfsrBit(NextLfsr(l), LfsrMask(1 + j)) == Pn9(seed, 8 * i + 4 + 4 + (1 + j));
    }
  }

  lemma WhitenedBit(b: bv8, seed: bv16, i: nat, j: nat)
    requires seed < 512 && j < 8
    ensures ByteBits(b ^ KeyByte(LfsrAt(seed, i)))[j] == (ByteBits(b)[j] != Pn9(seed, 9 + 8 * i + j))
  {
    hide KeyByte, Pn9, LfsrAt;
    KeyIsPn9(seed, i, j);
    ByteBitsXor(b, KeyByte(LfsrAt(seed, i)));
  }

  lemma WhitenAddsPn9(seed: bv16, s: seq<bv8>)
    requires seed < 512
    ensures AddsPn9(seed, s, Whiten(seed, s))
  {
    hide KeyByte, Pn9, LfsrAt, ByteBits;
    forall i, j | 0 <= i < |s| && 0 <= j < 8
      ensures ByteBits(Whiten(seed, s)[i])[j] == (ByteBits(s[i])[j] != Pn9(seed, 9 + 8 * i + j))
    {
      WhitenedBit(s[i], seed, i, j);
    }
  }

  /** The same of the bits of the whole string. */
  lemma AddedBit(seed: bv16, before: seq<bv8>, after: seq<bv8>, k: nat)
    requires AddsPn9(seed, before, after) && k < 8 * |before|
    ensures BytesBits(after)[k] == (BytesBits(before)[k] != Pn9(seed, 9 + k))
  {
    hide Pn9, BytesBits, ByteBits;
    var i, j := k / 8, k % 8;
    BytesBitsAt(before, i, j);
    BytesBitsAt(after, i, j);
  }

  lemma NibbleStepKeepsNonZero(l: bv16)
    requires 0 < l < 512
    ensures 0 < NibbleStep(l) < 512
  {
  }

  /** From a nine-bit seed other than zero the register never leaves 1..511. */
  lemma {:induction false} LfsrNeverZero(seed: bv16, i: nat)
    requires 0 < seed < 512
    ensures 0 < LfsrAt(seed, i) < 512
    decreases i
  {
    if i > 0 {
      LfsrNeverZero(seed, i - 1);
      NibbleStepKeepsNonZero(LfsrAt(seed, i - 1));
      NibbleStepKeepsNonZero(NibbleStep(LfsrAt(seed, i - 1)));
    }
  }
}
