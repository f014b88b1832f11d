/** Bit strings, most significant bit first, and their relation to bytes. */
module Bits {

  type uint8 = x: int | 0 <= x < 0x100
  type uint16 = x: int | 0 <= x < 0x1_0000
  type uint32 = x: int | 0 <= x < 0x1_0000_0000

  lemma ByteOfNat(n: nat)
    requires n < 256
    ensures (n as bv8) as nat == n
  {
    assert n % 256 == n;
  }

  lemma ConcatAssoc<T>(a: seq<T>, b: seq<T>, c: seq<T>)
    ensures a + b + c == a + (b + c)
  {
  }

  function Zeros(n: nat): (r: seq<bool>)
    ensures |r| == n && forall i :: 0 <= i < n ==> !r[i]
  {
    seq(n, _ => false)
  }

  function Ones(n: nat): (r: seq<bool>)
    ensures |r| == n && forall i :: 0 <= i < n ==> r[i]
  {
    seq(n, _ => true)
  }

  /** Addition over GF(2), coefficient by coefficient. */
  function Xor(a: seq<bool>, b: seq<bool>): (r: seq<bool>)
    requires |a| == |b|
    ensures |r| == |a| && forall i :: 0 <= i < |a| ==> r[i] == (a[i] != b[i])
  {
    seq(|a|, i requires 0 <= i < |a| => a[i] != b[i])
  }

  lemma XorConcat(a: seq<bool>, b: seq<bool>, c: seq<bool>, d: seq<bool>)
    requires |a| == |b| && |c| == |d|
    ensures Xor(a + c, b + d) == Xor(a, b) + Xor(c, d)
  {
  }

  function Complement(a: seq<bool>): (r: seq<bool>)
    ensures |r| == |a| && forall i :: 0 <= i < |a| ==> r[i] == !a[i]
  {
    seq(|a|, i requires 0 <= i < |a| => !a[i])
  }

  predicate Bit(b: bv8, mask: bv8) {
    b & mask != 0
  }

  /** The mask of the i-th transmitted bit of a byte. */
  function Mask(i: nat): (m: bv8)
    requires i < 8
  {
    if i == 0 then 0x80 else if i == 1 then 0x40 else if i == 2 then 0x20 else if i == 3 then 0x10
    else if i == 4 then 0x08 else if i == 5 then 0x04 else if i == 6 then 0x02 else 0x01
  }

  function ByteBits(b: bv8): (r: seq<bool>)
    ensures |r| == 8
  {
    seq(8, i requires 0 <= i < 8 => Bit(b, Mask(i)))
  }

  /** The bits of a byte string in transmission order. */
  function BytesBits(s: seq<bv8>): (r: seq<bool>)
    ensures |r| == 8 * |s|
  {
    if s == [] then [] else BytesBits(s[..|s| - 1]) + ByteBits(s[|s| - 1])
  }

  function XorBytes(a: seq<bv8>, b: seq<bv8>): (r: seq<bv8>)
    requires |a| == |b|
    ensures |r| == |a| && forall i :: 0 <= i < |a| ==> r[i] == a[i] ^ b[i]
  {
    seq(|a|, i requires 0 <= i < |a| => a[i] ^ b[i])
  }

  lemma XorBytesSolve(a: seq<bv8>, b: seq<bv8>, c: seq<bv8>)
    requires |a| == |b| == |c|
    ensures XorBytes(a, b) == c <==> XorBytes(a, c) == b
  {
    if XorBytes(a, b) == c {
      assert XorBytes(a, c) == b by { XorBytesTwice(a, b); }
    }
    if XorBytes(a, c) == b {
      assert XorBytes(a, b) == c by { XorBytesTwice(a, c); }
    }
  }

  lemma XorBytesTwice(a: seq<bv8>, b: seq<bv8>)
    requires |a| == |b|
    ensures XorBytes(a, XorBytes(a, b)) == b
  {
    forall i | 0 <= i < |a| ensures XorBytes(a, XorBytes(a, b))[i] == b[i] { XorTwice(a[i], b[i]); }
  }

  lemma XorTwice(a: bv8, b: bv8)
    ensures a ^ (a ^ b) == b
  {
  }

  lemma ByteBitsInjective(a: bv8, b: bv8)
    requires ByteBits(a) == ByteBits(b)
    ensures a == b
  {
    var x, y := ByteBits(a), ByteBits(b);
    assert x[0] == y[0] && x[1] == y[1] && x[2] == y[2] && x[3] == y[3];
    assert x[4] == y[4] && x[5] == y[5] && x[6] == y[6] && x[7] == y[7];
  }

  lemma MaskXor(a: bv8, b: bv8, mask: bv8)
    requires mask & (mask - 1) == 0
    ensures Bit(a ^ b, mask) == (Bit(a, mask) != Bit(b, mask))
  {
  }

  lemma ByteBitsXor(a: bv8, b: bv8)
    ensures ByteBits(a ^ b) == Xor(ByteBits(a), ByteBits(b))
  {
    forall i | 0 <= i < 8 ensures ByteBits(a ^ b)[i] == (ByteBits(a)[i] != ByteBits(b)[i]) {
      MaskXor(a, b, Mask(i));
    }
  }

  lemma {:induction false} BytesBitsConcat(s: seq<bv8>, t: seq<bv8>)
    ensures BytesBits(s + t) == BytesBits(s) + BytesBits(t)
  {
    if t == [] {
      assert s + t == s;
    } else {
      var u := s + t;
      assert u[..|u| - 1] == s + t[..|t| - 1];
      BytesBitsConcat(s, t[..|t| - 1]);
    }
  }

  lemma {:induction false} BytesBitsXor(s: seq<bv8>, t: seq<bv8>)
    requires |s| == |t|
    ensures BytesBits(XorBytes(s, t)) == Xor(BytesBits(s), BytesBits(t))
  {
    if s != [] {
      var n := |s| - 1;
      assert XorBytes(s, t)[..n] == XorBytes(s[..n], t[..n]);
      BytesBitsXor(s[..n], t[..n]);
      ByteBitsXor(s[n], t[n]);
      XorConcat(BytesBits(s[..n]), BytesBits(t[..n]), ByteBits(s[n]), ByteBits(t[n]));
    }
  }

  lemma {:induction false} BytesBitsInjective(s: seq<bv8>, t: seq<bv8>)
    requires |s| == |t| && BytesBits(s) == BytesBits(t)
    ensures s == t
  {
    if s != [] {
      var n := |s| - 1;
      assert BytesBits(s)[..8 * n] == BytesBits(s[..n]) && BytesBits(t)[..8 * n] == BytesBits(t[..n]);
      assert BytesBits(s)[8 * n..] == ByteBits(s[n]) && BytesBits(t)[8 * n..] == ByteBits(t[n]);
      BytesBitsInjective(s[..n], t[..n]);
      ByteBitsInjective(s[n], t[n]);
    }
  }

  lemma {:induction false} BytesBitsAt(s: seq<bv8>, k: nat, j: nat)
    requires k < |s| && j < 8
    ensures BytesBits(s)[8 * k + j] == ByteBits(s[k])[j]
  {
    var n := |s| - 1;
    if k < n {
      BytesBitsAt(s[..n], k, j);
      assert BytesBits(s)[8 * k + j] == BytesBits(s[..n])[8 * k + j];
    }
  }

  /** A bit string is determined by its bytes. */
  lemma {:induction false} BytesBitsFromSlices(a: seq<bool>, s: seq<bv8>)
    requires |a| == 8 * |s|
    requires forall k :: 0 <= k < |s| ==> a[8 * k..8 * k + 8] == ByteBits(s[k])
    ensures a == BytesBits(s)
  {
    if s != [] {
      var n := |s| - 1;
      forall k | 0 <= k < n ensures a[..8 * n][8 * k..8 * k + 8] == ByteBits(s[..n][k]) {
        assert a[..8 * n][8 * k..8 * k + 8] == a[8 * k..8 * k + 8];
      }
      BytesBitsFromSlices(a[..8 * n], s[..n]);
      assert a == a[..8 * n] + a[8 * n..8 * n + 8];
    }
  }

  lemma {:induction false} BytesBitsZeros(n: nat)
    ensures BytesBits(seq(n, _ => 0 as bv8)) == Zeros(8 * n)
  {
    if n > 0 {
      assert seq(n, _ => 0 as bv8)[..n - 1] == seq(n - 1, _ => 0 as bv8);
      BytesBitsZeros(n - 1);
    }
  }
}
