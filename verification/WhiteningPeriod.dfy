/** The key stream of perform_data_whitening repeats after 511 bits and bytes, and not before.

  Squaring the recurrence s(t + 9) = s(t) + s(t + 5) over GF(2) gives s(t + 2^k) as a sum of nine consecutive
  bits; nine squarings give s(t + 512) = s(t + 1). */
module WhiteningPeriod {
  import opened Bits
  import opened Whitening

  lemma Recurrence(seed: bv16, t: nat)
    ensures Pn9(seed, t + 9) == (Pn9(seed, t) != Pn9(seed, t + 5))
  {
  }

  lemma Ahead16(s: bv16, t: nat)
    ensures Pn9(s, t + 16) == (Pn9(s, t + 3) != (Pn9(s, t + 7) != Pn9(s, t + 8)))
  {
    hide Pn9;
    Recurrence(s, t + 3);
    Recurrence(s, t + 7);
  }

  lemma Ahead32(s: bv16, t: nat)
    ensures Pn9(s, t + 32) == (Pn9(s, t + 1) != (Pn9(s, t + 3) != (Pn9(s, t + 5) != (Pn9(s, t + 7) != Pn9(s, t + 8)))))
  {
    hide Pn9;
    Ahead16(s, t);
    Ahead16(s, t + 3);
    Ahead16(s, t + 7);
    Ahead16(s, t + 8);
    Ahead16(s, t + 16);
    Recurrence(s, t + 1);
    Recurrence(s, t + 5);
  }

  lemma Ahead64(s: bv16, t: nat)
    ensures Pn9(s, t + 64)
         == (Pn9(s, t + 2) != (Pn9(s, t + 3) != (Pn9(s, t + 5) != (Pn9(s, t + 6) != (Pn9(s, t + 7) != Pn9(s, t + 8))))))
  {
    hide Pn9;
    Ahead32(s, t + 32);
    Ahead32(s, t + 1);
    Ahead32(s, t + 3);
    Ahead32(s, t + 5);
    Ahead32(s, t + 7);
    Ahead32(s, t + 8);
    Ahead16(s, t);
    Recurrence(s, t + 1);
    Recurrence(s, t + 5);
  }

  lemma Ahead128(s: bv16, t: nat)
    ensures Pn9(s, t + 128) == (Pn9(s, t + 4) != (Pn9(s, t + 5) != (Pn9(s, t + 6) != Pn9(s, t + 7))))
  {
    hide Pn9;
    Ahead64(s, t + 64);
    Ahead64(s, t + 2);
    Ahead64(s, t + 3);
    Ahead64(s, t + 5);
    Ahead64(s, t + 6);
    Ahead64(s, t + 7);
    Ahead64(s, t + 8);
    Ahead16(s, t);
    Recurrence(s, t + 1);
    Recurrence(s, t + 3);
    Recurrence(s, t + 5);
  }

  lemma Ahead256(s: bv16, t: nat)
    ensures Pn9(s, t + 256) == (Pn9(s, t + 3) != Pn9(s, t + 5))
  {
    hide Pn9;
    Ahead128(s, t + 128);
    Ahead128(s, t + 4);
    Ahead128(s, t + 5);
    Ahead128(s, t + 6);
    Ahead128(s, t + 7);
    Recurrence(s, t + 1);
    Recurrence(s, t + 3);
    Recurrence(s, t + 5);
  }

  lemma Ahead512(s: bv16, t: nat)
    ensures Pn9(s, t + 512) == Pn9(s, t + 1)
  {
    hide Pn9;
    Ahead256(s, t + 256);
    Ahead256(s, t + 3);
    Ahead256(s, t + 5);
    Recurrence(s, t + 1);
  }

  // ------------------------------------------------------------------- periods

  ghost predicate IsPeriod(seed: bv16, d: nat) {
    forall t: nat :: Pn9(seed, t + d) == Pn9(seed, t)
  }

  lemma Period511(seed: bv16)
    ensures IsPeriod(seed, 511)
  {
    hide Pn9;
    forall t: nat ensures Pn9(seed, t + 511) == Pn9(seed, t) {
      if t > 0 {
        Ahead512(seed, t - 1);
      } else {
        Ahead512(seed, 4);
        Ahead512(seed, 8);
        Recurrence(seed, 511);
        Recurrence(seed, 0);
      }
    }
  }

  lemma {:induction false} PeriodTimes(seed: bv16, d: nat, k: nat)
    requires IsPeriod(seed, d)
    ensures IsPeriod(seed, d * k)
  {
    hide Pn9;
    if k > 0 {
      PeriodTimes(seed, d, k - 1);
      assert d * k == d * (k - 1) + d;
      forall t: nat ensures Pn9(seed, t + d * k) == Pn9(seed, t) {
        assert Pn9(seed, t + d + d * (k - 1)) == Pn9(seed, t + d);
      }
    }
  }

  /** The remainder of one period by another is a period. */
  lemma PeriodMod(seed: bv16, a: nat, d: nat)
    requires d > 0 && IsPeriod(seed, a) && IsPeriod(seed, d)
    ensures IsPeriod(seed, a % d)
  {
    hide Pn9;
    PeriodTimes(seed, d, a / d);
    assert a == d * (a / d) + a % d;
    forall t: nat ensures Pn9(seed, t + a % d) == Pn9(seed, t) {
      assert Pn9(seed, t + a % d + d * (a / d)) == Pn9(seed, t + a % d);
    }
  }

  /** A nine-bit seed other than zero has a bit. */
  lemma SeedBit(seed: bv16)
    requires 0 < seed < 512
    ensures Pn9(seed, 0) || Pn9(seed, 1) || Pn9(seed, 2) || Pn9(seed, 3) || Pn9(seed, 4)
         || Pn9(seed, 5) || Pn9(seed, 6) || Pn9(seed, 7) || Pn9(seed, 8)
  {
    SomeBit(seed);
  }

  lemma SomeBit(seed: bv16)
    requires 0 < seed < 512
    ensures seed & 0x001 != 0 || seed & 0x002 != 0 || seed & 0x004 != 0 || seed & 0x008 != 0 || seed & 0x010 != 0
         || seed & 0x020 != 0 || seed & 0x040 != 0 || seed & 0x080 != 0 || seed & 0x100 != 0
  {
  }

  /** A period, applied to the first bits. */
  lemma Shift(seed: bv16, d: nat)
    requires IsPeriod(seed, d)
    ensures Pn9(seed, d) == Pn9(seed, 0) && Pn9(seed, 1 + d) == Pn9(seed, 1) && Pn9(seed, 2 + d) == Pn9(seed, 2)
    ensures Pn9(seed, 3 + d) == Pn9(seed, 3) && Pn9(seed, 4 + d) == Pn9(seed, 4) && Pn9(seed, 5 + d) == Pn9(seed, 5)
    ensures Pn9(seed, 6 + d) == Pn9(seed, 6) && Pn9(seed, 7 + d) == Pn9(seed, 7) && Pn9(seed, 8 + d) == Pn9(seed, 8)
  {
    hide Pn9;
    assert Pn9(seed, 0 + d) == Pn9(seed, 0);
  }

  lemma NotPeriod7(seed: bv16)
    requires 0 < seed < 512
    ensures !IsPeriod(seed, 7)
  {
    SeedBit(seed);
    hide Pn9;
    if IsPeriod(seed, 7) {
      Shift(seed, 7);
      Recurrence(seed, 0);
      Recurrence(seed, 1);
      Recurrence(seed, 2);
      Recurrence(seed, 3);
      Recurrence(seed, 4);
      Recurrence(seed, 5);
      Recurrence(seed, 6);
    }
  }

  /** 73 bits ahead, as a sum of nine consecutive ones. */
  lemma Ahead73(s: bv16, t: nat)
    ensures Pn9(s, t + 73) == (Pn9(s, t) != (Pn9(s, t + 1) != (Pn9(s, t + 4) != (Pn9(s, t + 7) != Pn9(s, t + 8)))))
  {
    hide Pn9;
    Recurrence(s, t + 64);
    Ahead64(s, t);
    Ahead64(s, t + 5);
    Recurrence(s, t + 1);
    Recurrence(s, t + 2);
    Recurrence(s, t + 3);
    Recurrence(s, t + 4);
    Recurrence(s, t);
  }

  /** Were 73 a period, three relations of falling degree would follow, the last of them that bits are zero. */
  lemma Degree7(seed: bv16, u: nat)
    requires IsPeriod(seed, 73)
    ensures Pn9(seed, u + 8) == (Pn9(seed, u + 1) != (Pn9(seed, u + 4) != Pn9(seed, u + 7)))
  {
    hide Pn9;
    Ahead73(seed, u);
    assert Pn9(seed, u + 73) == Pn9(seed, u);
  }

  lemma Degree5(seed: bv16, u: nat)
    requires IsPeriod(seed, 73)
    ensures Pn9(seed, u + 7) == (Pn9(seed, u + 2) != (Pn9(seed, u + 3) != (Pn9(seed, u + 4) != Pn9(seed, u + 5))))
  {
    hide Pn9, IsPeriod;
    Degree7(seed, u);
    Degree7(seed, u + 1);
    Degree7(seed, u + 2);
    Recurrence(seed, u + 1);
  }

  lemma ZeroBits(seed: bv16, u: nat)
    requires IsPeriod(seed, 73)
    ensures !Pn9(seed, u + 4)
  {
    hide Pn9, IsPeriod;
    Degree5(seed, u);
    Degree5(seed, u + 1);
    Degree5(seed, u + 2);
    Degree7(seed, u + 1);
  }

  lemma NotPeriod73(seed: bv16)
    requires 0 < seed < 512
    ensures !IsPeriod(seed, 73)
  {
    SeedBit(seed);
    hide Pn9, IsPeriod;
    if IsPeriod(seed, 73) {
      ZeroBits(seed, 0);
      ZeroBits(seed, 1);
      ZeroBits(seed, 2);
      ZeroBits(seed, 3);
      ZeroBits(seed, 4);
      ZeroBits(seed, 5);
      ZeroBits(seed, 6);
      ZeroBits(seed, 7);
      ZeroBits(seed, 8);
      Recurrence(seed, 0);
      Recurrence(seed, 1);
      Recurrence(seed, 2);
    }
  }

  /** Among 2..k nothing but 7 divides 511. */
  predicate OnlySeven(k: nat) {
    k < 2 || ((k == 7 || 511 % k != 0) && OnlySeven(k - 1))
  }

  lemma {:induction false} OnlySevenBelow(k: nat, d: nat)
    requires OnlySeven(k) && 2 <= d <= k && 511 % d == 0
    ensures d == 7
  {
    if d < k { OnlySevenBelow(k - 1, d); }
  }

  lemma Grows(a: nat, b: nat, c: nat)
    requires a >= c && b >= c
    ensures a * b >= c * c
  {
  }

  lemma DivisorsOf511(d: nat)
    requires 0 < d < 511 && 511 % d == 0
    ensures d == 1 || d == 7 || d == 73
  {
    var q := 511 / d;
    assert OnlySeven(6);
    assert OnlySeven(11);
    assert OnlySeven(16);
    assert OnlySeven(22);
    assert d * q == 511;
    if 2 <= d <= 22 {
      OnlySevenBelow(22, d);
    } else if d > 22 {
      if q > 22 { Grows(d, q, 23); }
      assert q >= 2;
      assert 511 % q == 0;
      OnlySevenBelow(22, q);
    }
  }

  lemma {:induction false} NoShorterPeriod(seed: bv16, d: nat)
    requires 0 < seed < 512 && 0 < d < 511
    ensures !IsPeriod(seed, d)
    decreases d
  {
    if IsPeriod(seed, d) {
      if 511 % d != 0 {
        Period511(seed);
        PeriodMod(seed, 511, d);
        NoShorterPeriod(seed, 511 % d);
      } else {
        DivisorsOf511(d);
        NotPeriod7(seed);
        NotPeriod73(seed);
        if d == 1 { PeriodTimes(seed, 1, 7); }
      }
    }
  }

  /** Exactly the multiples of 511 are periods of the sequence. */
  lemma PeriodExactly(seed: bv16, d: nat)
    requires 0 < seed < 512
    ensures IsPeriod(seed, d) <==> d % 511 == 0
  {
    hide IsPeriod;
    Period511(seed);
    if d % 511 == 0 {
      PeriodTimes(seed, 511, d / 511);
    } else if IsPeriod(seed, d) {
      PeriodMod(seed, d, 511);
      NoShorterPeriod(seed, d % 511);
    }
  }

  // ---------------------------------------------------------------- the key bytes

  ghost predicate KeyRepeats(seed: bv16, p: nat) {
    forall i: nat :: KeyByte(LfsrAt(seed, i + p)) == KeyByte(LfsrAt(seed, i))
  }

  /** A period from bit 9 on is a period from the start, because the sequence runs backwards too. */
  lemma {:induction false} PeriodBackwards(seed: bv16, d: nat, t: nat)
    requires forall u :: u >= 9 ==> Pn9(seed, u + d) == Pn9(seed, u)
    ensures Pn9(seed, t + d) == Pn9(seed, t)
    decreases 9 - t
  {
    if t < 9 {
      hide Pn9;
      PeriodBackwards(seed, d, t + 9);
      PeriodBackwards(seed, d, t + 5);
      Recurrence(seed, t);
      Recurrence(seed, t + d);
    }
  }

  /** The key bytes repeat after `p` bytes exactly if 511 divides `p`. */
  lemma KeyPeriod(seed: bv16, p: nat)
    requires 0 < seed < 512
    ensures KeyRepeats(seed, p) <==> p % 511 == 0
  {
    hide Pn9, KeyByte, LfsrAt, IsPeriod;
    if p % 511 == 0 {
      PeriodExactly(seed, 8 * p);
      forall i: nat ensures KeyByte(LfsrAt(seed, i + p)) == KeyByte(LfsrAt(seed, i)) { SameKeyByte(seed, p, i); }
    } else {
      PeriodExactly(seed, 8 * p);
      if KeyRepeats(seed, p) { RepeatsGivePeriod(seed, p); }
    }
  }

  lemma SameKeyByte(seed: bv16, p: nat, i: nat)
    requires seed < 512 && IsPeriod(seed, 8 * p)
    ensures KeyByte(LfsrAt(seed, i + p)) == KeyByte(LfsrAt(seed, i))
  {
    hide Pn9, KeyByte, LfsrAt;
    var a, b := KeyByte(LfsrAt(seed, i + p)), KeyByte(LfsrAt(seed, i));
    forall j | 0 <= j < 8 ensures ByteBits(a)[j] == ByteBits(b)[j] {
      KeyIsPn9(seed, i + p, j);
      KeyIsPn9(seed, i, j);
      assert Pn9(seed, 9 + 8 * i + j + 8 * p) == Pn9(seed, 9 + 8 * i + j);
    }
    assert ByteBits(a) == ByteBits(b);
    ByteBitsInjective(a, b);
  }

  lemma RepeatsGivePeriod(seed: bv16, p: nat)
    requires seed < 512 && KeyRepeats(seed, p)
    ensures IsPeriod(seed, 8 * p)
  {
    hide Pn9, KeyByte, LfsrAt;
    forall u | u >= 9 ensures Pn9(seed, u + 8 * p) == Pn9(seed, u) {
      var i, j := (u - 9) / 8, (u - 9) % 8;
      assert u == 9 + 8 * i + j && u + 8 * p == 9 + 8 * (i + p) + j;
      assert KeyByte(LfsrAt(seed, i + p)) == KeyByte(LfsrAt(seed, i));
      KeyIsPn9(seed, i + p, j);
      KeyIsPn9(seed, i, j);
    }
    forall t: nat ensures Pn9(seed, t + 8 * p) == Pn9(seed, t) { PeriodBackwards(seed, 8 * p, t); }
  }
}
