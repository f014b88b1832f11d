/** Polynomials over GF(2) and the shift register that divides by one.

  A polynomial is its coefficient string, highest power first.  The register
  holds W bits for a generator `g` of degree W, written with W + 1 bits. */
module Gf2 {
  import opened Bits

  /** q(x) * g(x), by Horner's rule on the coefficients of q. */
  ghost function Mul(q: seq<bool>, g: seq<bool>): (r: seq<bool>)
    requires |g| >= 1
    ensures |r| == |q| + |g| - 1
  {
    if q == [] then Zeros(|g| - 1)
    else
      var n := |q| - 1;
      var timesX := Mul(q[..n], g) + [false];
      if q[n] then Xor(timesX, Zeros(n) + g) else timesX
  }

  /** m(x) * x^W with the register preset added to its first W coefficients. */
  ghost function Dividend(preset: seq<bool>, m: seq<bool>): (r: seq<bool>)
    ensures |r| == |m| + |preset|
  {
    Xor(m + Zeros(|preset|), preset + Zeros(|m|))
  }

  /** r(x) is what division of the dividend by g leaves: they differ by a multiple of g. */
  ghost predicate IsRemainder(g: seq<bool>, preset: seq<bool>, m: seq<bool>, r: seq<bool>)
    requires |g| == |preset| + 1
  {
    |r| == |preset| &&
    exists q: seq<bool> :: |q| == |m| && Xor(Dividend(preset, m), Zeros(|m|) + r) == Mul(q, g)
  }

  /** One clock of the register: shift left, feed back when the outgoing bit and the input differ. */
  ghost function Clock(g: seq<bool>, r: seq<bool>, b: bool): (r': seq<bool>)
    requires |g| == |r| + 1 && |r| >= 1
    ensures |r'| == |r|
  {
    var shifted := r[1..] + [false];
    if r[0] != b then Xor(shifted, g[1..]) else shifted
  }

  ghost function Feed(g: seq<bool>, r: seq<bool>, m: seq<bool>): (r': seq<bool>)
    requires |g| == |r| + 1 && |r| >= 1
    ensures |r'| == |r|
  {
    if m == [] then r else Clock(g, Feed(g, r, m[..|m| - 1]), m[|m| - 1])
  }

  lemma {:induction false} FeedConcat(g: seq<bool>, r: seq<bool>, a: seq<bool>, b: seq<bool>)
    requires |g| == |r| + 1 && |r| >= 1
    ensures Feed(g, r, a + b) == Feed(g, Feed(g, r, a), b)
  {
    if b == [] {
      assert a + b == a;
    } else {
      var ab := a + b;
      assert ab[..|ab| - 1] == a + b[..|b| - 1];
      FeedConcat(g, r, a, b[..|b| - 1]);
    }
  }

  lemma FeedOne(g: seq<bool>, r: seq<bool>, b: bool)
    requires |g| == |r| + 1 && |r| >= 1
    ensures Feed(g, r, [b]) == Clock(g, r, b)
  {
    assert [b][..0] == [];
  }

  // ---------------------------------------------------------------- linearity

  lemma ClockLinear(g: seq<bool>, r: seq<bool>, s: seq<bool>, a: bool, b: bool)
    requires |g| == |r| + 1 == |s| + 1 && |r| >= 1
    ensures Clock(g, Xor(r, s), a != b) == Xor(Clock(g, r, a), Clock(g, s, b))
  {
  }

  lemma {:induction false} FeedLinear(g: seq<bool>, r: seq<bool>, s: seq<bool>, m: seq<bool>, k: seq<bool>)
    requires |g| == |r| + 1 == |s| + 1 && |r| >= 1 && |m| == |k|
    ensures Feed(g, Xor(r, s), Xor(m, k)) == Xor(Feed(g, r, m), Feed(g, s, k))
  {
    if m != [] {
      var n := |m| - 1;
      assert Xor(m, k)[..n] == Xor(m[..n], k[..n]);
      FeedLinear(g, r, s, m[..n], k[..n]);
      ClockLinear(g, Feed(g, r, m[..n]), Feed(g, s, k[..n]), m[n], k[n]);
    }
  }

  /** Feeding a string of at most W bits is the same as adding it to the register's
      leading bits and clocking in zeros: what lets the code add a whole byte at once. */
  lemma {:induction false} Preload(g: seq<bool>, r: seq<bool>, m: seq<bool>)
    requires |g| == |r| + 1 && |r| >= 1 && |m| <= |r|
    ensures Feed(g, r, m) == Feed(g, Xor(r, m + Zeros(|r| - |m|)), Zeros(|m|))
    decreases |m|
  {
    var w := |r|;
    var loaded := Xor(r, m + Zeros(w - |m|));
    if m == [] {
      assert loaded == r;
    } else {
      var rest := m[1..];
      FeedConcat(g, r, [m[0]], rest);
      FeedOne(g, r, m[0]);
      assert [m[0]] + rest == m;
      Preload(g, Clock(g, r, m[0]), rest);
      FeedConcat(g, loaded, [false], Zeros(|rest|));
      FeedOne(g, loaded, false);
      assert [false] + Zeros(|rest|) == Zeros(|m|);
      PreloadClock(g, r, m);
    }
  }

  lemma PreloadClock(g: seq<bool>, r: seq<bool>, m: seq<bool>)
    requires |g| == |r| + 1 && |r| >= 1 && 1 <= |m| <= |r|
    ensures Clock(g, Xor(r, m + Zeros(|r| - |m|)), false)
         == Xor(Clock(g, r, m[0]), m[1..] + Zeros(|r| - |m| + 1))
  {
    var w := |r|;
    var a, b := Clock(g, Xor(r, m + Zeros(w - |m|)), false), Xor(Clock(g, r, m[0]), m[1..] + Zeros(w - |m| + 1));
    var padded := m + Zeros(w - |m|);
    assert m[1..] + Zeros(w - |m| + 1) == padded[1..] + [false];
    forall i | 0 <= i < w ensures a[i] == b[i] {
    }
  }

  // -------------------------------------------------------------- injectivity

  lemma ClockZeroInjective(g: seq<bool>, r: seq<bool>)
    requires |g| == |r| + 1 && |r| >= 1 && g[|r|]
    requires Clock(g, r, false) == Zeros(|r|)
    ensures r == Zeros(|r|)
  {
    var c := Clock(g, r, false);
    assert c[|r| - 1] == r[0];
    assert forall i :: 1 <= i < |r| ==> c[i - 1] == r[i];
    assert forall i :: 1 <= i < |r| ==> !r[i] by {
      forall i | 1 <= i < |r| ensures !r[i] { assert !Zeros(|r|)[i - 1]; }
    }
  }

  /** Clocking zeros never loses information: only the zero register reaches zero. */
  lemma {:induction false} FeedZerosInjective(g: seq<bool>, r: seq<bool>, n: nat)
    requires |g| == |r| + 1 && |r| >= 1 && g[|r|]
    requires Feed(g, r, Zeros(n)) == Zeros(|r|)
    ensures r == Zeros(|r|)
  {
    if n > 0 {
      assert Zeros(n)[..n - 1] == Zeros(n - 1);
      ClockZeroInjective(g, Feed(g, r, Zeros(n - 1)));
      FeedZerosInjective(g, r, n - 1);
    }
  }

  lemma {:induction false} FeedZerosFromZero(g: seq<bool>, w: nat, n: nat)
    requires |g| == w + 1 && w >= 1
    ensures Feed(g, Zeros(w), Zeros(n)) == Zeros(w)
  {
    if n > 0 {
      assert Zeros(n)[..n - 1] == Zeros(n - 1);
      FeedZerosFromZero(g, w, n - 1);
      assert Clock(g, Zeros(w), false) == Zeros(w);
    }
  }

  // ----------------------------------------------------------------- division

  /** The feedback bits, in order, are the quotient. */
  ghost function Quotient(g: seq<bool>, r: seq<bool>, m: seq<bool>): (q: seq<bool>)
    requires |g| == |r| + 1 && |r| >= 1
    ensures |q| == |m|
  {
    if m == [] then []
    else
      var n := |m| - 1;
      Quotient(g, r, m[..n]) + [Feed(g, r, m[..n])[0] != m[n]]
  }

  lemma {:induction false} FeedDivides(g: seq<bool>, p: seq<bool>, m: seq<bool>)
    requires |g| == |p| + 1 && |p| >= 1 && g[0]
    ensures Xor(Dividend(p, m), Zeros(|m|) + Feed(g, p, m)) == Mul(Quotient(g, p, m), g)
  {
    var w := |p|;
    if m == [] {
      assert Dividend(p, m) == p;
    } else {
      var n := |m| - 1;
      var r0, q0 := Feed(g, p, m[..n]), Quotient(g, p, m[..n]);
      FeedDivides(g, p, m[..n]);
      DividendStep(p, m);
      DivideOneBit(g, Dividend(p, m[..n]), Dividend(p, m), n, r0, m[n]);
      assert Quotient(g, p, m)[..n] == q0;
    }
  }

  /** If d0 and r0 differ by a multiple of g, so do the next dividend and the next register. */
  lemma DivideOneBit(g: seq<bool>, d0: seq<bool>, d: seq<bool>, n: nat, r0: seq<bool>, b: bool)
    requires |g| == |r0| + 1 && |r0| >= 1 && g[0] && |d0| == n + |r0| && |d| == |d0| + 1
    requires forall i :: 0 <= i < |d| ==> d[i] == ((d0 + [false])[i] != (i == n && b))
    ensures var p := Xor(d0, Zeros(n) + r0) + [false];
            Xor(d, Zeros(n + 1) + Clock(g, r0, b)) == if r0[0] != b then Xor(p, Zeros(n) + g) else p
  {
    var w, r := |r0|, Clock(g, r0, b);
    var p := Xor(d0, Zeros(n) + r0) + [false];
    var x, y := Xor(d, Zeros(n + 1) + r), if r0[0] != b then Xor(p, Zeros(n) + g) else p;
    forall i | 0 <= i < |d| ensures x[i] == y[i] {
      if i < n {
      } else if i == n {
        assert (Zeros(n) + g)[n] == g[0];
      } else {
        assert (Zeros(n + 1) + r)[i] == r[i - n - 1];
        assert (Zeros(n) + g)[i] == g[i - n];
        assert i < n + w ==> (Zeros(n) + r0)[i] == r0[i - n];
      }
    }
  }

  /** Appending a message bit shifts the dividend and adds the bit at x^W. */
  lemma DividendStep(p: seq<bool>, m: seq<bool>)
    requires m != [] && |p| >= 1
    ensures var n := |m| - 1; var d, d0 := Dividend(p, m), Dividend(p, m[..n]) + [false];
            |d| == |d0| && forall i :: 0 <= i < |d| ==> d[i] == (d0[i] != (i == n && m[n]))
  {
  }

  lemma {:induction false} MulLinear(a: seq<bool>, b: seq<bool>, g: seq<bool>)
    requires |a| == |b| && |g| >= 1
    ensures Mul(Xor(a, b), g) == Xor(Mul(a, g), Mul(b, g))
  {
    if a != [] {
      var n := |a| - 1;
      assert Xor(a, b)[..n] == Xor(a[..n], b[..n]);
      MulLinear(a[..n], b[..n], g);
    }
  }

  /** A multiple of g that has no term of degree W or more is zero. */
  lemma {:induction false} SmallMultipleIsZero(q: seq<bool>, g: seq<bool>)
    requires |g| >= 1 && g[0]
    requires forall i :: 0 <= i < |q| ==> !Mul(q, g)[i]
    ensures forall i :: 0 <= i < |q| ==> !q[i]
    ensures Mul(q, g) == Zeros(|q| + |g| - 1)
  {
    if q != [] {
      var n := |q| - 1;
      var p, p0 := Mul(q, g), Mul(q[..n], g);
      forall i | 0 <= i < n ensures !p0[i] {
        assert !p[i];
        assert (p0 + [false])[i] == p0[i];
        assert !(Zeros(n) + g)[i];
      }
      SmallMultipleIsZero(q[..n], g);
      assert !p[n] && (Zeros(n) + g)[n] == g[0] && !(p0 + [false])[n];
      assert !q[n];
      assert p == p0 + [false];
    }
  }

  /** The register computes the remainder, and there is only one. */
  lemma FeedIsTheRemainder(g: seq<bool>, p: seq<bool>, m: seq<bool>, r: seq<bool>)
    requires |g| == |p| + 1 && |p| >= 1 && g[0]
    ensures IsRemainder(g, p, m, r) <==> r == Feed(g, p, m)
  {
    hide Feed, Quotient, Mul, Dividend;
    var w, n, f, q := |p|, |m|, Feed(g, p, m), Quotient(g, p, m);
    FeedDivides(g, p, m);
    if IsRemainder(g, p, m, r) {
      var q' :| |q'| == n && Xor(Dividend(p, m), Zeros(n) + r) == Mul(q', g);
      MulLinear(q, q', g);
      var diff := Xor(Zeros(n) + f, Zeros(n) + r);
      assert Mul(Xor(q, q'), g) == diff by {
        var d := Dividend(p, m);
        assert Xor(Xor(d, Zeros(n) + f), Xor(d, Zeros(n) + r)) == diff;
      }
      SmallMultipleIsZero(Xor(q, q'), g);
      forall i | 0 <= i < w ensures r[i] == f[i] {
        assert !Zeros(n + w)[n + i] && diff[n + i] == (f[i] != r[i]);
      }
      assert r == f;
    }
  }

  // ---------------------------------------------------------- error detection

  /** No bit outside the `len` positions from `at` is set, and some bit is. */
  ghost predicate IsBurst(e: seq<bool>, at: nat, len: nat) {
    (forall i :: 0 <= i < |e| && e[i] ==> at <= i < at + len) && exists i :: 0 <= i < |e| && e[i]
  }

  /** A non-zero burst no longer than the register is never a multiple of g. */
  lemma BurstLeavesRemainder(g: seq<bool>, w: nat, e: seq<bool>, at: nat)
    requires |g| == w + 1 && w >= 1 && g[w]
    requires IsBurst(e, at, w)
    ensures Feed(g, Zeros(w), e) != Zeros(w)
  {
    hide Feed, IsBurst;
    var k, l, mid := BurstMiddle(e, at, w);
    BurstSplits(e, k, l);
    if Feed(g, Zeros(w), e) == Zeros(w) {
      ZerosAround(g, w, k, mid, |e| - k - l);
    }
  }

  /** The part of a burst's range that lies inside the string. */
  lemma BurstMiddle(e: seq<bool>, at: nat, len: nat) returns (k: nat, l: nat, mid: seq<bool>)
    requires IsBurst(e, at, len)
    ensures l <= len && k + l <= |e| && (forall i :: 0 <= i < |e| && e[i] ==> k <= i < k + l)
    ensures mid == e[k..k + l] && exists j :: 0 <= j < |mid| && mid[j]
  {
    var i :| 0 <= i < |e| && e[i];
    k := at;
    l := if k + len <= |e| then len else |e| - k;
    mid := e[k..k + l];
    assert mid[i - k];
  }

  /** Zeros before and after a short message do not help it to divide out. */
  lemma ZerosAround(g: seq<bool>, w: nat, k: nat, mid: seq<bool>, tail: nat)
    requires |g| == w + 1 && w >= 1 && g[w] && |mid| <= w
    requires Feed(g, Zeros(w), Zeros(k) + mid + Zeros(tail)) == Zeros(w)
    ensures forall i :: 0 <= i < |mid| ==> !mid[i]
  {
    hide Feed;
    FeedConcat(g, Zeros(w), Zeros(k) + mid, Zeros(tail));
    FeedZerosInjective(g, Feed(g, Zeros(w), Zeros(k) + mid), tail);
    FeedConcat(g, Zeros(w), Zeros(k), mid);
    FeedZerosFromZero(g, w, k);
    FeedShortIsInjective(g, w, mid);
  }

  lemma BurstSplits(e: seq<bool>, k: nat, l: nat)
    requires k + l <= |e|
    requires forall i :: 0 <= i < |e| && e[i] ==> k <= i < k + l
    ensures e == Zeros(k) + e[k..k + l] + Zeros(|e| - k - l)
  {
  }

  lemma FeedShortIsInjective(g: seq<bool>, w: nat, m: seq<bool>)
    requires |g| == w + 1 && w >= 1 && g[w] && |m| <= w
    requires Feed(g, Zeros(w), m) == Zeros(w)
    ensures forall i :: 0 <= i < |m| ==> !m[i]
  {
    Preload(g, Zeros(w), m);
    var loaded := Xor(Zeros(w), m + Zeros(w - |m|));
    FeedZerosInjective(g, loaded, |m|);
    forall i | 0 <= i < |m| ensures !m[i] { assert !Zeros(w)[i] && loaded[i] == m[i]; }
  }

  lemma XorZeroIsEqual(a: seq<bool>, b: seq<bool>)
    requires |a| == |b|
    ensures Xor(a, b) == Zeros(|a|) <==> a == b
  {
    if Xor(a, b) == Zeros(|a|) {
      forall i | 0 <= i < |a| ensures a[i] == b[i] { assert !Zeros(|a|)[i] && Xor(a, b)[i] == (a[i] != b[i]); }
    }
  }

  /** Message followed by its remainder clocks the register to zero; nothing else does. */
  lemma CheckEqualsFeedThrough(g: seq<bool>, m: seq<bool>, c: seq<bool>)
    requires |g| == |c| + 1 && |c| >= 1 && g[|c|]
    ensures Feed(g, Zeros(|c|), m) == c <==> Feed(g, Zeros(|c|), m + c) == Zeros(|c|)
  {
    var w := |c|;
    var r := Feed(g, Zeros(w), m);
    FeedConcat(g, Zeros(w), m, c);
    Preload(g, r, c);
    assert c + Zeros(0) == c;
    XorZeroIsEqual(r, c);
    if r == c {
      FeedZerosFromZero(g, w, w);
    } else if Feed(g, Xor(r, c), Zeros(w)) == Zeros(w) {
      FeedZerosInjective(g, Xor(r, c), w);
    }
  }

  /** Number of set bits, modulo two. */
  ghost function Parity(e: seq<bool>): bool {
    if e == [] then false else Parity(e[..|e| - 1]) != e[|e| - 1]
  }

  lemma {:induction false} ParityConcat(a: seq<bool>, b: seq<bool>)
    ensures Parity(a + b) == (Parity(a) != Parity(b))
  {
    if b == [] {
      assert a + b == a;
    } else {
      assert (a + b)[..|a + b| - 1] == a + b[..|b| - 1];
      ParityConcat(a, b[..|b| - 1]);
    }
  }

  lemma {:induction false} ParityXor(a: seq<bool>, b: seq<bool>)
    requires |a| == |b|
    ensures Parity(Xor(a, b)) == (Parity(a) != Parity(b))
  {
    if a != [] {
      var n := |a| - 1;
      assert Xor(a, b)[..n] == Xor(a[..n], b[..n]);
      ParityXor(a[..n], b[..n]);
    }
  }

  lemma {:induction false} ParityZeros(n: nat)
    ensures !Parity(Zeros(n))
  {
    if n > 0 {
      assert Zeros(n)[..n - 1] == Zeros(n - 1);
      ParityZeros(n - 1);
    }
  }

  lemma ParityCons(b: bool, s: seq<bool>)
    ensures Parity([b] + s) == (b != Parity(s)) && Parity(s + [b]) == (b != Parity(s))
  {
    ParityConcat([b], s);
    ParityConcat(s, [b]);
    assert [b][..0] == [];
  }

  lemma ClockParity(g: seq<bool>, r: seq<bool>, b: bool)
    requires |g| == |r| + 1 && |r| >= 1 && g[0] && !Parity(g)
    ensures Parity(Clock(g, r, b)) == (Parity(r) != b)
  {
    hide Parity;
    assert r == [r[0]] + r[1..] && g == [g[0]] + g[1..];
    ParityCons(r[0], r[1..]);
    ParityCons(g[0], g[1..]);
    ParityCons(false, r[1..]);
    ParityXor(r[1..] + [false], g[1..]);
  }

  /** When x + 1 divides g, the register's parity is the parity of what went in. */
  lemma {:induction false} FeedKeepsParity(g: seq<bool>, r: seq<bool>, m: seq<bool>)
    requires |g| == |r| + 1 && |r| >= 1 && g[0] && !Parity(g)
    ensures Parity(Feed(g, r, m)) == (Parity(r) != Parity(m))
  {
    if m != [] {
      var n := |m| - 1;
      hide Clock;
      FeedKeepsParity(g, r, m[..n]);
      ClockParity(g, Feed(g, r, m[..n]), m[n]);
    }
  }
}
