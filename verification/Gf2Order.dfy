/** Powers of x modulo a generator: squaring them, when they return to one, and errors of two bits. */
module Gf2Order {
  import opened Bits
  import opened Gf2

  ghost predicate IsGenerator(g: seq<bool>) {
    |g| >= 2 && g[0] && g[|g| - 1]
  }

  /** The register that holds the polynomial 1. */
  ghost function One(w: nat): (r: seq<bool>)
    requires w >= 1
    ensures |r| == w
  {
    Zeros(w - 1) + [true]
  }

  ghost function Turn(g: seq<bool>, r: seq<bool>): (r': seq<bool>)
    requires |g| == |r| + 1 && |r| >= 1
    ensures |r'| == |r|
  {
    Clock(g, r, false)
  }

  /** x^n modulo g. */
  ghost function Power(g: seq<bool>, n: nat): (r: seq<bool>)
    requires IsGenerator(g)
    ensures |r| == |g| - 1
  {
    if n == 0 then One(|g| - 1) else Turn(g, Power(g, n - 1))
  }

  lemma {:induction false} PowerIsFeed(g: seq<bool>, n: nat)
    requires IsGenerator(g)
    ensures Power(g, n) == Feed(g, One(|g| - 1), Zeros(n))
  {
    if n > 0 {
      PowerIsFeed(g, n - 1);
      assert Zeros(n)[..n - 1] == Zeros(n - 1);
    }
  }

  /** From x^a on, n more turns. */
  lemma {:induction false} PowerAdd(g: seq<bool>, a: nat, n: nat)
    requires IsGenerator(g)
    ensures Power(g, a + n) == Feed(g, Power(g, a), Zeros(n))
  {
    if n > 0 {
      PowerAdd(g, a, n - 1);
      assert Zeros(n)[..n - 1] == Zeros(n - 1);
    }
  }

  // -------------------------------------------------------------------- squaring

  lemma TurnLinear(g: seq<bool>, r: seq<bool>, s: seq<bool>)
    requires |g| == |r| + 1 == |s| + 1 && |r| >= 1
    ensures Turn(g, Xor(r, s)) == Xor(Turn(g, r), Turn(g, s))
  {
    ClockLinear(g, r, s, false, false);
  }

  ghost function Unit(w: nat, b: bool): (r: seq<bool>)
    requires w >= 1
    ensures |r| == w
  {
    if b then One(w) else Zeros(w)
  }

  /** The polynomial with coefficients `b`, highest first, evaluated at x^2 modulo g. */
  ghost function AtSquare(g: seq<bool>, b: seq<bool>): (r: seq<bool>)
    requires IsGenerator(g)
    ensures |r| == |g| - 1
  {
    if b == [] then Zeros(|g| - 1)
    else Xor(Turn(g, Turn(g, AtSquare(g, b[..|b| - 1]))), Unit(|g| - 1, b[|b| - 1]))
  }

  lemma AtSquareThen(g: seq<bool>, b: seq<bool>, x: bool)
    requires IsGenerator(g)
    ensures AtSquare(g, b + [x]) == Xor(Turn(g, Turn(g, AtSquare(g, b))), Unit(|g| - 1, x))
  {
    assert (b + [x])[..|b|] == b;
  }

  lemma Regroup(a: seq<bool>, b: seq<bool>, c: seq<bool>, d: seq<bool>)
    requires |a| == |b| == |c| == |d|
    ensures Xor(Xor(a, b), Xor(c, d)) == Xor(Xor(a, c), Xor(b, d))
  {
  }

  lemma UnitXor(w: nat, x: bool, y: bool)
    requires w >= 1
    ensures Unit(w, x != y) == Xor(Unit(w, x), Unit(w, y))
  {
  }

  lemma {:induction false} AtSquareLinear(g: seq<bool>, a: seq<bool>, b: seq<bool>)
    requires IsGenerator(g) && |a| == |b|
    ensures AtSquare(g, Xor(a, b)) == Xor(AtSquare(g, a), AtSquare(g, b))
  {
    if a == [] {
      assert Xor(a, b) == [] && b == [];
      assert Xor(Zeros(|g| - 1), Zeros(|g| - 1)) == Zeros(|g| - 1);
    } else {
      hide Turn, Unit;
      var n, w := |a| - 1, |g| - 1;
      var a0, b0 := a[..n], b[..n];
      assert Xor(a, b)[..n] == Xor(a0, b0);
      AtSquareLinear(g, a0, b0);
      var p, q := AtSquare(g, a0), AtSquare(g, b0);
      TurnLinear(g, p, q);
      TurnLinear(g, Turn(g, p), Turn(g, q));
      UnitXor(w, a[n], b[n]);
      Regroup(Turn(g, Turn(g, p)), Turn(g, Turn(g, q)), Unit(w, a[n]), Unit(w, b[n]));
    }
  }

  lemma TurnZero(g: seq<bool>)
    requires IsGenerator(g)
    ensures Turn(g, Zeros(|g| - 1)) == Zeros(|g| - 1)
  {
  }

  lemma XorZero(a: seq<bool>)
    ensures Xor(a, Zeros(|a|)) == a && Xor(Zeros(|a|), a) == a
  {
  }

  /** A leading zero coefficient does not matter. */
  lemma {:induction false} LeadingZero(g: seq<bool>, b: seq<bool>)
    requires IsGenerator(g)
    ensures AtSquare(g, [false] + b) == AtSquare(g, b)
  {
    hide Turn;
    if b == [] {
      TurnZero(g);
      XorZero(Zeros(|g| - 1));
      assert [false] + b == [false] && [false][..0] == [];
    } else {
      var n := |b| - 1;
      LeadingZero(g, b[..n]);
      assert [false] + b == ([false] + b[..n]) + [b[n]];
      AtSquareThen(g, [false] + b[..n], b[n]);
    }
  }

  /** x^k at x^2 is x^2k. */
  lemma {:induction false} Monomial(g: seq<bool>, k: nat)
    requires IsGenerator(g)
    ensures AtSquare(g, [true] + Zeros(k)) == Power(g, 2 * k)
  {
    hide Turn;
    var w := |g| - 1;
    if k == 0 {
      TurnZero(g);
      assert [true] + Zeros(0) == [true] && [true][..0] == [];
      XorZero(One(w));
    } else {
      Monomial(g, k - 1);
      assert [true] + Zeros(k) == ([true] + Zeros(k - 1)) + [false];
      AtSquareThen(g, [true] + Zeros(k - 1), false);
      XorZero(Power(g, 2 * k));
      assert Power(g, 2 * k) == Turn(g, Power(g, 2 * k - 1)) && Power(g, 2 * k - 1) == Turn(g, Power(g, 2 * k - 2));
    }
  }

  /** The generator vanishes at x^2, as it does at x: its lower coefficients give x^2W. */
  ghost predicate VanishesAtSquare(g: seq<bool>)
    requires IsGenerator(g)
  {
    AtSquare(g, g[1..]) == Power(g, 2 * (|g| - 1))
  }

  lemma XorCommutes(a: seq<bool>, b: seq<bool>)
    requires |a| == |b|
    ensures Xor(a, b) == Xor(b, a)
  {
  }

  lemma TurnSplits(g: seq<bool>, r: seq<bool>)
    requires IsGenerator(g) && |r| == |g| - 1
    ensures Turn(g, r) == if r[0] then Xor(r[1..] + [false], g[1..]) else r[1..] + [false]
  {
  }

  /** Times x before squaring is times x^2 after it. */
  lemma TurnSquares(g: seq<bool>, r: seq<bool>)
    requires IsGenerator(g) && VanishesAtSquare(g) && |r| == |g| - 1
    ensures AtSquare(g, Turn(g, r)) == Turn(g, Turn(g, AtSquare(g, r)))
  {
    hide Turn, AtSquare, Power;
    var tail := r[1..];
    TurnSplits(g, r);
    ShiftSquares(g, tail);
    if !r[0] {
      assert r == [false] + tail;
      LeadingZero(g, tail);
    } else {
      AtSquareLinear(g, tail + [false], g[1..]);
      TopSet(g, r);
      TopTurns(g, AtSquare(g, tail));
    }
  }

  lemma ShiftSquares(g: seq<bool>, tail: seq<bool>)
    requires IsGenerator(g)
    ensures AtSquare(g, tail + [false]) == Turn(g, Turn(g, AtSquare(g, tail)))
  {
    hide Turn, AtSquare;
    AtSquareThen(g, tail, false);
    XorZero(Turn(g, Turn(g, AtSquare(g, tail))));
  }

  lemma TopTurns(g: seq<bool>, square: seq<bool>)
    requires IsGenerator(g) && |square| == |g| - 1
    ensures
      var w := |g| - 1;
      Turn(g, Turn(g, Xor(Power(g, 2 * w - 2), square))) == Xor(Turn(g, Turn(g, square)), Power(g, 2 * w))
  {
    hide Turn, Power;
    var w := |g| - 1;
    TurnLinear(g, Power(g, 2 * w - 2), square);
    TurnLinear(g, Turn(g, Power(g, 2 * w - 2)), Turn(g, square));
    TwoTurns(g, 2 * w - 2);
    XorCommutes(Power(g, 2 * w), Turn(g, Turn(g, square)));
  }

  lemma TwoTurns(g: seq<bool>, n: nat)
    requires IsGenerator(g)
    ensures Power(g, n + 2) == Turn(g, Turn(g, Power(g, n)))
  {
    hide Turn;
    assert Power(g, n + 2) == Turn(g, Power(g, n + 1)) && Power(g, n + 1) == Turn(g, Power(g, n));
  }

  lemma TopSplits(r: seq<bool>)
    requires |r| >= 1 && r[0]
    ensures Xor([true] + Zeros(|r| - 1), [false] + r[1..]) == r
  {
  }

  lemma TopSet(g: seq<bool>, r: seq<bool>)
    requires IsGenerator(g) && |r| == |g| - 1 && r[0]
    ensures AtSquare(g, r) == Xor(Power(g, 2 * |r| - 2), AtSquare(g, r[1..]))
  {
    hide AtSquare, Power;
    var w := |r|;
    TopSplits(r);
    AtSquareLinear(g, [true] + Zeros(w - 1), [false] + r[1..]);
    Monomial(g, w - 1);
    LeadingZero(g, r[1..]);
  }

  lemma {:induction false} ZerosSquare(g: seq<bool>, k: nat)
    requires IsGenerator(g)
    ensures AtSquare(g, Zeros(k)) == Zeros(|g| - 1)
  {
    hide Turn;
    if k > 0 {
      ZerosSquare(g, k - 1);
      assert Zeros(k) == Zeros(k - 1) + [false];
      AtSquareThen(g, Zeros(k - 1), false);
      TurnZero(g);
      XorZero(Zeros(|g| - 1));
    }
  }

  /** Squaring doubles the exponent. */
  lemma {:induction false} PowerDoubles(g: seq<bool>, n: nat)
    requires IsGenerator(g) && VanishesAtSquare(g)
    ensures Power(g, 2 * n) == AtSquare(g, Power(g, n))
  {
    hide Turn, AtSquare, VanishesAtSquare;
    var w := |g| - 1;
    if n == 0 {
      ZerosSquare(g, w - 1);
      AtSquareThen(g, Zeros(w - 1), true);
      TurnZero(g);
      XorZero(One(w));
    } else {
      PowerDoubles(g, n - 1);
      TurnSquares(g, Power(g, n - 1));
      assert Power(g, 2 * n) == Turn(g, Power(g, 2 * n - 1)) && Power(g, 2 * n - 1) == Turn(g, Power(g, 2 * n - 2));
    }
  }

  // ----------------------------------------------------------- returning to one

  ghost predicate Returns(g: seq<bool>, d: nat)
    requires IsGenerator(g)
  {
    Power(g, d) == One(|g| - 1)
  }

  lemma ReturnsThen(g: seq<bool>, d: nat, n: nat)
    requires IsGenerator(g) && Returns(g, d)
    ensures Power(g, d + n) == Power(g, n)
  {
    hide Power;
    PowerAdd(g, d, n);
    PowerIsFeed(g, n);
  }

  lemma {:induction false} ReturnsTimes(g: seq<bool>, d: nat, k: nat)
    requires IsGenerator(g) && Returns(g, d)
    ensures Returns(g, d * k)
  {
    if k > 0 {
      hide Power;
      ReturnsTimes(g, d, k - 1);
      ReturnsThen(g, d, d * (k - 1));
      assert d * k == d + d * (k - 1);
    }
  }

  lemma ReturnsRest(g: seq<bool>, d: nat, k: nat, r: nat)
    requires IsGenerator(g) && Returns(g, d) && Returns(g, d * k + r)
    ensures Returns(g, r)
  {
    hide Power;
    ReturnsTimes(g, d, k);
    ReturnsThen(g, d * k, r);
  }

  predicate IsPrime(p: nat) {
    p >= 2 && forall m :: 1 < m < p ==> p % m != 0
  }

  /** Nothing among 2..k divides p. */
  predicate NoDivisor(p: nat, k: nat) {
    k < 2 || (p % k != 0 && NoDivisor(p, k - 1))
  }

  lemma {:induction false} NoDivisorBelow(p: nat, k: nat, m: nat)
    requires NoDivisor(p, k) && 2 <= m <= k
    ensures p % m != 0
  {
    if m < k { NoDivisorBelow(p, k - 1, m); }
  }

  lemma {:induction false} TimesGrows(q: nat, a: nat, b: nat)
    requires a <= b
    ensures q * a <= q * b
  {
    if a < b { TimesGrows(q, a, b - 1); }
  }

  lemma CofactorDivides(p: nat, m: nat, q: nat)
    requires q > 0 && p == q * m
    ensures p % q == 0
  {
    var k, r := p / q, p % q;
    assert p == q * k + r;
    if k < m {
      assert q * (k + 1) == q * k + q;
      TimesGrows(q, k + 1, m);
    } else {
      TimesGrows(q, m, k);
    }
  }

  /** Divisors up to the root are enough. */
  lemma PrimeByRoot(p: nat, k: nat)
    requires p >= 2 && NoDivisor(p, k) && (k + 1) * (k + 1) > p
    ensures IsPrime(p)
  {
    hide NoDivisor;
    forall m | 1 < m < p ensures p % m != 0 {
      if m <= k { NoDivisorBelow(p, k, m); } else { BigDivisor(p, k, m); }
    }
  }

  lemma BigDivisor(p: nat, k: nat, m: nat)
    requires NoDivisor(p, k) && (k + 1) * (k + 1) > p && k < m < p
    ensures p % m != 0
  {
    hide NoDivisor;
    if p % m == 0 {
      var q := p / m;
      assert p == m * q;
      if q > k {
        TimesGrows(m, k + 1, q);
        assert (k + 1) * m == m * (k + 1);
        TimesGrows(k + 1, k + 1, m);
      } else if q >= 2 {
        assert p == q * m;
        CofactorDivides(p, m, q);
        NoDivisorBelow(p, k, q);
      } else {
        TimesGrows(m, q, 1);
      }
    }
  }

  lemma {:induction false} Coprime(g: seq<bool>, p: nat, q: nat, m: nat)
    requires IsGenerator(g) && IsPrime(p) && 0 < m < p && Returns(g, q * m) && Returns(g, q * p)
    ensures Returns(g, q)
    decreases m
  {
    hide Returns;
    if m == 1 {
      assert q * m == q;
    } else {
      var k, r := p / m, p % m;
      assert p == m * k + r;
      Distribute(q, m, k, r);
      ReturnsRest(g, q * m, k, q * r);
      Coprime(g, p, q, r);
    }
  }

  lemma Distribute(q: nat, m: nat, k: nat, r: nat)
    ensures q * (m * k + r) == q * m * k + q * r
  {
  }

  /** If x^pq and x^d are one and the prime p does not divide d, then x^q is one. */
  lemma PrimeStep(g: seq<bool>, p: nat, q: nat, d: nat)
    requires IsGenerator(g) && IsPrime(p) && Returns(g, p * q) && Returns(g, d) && d % p != 0
    ensures Returns(g, q)
  {
    hide Returns;
    ReturnsTimes(g, d, q);
    assert d == p * (d / p) + d % p;
    Distribute(q, p, d / p, d % p);
    assert q * p == p * q && q * d == d * q;
    ReturnsRest(g, q * p, d / p, q * (d % p));
    Coprime(g, p, q, d % p);
  }

  lemma Cancel(g: seq<bool>, a: nat, b: nat)
    requires IsGenerator(g) && Power(g, a + b) == Power(g, a)
    ensures Returns(g, b)
  {
    hide Power, Feed;
    var w, one := |g| - 1, One(|g| - 1);
    PowerAdd(g, b, a);
    PowerIsFeed(g, a);
    FeedLinear(g, Power(g, b), one, Zeros(a), Zeros(a));
    XorZeroIsEqual(Power(g, a), Power(g, a));
    assert Xor(Zeros(a), Zeros(a)) == Zeros(a);
    FeedZerosInjective(g, Xor(Power(g, b), one), a);
    XorZeroIsEqual(Power(g, b), one);
  }

  // ------------------------------------------------------------- two-bit errors

  /** Exactly the bits `a` and `b` are set. */
  ghost predicate IsPair(e: seq<bool>, a: nat, b: nat) {
    a < b < |e| && forall i :: 0 <= i < |e| ==> (e[i] <==> i == a || i == b)
  }

  lemma {:induction false} EarlyPower(g: seq<bool>, k: nat)
    requires IsGenerator(g) && k < |g| - 1
    ensures Power(g, k) == Zeros(|g| - 2 - k) + [true] + Zeros(k)
  {
    if k == 0 {
      assert One(|g| - 1) == Zeros(|g| - 2) + [true] + Zeros(0);
    } else {
      EarlyPower(g, k - 1);
      var r := Power(g, k - 1);
      assert !r[0];
      assert r[1..] + [false] == Zeros(|g| - 2 - k) + [true] + Zeros(k);
    }
  }

  /** x^W is the lower coefficients of the generator. */
  lemma FirstFeedback(g: seq<bool>)
    requires IsGenerator(g)
    ensures Power(g, |g| - 1) == g[1..] && Clock(g, Zeros(|g| - 1), true) == g[1..]
  {
    hide Turn, Power, Clock;
    var w := |g| - 1;
    EarlyPower(g, w - 1);
    var r := Power(g, w - 1);
    assert r[0] && r[1..] + [false] == Zeros(w);
    TurnSplits(g, r);
    XorZero(g[1..]);
    PowerThen(g, w);
    ClockOne(g);
  }

  lemma ClockOne(g: seq<bool>)
    requires IsGenerator(g)
    ensures Clock(g, Zeros(|g| - 1), true) == g[1..]
  {
    var w := |g| - 1;
    assert Zeros(w)[1..] + [false] == Zeros(w);
    XorZero(g[1..]);
  }

  /** An error of two bits is divided by g only if x to their distance is one. */
  lemma PairDividesOnlyIf(g: seq<bool>, e: seq<bool>, a: nat, b: nat)
    requires IsGenerator(g) && IsPair(e, a, b) && Feed(g, Zeros(|g| - 1), e) == Zeros(|g| - 1)
    ensures Returns(g, b - a)
  {
    hide Feed, Power;
    var w, d := |g| - 1, b - a;
    PairSplits(e, a, b);
    var head, tail := Zeros(a) + [true] + Zeros(d - 1) + [true], |e| - b - 1;
    FeedConcat(g, Zeros(w), head, Zeros(tail));
    FeedZerosInjective(g, Feed(g, Zeros(w), head), tail);
    FeedPair(g, a, d);
    XorZeroIsEqual(Power(g, w + d), g[1..]);
    FirstFeedback(g);
    Cancel(g, w, d);
  }

  lemma PairSplits(e: seq<bool>, a: nat, b: nat)
    requires IsPair(e, a, b)
    ensures e == Zeros(a) + [true] + Zeros(b - a - 1) + [true] + Zeros(|e| - b - 1)
  {
  }

  lemma FeedPair(g: seq<bool>, a: nat, d: nat)
    requires IsGenerator(g) && d >= 1
    ensures Feed(g, Zeros(|g| - 1), Zeros(a) + [true] + Zeros(d - 1) + [true]) == Xor(Power(g, |g| - 1 + d), g[1..])
  {
    hide Feed, Power, Clock;
    var w := |g| - 1;
    FeedConcat(g, Zeros(w), Zeros(a) + [true] + Zeros(d - 1), [true]);
    FeedConcat(g, Zeros(w), Zeros(a) + [true], Zeros(d - 1));
    FeedConcat(g, Zeros(w), Zeros(a), [true]);
    FeedZerosFromZero(g, w, a);
    FeedOne(g, Zeros(w), true);
    FirstFeedback(g);
    PowerAdd(g, w, d - 1);
    var r := Power(g, w + d - 1);
    FeedOne(g, r, true);
    ClockLinear(g, r, Zeros(w), false, true);
    XorZero(r);
    PowerThen(g, w + d);
  }

  lemma PowerThen(g: seq<bool>, n: nat)
    requires IsGenerator(g) && n >= 1
    ensures Power(g, n) == Turn(g, Power(g, n - 1)) == Clock(g, Power(g, n - 1), false)
  {
  }
}
