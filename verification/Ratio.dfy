/** Exact ratios of machine integers, reduced to lowest terms on construction. */
module Ratios {
  import opened Options
  import opened Arith

  function Gcd(a: nat, b: nat): nat
    decreases b
  {
    if b == 0 then a else Gcd(b, a % b)
  }

  /** The loop; `a` and `b` are overwritten until the remainder is zero. The result divides
      both, and every common divisor divides it. */
  method GcdLoop(x: nat, y: nat) returns (r: nat)
    ensures r == Gcd(x, y)
    ensures x > 0 || y > 0 ==> r > 0 && x % r == 0 && y % r == 0
    ensures forall k: nat | k > 0 && x % k == 0 && y % k == 0 :: r % k == 0
  {
    var a: nat, b: nat := x, y;
    while b != 0
      invariant Gcd(a, b) == Gcd(x, y)
      decreases b
    {
      a, b := b, a % b;
    }
    if x > 0 || y > 0 { GcdDivides(x, y); }
    forall k: nat | k > 0 && x % k == 0 && y % k == 0 ensures a % k == 0 { GcdGreatest(x, y, k); }
    r := a;
  }

  function Quotient(x: nat, n: nat): nat
    requires n > 0
  {
    assert x / n >= 0 by { DivMod(x, n); if x / n < 0 { MulSub(0, x / n, n); MulOrder(1, -(x / n), n); } }
    x / n
  }

  lemma MultipleOf(x: nat, k: nat) returns (q: nat)
    requires k > 0 && x % k == 0
    ensures x == q * k
  {
    DivMod(x, k);
    q := Quotient(x, k);
  }

  /** A divisor of divisor and remainder divides the dividend, and the other way round. */
  lemma DividesDividend(a: nat, b: nat, k: nat)
    requires b > 0 && k > 0 && b % k == 0
    ensures a % k == 0 <==> (a % b) % k == 0
  {
    DivMod(a, b);
    var q := MultipleOf(b, k);
    MulAssoc(a / b, q, k);
    DividesSum((a / b) * q, a % b, k);
  }

  lemma DividesSum(m: nat, r: nat, k: nat)
    requires k > 0
    ensures (m * k + r) % k == 0 <==> r % k == 0
  {
    if r % k == 0 {
      var p := MultipleOf(r, k);
      MulAdd(m, p, k);
      MulDiv(m + p, k);
    }
    if (m * k + r) % k == 0 {
      var p := MultipleOf(m * k + r, k);
      MulSub(p, m, k);
      if p < m { MulStep(p, m, k); }
      MulDiv(p - m, k);
    }
  }

  lemma {:induction false} GcdDivides(a: nat, b: nat)
    requires a > 0 || b > 0
    ensures Gcd(a, b) > 0 && a % Gcd(a, b) == 0 && b % Gcd(a, b) == 0
    decreases b
  {
    if b > 0 {
      GcdDivides(b, a % b);
      DividesDividend(a, b, Gcd(a, b));
    } else {
      MulDiv(1, a);
      assert 1 * a == a;
    }
  }

  lemma {:induction false} GcdGreatest(a: nat, b: nat, k: nat)
    requires k > 0 && a % k == 0 && b % k == 0
    ensures Gcd(a, b) % k == 0
    decreases b
  {
    if b > 0 {
      DividesDividend(a, b, k);
      GcdGreatest(b, a % b, k);
    }
  }

  /** The greatest common divisor is an integer combination of the two numbers. */
  lemma {:induction false} Bezout(a: nat, b: nat) returns (x: int, y: int)
    ensures a * x + b * y == Gcd(a, b)
    decreases b
  {
    if b == 0 {
      x, y := 1, 0;
    } else {
      var u, v := Bezout(b, a % b);
      DivMod(a, b);
      x, y := v, u - (a / b) * v;
      Combine(a / b, b, a % b, u, v);
    }
  }

  lemma Combine(q: int, b: int, r: int, u: int, v: int)
    ensures (q * b + r) * v + b * (u - q * v) == b * u + r * v
  {
    MulAdd(q * b, r, v);
    MulAssoc(q, b, v);
    MulSub(u, q * v, b);
  }

  // ----------------------------------------------------------------------- ratios

  datatype Ratio = Ratio(numerator: int, denominator: nat)

  function Abs(n: int): nat { if n < 0 then -n else n }

  /** Reinterpret an unsigned word as signed; `half` is the magnitude of the least signed
      integer, so words are below `2 * half`. */
  function AsSigned(x: nat, half: nat): int { if x < half then x else x - 2 * half }

  function WrappingNeg(x: int, half: nat): int { if x + half == 0 then x else -x }

  /** No result stands for the panic on a zero denominator. */
  function New(numerator: int, denominator: nat, half: nat): Option<Ratio> {
    if denominator == 0 then None
    else
      GcdDivides(Abs(numerator), denominator);
      var divisor := Gcd(Abs(numerator), denominator);
      var magnitude := AsSigned(Quotient(Abs(numerator), divisor), half);
      Some(Ratio(if numerator < 0 then WrappingNeg(magnitude, half) else magnitude, Quotient(denominator, divisor)))
  }

  predicate Signed(n: int, half: nat) { 0 <= n + half && n < half }

  /** What the two parts are: quotients by the divisor with the sign of the numerator. The
      reinterpretation and the wrapping negation cancel for the least integer. */
  lemma {:induction false} Parts(n: int, d: nat, half: nat) returns (g: nat, m: int)
    requires Signed(n, half) && d > 0
    ensures g == Gcd(Abs(n), d) > 0 && m >= 0 && Abs(n) == m * g
    ensures New(n, d, half).Some?
    ensures New(n, d, half).value.numerator == if n < 0 then -m else m
    ensures d == New(n, d, half).value.denominator * g && New(n, d, half).value.denominator > 0
  {
    GcdDivides(Abs(n), d);
    g := Gcd(Abs(n), d);
    DivMod(Abs(n), g);
    DivMod(d, g);
    m := Quotient(Abs(n), g);
    MulOrder(1, g, m);
    assert m <= Abs(n) by { assert m * g >= m * 1; }
  }

  /** The value is kept exactly, for every numerator, and the parts fit their types. */
  lemma {:induction false} ValuePreserved(n: int, d: nat, half: nat)
    requires Signed(n, half) && 0 < d < 2 * half
    ensures New(n, d, half).Some?
    ensures var r := New(n, d, half).value;
            && r.numerator * d == n * r.denominator
            && Signed(r.numerator, half) && 0 < r.denominator < 2 * half
  {
    var g, m := Parts(n, d, half);
    var r := New(n, d, half).value;
    MulAssoc(r.numerator, r.denominator, g);
    MulAssoc(r.numerator, g, r.denominator);
    assert n == r.numerator * g by { if n < 0 { MulSub(0, m, g); } }
    MulOrder(1, g, r.denominator);
    MulOrder(1, g, m);
    assert r.denominator <= d by { assert r.denominator * g >= r.denominator * 1; }
    assert m <= Abs(n) by { assert m * g >= m * 1; }
  }

  /** The parts have an integer combination equal to one. */
  lemma {:induction false} PartsBezout(n: int, d: nat, half: nat) returns (x: int, y: int)
    requires Signed(n, half) && d > 0
    ensures New(n, d, half).Some?
    ensures Abs(New(n, d, half).value.numerator) * x + New(n, d, half).value.denominator * y == 1
  {
    var g, m := Parts(n, d, half);
    x, y := Bezout(Abs(n), d);
    CancelCombination(m, New(n, d, half).value.denominator, g, x, y);
  }

  lemma CancelCombination(m: nat, q: nat, g: nat, x: int, y: int)
    requires g > 0 && (m * g) * x + (q * g) * y == g
    ensures m * x + q * y == 1
  {
    var t := m * x + q * y;
    MulAssoc(m, g, x);
    MulAssoc(q, g, y);
    MulAdd(m * x, q * y, g);
    assert t * g == g;
    if t > 1 { MulStep(1, t, g); }
    if t < 1 { MulOrder(0, 1 - t, g); MulSub(1, t, g); }
  }

  /** No number above one divides both parts. */
  lemma {:induction false} LowestTerms(n: int, d: nat, half: nat, k: nat)
    requires Signed(n, half) && d > 0 && k > 0
    requires New(n, d, half).Some?
    requires Abs(New(n, d, half).value.numerator) % k == 0 && New(n, d, half).value.denominator % k == 0
    ensures k == 1
  {
    var r := New(n, d, half).value;
    var x, y := PartsBezout(n, d, half);
    var a := MultipleOf(Abs(r.numerator), k);
    var b := MultipleOf(r.denominator, k);
    MulAssoc(a, k, x);
    MulAssoc(b, k, y);
    MulAdd(a * x, b * y, k);
    UnitFactor(a * x + b * y, k);
  }

  lemma UnitFactor(t: int, k: nat)
    requires t * k == 1
    ensures k == 1
  {
    if k > 1 {
      if t >= 1 { MulOrder(1, t, k); } else { MulOrder(0, -t, k); MulSub(0, t, k); }
    }
  }

  /** If `p / q` is in lowest terms and equals `r / s`, then `q` divides `s`. */
  lemma LowestDenominator(p: int, q: nat, r: int, s: nat, x: int, y: int) returns (t: int)
    requires Abs(p) * x + q * y == 1 && p * s == r * q
    ensures s == t * q
  {
    var z := if p < 0 then -x else x;
    assert p * z == Abs(p) * x by { if p < 0 { NegBoth(p, x); } }
    t := r * z + y * s;
    Scaled(p, q, r, s, z, y);
  }

  lemma NegBoth(p: int, x: int)
    ensures p * (-x) == (-p) * x
  {
    MulSub(0, p, x);
    MulSub(0, x, p);
  }

  lemma Scaled(p: int, q: int, r: int, s: int, z: int, y: int)
    requires p * z + q * y == 1 && p * s == r * q
    ensures s == (r * z + y * s) * q
  {
    MulAdd(p * z, q * y, s);
    MulAssoc(p, s, z);
    MulAssoc(r, q, z);
    MulAssoc(q, y, s);
    MulAssoc(y, s, q);
    MulAdd(r * z, y * s, q);
  }

  lemma MutualFactors(q: nat, s: nat, t: int, u: int)
    requires q > 0 && s > 0 && s == t * q && q == u * s
    ensures q == s
  {
    if t <= 0 { MulOrder(0, -t, q); MulSub(0, t, q); }
    if u <= 0 { MulOrder(0, -u, s); MulSub(0, u, s); }
    MulOrder(1, t, q);
    MulOrder(1, u, s);
  }

  lemma CrossTransfer(a: int, b: nat, c: int, d: nat, p: int, q: nat, r: int, s: nat)
    requires b > 0 && d > 0 && q > 0 && s > 0
    requires p * b == a * q && r * d == c * s
    ensures a * d == c * b <==> p * s == r * q
  {
    // (a d) (q s) = (a q) (d s) = (p b) (d s) = (p s) (b d), and likewise for c b
    Swap(a, d, q, s);
    Swap(p, b, s, d);
    Swap(c, b, s, q);
    Swap(r, d, q, b);
    MulAssoc(b, d, 1);
    CancelEqual(a * d, c * b, q * s);
    CancelEqual(p * s, r * q, b * d);
    assert s * q == q * s && d * b == b * d && s * d == d * s && q * b == b * q;
    MulLess(0, q, s);
    MulLess(0, b, d);
  }

  lemma Swap(a: int, d: int, q: int, s: int)
    ensures (a * d) * (q * s) == (a * q) * (d * s)
  {
    MulAssoc(a, d, q * s);
    MulAssoc(d, q, s);
    MulAssoc(a, q, d * s);
    MulAssoc(q, d, s);
    assert d * q == q * d;
    assert d * (q * s) == q * (d * s);
  }

  lemma CancelEqual(x: int, y: int, k: nat)
    ensures k > 0 ==> (x == y <==> x * k == y * k)
  {
    if k > 0 && x * k == y * k {
      MulSub(x, y, k);
      if x > y { MulLess(0, x - y, k); }
      if x < y { MulSub(y, x, k); MulLess(0, y - x, k); }
    }
  }

  /** Two ratios are the same datum exactly when they denote the same fraction. */
  lemma {:induction false} Canonical(a: int, b: nat, c: int, d: nat, half: nat)
    requires Signed(a, half) && Signed(c, half) && 0 < b < 2 * half && 0 < d < 2 * half
    ensures New(a, b, half) == New(c, d, half) <==> a * d == c * b
  {
    ValuePreserved(a, b, half);
    ValuePreserved(c, d, half);
    var v, w := New(a, b, half).value, New(c, d, half).value;
    CrossTransfer(a, b, c, d, v.numerator, v.denominator, w.numerator, w.denominator);
    if v.numerator * w.denominator == w.numerator * v.denominator {
      var x, y := PartsBezout(a, b, half);
      var z, u := PartsBezout(c, d, half);
      var s := LowestDenominator(v.numerator, v.denominator, w.numerator, w.denominator, x, y);
      var t := LowestDenominator(w.numerator, w.denominator, v.numerator, v.denominator, z, u);
      MutualFactors(v.denominator, w.denominator, s, t);
      CancelEqual(v.numerator, w.numerator, v.denominator);
    }
  }
}
