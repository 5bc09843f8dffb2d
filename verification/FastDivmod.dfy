/**
 Division by an invariant divisor with a multiply-high and a shift, for any word
 width `w` (the source has 32 and 64). All device arithmetic is modulo 2^w.
 */
module FastDivmod {
  import opened Arith

  datatype Divider =
    | Fast(divisor: nat, multiplier: nat, shift: nat)
    | Fallback(divisor: nat)

  /** `divisor.next_power_of_two().trailing_zeros()`. */
  function ShiftOf(d: nat): (s: nat)
    requires d > 0
    ensures d <= Pow2(s) && (s > 0 ==> Pow2(s - 1) < d)
  {
    if d == 1 then 0 else 1 + ShiftOf((d + 1) / 2)
  }

  /** The double-width value the host computes before casting it to `w` bits. */
  function WideMultiplier(w: nat, d: nat): nat
    requires d > 0
  {
    Quot(Prod(Pow2(w), Pow2(ShiftOf(d)) - d), d) + 1
  }

  /** `find_params_u32` and `find_params_u64`; a zero divisor gets dummy parameters. */
  function FindParams(w: nat, d: nat): Divider {
    if d == 0 then Fast(0, 0, 0) else Fast(d, WideMultiplier(w, d) % Pow2(w), ShiftOf(d))
  }

  function MulHi(w: nat, a: nat, b: nat): nat { Quot(Prod(a, b), Pow2(w)) }

  function Div(w: nat, f: Divider, n: nat): nat
    requires f.Fallback? ==> f.divisor > 0
  {
    match f
    case Fast(_, multiplier, shift) => ((MulHi(w, n, multiplier) + n) % Pow2(w)) / Pow2(shift)
    case Fallback(d) => n / d
  }

  function Modulo(w: nat, f: Divider, n: nat): int
    requires f.Fallback? ==> f.divisor > 0
  {
    match f
    case Fast(d, _, _) => (n - Div(w, f, n) * d) % Pow2(w)
    case Fallback(d) => n % d
  }

  function DivModOf(w: nat, f: Divider, n: nat): (nat, int)
    requires f.Fallback? ==> f.divisor > 0
  {
    (Div(w, f, n), (n - Div(w, f, n) * f.divisor) % Pow2(w))
  }

  /** Divisors whose next power of two is still a `w`-bit number. */
  predicate Divisor(w: nat, d: nat) { w > 0 && 1 <= d <= Pow2(w - 1) }

  lemma ShiftBelowWidth(w: nat, d: nat)
    requires Divisor(w, d)
    ensures ShiftOf(d) <= w - 1
    ensures Pow2(w) == Pow2(ShiftOf(d)) * Pow2(w - ShiftOf(d))
  {
    var s := ShiftOf(d);
    if s > w - 1 { Pow2Mono(w - 1, s - 1); }
    Pow2Add(s, w - s);
  }

  /** The multiplier's defining inequality: m·d exceeds 2^w·(2^s − d) by 1 to d. */
  lemma MultiplierError(w: nat, d: nat) returns (e: nat)
    requires d > 0
    ensures 1 <= e <= d
    ensures WideMultiplier(w, d) * d == Prod(Pow2(w), Pow2(ShiftOf(d)) - d) + e
  {
    var x := Prod(Pow2(w), Pow2(ShiftOf(d)) - d);
    var y := Quot(x, d);
    QuotBounds(x, d);
    e := y * d + d - x;
    MulAdd(y, 1, d);
  }

  /** The host computation fits in 2w bits and its result in w bits. */
  lemma ParametersFit(w: nat, d: nat)
    requires Divisor(w, d)
    ensures Prod(Pow2(w), Pow2(ShiftOf(d)) - d) < Pow2(2 * w)
    ensures 1 <= WideMultiplier(w, d) < Pow2(w)
    ensures FindParams(w, d).multiplier == WideMultiplier(w, d)
  {
    WideFits(w, d);
    var e := MultiplierError(w, d);
    ShiftIsTight(w, d);
    MultiplierBelow(Pow2(w), Pow2(ShiftOf(d)), d, WideMultiplier(w, d), e);
    DivModUnique(WideMultiplier(w, d), Pow2(w), 0, WideMultiplier(w, d));
  }

  lemma ShiftIsTight(w: nat, d: nat)
    requires Divisor(w, d)
    ensures Pow2(ShiftOf(d)) <= 2 * d - 1 && 2 * d <= Pow2(w)
  {
    if ShiftOf(d) > 0 { assert Pow2(ShiftOf(d)) == 2 * Pow2(ShiftOf(d) - 1); }
    assert Pow2(w) == 2 * Pow2(w - 1);
  }

  lemma WideFits(w: nat, d: nat)
    requires Divisor(w, d)
    ensures Prod(Pow2(w), Pow2(ShiftOf(d)) - d) < Pow2(2 * w)
  {
    ShiftFits(w, d);
    SquareAbove(w, Pow2(ShiftOf(d)), d);
  }

  lemma ShiftFits(w: nat, d: nat)
    requires Divisor(w, d)
    ensures Pow2(ShiftOf(d)) <= Pow2(w)
  {
    ShiftBelowWidth(w, d);
    Pow2Mono(ShiftOf(d), w);
  }

  lemma SquareAbove(w: nat, p: nat, d: nat)
    requires 0 < d <= p <= Pow2(w)
    ensures Prod(Pow2(w), p - d) < Pow2(2 * w)
  {
    Pow2Square(w);
    BelowSquare(Pow2(w), p, d);
  }

  lemma {:induction false} Pow2Square(w: nat)
    ensures Pow2(2 * w) == Prod(Pow2(w), Pow2(w))
  {
    if w > 0 {
      Pow2Square(w - 1);
      assert Pow2(2 * w) == 4 * Pow2(2 * (w - 1));
      SquareOfDouble(Pow2(w - 1));
    }
  }

  lemma SquareOfDouble(a: nat)
    ensures Prod(2 * a, 2 * a) == 4 * Prod(a, a)
  {
  }

  lemma BelowSquare(N: nat, p: nat, d: nat)
    requires 0 < d <= p <= N
    ensures Prod(N, p - d) < Prod(N, N)
  {
    MulLess(p - d, N, N);
  }

  lemma MultiplierBelow(n: nat, p: nat, d: nat, m: nat, e: nat)
    requires 1 <= e <= d <= p <= 2 * d - 1 && 2 * d <= n && m * d == Prod(n, p - d) + e
    ensures 1 <= m < n
  {
    assert n * (p - d) <= d * n - n by { MulMono(p - d, d - 1, n); MulSub(d, 1, n); }
    MulOrder(n, m, d);
  }

  /** Before the sum is truncated to w bits, shifting it gives the true quotient. */
  lemma WideQuotient(w: nat, d: nat, n: nat)
    requires Divisor(w, d) && n < Pow2(w)
    ensures (MulHi(w, n, WideMultiplier(w, d)) + n) / Pow2(ShiftOf(d)) == n / d
  {
    var e := MultiplierError(w, d);
    QuotBounds(n, d);
    QuotientCore(n, d, Pow2(w), Pow2(ShiftOf(d)), WideMultiplier(w, d), e, Quot(n, d));
    QuotIsDiv(n, d);
  }

  lemma QuotientCore(n: nat, d: nat, N: nat, p: nat, m: nat, e: nat, q: nat)
    requires 1 <= e <= d <= p && n < N && q * d <= n < q * d + d && m * d == Prod(N, p - d) + e
    ensures (Quot(Prod(n, m), N) + n) / p == q
  {
    var K, total := N * p, n * m + n * N;
    TotalTimesDivisor(n, d, N, p, m, e);
    assert 0 <= n * e < K by { MulMono(e, p, n); MulLess(n, N, p); }
    LowerBound(n, d, K, n * e, q, total);
    UpperBound(n, d, K, n * e, q, total);
    NestedDiv(n * m, n, N, p, q, total);
  }

  lemma TotalTimesDivisor(n: nat, d: nat, N: nat, p: nat, m: nat, e: nat)
    requires m * d == N * (p - d) + e
    ensures (n * m + n * N) * d == n * (N * p) + n * e
  {
    assert (m + N) * d == N * p + e by { MulAdd(m, N, d); MulSub(p, d, N); }
    assert (n * m + n * N) * d == n * ((m + N) * d) by { MulAdd(m, N, n); MulAssoc(n, m + N, d); }
    assert n * (N * p + e) == n * (N * p) + n * e by { MulAdd(N * p, e, n); }
  }

  lemma LowerBound(n: nat, d: nat, K: nat, err: nat, q: nat, total: nat)
    requires d > 0 && q * d <= n && total * d == n * K + err
    ensures q * K <= total
  {
    MulMono(q * d, n, K);
    MulAssoc(q, d, K);
    MulOrder(total, q * K, d);
  }

  lemma UpperBound(n: nat, d: nat, K: nat, err: nat, q: nat, total: nat)
    requires d > 0 && n < q * d + d && total * d == n * K + err && err < K
    ensures total < q * K + K
  {
    MulStep(n, q * d + d, K);
    MulAdd(q * d, d, K);
    MulAdd(q * K, K, d);
    MulAssoc(q, d, K);
    MulOrder(q * K + K, total, d);
  }

  /** Dividing by N, adding n and dividing by p is one division by N·p. */
  lemma NestedDiv(a: nat, n: nat, N: nat, p: nat, q: nat, total: nat)
    requires N > 0 && p > 0 && total == a + n * N && q * (N * p) <= total < q * (N * p) + N * p
    ensures (Quot(a, N) + n) / p == q
  {
    QuotBounds(a, N);
    var s := Quot(a, N) + n;
    MulAdd(Quot(a, N), n, N);
    MulAssoc(q, N, p);
    MulAdd(q * p, p, N);
    MulOrder(s, q * p, N);
    MulOrder(q * p + p, s, N);
    DivBetween(s, p, q);
  }

  /** Dividends the device computes correctly: those below `d` times 2^(w − s). Every
      dividend below 2^(w−1) qualifies, and every dividend does when `d` is a power of two. */
  predicate InRange(w: nat, d: nat, n: nat)
    requires Divisor(w, d)
  {
    ShiftBelowWidth(w, d);
    n < Prod(d, Pow2(w - ShiftOf(d)))
  }

  /** The exact reach of the fast path: for every dividend the truncated sum gives the true
      quotient if and only if the dividend is in range; out of range it is short by 2^(w−s). */
  lemma FastDivExact(w: nat, d: nat, n: nat)
    requires Divisor(w, d) && n < Pow2(w)
    ensures ShiftOf(d) < w
    ensures InRange(w, d, n) <==> MulHi(w, n, FindParams(w, d).multiplier) + n < Pow2(w)
    ensures InRange(w, d, n) ==> Div(w, FindParams(w, d), n) == n / d
    ensures !InRange(w, d, n) ==> Div(w, FindParams(w, d), n) == n / d - Pow2(w - ShiftOf(d))
  {
    ShiftBelowWidth(w, d);
    ParametersFit(w, d);
    WideQuotient(w, d, n);
    ExactCore(n, d, Pow2(w), Pow2(ShiftOf(d)), Pow2(w - ShiftOf(d)), WideMultiplier(w, d));
  }

  lemma ExactCore(n: nat, d: nat, N: nat, p: nat, c: nat, m: nat)
    requires d > 0 && p > 0 && c > 0 && N == p * c && m < N && n < N
    requires (Quot(Prod(n, m), N) + n) / p == n / d
    ensures n < Prod(d, c) <==> Quot(Prod(n, m), N) + n < N
    ensures ((Quot(Prod(n, m), N) + n) % N) / p == if n < Prod(d, c) then n / d else n / d - c
  {
    HighHalfBelow(n, m, N);
    TruncatedSum(n, d, p, c, Quot(Prod(n, m), N));
  }

  lemma TruncatedSum(n: nat, d: nat, p: nat, c: nat, t: nat)
    requires d > 0 && p > 0 && c > 0 && t <= n < p * c && (t + n) / p == n / d
    ensures n < Prod(d, c) <==> t + n < p * c
    ensures ((t + n) % (p * c)) / p == if n < Prod(d, c) then n / d else n / d - c
  {
    RangeByQuotient(n, d, c);
    WrapShift(t + n, p, c, n / d);
  }

  lemma HighHalfBelow(n: nat, m: nat, N: nat)
    requires N > 0 && m < N
    ensures Quot(Prod(n, m), N) <= n
  {
    QuotBounds(n * m, N);
    MulMono(m, N, n);
    MulOrder(n + 1, Quot(n * m, N), N);
    MulAdd(n, 1, N);
  }

  lemma RangeByQuotient(n: nat, d: nat, c: nat)
    requires d > 0
    ensures n < Prod(d, c) <==> n / d < c
  {
    DivMod(n, d);
    MulOrder(n / d, c, d);
    MulOrder(c, n / d, d);
  }

  /** Truncating to p·c before dividing by p loses exactly c when it loses anything. */
  lemma WrapShift(s: nat, p: nat, c: nat, q: nat)
    requires p > 0 && c > 0 && s < 2 * (p * c) && s / p == q
    ensures s < p * c <==> q < c
    ensures (s % (p * c)) / p == if q < c then q else q - c
  {
    var N := p * c;
    DivMod(s, p);
    MulOrder(q, c, p);
    MulOrder(c, q, p);
    if s < N {
      DivModUnique(s, N, 0, s);
    } else {
      DivModUnique(s, N, 1, s - N);
      MulSub(q, c, p);
      DivBetween(s - N, p, q - c);
    }
  }

  lemma SmallDividendInRange(w: nat, d: nat, n: nat)
    requires Divisor(w, d) && n < Pow2(w - 1)
    ensures InRange(w, d, n)
  {
    ParametersFit(w, d);
    HighHalfBelow(n, WideMultiplier(w, d), Pow2(w));
    assert Pow2(w) == 2 * Pow2(w - 1);
    FastDivExact(w, d, n);
  }

  lemma PowerOfTwoInRange(w: nat, d: nat, n: nat)
    requires Divisor(w, d) && d == Pow2(ShiftOf(d)) && n < Pow2(w)
    ensures InRange(w, d, n)
  {
    ShiftBelowWidth(w, d);
  }

  /** In range, all three device operations are the true quotient and remainder. */
  lemma FastDivmodCorrect(w: nat, d: nat, n: nat)
    requires Divisor(w, d) && n < Pow2(w) && InRange(w, d, n)
    ensures Div(w, FindParams(w, d), n) == n / d
    ensures Modulo(w, FindParams(w, d), n) == n % d
    ensures DivModOf(w, FindParams(w, d), n) == (n / d, n % d)
  {
    FastDivExact(w, d, n);
    RemainderOf(w, FindParams(w, d), n);
  }

  /** A right quotient makes the remainder right. */
  lemma RemainderOf(w: nat, f: Divider, n: nat)
    requires f.Fast? && Divisor(w, f.divisor) && Div(w, f, n) == n / f.divisor
    ensures Modulo(w, f, n) == n % f.divisor
    ensures DivModOf(w, f, n) == (n / f.divisor, n % f.divisor)
  {
    Pow2Mono(w - 1, w);
    RemainderCore(n, f.divisor, Pow2(w), Div(w, f, n));
  }

  lemma RemainderCore(n: nat, d: nat, N: nat, q: nat)
    requires 0 < d <= N && q == n / d
    ensures (n - q * d) % N == n % d
  {
    DivMod(n, d);
    SmallMod(n % d, N);
  }

  lemma SmallMod(r: nat, N: nat)
    requires r < N
    ensures r % N == r
  {
    DivModUnique(r, N, 0, r);
  }

  /** The fallback is always exact. */
  lemma FallbackCorrect(w: nat, d: nat, n: nat)
    requires d > 0 && n < Pow2(w)
    ensures Div(w, Fallback(d), n) == n / d
    ensures Modulo(w, Fallback(d), n) == n % d
    ensures DivModOf(w, Fallback(d), n) == (n / d, n % d)
  {
    assert n - (n / d) * d == n % d by { DivMod(n, d); }
    assert n % d <= n by { DivMod(n, d); MulOrder(0, n / d, d); }
    SmallMod(n % d, Pow2(w));
  }

  /** A zero divisor, of a tensor without elements, gets dummy parameters instead of a panic;
      with them every number is its own quotient and its own remainder. */
  lemma ZeroDivisor(w: nat, n: nat)
    requires n < Pow2(w)
    ensures FindParams(w, 0).Fast? && FindParams(w, 0).multiplier == 0
    ensures Div(w, FindParams(w, 0), n) == n && Modulo(w, FindParams(w, 0), n) == n
  {
    DivByDummy(w, n);
    ModuloByDummy(w, n);
  }

  lemma DivByDummy(w: nat, n: nat)
    requires n < Pow2(w)
    ensures Div(w, Fast(0, 0, 0), n) == n
  {
    assert Prod(n, 0) == 0 && MulHi(w, n, 0) == 0 && Pow2(0) == 1;
    SmallMod(n, Pow2(w));
  }

  lemma ModuloByDummy(w: nat, n: nat)
    requires n < Pow2(w)
    ensures Modulo(w, Fast(0, 0, 0), n) == n
  {
    TimesZero(Div(w, Fast(0, 0, 0), n));
    SmallMod(n, Pow2(w));
  }

  lemma TimesZero(x: int)
    ensures x * 0 == 0
  {
  }

  /** Out of range is reachable: 2^32 − 1 divided by 3 on 32 bits. */
  lemma LargeDividendFails()
    ensures Divisor(32, 3) && 0xFFFF_FFFF < Pow2(32)
    ensures Div(32, FindParams(32, 3), 0xFFFF_FFFF) != 0xFFFF_FFFF / 3
  {
    Powers();
    assert ShiftOf(3) == 2 by { assert ShiftOf(2) == 1; }
    FastDivExact(32, 3, 0xFFFF_FFFF);
  }

  lemma Powers()
    ensures Pow2(2) == 4 && Pow2(30) == 0x4000_0000 && Pow2(31) == 0x8000_0000 && Pow2(32) == 0x1_0000_0000
  {
    assert Pow2(8) == 256;
    Pow2Add(8, 8);
    Pow2Add(16, 8);
    Pow2Add(24, 6);
  }
}
