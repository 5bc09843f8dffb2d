/** Integer facts the address and division arithmetic of the other modules rests on. */
module Arith {

  lemma MulMono(a: nat, b: nat, c: nat)
    requires a <= b
    ensures a * c <= b * c
  {
  }

  lemma MulStep(a: nat, b: nat, c: nat)
    requires a < b
    ensures a * c + c <= b * c
  {
    MulMono(a + 1, b, c);
    assert (a + 1) * c == a * c + c;
  }

  lemma MulOrder(a: nat, b: nat, c: nat)
    ensures a <= b ==> a * c <= b * c
    ensures a < b ==> a * c + c <= b * c
  {
    if a < b { MulStep(a, b, c); }
  }

  function Prod(a: nat, b: nat): nat { a * b }

  /** Integer division by repeated subtraction: the same number as `x / n`, kept apart
      so that proofs meet the division only through `QuotBounds`. */
  function Quot(x: nat, n: nat): nat
    requires n > 0
  {
    if x < n then 0 else 1 + Quot(x - n, n)
  }

  lemma {:induction false} QuotBounds(x: nat, n: nat)
    requires n > 0
    ensures Quot(x, n) * n <= x < Quot(x, n) * n + n
  {
    if x >= n {
      QuotBounds(x - n, n);
      MulAdd(Quot(x - n, n), 1, n);
    }
  }

  lemma QuotIsDiv(x: nat, n: nat)
    requires n > 0
    ensures Quot(x, n) == x / n
  {
    QuotBounds(x, n);
    DivBetween(x, n, Quot(x, n));
  }

  /** The remainder, by repeated subtraction too. */
  function Rem(x: nat, n: nat): (r: nat)
    requires n > 0
    ensures r < n
  {
    if x < n then x else Rem(x - n, n)
  }

  lemma {:induction false} RemIsMod(x: nat, n: nat)
    requires n > 0
    ensures Rem(x, n) == x - Quot(x, n) * n == x % n
  {
    RemRest(x, n);
    QuotBounds(x, n);
    DivModUnique(x, n, Quot(x, n), Rem(x, n));
  }

  lemma {:induction false} RemRest(x: nat, n: nat)
    requires n > 0
    ensures x == Quot(x, n) * n + Rem(x, n)
  {
    if x >= n {
      RemRest(x - n, n);
      MulAdd(Quot(x - n, n), 1, n);
    }
  }

  lemma MulAssoc(a: int, b: int, c: int)
    ensures (a * b) * c == a * (b * c) == (a * c) * b
  {
  }

  lemma MulAdd(a: int, b: int, c: int)
    ensures (a + b) * c == a * c + b * c
  {
  }

  lemma MulSub(a: int, b: int, c: int)
    ensures (a - b) * c == a * c - b * c
  {
  }

  lemma MulLess(a: nat, b: nat, c: nat)
    requires a < b && c > 0
    ensures a * c < b * c
  {
    MulStep(a, b, c);
  }

  /** Quotient and remainder are determined by the division identity. */
  lemma DivModUnique(x: nat, n: nat, q: nat, r: nat)
    requires n > 0 && x == q * n + r && r < n
    ensures x / n == q && x % n == r
  {
    var p, s := x / n, x % n;
    assert x == p * n + s;
    MulOrder(p, q, n);
    MulOrder(q, p, n);
  }

  lemma DivMod(x: nat, n: nat)
    requires n > 0
    ensures x == (x / n) * n + x % n && x % n < n
  {
  }

  /** `q` is the quotient as soon as `x` lies between its multiples. */
  lemma DivBetween(x: nat, n: nat, q: nat)
    requires n > 0 && q * n <= x < q * n + n
    ensures x / n == q
  {
    DivModUnique(x, n, q, x - q * n);
  }

  lemma MulDiv(q: nat, n: nat)
    requires n > 0
    ensures (q * n) / n == q && (q * n) % n == 0
  {
    DivModUnique(q * n, n, q, 0);
  }

  lemma MulCancel(a: nat, b: nat, c: nat)
    requires c > 0 && a * c == b * c
    ensures a == b
  {
    MulOrder(a, b, c);
    MulOrder(b, a, c);
  }

  lemma MultiplesAdd(x: nat, y: nat, n: nat)
    requires n > 0 && x % n == 0 && y % n == 0
    ensures (x + y) % n == 0
  {
    DivMod(x, n);
    DivMod(y, n);
    MulAdd(x / n, y / n, n);
    MulDiv(x / n + y / n, n);
  }

  function Pow2(n: nat): (r: nat)
    ensures r >= 1
  {
    if n == 0 then 1 else 2 * Pow2(n - 1)
  }

  lemma {:induction false} Pow2Add(a: nat, b: nat)
    ensures Pow2(a + b) == Pow2(a) * Pow2(b)
  {
    if b > 0 {
      Pow2Add(a, b - 1);
      assert Pow2(a) * (2 * Pow2(b - 1)) == 2 * (Pow2(a) * Pow2(b - 1));
    }
  }

  lemma {:induction false} Pow2Mono(a: nat, b: nat)
    requires a <= b
    ensures Pow2(a) <= Pow2(b)
  {
    if a < b { Pow2Mono(a, b - 1); }
  }
}
