/** Bitwise operations on naturals, and how they act on the high and low parts of a word. */
module Bits {
  import opened Arith

  function Xor(x: nat, y: nat): nat {
    if x == 0 && y == 0 then 0 else 2 * Xor(x / 2, y / 2) + if x % 2 == y % 2 then 0 else 1
  }

  function And(x: nat, y: nat): nat {
    if x == 0 || y == 0 then 0 else 2 * And(x / 2, y / 2) + if x % 2 == 1 && y % 2 == 1 then 1 else 0
  }

  lemma {:induction false} XorTwice(x: nat, y: nat)
    ensures Xor(Xor(x, y), y) == x
  {
    if x > 0 || y > 0 {
      XorTwice(x / 2, y / 2);
      assert Xor(x, y) / 2 == Xor(x / 2, y / 2);
    }
  }

  lemma {:induction false} XorZero(x: nat)
    ensures Xor(x, 0) == x
  {
    if x > 0 { XorZero(x / 2); }
  }

  /** Only zero changes nothing. */
  lemma {:induction false} XorChanges(x: nat, y: nat)
    ensures Xor(x, y) == x <==> y == 0
  {
    if y == 0 { XorZero(x); } else { XorChanges(x / 2, y / 2); }
  }

  lemma {:induction false} XorBound(x: nat, y: nat, n: nat)
    requires x < Pow2(n) && y < Pow2(n)
    ensures Xor(x, y) < Pow2(n)
  {
    if n > 0 { XorBound(x / 2, y / 2, n - 1); }
  }

  lemma {:induction false} AndOnes(y: nat, n: nat)
    requires y < Pow2(n)
    ensures And(y, Pow2(n) - 1) == y
  {
    if n > 0 {
      AndOnes(y / 2, n - 1);
      assert (Pow2(n) - 1) / 2 == Pow2(n - 1) - 1;
    }
  }

  /** A word given by its high part and its low `n` bits. */
  function Join(hi: nat, lo: nat, n: nat): nat { hi * Pow2(n) + lo }

  lemma JoinHalf(hi: nat, lo: nat, n: nat)
    requires n > 0
    ensures Join(hi, lo, n) / 2 == Join(hi, lo / 2, n - 1) && Join(hi, lo, n) % 2 == lo % 2
  {
    assert hi * (2 * Pow2(n - 1)) == 2 * (hi * Pow2(n - 1));
  }

  lemma {:induction false} XorJoin(a: nat, x: nat, b: nat, y: nat, n: nat)
    requires x < Pow2(n) && y < Pow2(n)
    ensures Xor(Join(a, x, n), Join(b, y, n)) == Join(Xor(a, b), Xor(x, y), n)
  {
    if n > 0 {
      XorJoin(a, x / 2, b, y / 2, n - 1);
      JoinHalf(a, x, n);
      JoinHalf(b, y, n);
      JoinHalf(Xor(a, b), Xor(x, y), n);
    }
  }

  lemma {:induction false} AndJoin(a: nat, x: nat, b: nat, y: nat, n: nat)
    requires x < Pow2(n) && y < Pow2(n)
    ensures And(Join(a, x, n), Join(b, y, n)) == Join(And(a, b), And(x, y), n)
  {
    if n > 0 {
      AndJoin(a, x / 2, b, y / 2, n - 1);
      JoinHalf(a, x, n);
      JoinHalf(b, y, n);
      JoinHalf(And(a, b), And(x, y), n);
    }
  }

  function High(x: nat, n: nat): nat { Quot(x, Pow2(n)) }
  function Low(x: nat, n: nat): (lo: nat)
    ensures lo < Pow2(n)
  {
    QuotBounds(x, Pow2(n));
    x - High(x, n) * Pow2(n)
  }

  /** High and low part are determined by the word. */
  lemma JoinUnique(hi: nat, lo: nat, n: nat)
    requires lo < Pow2(n)
    ensures High(Join(hi, lo, n), n) == hi && Low(Join(hi, lo, n), n) == lo
  {
    QuotBounds(Join(hi, lo, n), Pow2(n));
    QuotIsDiv(Join(hi, lo, n), Pow2(n));
    DivModUnique(Join(hi, lo, n), Pow2(n), hi, lo);
  }

  lemma Joined(x: nat, n: nat)
    ensures x == Join(High(x, n), Low(x, n), n)
  {
    QuotBounds(x, Pow2(n));
  }

  lemma JoinJoin(a: nat, b: nat, c: nat, n: nat, m: nat)
    ensures Join(Join(a, b, n), c, m) == Join(a, Join(b, c, m), n + m)
  {
    Pow2Add(n, m);
    MulAdd(a * Pow2(n), b, Pow2(m));
    MulAssoc(a, Pow2(n), Pow2(m));
  }

  lemma JoinBound(hi: nat, lo: nat, n: nat, m: nat)
    requires hi < Pow2(m) && lo < Pow2(n)
    ensures Join(hi, lo, n) < Pow2(m + n)
  {
    Pow2Add(m, n);
    MulStep(hi, Pow2(m), Pow2(n));
  }

  lemma JoinAdd(a: nat, b: nat, lo: nat, n: nat)
    ensures Join(a, lo, n) + b * Pow2(n) == Join(a + b, lo, n)
  {
    MulAdd(a, b, Pow2(n));
  }
}
