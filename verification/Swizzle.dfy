/**
 Address swizzling: XOR one field of a byte address into another. Words have `w` bits;
 `High(x, n)` and `Low(x, n)` are the quotient and remainder by two to the `n`.
 */
module Swizzles {
  import opened Arith
  import opened Bits

  datatype Swizzle = Swizzle(mask: nat, shift: nat, invertShift: bool, repeatsAfter: nat)

  function Max0(shift: int): nat { if shift > 0 then shift else 0 }
  function Abs(shift: int): nat { if shift < 0 then -shift else shift }

  /** The parameters for which no shift amount reaches the word size. */
  predicate Legal(bits: nat, base: nat, shift: int, w: nat) {
    base + Max0(shift) + bits < w && Abs(shift) < w
  }

  function New(bits: nat, base: nat, shift: int, w: nat): Swizzle
    requires Legal(bits, base, shift, w)
  {
    Swizzle(Low((Pow2(bits) - 1) * Pow2(base + Max0(shift)), w), Abs(shift), shift < 0,
            if bits > 0 then Pow2(base + bits + Max0(shift)) else Pow2(base))
  }

  /** `none()`: the swizzle that does nothing. */
  const NONE := Swizzle(0, 0, false, 1)

  function ShiftRight(value: nat, shift: nat, invert: bool, w: nat): nat {
    if invert then Low(value * Pow2(shift), w) else High(value, shift)
  }

  /** The swizzle of a byte address. */
  function Bytes(sw: Swizzle, x: nat, w: nat): nat {
    Xor(x, ShiftRight(And(x, sw.mask), sw.shift, sw.invertShift, w))
  }

  function Apply(sw: Swizzle, offset: nat, typeSize: nat, w: nat): nat
    requires typeSize > 0
  {
    if sw.mask == 0 then offset else Quot(Bytes(sw, Low(offset * typeSize, w), w), typeSize)
  }

  // ------------------------------------------------------------------ the two forms

  lemma MaskIsExact(bits: nat, base: nat, shift: int, w: nat)
    requires Legal(bits, base, shift, w)
    ensures New(bits, base, shift, w).mask == Join(Pow2(bits) - 1, 0, base + Max0(shift))
    ensures New(bits, base, shift, w).mask == 0 <==> bits == 0
  {
    var m, ones := base + Max0(shift), Pow2(bits) - 1;
    JoinBound(ones, 0, m, bits);
    Pow2Mono(bits + m, w);
    JoinUnique(0, Join(ones, 0, m), w);
    assert Join(0, Join(ones, 0, m), w) == Join(ones, 0, m);
    if bits > 0 { MulOrder(1, ones, Pow2(m)); }
  }

  lemma JoinZero(x: nat, n: nat)
    ensures Join(0, x, n) == x
  {
  }

  lemma AndLow(hi: nat, v: nat, b: nat)
    requires v < Pow2(b)
    ensures And(Join(hi, v, b), Pow2(b) - 1) == v
  {
    AndJoin(hi, v, 0, Pow2(b) - 1, b);
    AndOnes(v, b);
    JoinZero(Pow2(b) - 1, b);
    JoinZero(v, b);
    assert And(hi, 0) == 0;
  }

  /** Masking picks out a field and leaves it in place. */
  lemma AndField(hi: nat, v: nat, lo: nat, b: nat, m: nat)
    requires v < Pow2(b) && lo < Pow2(m)
    ensures And(Join(Join(hi, v, b), lo, m), Join(Pow2(b) - 1, 0, m)) == Join(v, 0, m)
  {
    AndJoin(Join(hi, v, b), lo, Pow2(b) - 1, 0, m);
    AndLow(hi, v, b);
    assert And(lo, 0) == 0;
  }

  /** Positive shift: the address is `u`, then `p` of `s` bits, then the atom's `q`. The low
      `b` bits of `u` are XORed into `p`. */
  lemma {:induction false} PositiveForm(u: nat, p: nat, q: nat, b: nat, m: nat, s: nat, w: nat)
    requires Legal(b, m, s, w) && b <= s && p < Pow2(s) && q < Pow2(m)
    ensures Bytes(New(b, m, s, w), Join(Join(u, p, s), q, m), w) == Join(Join(u, Xor(p, Low(u, b)), s), q, m)
  {
    var x, v := Join(Join(u, p, s), q, m), Low(u, b);
    var sw := New(b, m, s, w);
    MaskIsExact(b, m, s, w);
    Joined(u, b);
    JoinBound(p, q, m, s);
    JoinJoin(u, p, q, s, m);
    AndField(High(u, b), v, Join(p, q, m), b, m + s);
    assert And(x, sw.mask) == Join(v, 0, m + s) by { assert s + m == m + s; }
    JoinJoin(v, 0, 0, m, s);
    assert Join(0, 0, s) == 0;
    JoinUnique(Join(v, 0, m), 0, s);
    assert ShiftRight(And(x, sw.mask), s, false, w) == Join(v, 0, m);
    Pow2Mono(b, s);
    assert Join(0, v, s) == v;
    XorJoin(Join(u, p, s), q, Join(0, v, s), 0, m);
    XorJoin(u, p, 0, v, s);
    XorZero(u);
    XorZero(q);
  }

  /** What a left shift by `s` makes of the field, seen from the top of the field. */
  function Raised(v: nat, b: nat, m: nat, s: nat, w: nat): nat
    requires m + b <= w && b <= s
  {
    Low(v * Pow2(s - b), w - m - b)
  }

  lemma LowScale(a: nat, j: nat, k: nat)
    ensures Low(a * Pow2(k), j + k) == Low(a, j) * Pow2(k)
  {
    Joined(a, j);
    MulAdd(High(a, j) * Pow2(j), Low(a, j), Pow2(k));
    MulAssoc(High(a, j), Pow2(j), Pow2(k));
    Pow2Add(j, k);
    JoinBound(Low(a, j), 0, k, j);
    JoinUnique(High(a, j), Low(a, j) * Pow2(k), j + k);
  }

  /** Negative shift: the address is `u`, then the field `v`, then the atom's `q`. The field
      is moved up and XORed into `u`. */
  lemma {:induction false} NegativeForm(u: nat, v: nat, q: nat, b: nat, m: nat, s: int, w: nat)
    requires s > 0 && Legal(b, m, -s, w) && b <= s && v < Pow2(b) && q < Pow2(m)
    ensures Bytes(New(b, m, -s, w), Join(Join(u, v, b), q, m), w)
      == Join(Join(Xor(u, Raised(v, b, m, s, w)), v, b), q, m)
  {
    var x, z := Join(Join(u, v, b), q, m), Raised(v, b, m, s, w);
    var sw := New(b, m, -s, w);
    MaskIsExact(b, m, -s, w);
    AndField(u, v, q, b, m);
    NegativeShift(v, b, m, s, w);
    assert ShiftRight(And(x, sw.mask), s, true, w) == Join(Join(z, 0, b), 0, m);
    XorJoin(Join(u, v, b), q, Join(z, 0, b), 0, m);
    XorJoin(u, v, z, 0, b);
    XorZero(v);
    XorZero(q);
  }

  lemma {:induction false} NegativeShift(v: nat, b: nat, m: nat, s: nat, w: nat)
    requires m + b <= w && b <= s
    ensures Low(Join(v, 0, m) * Pow2(s), w) == Join(Join(Raised(v, b, m, s, w), 0, b), 0, m)
  {
    var a := v * Pow2(s - b);
    Pow2Add(s - b, b);
    Pow2Add(b, m);
    MulAssoc(v, Pow2(m), Pow2(s));
    MulAssoc(v, Pow2(s - b), Pow2(b));
    MulAssoc(a, Pow2(b), Pow2(m));
    LowScale(a, w - m - b, b + m);
    MulAssoc(Low(a, w - m - b), Pow2(b), Pow2(m));
  }

  // --------------------------------------------------------------------- consequences

  /** The fields of an address for either sign: `top`, `mid` of `n` bits, atom of `m` bits. */
  lemma {:induction false} Fields(x: nat, n: nat, m: nat) returns (top: nat, mid: nat, atom: nat)
    ensures mid < Pow2(n) && atom < Pow2(m) && x == Join(Join(top, mid, n), atom, m)
    ensures atom == Low(x, m) && top == High(High(x, m), n)
  {
    Joined(x, m);
    Joined(High(x, m), n);
    top, mid, atom := High(High(x, m), n), Low(High(x, m), n), Low(x, m);
  }

  /** Swizzling twice is doing nothing, whatever the sign of the shift. */
  lemma {:induction false} BytesInvolution(bits: nat, base: nat, shift: int, x: nat, w: nat)
    requires Legal(bits, base, shift, w) && bits <= Abs(shift)
    ensures Bytes(New(bits, base, shift, w), Bytes(New(bits, base, shift, w), x, w), w) == x
  {
    if shift >= 0 {
      var u, p, q := Fields(x, shift, base);
      var v := Low(u, bits);
      PositiveForm(u, p, q, bits, base, shift, w);
      Pow2Mono(bits, shift);
      XorBound(p, v, shift);
      PositiveForm(u, Xor(p, v), q, bits, base, shift, w);
      XorTwice(p, v);
    } else {
      var u, v, q := Fields(x, bits, base);
      NegativeForm(u, v, q, bits, base, -shift, w);
      NegativeForm(Xor(u, Raised(v, bits, base, -shift, w)), v, q, bits, base, -shift, w);
      XorTwice(u, Raised(v, bits, base, -shift, w));
    }
  }

  /** Atoms move as a whole: the position within an atom does not change. */
  lemma {:induction false} AtomsIntact(bits: nat, base: nat, shift: int, x: nat, w: nat)
    requires Legal(bits, base, shift, w) && bits <= Abs(shift)
    ensures Low(Bytes(New(bits, base, shift, w), x, w), base) == Low(x, base)
  {
    if shift >= 0 {
      var u, p, q := Fields(x, shift, base);
      PositiveForm(u, p, q, bits, base, shift, w);
      JoinUnique(Join(u, Xor(p, Low(u, bits)), shift), q, base);
    } else {
      var u, v, q := Fields(x, bits, base);
      NegativeForm(u, v, q, bits, base, -shift, w);
      JoinUnique(Join(Xor(u, Raised(v, bits, base, -shift, w)), v, bits), q, base);
    }
  }

  /** Addresses stay below the word size. */
  lemma {:induction false} BytesBound(bits: nat, base: nat, shift: int, x: nat, w: nat)
    requires Legal(bits, base, shift, w) && x < Pow2(w)
    ensures Bytes(New(bits, base, shift, w), x, w) < Pow2(w)
  {
    var sw := New(bits, base, shift, w);
    AndBound(x, sw.mask);
    ShiftBound(And(x, sw.mask), sw.shift, sw.invertShift, w);
    XorBound(x, ShiftRight(And(x, sw.mask), sw.shift, sw.invertShift, w), w);
  }

  lemma ShiftBound(y: nat, shift: nat, invert: bool, w: nat)
    requires y < Pow2(w)
    ensures ShiftRight(y, shift, invert, w) < Pow2(w)
  {
    if !invert {
      QuotSmaller(y, Pow2(shift));
    }
  }

  lemma {:induction false} QuotSmaller(x: nat, n: nat)
    requires n > 0
    ensures Quot(x, n) <= x
  {
    if x >= n { QuotSmaller(x - n, n); }
  }

  lemma {:induction false} AndBound(x: nat, y: nat)
    ensures And(x, y) <= x
  {
    if x > 0 && y > 0 { AndBound(x / 2, y / 2); }
  }

  /** Positive shift: an address stays in its block of `repeatsAfter` bytes, and moving to
      another block moves the result by as much. With the involution, each block is
      permuted, every block in the same way. */
  lemma {:induction false} BlocksPermuted(bits: nat, base: nat, shift: nat, x: nat, blocks: nat, w: nat)
    requires Legal(bits, base, shift, w) && 0 < bits <= shift
    ensures var sw := New(bits, base, shift, w);
            && Quot(Bytes(sw, x, w), sw.repeatsAfter) == Quot(x, sw.repeatsAfter)
            && Bytes(sw, x + blocks * sw.repeatsAfter, w) == Bytes(sw, x, w) + blocks * sw.repeatsAfter
  {
    var sw := New(bits, base, shift, w);
    var n := bits + (shift + base);
    assert sw.repeatsAfter == Pow2(n) by { assert base + bits + shift == n; }
    var u, p, q := Fields(x, shift, base);
    var v := Low(u, bits);
    Joined(u, bits);
    PositiveForm(u, p, q, bits, base, shift, w);
    Pow2Mono(bits, shift);
    XorBound(p, v, shift);
    Above(High(u, bits), v, p, q, bits, shift, base, blocks);
    Above(High(u, bits), v, Xor(p, v), q, bits, shift, base, blocks);
    JoinUnique(High(u, bits) + blocks, v, bits);
    PositiveForm(Join(High(u, bits) + blocks, v, bits), p, q, bits, base, shift, w);
  }

  /** The part of an address above its four fields counts blocks. */
  lemma {:induction false} Above(h: nat, v: nat, p: nat, q: nat, b: nat, s: nat, m: nat, blocks: nat)
    requires v < Pow2(b) && p < Pow2(s) && q < Pow2(m)
    ensures Quot(Join(Join(Join(h, v, b), p, s), q, m), Pow2(b + (s + m))) == h
    ensures Join(Join(Join(h, v, b), p, s), q, m) + blocks * Pow2(b + (s + m))
      == Join(Join(Join(h + blocks, v, b), p, s), q, m)
  {
    var n := s + m;
    var pq := Join(p, q, m);
    JoinBound(p, q, m, s);
    JoinJoin(Join(h, v, b), p, q, s, m);
    JoinJoin(h, v, pq, b, n);
    JoinJoin(Join(h + blocks, v, b), p, q, s, m);
    JoinJoin(h + blocks, v, pq, b, n);
    JoinBound(v, pq, n, b);
    JoinUnique(h, Join(v, pq, n), b + n);
    JoinAdd(h, blocks, Join(v, pq, n), b + n);
  }

  /** Negative shift: an address leaves its block exactly when the raised field is not zero,
      so blocks of `repeatsAfter` bytes are not permuted. */
  lemma {:induction false} NegativeLeavesBlock(bits: nat, base: nat, s: int, x: nat, w: nat)
    requires s > 0 && Legal(bits, base, -s, w) && 0 < bits <= s
    ensures var sw := New(bits, base, -s, w);
            Quot(Bytes(sw, x, w), sw.repeatsAfter) == Quot(x, sw.repeatsAfter) <==>
            Raised(Low(High(x, base), bits), bits, base, s, w) == 0
  {
    var sw := New(bits, base, -s, w);
    var u, v, q := Fields(x, bits, base);
    JoinUnique(u, v, bits);
    JoinUnique(Join(u, v, bits), q, base);
    var z := Raised(v, bits, base, s, w);
    NegativeForm(u, v, q, bits, base, s, w);
    AboveField(u, v, q, bits, base);
    AboveField(Xor(u, z), v, q, bits, base);
    XorChanges(u, z);
  }

  lemma {:induction false} AboveField(u: nat, v: nat, q: nat, b: nat, m: nat)
    requires v < Pow2(b) && q < Pow2(m)
    ensures Quot(Join(Join(u, v, b), q, m), Pow2(m + b)) == u
  {
    JoinJoin(u, v, q, b, m);
    JoinBound(v, q, m, b);
    JoinUnique(u, Join(v, q, m), b + m);
    assert b + m == m + b;
  }

  /** `bits` 1, `base` 4, `shift` -3: byte 16 of the first 32-byte block goes to byte 144. */
  lemma {:induction false} NegativeShiftExample()
    ensures var sw := New(1, 4, -3, 32);
            sw.repeatsAfter == 32 && Bytes(sw, 16, 32) == 144
  {
    SmallPowers();
    NegativeForm(0, 1, 0, 1, 4, 3, 32);
    RaisedExample();
    XorExample();
  }

  lemma XorExample()
    ensures Xor(0, 4) == 4
  {
    assert Xor(0, 1) == 1;
    assert Xor(0, 2) == 2;
  }

  lemma SmallPowers()
    ensures Pow2(1) == 2 && Pow2(2) == 4 && Pow2(3) == 8 && Pow2(4) == 16 && Pow2(5) == 32
  {
    assert Pow2(3) == 8;
  }

  lemma RaisedExample()
    ensures Raised(1, 1, 4, 3, 32) == 4
  {
    SmallPowers();
    Pow2Mono(3, 27);
    JoinUnique(0, 4, 27);
    assert Join(0, 4, 27) == 4;
  }

  // ----------------------------------------------------------------------- items

  /** Without bits to move, and with the no-op swizzle, every element stays where it is, also
      where its byte address would not fit the word. */
  lemma {:induction false} ApplyNothing(base: nat, shift: int, offset: nat, typeSize: nat, w: nat)
    requires Legal(0, base, shift, w) && typeSize > 0
    ensures Apply(New(0, base, shift, w), offset, typeSize, w) == offset && Apply(NONE, offset, typeSize, w) == offset
    ensures New(0, base, shift, w).repeatsAfter == Pow2(base) && NONE.repeatsAfter == 1
  {
    MaskIsExact(0, base, shift, w);
  }

  /** An offset whose byte address fits the word is scaled exactly, swizzled and scaled back
      without rounding: items no larger than an atom stay whole. */
  lemma {:induction false} ApplyExact(bits: nat, base: nat, shift: int, t: nat, offset: nat, w: nat)
    requires Legal(bits, base, shift, w) && 0 < bits <= Abs(shift) && t <= base
    ensures var sw := New(bits, base, shift, w);
            Apply(sw, offset, Pow2(t), w) * Pow2(t) == Bytes(sw, Low(offset, w - t) * Pow2(t), w)
  {
    var sw := New(bits, base, shift, w);
    MaskIsExact(bits, base, shift, w);
    LowScale(offset, w - t, t);
    var x := Low(offset, w - t) * Pow2(t);
    assert Low(offset * Pow2(t), w) == x by { assert (w - t) + t == w; }
    AtomsIntact(bits, base, shift, x, w);
    SameLowBits(Bytes(sw, x, w), x, t, base);
    JoinUnique(Low(offset, w - t), 0, t);
    Joined(Bytes(sw, x, w), t);
  }

  lemma SameLowBits(x: nat, y: nat, t: nat, m: nat)
    requires t <= m && Low(x, m) == Low(y, m)
    ensures Low(x, t) == Low(y, t)
  {
    LowOfLow(x, t, m);
    LowOfLow(y, t, m);
  }

  lemma LowOfLow(x: nat, t: nat, m: nat)
    requires t <= m
    ensures Low(Low(x, m), t) == Low(x, t)
  {
    var lo := Low(x, m);
    Joined(x, m);
    Joined(lo, t);
    JoinJoin(High(x, m), High(lo, t), Low(lo, t), m - t, t);
    JoinUnique(Join(High(x, m), High(lo, t), m - t), Low(lo, t), t);
  }

  /** `apply` undoes itself exactly on the offsets whose byte address fits the word, and
      everywhere if there are no bits to move. */
  lemma {:induction false} ApplyInvolution(bits: nat, base: nat, shift: int, t: nat, offset: nat, w: nat)
    requires Legal(bits, base, shift, w) && bits <= Abs(shift) && t <= base
    ensures var sw := New(bits, base, shift, w);
            Apply(sw, Apply(sw, offset, Pow2(t), w), Pow2(t), w) == offset <==>
            bits == 0 || offset * Pow2(t) < Pow2(w)
  {
    if bits == 0 { ApplyNothing(base, shift, offset, Pow2(t), w); }
    else { SwizzleInvolution(bits, base, shift, t, offset, w); }
  }

  lemma {:induction false} SwizzleInvolution(bits: nat, base: nat, shift: int, t: nat, offset: nat, w: nat)
    requires Legal(bits, base, shift, w) && 0 < bits <= Abs(shift) && t <= base
    ensures var sw := New(bits, base, shift, w);
            Apply(sw, Apply(sw, offset, Pow2(t), w), Pow2(t), w) == offset <==> offset * Pow2(t) < Pow2(w)
  {
    var sw := New(bits, base, shift, w);
    var first := Apply(sw, offset, Pow2(t), w);
    var lo := Low(offset, w - t);
    Pow2Add(w - t, t);
    ApplyExact(bits, base, shift, t, offset, w);
    MulLess(lo, Pow2(w - t), Pow2(t));
    BytesBound(bits, base, shift, lo * Pow2(t), w);
    MulOrder(Pow2(w - t), first, Pow2(t));
    JoinUnique(0, first, w - t);
    assert Join(0, first, w - t) == first;
    ApplyExact(bits, base, shift, t, first, w);
    BytesInvolution(bits, base, shift, lo * Pow2(t), w);
    MulCancel(Apply(sw, first, Pow2(t), w), lo, Pow2(t));
    Joined(offset, w - t);
    if offset * Pow2(t) < Pow2(w) {
      MulOrder(Pow2(w - t), offset, Pow2(t));
      JoinUnique(0, offset, w - t);
      assert Join(0, offset, w - t) == offset;
    } else {
      MulOrder(offset, lo, Pow2(t));
    }
  }
}
