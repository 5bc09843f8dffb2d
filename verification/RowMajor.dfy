/** Indices, strides and row-major order: what `shape` and `strides` vectors mean. */
module RowMajor {
  import opened Arith

  function Product(shape: seq<nat>): nat {
    if shape == [] then 1 else Product(shape[..|shape| - 1]) * shape[|shape| - 1]
  }

  /** `idx` is a coordinate of a tensor of this shape. */
  predicate InShape(shape: seq<nat>, idx: seq<nat>) {
    |idx| == |shape| && forall i | 0 <= i < |shape| :: idx[i] < shape[i]
  }

  /** The position the strides send a coordinate to. */
  function Dot(strides: seq<nat>, idx: seq<nat>): nat
    requires |strides| == |idx|
  {
    if idx == [] then 0
    else Dot(strides[..|idx| - 1], idx[..|idx| - 1]) + idx[|idx| - 1] * strides[|idx| - 1]
  }

  /** The rank of a coordinate in row-major order. */
  function Flat(shape: seq<nat>, idx: seq<nat>): nat
    requires |shape| == |idx|
  {
    if idx == [] then 0
    else Flat(shape[..|idx| - 1], idx[..|idx| - 1]) * shape[|idx| - 1] + idx[|idx| - 1]
  }

  /** The coordinate of a given rank. */
  function Unflat(shape: seq<nat>, x: nat): (idx: seq<nat>)
    ensures |idx| == |shape|
  {
    if shape == [] then []
    else
      var w := shape[|shape| - 1];
      if w == 0 then seq(|shape|, _ => 0)
      else Unflat(shape[..|shape| - 1], x / w) + [x % w]
  }

  lemma {:induction false} FlatBound(shape: seq<nat>, idx: seq<nat>)
    requires InShape(shape, idx)
    ensures Flat(shape, idx) < Product(shape)
  {
    if shape != [] {
      var m := |shape| - 1;
      FlatBound(shape[..m], idx[..m]);
      MulStep(Flat(shape[..m], idx[..m]), Product(shape[..m]), shape[m]);
    }
  }

  lemma {:induction false} FlatInjective(shape: seq<nat>, a: seq<nat>, b: seq<nat>)
    requires InShape(shape, a) && InShape(shape, b) && Flat(shape, a) == Flat(shape, b)
    ensures a == b
  {
    if shape != [] {
      var m := |shape| - 1;
      DivModUnique(Flat(shape, a), shape[m], Flat(shape[..m], a[..m]), a[m]);
      DivModUnique(Flat(shape, b), shape[m], Flat(shape[..m], b[..m]), b[m]);
      FlatInjective(shape[..m], a[..m], b[..m]);
      assert a == a[..m] + [a[m]] && b == b[..m] + [b[m]];
    }
  }

  lemma {:induction false} FlatSurjective(shape: seq<nat>, x: nat)
    requires x < Product(shape)
    ensures InShape(shape, Unflat(shape, x)) && Flat(shape, Unflat(shape, x)) == x
  {
    if shape != [] {
      var m := |shape| - 1;
      var w := shape[m];
      DivMod(x, w);
      MulOrder(Product(shape[..m]), x / w, w);
      FlatSurjective(shape[..m], x / w);
      assert Unflat(shape, x)[..m] == Unflat(shape[..m], x / w);
    }
  }

  /** Each stride but the last is the next one times the extent it steps over. */
  predicate Chained(shape: seq<nat>, strides: seq<nat>) {
    |strides| == |shape| && forall i | 0 <= i < |shape| - 1 :: strides[i] == strides[i + 1] * shape[i + 1]
  }

  /** Chained strides are row-major order scaled by the last stride. */
  lemma {:induction false} ChainedIsFlat(shape: seq<nat>, strides: seq<nat>, idx: seq<nat>)
    requires Chained(shape, strides) && |idx| == |shape| > 0
    ensures Dot(strides, idx) == Flat(shape, idx) * strides[|shape| - 1]
  {
    var m := |shape| - 1;
    var q := strides[m];
    if m > 0 {
      ChainedIsFlat(shape[..m], strides[..m], idx[..m]);
      var f := Flat(shape[..m], idx[..m]);
      ScaleStep(f, shape[m], idx[m], q);
    }
  }

  lemma ScaleStep(f: nat, w: nat, i: nat, q: nat)
    ensures f * (q * w) + i * q == (f * w + i) * q
  {
    MulAssoc(f, w, q);
    MulAdd(f * w, i, q);
    assert q * w == w * q;
  }

  /** The layout of a pitched allocation: unit stride along rows, rows `pitch` apart, the
      leading dimensions chained above them. A rank-1 tensor is one row. */
  predicate Pitched(shape: seq<nat>, strides: seq<nat>, pitch: nat) {
    && |strides| == |shape|
    && (|shape| > 0 ==> strides[|shape| - 1] == 1 && shape[|shape| - 1] <= pitch)
    && (|shape| > 1 ==> strides[|shape| - 2] == pitch && Chained(shape[..|shape| - 1], strides[..|shape| - 1]))
  }

  /** The row a coordinate lies in. */
  function Row(shape: seq<nat>, idx: seq<nat>): nat
    requires |idx| == |shape| > 0
  {
    Flat(shape[..|shape| - 1], idx[..|shape| - 1])
  }

  function Rows(shape: seq<nat>): nat
    requires |shape| > 0
  {
    Product(shape[..|shape| - 1])
  }

  lemma {:induction false} PitchedPosition(shape: seq<nat>, strides: seq<nat>, pitch: nat, idx: seq<nat>)
    requires Pitched(shape, strides, pitch) && |idx| == |shape| > 0
    ensures Dot(strides, idx) == Row(shape, idx) * pitch + idx[|idx| - 1]
  {
    var m := |shape| - 1;
    if m > 0 { ChainedIsFlat(shape[..m], strides[..m], idx[..m]); }
  }

  lemma {:induction false} RowBound(shape: seq<nat>, idx: seq<nat>)
    requires InShape(shape, idx) && |shape| > 0
    ensures Row(shape, idx) < Rows(shape)
  {
    FlatBound(shape[..|shape| - 1], idx[..|shape| - 1]);
  }

  /** Distinct coordinates have distinct positions. */
  lemma {:induction false} PitchedInjective(shape: seq<nat>, strides: seq<nat>, pitch: nat, a: seq<nat>, b: seq<nat>)
    requires Pitched(shape, strides, pitch) && InShape(shape, a) && InShape(shape, b)
      && Dot(strides, a) == Dot(strides, b)
    ensures a == b
  {
    if shape != [] {
      var m := |shape| - 1;
      PitchedPosition(shape, strides, pitch, a);
      PitchedPosition(shape, strides, pitch, b);
      DivModUnique(Dot(strides, a), pitch, Row(shape, a), a[m]);
      DivModUnique(Dot(strides, b), pitch, Row(shape, b), b[m]);
      FlatInjective(shape[..m], a[..m], b[..m]);
      assert a == a[..m] + [a[m]] && b == b[..m] + [b[m]];
    }
  }

  /** Positions stay below `Rows * pitch`. */
  lemma {:induction false} PitchedBound(shape: seq<nat>, strides: seq<nat>, pitch: nat, idx: seq<nat>)
    requires Pitched(shape, strides, pitch) && InShape(shape, idx) && |shape| > 0
    ensures Dot(strides, idx) < Rows(shape) * pitch
  {
    PitchedPosition(shape, strides, pitch, idx);
    RowBound(shape, idx);
    MulStep(Row(shape, idx), Rows(shape), pitch);
  }

  /** Every column of every row is the position of a coordinate. */
  lemma {:induction false} PitchedCovers(shape: seq<nat>, strides: seq<nat>, pitch: nat, row: nat, col: nat)
    returns (idx: seq<nat>)
    requires Pitched(shape, strides, pitch) && |shape| > 0 && row < Rows(shape) && col < shape[|shape| - 1]
    ensures InShape(shape, idx) && Dot(strides, idx) == row * pitch + col
  {
    var m := |shape| - 1;
    FlatSurjective(shape[..m], row);
    idx := Unflat(shape[..m], row) + [col];
    assert idx[..m] == Unflat(shape[..m], row);
    PitchedPosition(shape, strides, pitch, idx);
  }
}
