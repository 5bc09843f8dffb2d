/**
 Memory layout policies: how a list of tensor descriptors is packed into one buffer,
 which strides each tensor gets, and which rows a 2D copy of it moves.
 */
module Allocator {
  import opened Options
  import opened Arith
  import opened RowMajor

  datatype Strategy = Contiguous | Optimized
  datatype Descriptor = Descriptor(shape: seq<nat>, elemSize: nat, strategy: Strategy)

  /** A view of a buffer of `size` bytes that leaves out bytes at both ends. */
  datatype Handle = Handle(size: nat, offsetStart: Option<nat>, offsetEnd: Option<nat>) {
    function Start(): nat { if offsetStart.Some? then offsetStart.value else 0 }
    function End(): nat { if offsetEnd.Some? then offsetEnd.value else 0 }
    /** The first byte after the view. */
    function Limit(): int { size - End() }
    function AddStart(offset: nat): Handle { this.(offsetStart := Some(Start() + offset)) }
    function AddEnd(offset: nat): Handle { this.(offsetEnd := Some(End() + offset)) }
  }

  datatype Layout = Layout(handle: Handle, strides: seq<nat>)

  function NextMultipleOf(x: nat, a: nat): (r: nat)
    requires a > 0
    ensures x <= r
  {
    if Rem(x, a) == 0 then x else x + (a - Rem(x, a))
  }

  /** The least multiple from `x` up. */
  lemma NextMultiple(x: nat, a: nat)
    requires a > 0
    ensures NextMultipleOf(x, a) % a == 0 && x <= NextMultipleOf(x, a) < x + a
  {
    RemIsMod(x, a);
    DivMod(x, a);
    MulAdd(x / a, 1, a);
    MulDiv(x / a + 1, a);
  }

  // --------------------------------------------------------------------- packing

  /** Where the `k`-th sub-buffer starts. */
  function OffsetOf(sizes: seq<nat>, align: nat, k: nat): nat
    requires align > 0 && k <= |sizes|
  {
    if k == 0 then 0 else OffsetOf(sizes, align, k - 1) + NextMultipleOf(sizes[k - 1], align)
  }

  lemma {:induction false} OffsetAligned(sizes: seq<nat>, align: nat, k: nat)
    requires align > 0 && k <= |sizes|
    ensures OffsetOf(sizes, align, k) % align == 0
  {
    if k > 0 {
      OffsetAligned(sizes, align, k - 1);
      NextMultiple(sizes[k - 1], align);
      MultiplesAdd(OffsetOf(sizes, align, k - 1), NextMultipleOf(sizes[k - 1], align), align);
    }
  }

  /** A sub-buffer ends before any later one starts. */
  lemma {:induction false} OffsetApart(sizes: seq<nat>, align: nat, j: nat, k: nat)
    requires align > 0 && j < k <= |sizes|
    ensures OffsetOf(sizes, align, j) + sizes[j] <= OffsetOf(sizes, align, k)
    decreases k
  {
    if j < k - 1 { OffsetApart(sizes, align, j, k - 1); }
  }

  /** Whether every sub-buffer ends inside `total` bytes. */
  predicate Fits(sizes: seq<nat>, align: nat, total: nat)
    requires align > 0
  {
    forall k | 0 <= k < |sizes| :: OffsetOf(sizes, align, k) + sizes[k] <= total
  }

  function Cut(base: Handle, offset: nat, size: nat): (h: Handle)
    requires offset + size <= base.size
    ensures h.size == base.size && h.Start() == base.Start() + offset && h.Limit() == offset + size - base.End()
  {
    base.AddStart(offset).AddEnd(base.size - offset - size)
  }

  /** `h` is the base without what lies outside the `k`-th sub-buffer. */
  predicate CutAt(h: Handle, base: Handle, sizes: seq<nat>, align: nat, k: nat)
    requires align > 0 && k < |sizes|
  {
    && OffsetOf(sizes, align, k) + sizes[k] <= base.size && h.size == base.size
    && h.Start() == base.Start() + OffsetOf(sizes, align, k)
    && h.Limit() == OffsetOf(sizes, align, k) + sizes[k] - base.End()
  }

  /** One handle per size; no result stands for the subtraction underflowing. */
  method OffsetHandles(base: Handle, sizes: seq<nat>, align: nat) returns (handles: Option<seq<Handle>>)
    requires align > 0
    ensures handles.Some? <==> Fits(sizes, align, base.size)
    ensures handles.Some? ==> |handles.value| == |sizes|
    ensures handles.Some? ==> forall k | 0 <= k < |sizes| :: CutAt(handles.value[k], base, sizes, align, k)
  {
    var offset := 0;
    var out: seq<Handle> := [];
    var i := 0;
    while i < |sizes|
      invariant 0 <= i <= |sizes| && |out| == i && offset == OffsetOf(sizes, align, i)
      invariant forall k | 0 <= k < i :: CutAt(out[k], base, sizes, align, k)
    {
      if base.size < offset + sizes[i] { return None; }
      out := out + [Cut(base, offset, sizes[i])];
      offset := offset + NextMultipleOf(sizes[i], align);
      i := i + 1;
    }
    forall k | 0 <= k < |sizes| ensures OffsetOf(sizes, align, k) + sizes[k] <= base.size {
      assert CutAt(out[k], base, sizes, align, k);
    }
    handles := Some(out);
  }

  /** The handles are aligned, hold exactly their sizes, follow each other without overlap
      and stay inside the base buffer. */
  predicate Packed(base: Handle, handles: seq<Handle>, sizes: seq<nat>, align: nat)
    requires align > 0
  {
    && |handles| == |sizes|
    && (forall k | 0 <= k < |handles| ::
          && handles[k].Start() % align == 0
          && handles[k].Limit() == handles[k].Start() + sizes[k] <= base.size == handles[k].size)
    && (forall j, k | 0 <= j < k < |handles| :: handles[j].Limit() <= handles[k].Start())
  }

  lemma {:induction false} PackedHandles(sizes: seq<nat>, align: nat, handles: seq<Handle>)
    requires align > 0 && |handles| == |sizes|
    requires forall k | 0 <= k < |sizes| ::
      handles[k].size == OffsetOf(sizes, align, |sizes|)
      && handles[k].Start() == OffsetOf(sizes, align, k)
      && handles[k].Limit() == OffsetOf(sizes, align, k) + sizes[k]
    ensures Packed(Handle(OffsetOf(sizes, align, |sizes|), None, None), handles, sizes, align)
  {
    forall k | 0 <= k < |handles|
      ensures handles[k].Start() % align == 0 && handles[k].Limit() <= OffsetOf(sizes, align, |sizes|) {
      OffsetAligned(sizes, align, k);
      OffsetApart(sizes, align, k, |sizes|);
    }
    forall j, k | 0 <= j < k < |handles| ensures handles[j].Limit() <= handles[k].Start() {
      OffsetApart(sizes, align, j, k);
    }
  }

  /** The part both policies share: a base buffer for the sizes and a handle for each. */
  method Pack(sizes: seq<nat>, align: nat) returns (base: Handle, handles: seq<Handle>)
    requires align > 0
    ensures base == Handle(OffsetOf(sizes, align, |sizes|), None, None)
    ensures Packed(base, handles, sizes, align)
  {
    var totalSize := 0;
    var i := 0;
    while i < |sizes|
      invariant 0 <= i <= |sizes| && totalSize == OffsetOf(sizes, align, i)
    {
      totalSize := totalSize + NextMultipleOf(sizes[i], align);
      i := i + 1;
    }
    base := Handle(totalSize, None, None);
    var made := OffsetHandles(base, sizes, align);
    forall k | 0 <= k < |sizes| ensures OffsetOf(sizes, align, k) + sizes[k] <= totalSize {
      OffsetApart(sizes, align, k, |sizes|);
    }
    assert Fits(sizes, align, totalSize);
    handles := made.value;
    PackedHandles(sizes, align, handles);
  }

  // --------------------------------------------------------------------- strides

  function Width(shape: seq<nat>): nat { if shape == [] then 1 else shape[|shape| - 1] }

  /** The product of all extents but the last. */
  function Height(shape: seq<nat>): nat { if shape == [] then 1 else Rows(shape) }

  method ContiguousStrides(shape: seq<nat>) returns (strides: seq<nat>)
    requires |shape| >= 1
    ensures Pitched(shape, strides, Width(shape))
  {
    strides := seq(|shape|, _ => 1);
    for i := |shape| - 1 downto 0
      invariant |strides| == |shape| && strides[|shape| - 1] == 1
      invariant forall k | i <= k < |shape| - 1 :: strides[k] == strides[k + 1] * shape[k + 1]
    {
      strides := strides[i := strides[i + 1] * shape[i + 1]];
    }
  }

  /** Strides for rows `stride` elements apart. */
  method PitchedStrides(shape: seq<nat>, stride: nat) returns (strides: seq<nat>)
    requires Width(shape) <= stride
    ensures Pitched(shape, strides, stride)
  {
    var rank := |shape|;
    strides := seq(rank, _ => 1);
    if rank > 1 { strides := strides[rank - 2 := stride]; }
    if rank > 2 {
      for i := rank - 2 downto 0
        invariant |strides| == rank && strides[rank - 1] == 1 && strides[rank - 2] == stride
        invariant forall k | i <= k < rank - 2 :: strides[k] == strides[k + 1] * shape[k + 1]
      {
        strides := strides[i := strides[i + 1] * shape[i + 1]];
      }
    }
  }

  // -------------------------------------------------------------------- policies

  /** The least power of two that is at least `x` and at least `p`, itself one. */
  function NextPowerOfTwoFrom(x: nat, p: nat): nat
    requires p > 0
    decreases if x <= p then 0 else x - p
  {
    if x <= p then p else NextPowerOfTwoFrom(x, 2 * p)
  }

  function NextPowerOfTwo(x: nat): nat { NextPowerOfTwoFrom(x, 1) }

  function OptimalAlign(width: nat, elemSize: nat, bufferAlign: nat): nat
    requires width != 1 ==> 16 <= bufferAlign
  {
    if width == 1 then elemSize
    else
      var p := NextPowerOfTwo(width * elemSize);
      if p < 16 then 16 else if p > bufferAlign then bufferAlign else p
  }

  /** The descriptors the pitched policy handles without a panic: it divides by the element
      size, rounds up to it for unit rows, and clamps to an interval from 16 up. */
  predicate PitchedAccepts(d: Descriptor, align: nat) {
    && align > 0
    && (|d.shape| > 1 || (d.strategy.Optimized? && Width(d.shape) == 1) ==> d.elemSize > 0)
    && (d.strategy.Optimized? && Width(d.shape) != 1 ==> 16 <= align)
  }

  function PitchAlign(d: Descriptor, align: nat): (r: nat)
    requires PitchedAccepts(d, align)
    ensures r > 0
  {
    if d.strategy.Contiguous? then 1 else OptimalAlign(Width(d.shape), d.elemSize, align)
  }

  /** Bytes from one row to the next. */
  function PitchBytes(d: Descriptor, align: nat): nat
    requires PitchedAccepts(d, align)
  {
    NextMultipleOf(Width(d.shape) * d.elemSize, PitchAlign(d, align))
  }

  function PitchedSize(d: Descriptor, align: nat): nat
    requires PitchedAccepts(d, align)
  {
    (if Height(d.shape) > 1 then Height(d.shape) else 1) * PitchBytes(d, align)
  }

  /** Elements from one row to the next. */
  function RowStride(d: Descriptor, align: nat): (r: nat)
    requires PitchedAccepts(d, align)
    ensures Width(d.shape) <= r && r * d.elemSize <= PitchBytes(d, align)
  {
    RowStrideBounds(d, align);
    if d.elemSize > 0 then PitchBytes(d, align) / d.elemSize else Width(d.shape)
  }

  lemma RowStrideBounds(d: Descriptor, align: nat)
    requires PitchedAccepts(d, align)
    ensures d.elemSize > 0 ==>
      Width(d.shape) <= PitchBytes(d, align) / d.elemSize
        && PitchBytes(d, align) / d.elemSize * d.elemSize <= PitchBytes(d, align)
    ensures Width(d.shape) * d.elemSize <= PitchBytes(d, align)
  {
    if d.elemSize > 0 { FloorBounds(PitchBytes(d, align), d.elemSize, Width(d.shape)); }
  }

  lemma FloorBounds(x: nat, n: nat, w: nat)
    requires n > 0 && w * n <= x
    ensures w <= x / n && x / n * n <= x
  {
    DivMod(x, n);
    MulOrder(x / n, w, n);
  }

  method ApplyPitched(descriptors: seq<Descriptor>, align: nat) returns (base: Handle, layouts: seq<Layout>)
    requires align > 0 && forall d | d in descriptors :: PitchedAccepts(d, align)
    ensures |layouts| == |descriptors|
    ensures Packed(base, seq(|layouts|, k requires 0 <= k < |layouts| => layouts[k].handle),
                   seq(|descriptors|, k requires 0 <= k < |descriptors| => PitchedSize(descriptors[k], align)), align)
    ensures forall k | 0 <= k < |layouts| ::
      Pitched(descriptors[k].shape, layouts[k].strides, RowStride(descriptors[k], align))
    ensures forall k | 0 <= k < |layouts| && descriptors[k].strategy.Contiguous? :: Tight(layouts[k], descriptors[k])
  {
    var sizes: seq<nat>, strides: seq<seq<nat>> := [], [];
    var i := 0;
    while i < |descriptors|
      invariant 0 <= i <= |descriptors| && |sizes| == |strides| == i
      invariant forall k | 0 <= k < i :: sizes[k] == PitchedSize(descriptors[k], align)
      invariant forall k | 0 <= k < i :: Pitched(descriptors[k].shape, strides[k], RowStride(descriptors[k], align))
    {
      var d := descriptors[i];
      var made := PitchedStrides(d.shape, RowStride(d, align));
      sizes := sizes + [PitchedSize(d, align)];
      strides := strides + [made];
      i := i + 1;
    }
    var handles;
    base, handles := Pack(sizes, align);
    layouts := seq(|handles|, k requires 0 <= k < |handles| => Layout(handles[k], strides[k]));
    assert seq(|layouts|, k requires 0 <= k < |layouts| => layouts[k].handle) == handles;
    assert seq(|descriptors|, k requires 0 <= k < |descriptors| => PitchedSize(descriptors[k], align)) == sizes;
    forall k | 0 <= k < |layouts| && descriptors[k].strategy.Contiguous? ensures Tight(layouts[k], descriptors[k]) {
      assert handles[k].Limit() == handles[k].Start() + sizes[k];
      ContiguousIsTight(layouts[k], descriptors[k], align);
    }
  }

  /** What the contiguous policy gives: no padding between rows, a linear copy, and a view of
      exactly the elements (of one row, if there are none). */
  predicate Tight(l: Layout, d: Descriptor) {
    && Pitched(d.shape, l.strides, Width(d.shape)) && PitchOf(d.shape, l.strides, d.elemSize) == None
    && l.handle.Limit() == l.handle.Start() +
         if Height(d.shape) > 0 then Product(d.shape) * d.elemSize else Width(d.shape) * d.elemSize
  }

  lemma {:induction false} ContiguousIsTight(l: Layout, d: Descriptor, align: nat)
    requires d.strategy.Contiguous? && PitchedAccepts(d, align) && Pitched(d.shape, l.strides, RowStride(d, align))
    requires l.handle.Limit() == l.handle.Start() + PitchedSize(d, align)
    ensures Tight(l, d)
  {
    var row := Width(d.shape) * d.elemSize;
    NextMultiple(row, 1);
    assert PitchBytes(d, align) == row;
    if d.elemSize > 0 { MulDiv(Width(d.shape), d.elemSize); }
    MulAssoc(Height(d.shape), Width(d.shape), d.elemSize);
    assert 1 * row == row;
  }

  /** The pitch of an optimized layout: rows of one element are not padded; others start at
      multiples of the least power of two that covers a row, clamped from 16 to the buffer's
      alignment, so padding never doubles a row of more than 16 bytes. */
  lemma {:induction false} OptimizedPitch(d: Descriptor, align: nat) returns (k: nat)
    requires d.strategy.Optimized? && PitchedAccepts(d, align)
    ensures var row, pitch := Width(d.shape) * d.elemSize, PitchBytes(d, align);
            if Width(d.shape) == 1 then pitch == row
            else
              && row <= Pow2(k) && (k > 0 ==> Pow2(k - 1) < row)
              && PitchAlign(d, align) == (if Pow2(k) < 16 then 16 else if align < Pow2(k) then align else Pow2(k))
              && pitch % PitchAlign(d, align) == 0 && row <= pitch
              && (row > 16 ==> pitch < 2 * row) && (0 < row <= 16 ==> pitch == 16) && (row == 0 ==> pitch == 0)
  {
    var row, pa := Width(d.shape) * d.elemSize, PitchAlign(d, align);
    k := 0;
    NextMultiple(row, pa);
    if Width(d.shape) == 1 {
      RemIsMod(d.elemSize, d.elemSize);
    } else {
      assert Pow2(0) == 1;
      k := NextPowerOfTwoIsOne(row, 0);
      assert Pow2(4) == 16;
      if row <= 16 { Clamped(row, k); }
      OneMultiple(row, pa);
      if row > 16 && k > 0 { assert Pow2(k) == 2 * Pow2(k - 1); }
    }
  }

  lemma Clamped(row: nat, k: nat)
    requires row <= 16 && row <= Pow2(k) && (k > 0 ==> Pow2(k - 1) < row)
    ensures Pow2(k) <= 16
  {
    assert Pow2(4) == 16;
    if k > 4 { Pow2Mono(4, k - 1); }
  }

  /** A row no longer than the alignment gets one multiple of it. */
  lemma OneMultiple(row: nat, pa: nat)
    requires pa > 0
    ensures row == 0 ==> NextMultipleOf(row, pa) == 0
    ensures 0 < row <= pa ==> NextMultipleOf(row, pa) == pa
  {
    NextMultiple(row, pa);
    if 0 < row <= pa {
      MulDiv(1, pa);
      CloseMultiples(pa, NextMultipleOf(row, pa), pa);
    }
  }

  method ApplyContiguous(descriptors: seq<Descriptor>, align: nat) returns (base: Handle, layouts: seq<Layout>)
    requires align > 0 && forall d | d in descriptors :: |d.shape| >= 1
    ensures |layouts| == |descriptors|
    ensures Packed(base, seq(|layouts|, k requires 0 <= k < |layouts| => layouts[k].handle),
                   seq(|descriptors|, k requires 0 <= k < |descriptors| => ContiguousSize(descriptors[k])), align)
    ensures forall k | 0 <= k < |layouts| ::
      Pitched(descriptors[k].shape, layouts[k].strides, Width(descriptors[k].shape))
  {
    var sizes: seq<nat>, strides: seq<seq<nat>> := [], [];
    var i := 0;
    while i < |descriptors|
      invariant 0 <= i <= |descriptors| && |sizes| == |strides| == i
      invariant forall k | 0 <= k < i :: sizes[k] == ContiguousSize(descriptors[k])
      invariant forall k | 0 <= k < i :: Pitched(descriptors[k].shape, strides[k], Width(descriptors[k].shape))
    {
      var d := descriptors[i];
      var made := ContiguousStrides(d.shape);
      sizes := sizes + [ContiguousSize(d)];
      strides := strides + [made];
      i := i + 1;
    }
    var handles;
    base, handles := Pack(sizes, align);
    layouts := seq(|handles|, k requires 0 <= k < |handles| => Layout(handles[k], strides[k]));
    assert seq(|layouts|, k requires 0 <= k < |layouts| => layouts[k].handle) == handles;
    assert seq(|descriptors|, k requires 0 <= k < |descriptors| => ContiguousSize(descriptors[k])) == sizes;
  }

  // ---------------------------------------------------------- elements in buffers

  /** The first byte of an element, from the start of its sub-buffer. */
  function ElementAt(strides: seq<nat>, elemSize: nat, idx: seq<nat>): nat
    requires |strides| == |idx|
  {
    Dot(strides, idx) * elemSize
  }

  /** Every element lies in a sub-buffer of `max(height, 1)` rows of `bytes` bytes, and no two
      elements share a byte: nothing is asked of the row stride but that it fits in `bytes`. */
  lemma {:induction false} ElementsApart(shape: seq<nat>, strides: seq<nat>, stride: nat, elemSize: nat, bytes: nat,
                                         a: seq<nat>, b: seq<nat>)
    requires |shape| > 0 && Pitched(shape, strides, stride) && stride * elemSize <= bytes
    requires InShape(shape, a) && InShape(shape, b)
    ensures ElementAt(strides, elemSize, a) + elemSize <= Height(shape) * bytes
    ensures a == b
         || ElementAt(strides, elemSize, a) + elemSize <= ElementAt(strides, elemSize, b)
         || ElementAt(strides, elemSize, b) + elemSize <= ElementAt(strides, elemSize, a)
  {
    PitchedBound(shape, strides, stride, a);
    ElementFits(Dot(strides, a), Rows(shape), stride, elemSize, bytes);
    if a != b {
      if Dot(strides, a) == Dot(strides, b) { PitchedInjective(shape, strides, stride, a, b); }
      MulOrder(Dot(strides, a), Dot(strides, b), elemSize);
      MulOrder(Dot(strides, b), Dot(strides, a), elemSize);
    }
  }

  lemma ElementFits(at: nat, rows: nat, stride: nat, elemSize: nat, bytes: nat)
    requires at < rows * stride && stride * elemSize <= bytes
    ensures at * elemSize + elemSize <= rows * bytes
  {
    MulStep(at, rows * stride, elemSize);
    MulAssoc(rows, stride, elemSize);
    MulMono(stride * elemSize, bytes, rows);
    assert rows * (stride * elemSize) == (stride * elemSize) * rows;
  }

  /** `byte` of the base buffer belongs to the element at `idx`. */
  predicate Owns(l: Layout, d: Descriptor, idx: seq<nat>, byte: int) {
    && |l.strides| == |idx|
    && var at := l.handle.Start() + ElementAt(l.strides, d.elemSize, idx);
       at <= byte < at + d.elemSize
  }

  /** A tensor's rows of `bytes` bytes each, with elements `stride` per row, fit its size. */
  predicate RowsFit(l: Layout, d: Descriptor, size: nat, stride: nat, bytes: nat) {
    && |d.shape| > 0 && Pitched(d.shape, l.strides, stride)
    && stride * d.elemSize <= bytes && Height(d.shape) * bytes <= size
  }

  lemma {:induction false} OwnedByte(l: Layout, d: Descriptor, size: nat, stride: nat, bytes: nat, a: seq<nat>,
                                     byte: int)
    requires RowsFit(l, d, size, stride, bytes) && InShape(d.shape, a) && Owns(l, d, a, byte)
    ensures l.handle.Start() <= byte < l.handle.Start() + size
  {
    ElementsApart(d.shape, l.strides, stride, d.elemSize, bytes, a, a);
  }

  /** What either policy promises about its whole result: a byte of the base buffer belongs
      to at most one element of at most one tensor, and elements lie in the base buffer. */
  lemma {:induction false} BytesBelongToOne(base: Handle, layouts: seq<Layout>, descriptors: seq<Descriptor>,
                                            sizes: seq<nat>, align: nat,
                                           i: nat, si: nat, bi: nat, a: seq<nat>, j: nat, sj: nat, bj: nat,
                                             b: seq<nat>, byte: int)
    requires align > 0 && |layouts| == |descriptors| == |sizes| && i < |layouts| && j < |layouts|
    requires Packed(base, seq(|layouts|, k requires 0 <= k < |layouts| => layouts[k].handle), sizes, align)
    requires RowsFit(layouts[i], descriptors[i], sizes[i], si, bi)
      && RowsFit(layouts[j], descriptors[j], sizes[j], sj, bj)
    requires InShape(descriptors[i].shape, a) && Owns(layouts[i], descriptors[i], a, byte)
    requires InShape(descriptors[j].shape, b) && Owns(layouts[j], descriptors[j], b, byte)
    ensures i == j && a == b && 0 <= byte < base.size
  {
    var handles := seq(|layouts|, k requires 0 <= k < |layouts| => layouts[k].handle);
    assert handles[i] == layouts[i].handle && handles[j] == layouts[j].handle;
    OwnedByte(layouts[i], descriptors[i], sizes[i], si, bi, a, byte);
    OwnedByte(layouts[j], descriptors[j], sizes[j], sj, bj, b, byte);
    if i == j { ElementsApart(descriptors[i].shape, layouts[i].strides, si, descriptors[i].elemSize, bi, a, b); }
  }

  lemma PitchedRowsFit(l: Layout, d: Descriptor, align: nat)
    requires PitchedAccepts(d, align) && |d.shape| > 0 && Pitched(d.shape, l.strides, RowStride(d, align))
    ensures RowsFit(l, d, PitchedSize(d, align), RowStride(d, align), PitchBytes(d, align))
  {
    MulOrder(Height(d.shape), if Height(d.shape) > 1 then Height(d.shape) else 1, PitchBytes(d, align));
  }

  /** The pitched policy's result gives no byte to two elements. */
  lemma {:induction false} PitchedPolicyDisjoint(base: Handle, layouts: seq<Layout>, descriptors: seq<Descriptor>,
                                                 align: nat,
                                                i: nat, a: seq<nat>, j: nat, b: seq<nat>, byte: int)
    requires align > 0 && |layouts| == |descriptors|
    requires forall k | 0 <= k < |descriptors| :: PitchedAccepts(descriptors[k], align) && |descriptors[k].shape| > 0
    requires Packed(base, seq(|layouts|, k requires 0 <= k < |layouts| => layouts[k].handle),
                    seq(|descriptors|, k requires 0 <= k < |descriptors| => PitchedSize(descriptors[k], align)), align)
    requires forall k | 0 <= k < |layouts| ::
      Pitched(descriptors[k].shape, layouts[k].strides, RowStride(descriptors[k], align))
    requires i < |layouts| && InShape(descriptors[i].shape, a) && Owns(layouts[i], descriptors[i], a, byte)
    requires j < |layouts| && InShape(descriptors[j].shape, b) && Owns(layouts[j], descriptors[j], b, byte)
    ensures i == j && a == b && 0 <= byte < base.size
  {
    var sizes := seq(|descriptors|, k requires 0 <= k < |descriptors| => PitchedSize(descriptors[k], align));
    var di, dj := descriptors[i], descriptors[j];
    PitchedRowsFit(layouts[i], di, align);
    PitchedRowsFit(layouts[j], dj, align);
    BytesBelongToOne(base, layouts, descriptors, sizes, align, i, RowStride(di, align), PitchBytes(di, align), a,
                     j, RowStride(dj, align), PitchBytes(dj, align), b, byte);
  }

  function ContiguousSize(d: Descriptor): nat { Product(d.shape) * d.elemSize }

  lemma ContiguousRowsFit(l: Layout, d: Descriptor)
    requires |d.shape| > 0 && Pitched(d.shape, l.strides, Width(d.shape))
    ensures RowsFit(l, d, ContiguousSize(d), Width(d.shape), Width(d.shape) * d.elemSize)
  {
    MulAssoc(Height(d.shape), Width(d.shape), d.elemSize);
  }

  /** Neither does the contiguous policy's. */
  lemma {:induction false} ContiguousPolicyDisjoint(base: Handle, layouts: seq<Layout>, descriptors: seq<Descriptor>,
                                                    align: nat,
                                                   i: nat, a: seq<nat>, j: nat, b: seq<nat>, byte: int)
    requires align > 0 && |layouts| == |descriptors| && forall k | 0 <= k < |descriptors| :: |descriptors[k].shape| > 0
    requires Packed(base, seq(|layouts|, k requires 0 <= k < |layouts| => layouts[k].handle),
                    seq(|descriptors|, k requires 0 <= k < |descriptors| => ContiguousSize(descriptors[k])), align)
    requires forall k | 0 <= k < |layouts| ::
      Pitched(descriptors[k].shape, layouts[k].strides, Width(descriptors[k].shape))
    requires i < |layouts| && InShape(descriptors[i].shape, a) && Owns(layouts[i], descriptors[i], a, byte)
    requires j < |layouts| && InShape(descriptors[j].shape, b) && Owns(layouts[j], descriptors[j], b, byte)
    ensures i == j && a == b && 0 <= byte < base.size
  {
    var sizes := seq(|descriptors|, k requires 0 <= k < |descriptors| => ContiguousSize(descriptors[k]));
    var di, dj := descriptors[i], descriptors[j];
    ContiguousRowsFit(layouts[i], di);
    ContiguousRowsFit(layouts[j], dj);
    BytesBelongToOne(base, layouts, descriptors, sizes, align, i, Width(di.shape), Width(di.shape) * di.elemSize, a,
                     j, Width(dj.shape), Width(dj.shape) * dj.elemSize, b, byte);
  }

  // ------------------------------------------------------------------- 2D copies

  datatype Pitch = Pitch(widthBytes: nat, height: nat, strideBytes: nat)

  function PitchOf(shape: seq<nat>, strides: seq<nat>, elemSize: nat): Option<Pitch>
    requires |strides| == |shape|
  {
    var rank := |shape|;
    var width := Width(shape);
    if rank < 2 || strides[rank - 2] == width then None
    else Some(Pitch(width * elemSize, Height(shape), strides[rank - 2] * elemSize))
  }

  ghost predicate Addressed(shape: seq<nat>, strides: seq<nat>, elemSize: nat, byte: nat)
    requires |strides| == |shape|
  {
    exists idx: seq<nat> :: InShape(shape, idx)
      && ElementAt(strides, elemSize, idx) <= byte < ElementAt(strides, elemSize, idx) + elemSize
  }

  predicate InRow(p: Pitch, row: nat, byte: nat) {
    row < p.height && row * p.strideBytes <= byte < row * p.strideBytes + p.widthBytes
  }

  /** What the copy moves: the rows of the pitch, or one linear span. */
  ghost predicate Moved(shape: seq<nat>, pitch: Option<Pitch>, elemSize: nat, byte: nat) {
    if pitch.Some? then exists row: nat :: InRow(pitch.value, row, byte)
    else byte < Product(shape) * elemSize
  }

  lemma ByteInRow(row: nat, stride: nat, col: nat, elemSize: nat, width: nat, byte: nat)
    requires col < width && (row * stride + col) * elemSize <= byte < (row * stride + col) * elemSize + elemSize
    ensures row * (stride * elemSize) <= byte < row * (stride * elemSize) + width * elemSize
  {
    MulAdd(row * stride, col, elemSize);
    MulAssoc(row, stride, elemSize);
    MulStep(col, width, elemSize);
  }

  lemma ColumnOf(row: nat, stride: nat, elemSize: nat, width: nat, byte: nat) returns (col: nat)
    requires row * (stride * elemSize) <= byte < row * (stride * elemSize) + width * elemSize
    ensures col < width && (row * stride + col) * elemSize <= byte < (row * stride + col) * elemSize + elemSize
  {
    var rest := byte - row * (stride * elemSize);
    DivMod(rest, elemSize);
    col := rest / elemSize;
    MulOrder(width, col, elemSize);
    MulAdd(row * stride, col, elemSize);
    MulAssoc(row, stride, elemSize);
  }

  function PitchFor(shape: seq<nat>, stride: nat, elemSize: nat): Pitch {
    Pitch(Width(shape) * elemSize, Height(shape), stride * elemSize)
  }

  lemma {:induction false} AddressedIsInRow(shape: seq<nat>, strides: seq<nat>, stride: nat, elemSize: nat, byte: nat,
                                            idx: seq<nat>)
    requires |shape| > 0 && Pitched(shape, strides, stride) && InShape(shape, idx)
    requires ElementAt(strides, elemSize, idx) <= byte < ElementAt(strides, elemSize, idx) + elemSize
    ensures InRow(PitchFor(shape, stride, elemSize), Row(shape, idx), byte)
  {
    PitchedPosition(shape, strides, stride, idx);
    RowBound(shape, idx);
    ByteInRow(Row(shape, idx), stride, idx[|idx| - 1], elemSize, Width(shape), byte);
  }

  lemma {:induction false} RowIsAddressed(shape: seq<nat>, strides: seq<nat>, stride: nat, elemSize: nat, byte: nat,
                                          row: nat)
    requires |shape| > 0 && Pitched(shape, strides, stride) && InRow(PitchFor(shape, stride, elemSize), row, byte)
    ensures Addressed(shape, strides, elemSize, byte)
  {
    var col := ColumnOf(row, stride, elemSize, Width(shape), byte);
    var idx := PitchedCovers(shape, strides, stride, row, col);
    assert InShape(shape, idx);
  }

  lemma {:induction false} RowsAreAddressed(shape: seq<nat>, strides: seq<nat>, stride: nat, elemSize: nat, byte: nat)
    requires |shape| > 0 && Pitched(shape, strides, stride)
    ensures Addressed(shape, strides, elemSize, byte) <==>
      exists row: nat :: InRow(PitchFor(shape, stride, elemSize), row, byte)
  {
    if Addressed(shape, strides, elemSize, byte) {
      var idx: seq<nat> :| InShape(shape, idx)
        && ElementAt(strides, elemSize, idx) <= byte < ElementAt(strides, elemSize, idx) + elemSize;
      AddressedIsInRow(shape, strides, stride, elemSize, byte, idx);
    }
    if row: nat :| InRow(PitchFor(shape, stride, elemSize), row, byte) {
      RowIsAddressed(shape, strides, stride, elemSize, byte, row);
    }
  }

  /** Rows without padding are one span. */
  lemma {:induction false} SpanIsRows(width: nat, height: nat, elemSize: nat, byte: nat)
    ensures byte < height * width * elemSize <==>
      exists row: nat :: InRow(Pitch(width * elemSize, height, width * elemSize), row, byte)
  {
    var n := width * elemSize;
    var p := Pitch(n, height, n);
    MulAssoc(height, width, elemSize);
    if byte < height * n {
      assert n > 0;
      DivMod(byte, n);
      MulOrder(height, byte / n, n);
      assert InRow(p, byte / n, byte);
    }
    if row: nat :| InRow(p, row, byte) { MulStep(row, height, n); }
  }

  /** The copy moves exactly the bytes of the tensor's elements, padding never and every
      element wholly, whether it goes row by row or as one span. */
  lemma {:induction false} CopyMovesElements(shape: seq<nat>, strides: seq<nat>, stride: nat, elemSize: nat, byte: nat)
    requires Pitched(shape, strides, stride)
    ensures Moved(shape, PitchOf(shape, strides, elemSize), elemSize, byte) <==>
      Addressed(shape, strides, elemSize, byte)
  {
    if shape == [] {
      assert InShape(shape, []) && ElementAt(strides, elemSize, []) == 0;
      assert 1 * elemSize == elemSize;
    } else {
      if |shape| == 1 || stride == Width(shape) {
        assert Pitched(shape, strides, Width(shape));
        RowsAreAddressed(shape, strides, Width(shape), elemSize, byte);
        SpanIsRows(Width(shape), Height(shape), elemSize, byte);
        assert PitchFor(shape, Width(shape), elemSize)
          == Pitch(Width(shape) * elemSize, Height(shape), Width(shape) * elemSize);
      } else {
        RowsAreAddressed(shape, strides, stride, elemSize, byte);
        assert PitchOf(shape, strides, elemSize) == Some(PitchFor(shape, stride, elemSize));
      }
    }
  }

  // --------------------------------------------------------------- row alignment

  /** Rows start at multiples of the chosen alignment exactly when the element size divides
      the pitch; otherwise the floor in the element stride pulls the second row back. */
  lemma {:induction false} RowsAlignedIff(d: Descriptor, align: nat)
    requires PitchedAccepts(d, align) && d.elemSize > 0
    ensures RowStride(d, align) * d.elemSize % PitchAlign(d, align) == 0 <==> PitchBytes(d, align) % d.elemSize == 0
  {
    NextMultiple(Width(d.shape) * d.elemSize, PitchAlign(d, align));
    FloorKeepsMultiple(Width(d.shape), d.elemSize, PitchAlign(d, align), PitchBytes(d, align));
  }

  lemma FloorKeepsMultiple(width: nat, e: nat, pa: nat, pitch: nat)
    requires e > 0 && pa > 0 && width * e <= pitch < width * e + pa && pitch % pa == 0
    ensures pitch / e * e % pa == 0 <==> pitch % e == 0
  {
    DivMod(pitch, e);
    FloorBounds(pitch, e, width);
    MulMono(width, pitch / e, e);
    var row := pitch / e * e;
    if row % pa == 0 {
      CloseMultiples(row, pitch, pa);
    }
  }

  lemma CloseMultiples(x: nat, y: nat, a: nat)
    requires a > 0 && x % a == 0 && y % a == 0 && x <= y < x + a
    ensures x == y
  {
    DivMod(x, a);
    DivMod(y, a);
    MulOrder(x / a, y / a, a);
  }

  lemma {:induction false} NextPowerOfTwoIsOne(x: nat, e: nat) returns (k: nat)
    ensures NextPowerOfTwoFrom(x, Pow2(e)) == Pow2(k) && k >= e
    ensures x <= Pow2(k) && (k > e ==> Pow2(k - 1) < x)
    decreases if x <= Pow2(e) then 0 else x - Pow2(e)
  {
    if x <= Pow2(e) { k := e; } else { k := NextPowerOfTwoIsOne(x, e + 1); }
  }

  lemma {:induction false} Pow2Divides(e: nat, k: nat, x: nat)
    requires e <= k && x % Pow2(k) == 0
    ensures x % Pow2(e) == 0
  {
    Pow2Add(k - e, e);
    DivMod(x, Pow2(k));
    MulAssoc(x / Pow2(k), Pow2(k - e), Pow2(e));
    MulDiv(x / Pow2(k) * Pow2(k - e), Pow2(e));
  }

  /** For elements of 1, 2, 4, 8 or 16 bytes every row of an optimized layout is aligned. */
  lemma {:induction false} PowerOfTwoRowsAligned(d: Descriptor, e: nat, a: nat)
    requires d.strategy.Optimized? && d.elemSize == Pow2(e) && e <= 4 <= a
    requires PitchedAccepts(d, Pow2(a))
    ensures RowStride(d, Pow2(a)) * d.elemSize % PitchAlign(d, Pow2(a)) == 0
  {
    var align := Pow2(a);
    if Width(d.shape) != 1 {
      assert Pow2(0) == 1;
      var k := NextPowerOfTwoIsOne(Width(d.shape) * d.elemSize, 0);
      assert Pow2(4) == 16;
      var p := if Pow2(k) < 16 then 4 else if Pow2(k) > align then a else k;
      assert PitchAlign(d, align) == Pow2(p);
      if k < 4 { Pow2Mono(k, 3); }
      NextMultiple(Width(d.shape) * d.elemSize, PitchAlign(d, align));
      Pow2Divides(e, p, PitchBytes(d, align));
    }
    RowsAlignedIff(d, align);
  }

  /** Twelve-byte elements: the pitch is 32 bytes, but two of them are 24. */
  lemma TwelveByteRowsNotAligned()
    ensures var d := Descriptor([2, 2], 12, Optimized);
            && PitchedAccepts(d, 256) && PitchAlign(d, 256) == 32 && PitchBytes(d, 256) == 32
            && RowStride(d, 256) * d.elemSize == 24
  {
    var d := Descriptor([2, 2], 12, Optimized);
    assert NextPowerOfTwoFrom(24, 16) == 32;
    assert NextPowerOfTwoFrom(24, 4) == 32;
    assert NextPowerOfTwo(2 * 12) == 32;
  }
}
