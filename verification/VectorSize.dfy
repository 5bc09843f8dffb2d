/** Choosing a vector size along one axis of a strided tensor. */
module VectorSizes {
  import opened Arith
  import opened RowMajor
  import opened Ratios

  datatype VectorizationError = AxisOutOfBounds | StrideMismatch | NoValidVectorization
  datatype Result = Ok(size: nat) | Err(error: VectorizationError)

  /** A dimension other than the axis that is not broadcast. */
  predicate Outer(strides: seq<nat>, axis: nat, i: int) { 0 <= i < |strides| && i != axis && strides[i] != 0 }

  /** The smallest stride among the outer dimensions, or 0 if there are none. */
  function NextStride(strides: seq<nat>, axis: nat): (r: nat)
    ensures r == 0 <==> forall i :: !Outer(strides, axis, i)
    ensures r != 0 ==> exists i :: Outer(strides, axis, i) && strides[i] == r
    ensures forall i | Outer(strides, axis, i) :: r <= strides[i]
  {
    if strides == [] then 0
    else
      var m := |strides| - 1;
      var init := strides[..m];
      var rest := NextStride(init, axis);
      assert forall i :: i != m ==> (Outer(strides, axis, i) <==> Outer(init, axis, i));
      if !Outer(strides, axis, m) then rest
      else if rest == 0 || strides[m] < rest then strides[m]
      else rest
  }

  predicate Fits(size: nat, extent: nat, next: nat)
    requires size > 0
  {
    extent % size == 0 && next % size == 0
  }

  /** The largest candidate that divides both numbers. */
  function Largest(supported: seq<nat>, extent: nat, next: nat): (r: Result)
    requires forall s | s in supported :: s > 0
    ensures r.Ok? ==> r.size in supported && Fits(r.size, extent, next)
    ensures r.Ok? ==> forall s | s in supported && Fits(s, extent, next) :: s <= r.size
    ensures r.Err? ==> r.error == NoValidVectorization && forall s | s in supported :: !Fits(s, extent, next)
  {
    if supported == [] then Err(NoValidVectorization)
    else
      var s := supported[0];
      assert s in supported && forall x | x in supported[1..] :: x in supported;
      var rest := Largest(supported[1..], extent, next);
      assert supported == [s] + supported[1..];
      if !Fits(s, extent, next) then rest
      else if rest.Err? || rest.size < s then Ok(s)
      else rest
  }

  function TryVectorSize(supported: seq<nat>, shape: seq<nat>, strides: seq<nat>, axis: nat): (r: Result)
    requires forall s | s in supported :: s > 0
    ensures r.Ok? ==> axis < |strides| && axis < |shape| && strides[axis] == 1 && r.size in supported && r.size > 0
  {
    if axis >= |strides| then Err(AxisOutOfBounds)
    else if strides[axis] != 1 then Err(StrideMismatch)
    else if axis >= |shape| then Err(AxisOutOfBounds)
    else Largest(supported, shape[axis], NextStride(strides, axis))
  }

  /** What the documentation asks of a size: it divides the extent and every outer stride. */
  ghost predicate Valid(size: nat, shape: seq<nat>, strides: seq<nat>, axis: nat)
    requires size > 0 && axis < |shape|
  {
    shape[axis] % size == 0 && forall i | Outer(strides, axis, i) :: strides[i] % size == 0
  }

  /** The condition under which testing the smallest stride is enough. It holds when every
      outer stride is a multiple of the smallest. */
  ghost predicate Nested(shape: seq<nat>, strides: seq<nat>, axis: nat)
    requires axis < |shape|
  {
    var g := Gcd(shape[axis], NextStride(strides, axis));
    forall i | Outer(strides, axis, i) :: g > 0 && strides[i] % g == 0
  }

  lemma {:induction false} MultiplesAreNested(shape: seq<nat>, strides: seq<nat>, axis: nat)
    requires axis < |shape|
    requires forall i | Outer(strides, axis, i) ::
      NextStride(strides, axis) > 0 && strides[i] % NextStride(strides, axis) == 0
    ensures Nested(shape, strides, axis)
  {
    var next := NextStride(strides, axis);
    var g := Gcd(shape[axis], next);
    forall i | Outer(strides, axis, i) ensures g > 0 && strides[i] % g == 0 {
      GcdDivides(shape[axis], next);
      DividesThrough(strides[i], next, g);
    }
  }

  lemma DividesThrough(x: nat, n: nat, g: nat)
    requires n > 0 && g > 0 && x % n == 0 && n % g == 0
    ensures x % g == 0
  {
    var q := MultipleOf(x, n);
    var p := MultipleOf(n, g);
    MulAssoc(q, p, g);
    MulDiv(q * p, g);
  }

  /** Under the condition, what the code tests is what the documentation asks. */
  lemma {:induction false} FitsIsValid(size: nat, shape: seq<nat>, strides: seq<nat>, axis: nat)
    requires size > 0 && axis < |shape| && Nested(shape, strides, axis)
    ensures Fits(size, shape[axis], NextStride(strides, axis)) <==> Valid(size, shape, strides, axis)
  {
    var next := NextStride(strides, axis);
    if Fits(size, shape[axis], next) {
      forall i | Outer(strides, axis, i) ensures strides[i] % size == 0 {
        GcdGreatest(shape[axis], next, size);
        DividesThrough(strides[i], Gcd(shape[axis], next), size);
      }
    }
    if Valid(size, shape, strides, axis) && next != 0 {
      var i :| Outer(strides, axis, i) && strides[i] == next;
    }
  }

  /** Which answer arises when: neighbours along the axis must be neighbours in memory, and
      a size must divide the extent and the smallest outer stride. */
  lemma {:induction false} Answers(supported: seq<nat>, shape: seq<nat>, strides: seq<nat>, axis: nat)
    requires forall s | s in supported :: s > 0
    ensures var r := TryVectorSize(supported, shape, strides, axis);
            && (r == Err(StrideMismatch) <==> axis < |strides| && strides[axis] != 1)
            && (r == Err(AxisOutOfBounds) <==> axis >= |strides| || (strides[axis] == 1 && axis >= |shape|))
            && (r == Err(NoValidVectorization) <==>
                 && axis < |strides| && axis < |shape| && strides[axis] == 1
                 && forall s | s in supported :: shape[axis] % s != 0 || NextStride(strides, axis) % s != 0)
  {
    if axis < |shape| {
      forall s | s in supported
        ensures Fits(s, shape[axis], NextStride(strides, axis)) <==>
          shape[axis] % s == 0 && NextStride(strides, axis) % s == 0 { }
    }
  }

  /** The result is the largest supported size that divides the extent and every outer
      stride; for a unit stride there is none exactly when the answer is the error. */
  lemma {:induction false} LargestValid(supported: seq<nat>, shape: seq<nat>, strides: seq<nat>, axis: nat)
    requires forall s | s in supported :: s > 0
    requires axis < |shape| ==> Nested(shape, strides, axis)
    ensures var r := TryVectorSize(supported, shape, strides, axis);
            && (r.Ok? ==> axis < |shape| && r.size in supported && Valid(r.size, shape, strides, axis)
                          && forall s | s in supported && Valid(s, shape, strides, axis) :: s <= r.size)
            && (axis < |shape| && axis < |strides| && strides[axis] == 1 ==>
                  (r.Err? <==> forall s | s in supported :: !Valid(s, shape, strides, axis)))
  {
    if axis < |shape| { SizesAgree(supported, shape, strides, axis); }
  }

  lemma {:induction false} SizesAgree(supported: seq<nat>, shape: seq<nat>, strides: seq<nat>, axis: nat)
    requires (forall s | s in supported :: s > 0) && axis < |shape| && Nested(shape, strides, axis)
    ensures forall s | s in supported ::
      Fits(s, shape[axis], NextStride(strides, axis)) <==> Valid(s, shape, strides, axis)
  {
    forall s | s in supported
      ensures Fits(s, shape[axis], NextStride(strides, axis)) <==> Valid(s, shape, strides, axis) {
      FitsIsValid(s, shape, strides, axis);
    }
  }

  /** And the condition is needed: without it some list of supported sizes gets an answer
      that does not divide every outer stride. */
  lemma {:induction false} NestedIsNeeded(shape: seq<nat>, strides: seq<nat>, axis: nat) returns (supported: seq<nat>)
    requires axis < |shape| && axis < |strides| && strides[axis] == 1 && !Nested(shape, strides, axis)
    ensures forall s | s in supported :: s > 0
    ensures var r := TryVectorSize(supported, shape, strides, axis);
            r.Ok? && r.size > 0 && !Valid(r.size, shape, strides, axis)
  {
    var next := NextStride(strides, axis);
    var g := Gcd(shape[axis], next);
    var i :| Outer(strides, axis, i) && !(g > 0 && strides[i] % g == 0);
    assert next > 0;
    GcdDivides(shape[axis], next);
    supported := [g];
    assert Fits(g, shape[axis], next);
    assert g in supported;
  }

  /** Strides 6, 4, 1 along the last axis of extent 4: the answer is 4, and 6 is no
      multiple of it. */
  lemma SmallestIsNotEnough()
    ensures TryVectorSize([1, 2, 4], [2, 2, 4], [6, 4, 1], 2) == Ok(4) && 6 % 4 != 0
  {
    var strides := [6, 4, 1];
    assert Outer(strides, 2, 1) && Outer(strides, 2, 0);
    var next := NextStride(strides, 2);
    assert next == 4;
    assert 4 in [1, 2, 4] && Fits(4, 4, 4);
  }

  // ------------------------------------------------------------------- what it is for

  lemma {:induction false} DotAligned(size: nat, strides: seq<nat>, idx: seq<nat>)
    requires size > 0 && |idx| == |strides|
    requires forall i | 0 <= i < |idx| :: (idx[i] * strides[i]) % size == 0
    ensures Dot(strides, idx) % size == 0
  {
    if idx != [] {
      var m := |idx| - 1;
      DotAligned(size, strides[..m], idx[..m]);
      MultiplesAdd(Dot(strides[..m], idx[..m]), idx[m] * strides[m], size);
    }
  }

  lemma ProductAligned(x: nat, y: nat, n: nat)
    requires n > 0 && (x % n == 0 || y % n == 0)
    ensures (x * y) % n == 0
  {
    if x % n == 0 {
      var p := MultipleOf(x, n);
      MulAssoc(p, y, n);
      MulDiv(p * y, n);
    } else {
      var p := MultipleOf(y, n);
      MulAssoc(x, p, n);
      MulDiv(x * p, n);
    }
  }

  lemma {:induction false} DotShift(strides: seq<nat>, idx: seq<nat>, axis: nat, k: nat)
    requires |idx| == |strides| && axis < |idx| && strides[axis] == 1
    ensures Dot(strides, idx[axis := idx[axis] + k]) == Dot(strides, idx) + k
  {
    var m := |idx| - 1;
    var moved := idx[axis := idx[axis] + k];
    if axis < m {
      assert moved[..m] == idx[..m][axis := idx[axis] + k];
      DotShift(strides[..m], idx[..m], axis, k);
    } else {
      assert moved[..m] == idx[..m];
    }
  }

  /** Where the answer is a size, a coordinate that is a multiple of it along the axis starts an
      aligned run of that many consecutive elements, all of them in the tensor. */
  lemma {:induction false} VectorsAreAlignedRuns(supported: seq<nat>, shape: seq<nat>, strides: seq<nat>, axis: nat,
                                                 idx: seq<nat>, k: nat)
    requires forall s | s in supported :: s > 0
    requires axis < |shape| ==> Nested(shape, strides, axis)
    requires InShape(shape, idx) && |strides| == |shape|
    requires var r := TryVectorSize(supported, shape, strides, axis);
             r.Ok? && idx[axis] % r.size == 0 && k < r.size
    ensures Dot(strides, idx) % TryVectorSize(supported, shape, strides, axis).size == 0
    ensures InShape(shape, idx[axis := idx[axis] + k])
    ensures Dot(strides, idx[axis := idx[axis] + k]) == Dot(strides, idx) + k
  {
    LargestValid(supported, shape, strides, axis);
    ValidIsAlignedRun(TryVectorSize(supported, shape, strides, axis).size, shape, strides, axis, idx, k);
  }

  lemma {:induction false} ValidIsAlignedRun(size: nat, shape: seq<nat>, strides: seq<nat>, axis: nat,
                                             idx: seq<nat>, k: nat)
    requires size > 0 && |strides| == |shape| && axis < |shape| && strides[axis] == 1
      && Valid(size, shape, strides, axis)
    requires InShape(shape, idx) && idx[axis] % size == 0 && k < size
    ensures Dot(strides, idx) % size == 0
    ensures InShape(shape, idx[axis := idx[axis] + k])
    ensures Dot(strides, idx[axis := idx[axis] + k]) == Dot(strides, idx) + k
  {
    forall i | 0 <= i < |idx| ensures (idx[i] * strides[i]) % size == 0 {
      if i == axis {
        ProductAligned(idx[i], strides[i], size);
      } else {
        assert Outer(strides, axis, i) || strides[i] == 0;
        ProductAligned(idx[i], strides[i], size);
      }
    }
    DotAligned(size, strides, idx);
    DotShift(strides, idx, axis, k);
    RunFits(idx[axis], shape[axis], size, k);
  }

  lemma RunFits(x: nat, extent: nat, size: nat, k: nat)
    requires size > 0 && x % size == 0 && extent % size == 0 && x < extent && k < size
    ensures x + k < extent
  {
    var p := MultipleOf(x, size);
    var q := MultipleOf(extent, size);
    MulOrder(q, p, size);
    MulOrder(p, q, size);
  }
}
