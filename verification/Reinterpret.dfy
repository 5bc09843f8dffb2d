/**
 Reading and writing a slice of source vectors as a slice of larger scalars. Memory is an
 array of source scalars; a target value is a run of them.
 */
module Reinterpret {
  import opened Options
  import opened Arith

  /** The vector size to view the slice with, if it changes, and how many vectors make one
      target value, if several do. */
  datatype Plan = Plan(vectorSize: Option<nat>, loadMany: Option<nat>)

  /** No result stands for the panic on incompatible sizes. */
  function OptimizeVectorSize(sourceSize: nat, vectorSize: nat, targetSize: nat): Option<Plan>
    requires sourceSize > 0 && vectorSize > 0 && targetSize > 0
  {
    var vectorSourceSize := Prod(sourceSize, vectorSize);
    Positive(sourceSize, vectorSize);
    if vectorSourceSize < targetSize then
      if targetSize % vectorSourceSize != 0 then None
      else Some(Plan(None, Some(targetSize / vectorSourceSize)))
    else if vectorSourceSize > targetSize then
      if vectorSourceSize % targetSize != 0 then None
      else
        RatioPositive(vectorSourceSize, targetSize);
        Some(Plan(Some(vectorSize / (vectorSourceSize / targetSize)), None))
    else Some(Plan(None, None))
  }

  lemma Positive(a: nat, b: nat)
    requires a > 0 && b > 0
    ensures Prod(a, b) > 0
  {
    MulLess(0, a, b);
  }

  lemma RatioPositive(x: nat, n: nat)
    requires x > n > 0
    ensures x / n > 0
  {
    DivMod(x, n);
    MulOrder(x / n, 0, n);
  }

  /** What the constructor stores. */
  function ViewSize(plan: Plan, vectorSize: nat): nat {
    if plan.vectorSize.Some? then plan.vectorSize.value else vectorSize
  }
  function ViewCount(plan: Plan): nat { if plan.loadMany.Some? then plan.loadMany.value else 1 }

  /** The vectors loaded for one index make up one target value exactly when the source
      scalar size divides the target's. Only the case of one vector holding several targets
      can go wrong: the other two are multiples by construction. */
  lemma {:induction false} PlanExactIff(s: nat, v: nat, t: nat)
    requires s > 0 && v > 0 && t > 0 && OptimizeVectorSize(s, v, t).Some?
    ensures var plan := OptimizeVectorSize(s, v, t).value;
            ViewCount(plan) * ViewSize(plan, v) * s == t <==> t % s == 0
  {
    Positive(s, v);
    var x := Prod(s, v);
    if x < t {
      DivMod(t, x);
      Exactly(t / x, v, s, t);
    } else if x > t {
      DivMod(x, t);
      RatioPositive(x, t);
      SplitVector(s, v, t, x / t);
    } else {
      Exactly(1, v, s, t);
    }
  }

  lemma Exactly(a: nat, v: nat, s: nat, t: nat)
    requires s > 0 && t == a * (s * v)
    ensures a * v * s == t && t % s == 0
  {
    MulAssoc(a, v, s);
    assert s * v == v * s;
    MulDiv(a * v, s);
  }

  /** `s * v == r * t`: dividing the vector size by `r` leaves `t / s` scalars. */
  lemma SplitVector(s: nat, v: nat, t: nat, r: nat)
    requires s > 0 && t > 0 && r > 0 && s * v == r * t
    ensures 1 * (v / r) * s == t <==> t % s == 0
  {
    assert 1 * (v / r) == v / r;
    if t % s == 0 {
      DivMod(t, s);
      var n := t / s;
      MulAssoc(r, n, s);
      assert v * s == (r * n) * s;
      MulCancelNat(v, r * n, s);
      MulDivComm(n, r);
    }
    if (v / r) * s == t {
      var n := v / r;
      DivRemainder(t, s, n);
    }
  }

  lemma MulCancelNat(a: int, b: int, c: nat)
    requires c > 0 && a * c == b * c
    ensures a == b
  {
    if a < b { MulSub(b, a, c); MulLess(0, b - a, c); }
    if b < a { MulSub(a, b, c); MulLess(0, a - b, c); }
  }

  lemma MulDivComm(n: nat, r: nat)
    requires r > 0
    ensures (r * n) / r == n
  {
    MulDiv(n, r);
    assert r * n == n * r;
  }

  lemma DivRemainder(t: nat, s: nat, n: int)
    requires s > 0 && n * s == t
    ensures t % s == 0
  {
    DivMod(t, s);
    if n < 0 { MulSub(0, n, s); MulLess(0, -n, s); }
    MulDiv(n, s);
  }

  // --------------------------------------------------------------- runs of scalars

  /** The `i`-th run of `n` scalars. */
  predicate HasRun(data: seq<int>, n: nat, i: nat) { i * n + n <= |data| }

  /** The indices that have a run are those below the number of whole runs. */
  lemma HasRunIff(data: seq<int>, n: nat, i: nat)
    requires n > 0
    ensures HasRun(data, n, i) <==> i < |data| / n
  {
    DivMod(|data|, n);
    MulAdd(i, 1, n);
    MulOrder(i + 1, |data| / n, n);
    MulOrder(|data| / n, i, n);
  }

  function RunOf(data: seq<int>, n: nat, i: nat): (r: seq<int>)
    requires HasRun(data, n, i)
    ensures |r| == n
  {
    data[i * n..i * n + n]
  }

  function WithRun(data: seq<int>, n: nat, i: nat, value: seq<int>): (r: seq<int>)
    requires HasRun(data, n, i) && |value| == n
    ensures |r| == |data|
  {
    data[..i * n] + value + data[i * n + n..]
  }

  /** A write is seen by the read at its index and by no other. */
  lemma {:induction false} WriteThenRead(data: seq<int>, n: nat, i: nat, j: nat, value: seq<int>)
    requires HasRun(data, n, i) && HasRun(data, n, j) && |value| == n
    ensures RunOf(WithRun(data, n, i, value), n, j) == if i == j then value else RunOf(data, n, j)
  {
    var out := WithRun(data, n, i, value);
    MulOrder(i, j, n);
    MulOrder(j, i, n);
    if i == j {
      assert out[i * n..i * n + n] == value;
    } else if j < i {
      assert out[j * n..j * n + n] == data[j * n..j * n + n];
    } else {
      assert out[j * n..j * n + n] == data[j * n..j * n + n];
    }
  }

  /** Run `i` of `amount * v` scalars is the runs `i * amount .. (i + 1) * amount` of `v`. */
  lemma Inner(i: nat, amount: nat, v: nat, k: nat)
    requires k < amount
    ensures (i * amount + k) * v == i * (amount * v) + k * v
    ensures k * v + v <= amount * v
  {
    MulAdd(i * amount, k, v);
    MulAssoc(i, amount, v);
    MulStep(k, amount, v);
  }

  class ReinterpretSlice {
    const data: array<int>
    const vectorSize: nat
    const loadMany: Option<nat>

    constructor (data: array<int>, sourceSize: nat, inVectorSize: nat, targetSize: nat)
      requires sourceSize > 0 && inVectorSize > 0 && targetSize > 0
      requires OptimizeVectorSize(sourceSize, inVectorSize, targetSize).Some?
      ensures this.data == data
      ensures Scalars() * sourceSize == targetSize <==> targetSize % sourceSize == 0
    {
      var plan := OptimizeVectorSize(sourceSize, inVectorSize, targetSize).value;
      PlanExactIff(sourceSize, inVectorSize, targetSize);
      this.data := data;
      vectorSize := ViewSize(plan, inVectorSize);
      loadMany := plan.loadMany;
    }

    /** How many source scalars one index stands for. */
    function Scalars(): nat { (if loadMany.Some? then loadMany.value else 1) * vectorSize }

    /** The index-th run; `junk` fills a new vector. */
    method Read(index: nat, junk: int) returns (r: seq<int>)
      requires HasRun(data[..], Scalars(), index)
      ensures r == RunOf(data[..], Scalars(), index)
    {
      if loadMany.Some? {
        r := ReadMany(index, loadMany.value, junk);
      } else {
        assert 1 * vectorSize == vectorSize;
        r := data[index * vectorSize..index * vectorSize + vectorSize];
      }
    }

    /** `amount` vectors gathered into one. */
    method ReadMany(index: nat, amount: nat, junk: int) returns (r: seq<int>)
      requires HasRun(data[..], amount * vectorSize, index)
      ensures r == RunOf(data[..], amount * vectorSize, index)
    {
      ghost var base := index * (amount * vectorSize);
      var first := index * amount;
      r := seq(amount * vectorSize, _ => junk);
      var k := 0;
      ghost var done := 0;
      while k < amount
        invariant 0 <= k <= amount && |r| == amount * vectorSize
        invariant 0 <= done == k * vectorSize <= |r|
        invariant r[..done] == data[base..base + done]
      {
        Inner(index, amount, vectorSize, k);
        MulAdd(k, 1, vectorSize);
        r := Gather(r, k, first + k, vectorSize, base);
        k := k + 1;
        done := done + vectorSize;
      }
      assert r[..done] == r;
    }

    /** Copy the elements of vector `at` to their places in `into`. */
    method Gather(into: seq<int>, k: nat, at: nat, v: nat, ghost base: nat) returns (r: seq<int>)
      requires at * v + v <= data.Length && k * v + v <= |into| && at * v == base + k * v
      requires into[..k * v] == data[base..base + k * v]
      ensures |r| == |into| && r[..k * v + v] == data[base..base + k * v + v]
    {
      r := into;
      var j := 0;
      while j < v
        invariant 0 <= j <= v && |r| == |into|
        invariant r[..k * v + j] == data[base..base + k * v + j]
      {
        r := r[k * v + j := data[at * v + j]];
        j := j + 1;
        assert r[..k * v + j] == r[..k * v + j - 1] + [r[k * v + j - 1]];
      }
    }

    method Write(index: nat, value: seq<int>)
      requires HasRun(data[..], Scalars(), index) && |value| == Scalars()
      modifies data
      ensures data[..] == WithRun(old(data[..]), Scalars(), index, value)
    {
      ghost var was := data[..];
      if loadMany.Some? {
        WriteMany(index, loadMany.value, value);
      } else {
        assert 1 * vectorSize == vectorSize;
        Scatter(was, index * vectorSize, value, 0, index * vectorSize, vectorSize);
        assert value[..vectorSize] == value;
      }
    }

    /** The value cut into `amount` vectors, stored one by one. */
    method WriteMany(index: nat, amount: nat, value: seq<int>)
      requires HasRun(data[..], amount * vectorSize, index) && |value| == amount * vectorSize
      modifies data
      ensures data[..] == WithRun(old(data[..]), amount * vectorSize, index, value)
    {
      ghost var was, base := data[..], index * (amount * vectorSize);
      var first := index * amount;
      var k := 0;
      ghost var done := 0;
      while k < amount
        invariant 0 <= k <= amount && 0 <= done == k * vectorSize <= |value|
        invariant data[..] == was[..base] + value[..done] + was[base + done..]
      {
        Inner(index, amount, vectorSize, k);
        MulAdd(k, 1, vectorSize);
        Scatter(was, base, value, k * vectorSize, (first + k) * vectorSize, vectorSize);
        k := k + 1;
        done := done + vectorSize;
      }
      assert value[..done] == value;
    }

    /** Store `v` scalars of `value`, from `from` on, at position `at`. */
    method Scatter(ghost was: seq<int>, ghost base: nat, value: seq<int>, from: nat, at: nat, v: nat)
      requires from + v <= |value| && at == base + from && base + |value| <= |was| == data.Length
      requires data[..] == was[..base] + value[..from] + was[base + from..]
      modifies data
      ensures data[..] == was[..base] + value[..from + v] + was[base + from + v..]
    {
      var j := 0;
      while j < v
        invariant 0 <= j <= v
        invariant data[..] == was[..base] + value[..from + j] + was[base + from + j..]
      {
        data[at + j] := value[from + j];
        j := j + 1;
      }
    }
  }
}
