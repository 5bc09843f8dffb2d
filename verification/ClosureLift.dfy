/**
 `lift_closure`: collect the operands a function takes from outside, give it one extra
 argument for each, and rename the uses inside it. Captures are collected operand by
 operand, so a value used twice is captured twice; the first of its arguments takes
 over all its uses and the others stay unused.
 */
module ClosureLift {
  import opened Options
  import opened ClosureIr

  // -------------------------------------------------------------- walking upwards

  lemma {:induction false} OpUpNone(ir: Ir, o: OpId, k: nat, j: nat)
    requires OpUp(ir, o, k) == None && k <= j
    ensures OpUp(ir, o, j) == None
    decreases j
  {
    if k < j { OpUpNone(ir, o, k, j - 1); }
  }

  lemma {:induction false} BlockUpNone(ir: Ir, b: BlockId, k: nat, j: nat)
    requires BlockUp(ir, b, k) == None && k <= j
    ensures BlockUp(ir, b, j) == None
    decreases j
  {
    if k < j { BlockUpNone(ir, b, k, j - 1); }
  }

  lemma {:induction false} ParentIsHigher(ir: Ir, height: map<OpId, nat>, o: OpId)
    requires WellFormed(ir, height) && ParentOp(ir, o).Some?
    ensures var p := ParentOp(ir, o).value; p in ir.ops && o in ir.ops && Child(ir, p, o) && height[o] < height[p]
  {
    var b := ir.ops[o].parent.value;
    var p := ParentOp(ir, o).value;
    assert b in ir.ops[p].regions;
    var i :| 0 <= i < |ir.ops[p].regions| && ir.ops[p].regions[i] == b;
    assert o in ir.blocks[ir.ops[p].regions[i]].ops;
  }

  lemma {:induction false} ChildHasParent(ir: Ir, height: map<OpId, nat>, o: OpId, c: OpId)
    requires WellFormed(ir, height) && Child(ir, o, c)
    ensures ParentOp(ir, c) == Some(o)
  {
    var i :| 0 <= i < |ir.ops[o].regions| && ir.ops[o].regions[i] in ir.blocks
      && c in ir.blocks[ir.ops[o].regions[i]].ops;
    var b := ir.ops[o].regions[i];
    var j :| 0 <= j < |ir.blocks[b].ops| && ir.blocks[b].ops[j] == c;
  }

  /** Going up only ever gets higher, so nothing lies inside itself. */
  lemma {:induction false} UpIsHigher(ir: Ir, height: map<OpId, nat>, o: OpId, k: nat)
    requires WellFormed(ir, height) && o in ir.ops && OpUp(ir, o, k).Some?
    ensures OpUp(ir, o, k).value in ir.ops && height[OpUp(ir, o, k).value] >= height[o] + k
  {
    if k > 0 {
      UpIsHigher(ir, height, o, k - 1);
      ParentIsHigher(ir, height, OpUp(ir, o, k - 1).value);
    }
  }

  lemma {:induction false} NotInsideItself(ir: Ir, height: map<OpId, nat>, o: OpId)
    requires WellFormed(ir, height) && o in ir.ops
    ensures !OpInside(ir, o, o)
  {
    forall k: nat | k >= 1 ensures OpUp(ir, o, k) != Some(o) {
      if OpUp(ir, o, k).Some? { UpIsHigher(ir, height, o, k); }
    }
  }

  // ------------------------------------------------------------ walking downwards

  predicate AllChildren(ir: Ir, o: OpId, cs: seq<OpId>) { forall c | c in cs :: Child(ir, o, c) }

  /** The pre-order forward walk. */
  function Walk(ir: Ir, ghost height: map<OpId, nat>, o: OpId): (walk: seq<OpId>)
    requires WellFormed(ir, height) && o in ir.ops
    ensures forall w | w in walk :: w in ir.ops
    decreases height[o], 2, 0
  {
    [o] + WalkRegions(ir, height, o, 0)
  }

  function WalkRegions(ir: Ir, ghost height: map<OpId, nat>, o: OpId, i: nat): (walk: seq<OpId>)
    requires WellFormed(ir, height) && o in ir.ops && i <= |ir.ops[o].regions|
    ensures forall w | w in walk :: w in ir.ops
    decreases height[o], 1, |ir.ops[o].regions| - i
  {
    if i == |ir.ops[o].regions| then []
    else
      assert AllChildren(ir, o, ir.blocks[ir.ops[o].regions[i]].ops);
      WalkList(ir, height, o, ir.blocks[ir.ops[o].regions[i]].ops) + WalkRegions(ir, height, o, i + 1)
  }

  function WalkList(ir: Ir, ghost height: map<OpId, nat>, o: OpId, cs: seq<OpId>): (walk: seq<OpId>)
    requires WellFormed(ir, height) && o in ir.ops && AllChildren(ir, o, cs)
    ensures forall w | w in walk :: w in ir.ops
    decreases height[o], 0, |cs|
  {
    if cs == [] then []
    else
      assert Child(ir, o, cs[0]);
      Walk(ir, height, cs[0]) + WalkList(ir, height, o, cs[1..])
  }

  lemma {:induction false} WalkListMember(ir: Ir, height: map<OpId, nat>, o: OpId, cs: seq<OpId>, x: OpId)
    requires WellFormed(ir, height) && o in ir.ops && AllChildren(ir, o, cs)
    ensures x in WalkList(ir, height, o, cs) <==>
      exists i :: 0 <= i < |cs| && cs[i] in ir.ops && x in Walk(ir, height, cs[i])
  {
    if cs != [] {
      assert Child(ir, o, cs[0]);
      WalkListMember(ir, height, o, cs[1..], x);
      var here := x in Walk(ir, height, cs[0]);
      if x in WalkList(ir, height, o, cs[1..]) {
        var i :| 0 <= i < |cs[1..]| && cs[1..][i] in ir.ops && x in Walk(ir, height, cs[1..][i]);
        assert cs[i + 1] == cs[1..][i];
      }
      if j :| 0 <= j < |cs| && cs[j] in ir.ops && x in Walk(ir, height, cs[j]) {
        if j > 0 { assert cs[1..][j - 1] == cs[j]; }
      }
    }
  }

  lemma {:induction false} RegionChildren(ir: Ir, height: map<OpId, nat>, o: OpId, i: nat)
    requires WellFormed(ir, height) && o in ir.ops && i < |ir.ops[o].regions|
    ensures AllChildren(ir, o, ir.blocks[ir.ops[o].regions[i]].ops)
  {
  }

  /** The region a walked operation is in. */
  lemma {:induction false} RegionOf(ir: Ir, height: map<OpId, nat>, o: OpId, i: nat, x: OpId) returns (r: nat)
    requires WellFormed(ir, height) && o in ir.ops && i <= |ir.ops[o].regions| && x in WalkRegions(ir, height, o, i)
    ensures i <= r < |ir.ops[o].regions| && AllChildren(ir, o, ir.blocks[ir.ops[o].regions[r]].ops)
    ensures x in WalkList(ir, height, o, ir.blocks[ir.ops[o].regions[r]].ops)
    decreases |ir.ops[o].regions| - i
  {
    RegionChildren(ir, height, o, i);
    if x in WalkList(ir, height, o, ir.blocks[ir.ops[o].regions[i]].ops) {
      r := i;
    } else {
      r := RegionOf(ir, height, o, i + 1, x);
    }
  }

  lemma {:induction false} InRegion(ir: Ir, height: map<OpId, nat>, o: OpId, i: nat, r: nat, x: OpId)
    requires WellFormed(ir, height) && o in ir.ops && i <= r < |ir.ops[o].regions|
    requires AllChildren(ir, o, ir.blocks[ir.ops[o].regions[r]].ops)
      && x in WalkList(ir, height, o, ir.blocks[ir.ops[o].regions[r]].ops)
    ensures x in WalkRegions(ir, height, o, i)
    decreases r - i
  {
    if i < r { InRegion(ir, height, o, i + 1, r, x); }
  }

  lemma {:induction false} WalkedIsInside(ir: Ir, height: map<OpId, nat>, o: OpId, x: OpId)
    requires WellFormed(ir, height) && o in ir.ops && x in Walk(ir, height, o)
    ensures x == o || OpInside(ir, o, x)
    decreases height[o]
  {
    if x != o {
      var r := RegionOf(ir, height, o, 0, x);
      var cs := ir.blocks[ir.ops[o].regions[r]].ops;
      WalkListMember(ir, height, o, cs, x);
      var i :| 0 <= i < |cs| && cs[i] in ir.ops && x in Walk(ir, height, cs[i]);
      assert Child(ir, o, cs[i]);
      ChildHasParent(ir, height, o, cs[i]);
      WalkedIsInside(ir, height, cs[i], x);
      if x == cs[i] {
        assert OpUp(ir, x, 0) == Some(x);
        assert OpUp(ir, x, 1) == Some(o);
      } else {
        var k: nat :| k >= 1 && OpUp(ir, x, k) == Some(cs[i]);
        assert OpUp(ir, x, k + 1) == Some(o);
      }
    }
  }

  lemma {:induction false} InsideIsWalked(ir: Ir, height: map<OpId, nat>, o: OpId, x: OpId, k: nat)
    requires WellFormed(ir, height) && x in ir.ops && OpUp(ir, x, k) == Some(o)
    ensures o in ir.ops && x in Walk(ir, height, o)
    decreases k
  {
    if k > 0 {
      var c := OpUp(ir, x, k - 1).value;
      InsideIsWalked(ir, height, c, x, k - 1);
      ParentIsHigher(ir, height, c);
      var r :| 0 <= r < |ir.ops[o].regions| && ir.ops[o].regions[r] in ir.blocks
        && c in ir.blocks[ir.ops[o].regions[r]].ops;
      var cs := ir.blocks[ir.ops[o].regions[r]].ops;
      var i :| 0 <= i < |cs| && cs[i] == c;
      assert AllChildren(ir, o, cs);
      WalkListMember(ir, height, o, cs, x);
      InRegion(ir, height, o, 0, r, x);
    }
  }

  /** The walk of a function visits it and exactly the operations inside it. */
  lemma {:induction false} WalkIsInside(ir: Ir, height: map<OpId, nat>, func: OpId, x: OpId)
    requires WellFormed(ir, height) && func in ir.ops && x in ir.ops
    ensures x in Walk(ir, height, func) <==> x == func || OpInside(ir, func, x)
  {
    if x in Walk(ir, height, func) { WalkedIsInside(ir, height, func, x); }
    if OpInside(ir, func, x) {
      var k: nat :| k >= 1 && OpUp(ir, x, k) == Some(func);
      InsideIsWalked(ir, height, func, x, k);
    }
  }

  // -------------------------------------------------------------- what lifting does

  /** The operands defined outside the function, in order, repetitions kept. */
  ghost function Outside(ir: Ir, func: OpId, entry: BlockId, operands: seq<Value>): seq<Value> {
    if operands == [] then []
    else
      var v := operands[|operands| - 1];
      Outside(ir, func, entry, operands[..|operands| - 1]) + if InFunc(ir, func, entry, v) then [] else [v]
  }

  ghost function Captures(ir: Ir, func: OpId, entry: BlockId, walk: seq<OpId>): seq<Value>
    requires forall o | o in walk :: o in ir.ops
  {
    if walk == [] then []
    else Captures(ir, func, entry, walk[..|walk| - 1]) + Outside(ir, func, entry, ir.ops[walk[|walk| - 1]].operands)
  }

  lemma {:induction false} OutsideMember(ir: Ir, func: OpId, entry: BlockId, operands: seq<Value>, v: Value)
    ensures v in Outside(ir, func, entry, operands) <==> v in operands && !InFunc(ir, func, entry, v)
  {
    if operands != [] {
      var m := |operands| - 1;
      OutsideMember(ir, func, entry, operands[..m], v);
      assert operands == operands[..m] + [operands[m]];
    }
  }

  lemma {:induction false} CapturesMember(ir: Ir, func: OpId, entry: BlockId, walk: seq<OpId>, v: Value)
    requires forall o | o in walk :: o in ir.ops
    ensures v in Captures(ir, func, entry, walk) <==>
      !InFunc(ir, func, entry, v) && exists o :: o in walk && v in ir.ops[o].operands
  {
    if walk != [] {
      var m := |walk| - 1;
      CapturesMember(ir, func, entry, walk[..m], v);
      OutsideMember(ir, func, entry, ir.ops[walk[m]].operands, v);
      assert walk == walk[..m] + [walk[m]];
    }
  }

  lemma {:induction false} CapturesOutside(ir: Ir, height: map<OpId, nat>, func: OpId, entry: BlockId)
    requires WellFormed(ir, height) && func in ir.ops
    ensures forall c | c in Captures(ir, func, entry, Walk(ir, height, func)) :: !InFunc(ir, func, entry, c)
  {
    forall c | c in Captures(ir, func, entry, Walk(ir, height, func)) ensures !InFunc(ir, func, entry, c) {
      CapturesMember(ir, func, entry, Walk(ir, height, func), c);
    }
  }

  /** Where `v` first occurs. */
  function First(caps: seq<Value>, v: Value): (j: nat)
    requires v in caps
    ensures j < |caps| && caps[j] == v && forall i | 0 <= i < j :: caps[i] != v
  {
    if caps[0] == v then 0 else 1 + First(caps[1..], v)
  }

  /** A captured value becomes the argument made for its first capture. */
  function Renamed(caps: seq<Value>, entry: BlockId, n: nat, v: Value): Value {
    if v in caps then BlockArg(entry, n + First(caps, v)) else v
  }

  function RenameAll(caps: seq<Value>, entry: BlockId, n: nat, operands: seq<Value>): (r: seq<Value>)
    ensures |r| == |operands| && forall i | 0 <= i < |r| :: r[i] == Renamed(caps, entry, n, operands[i])
  {
    seq(|operands|, i requires 0 <= i < |operands| => Renamed(caps, entry, n, operands[i]))
  }

  ghost function Lifted(ir: Ir, func: OpId, entry: BlockId, caps: seq<Value>): Ir
    requires entry in ir.blocks
  {
    var n := ir.blocks[entry].numArgs;
    Ir(map o | o in ir.ops ::
         if OpInside(ir, func, o)
           then ir.ops[o].(operands := RenameAll(caps, entry, n, ir.ops[o].operands)) else ir.ops[o],
       ir.blocks[entry := ir.blocks[entry].(numArgs := n + |caps|)])
  }

  /** Same operations and nesting; operands and argument counts may differ. */
  ghost predicate SameShape(a: Ir, b: Ir) {
    && a.ops.Keys == b.ops.Keys && a.blocks.Keys == b.blocks.Keys
    && (forall o | o in a.ops :: b.ops[o] == a.ops[o].(operands := b.ops[o].operands))
    && (forall k | k in a.blocks :: b.blocks[k] == a.blocks[k].(numArgs := b.blocks[k].numArgs))
  }

  lemma {:induction false} ShapeUp(a: Ir, b: Ir, x: nat, k: nat)
    requires SameShape(a, b)
    ensures OpUp(a, x, k) == OpUp(b, x, k) && BlockUp(a, x, k) == BlockUp(b, x, k)
  {
    if k > 0 { ShapeUp(a, b, x, k - 1); }
  }

  lemma {:induction false} ShapeInside(a: Ir, b: Ir, func: OpId, entry: BlockId, v: Value)
    requires SameShape(a, b)
    ensures InFunc(a, func, entry, v) <==> InFunc(b, func, entry, v)
    ensures forall o :: OpInside(a, func, o) <==> OpInside(b, func, o)
  {
    forall x: nat, k: nat ensures OpUp(a, x, k) == OpUp(b, x, k) && BlockUp(a, x, k) == BlockUp(b, x, k) {
      ShapeUp(a, b, x, k);
    }
  }

  /** After lifting, every operand inside the function is defined inside it; the function
      has one more argument per capture, and nothing else changed. */
  lemma {:induction false} LiftedIsClosed(ir: Ir, height: map<OpId, nat>, func: OpId, entry: BlockId, o: OpId, j: nat)
    requires WellFormed(ir, height) && IsFunc(ir, func, entry)
    requires o in ir.ops && OpInside(ir, func, o) && j < |ir.ops[o].operands|
    ensures var caps := Captures(ir, func, entry, Walk(ir, height, func));
            var out := Lifted(ir, func, entry, caps);
            && SameShape(ir, out)
            && InFunc(out, func, entry, out.ops[o].operands[j])
            && forall p | p in ir.ops && !OpInside(ir, func, p) :: out.ops[p] == ir.ops[p]
  {
    var caps := Captures(ir, func, entry, Walk(ir, height, func));
    var out := Lifted(ir, func, entry, caps);
    var v := ir.ops[o].operands[j];
    WalkIsInside(ir, height, func, o);
    CapturesMember(ir, func, entry, Walk(ir, height, func), v);
    ShapeInside(ir, out, func, entry, out.ops[o].operands[j]);
    assert BlockUp(ir, entry, 0) == Some(entry);
  }

  lemma {:induction false} ShapeWellFormed(a: Ir, b: Ir, height: map<OpId, nat>)
    requires SameShape(a, b) && WellFormed(a, height)
    ensures WellFormed(b, height)
  {
    forall o, c | Child(b, o, c) ensures height[c] < height[o] {
      assert Child(a, o, c);
    }
  }

  function Replace(operands: seq<Value>, from: Value, to: Value): seq<Value> {
    seq(|operands|, i requires 0 <= i < |operands| => if operands[i] == from then to else operands[i])
  }

  ghost function Substituted(ir: Ir, func: OpId, from: Value, to: Value): Ir {
    Ir(map o | o in ir.ops ::
         if OpInside(ir, func, o) then ir.ops[o].(operands := Replace(ir.ops[o].operands, from, to)) else ir.ops[o],
       ir.blocks)
  }

  /** The substitution with the operations in `todo` still to come. */
  ghost function Partly(ir: Ir, func: OpId, from: Value, to: Value, todo: set<OpId>): Ir {
    Ir(map o | o in ir.ops ::
         if o !in todo && OpInside(ir, func, o)
           then ir.ops[o].(operands := Replace(ir.ops[o].operands, from, to)) else ir.ops[o],
       ir.blocks)
  }

  lemma {:induction false} PartlyNone(ir: Ir, func: OpId, from: Value, to: Value)
    ensures Partly(ir, func, from, to, ir.ops.Keys) == ir
  {
    assert Partly(ir, func, from, to, ir.ops.Keys).ops == ir.ops;
  }

  lemma {:induction false} PartlyAll(ir: Ir, func: OpId, from: Value, to: Value)
    ensures Partly(ir, func, from, to, {}) == Substituted(ir, func, from, to)
  {
    assert Partly(ir, func, from, to, {}).ops == Substituted(ir, func, from, to).ops;
  }

  lemma {:induction false} PartlyKeeps(ir: Ir, func: OpId, from: Value, to: Value, todo: set<OpId>,
                                       height: map<OpId, nat>)
    requires WellFormed(ir, height)
    ensures WellFormed(Partly(ir, func, from, to, todo), height)
  {
    ShapeWellFormed(ir, Partly(ir, func, from, to, todo), height);
  }

  lemma {:induction false} PartlyStep(ir: Ir, func: OpId, from: Value, to: Value, todo: set<OpId>, o: OpId)
    requires o in todo && o in ir.ops
    ensures var p := Partly(ir, func, from, to, todo);
            && o in p.ops
            && Partly(ir, func, from, to, todo - {o}) ==
                 if OpInside(p, func, o)
                   then p.(ops := p.ops[o := p.ops[o].(operands := Replace(p.ops[o].operands, from, to))]) else p
  {
    var p := Partly(ir, func, from, to, todo);
    ShapeInside(ir, p, func, 0, from);
    var q := Partly(ir, func, from, to, todo - {o});
    if OpInside(ir, func, o) {
      assert q.ops == p.ops[o := p.ops[o].(operands := Replace(p.ops[o].operands, from, to))];
    } else {
      assert q.ops == p.ops;
    }
  }

  ghost function WithArgument(ir: Ir, entry: BlockId): Ir
    requires entry in ir.blocks
  {
    ir.(blocks := ir.blocks[entry := ir.blocks[entry].(numArgs := ir.blocks[entry].numArgs + 1)])
  }

  lemma {:induction false} LiftNothing(ir: Ir, func: OpId, entry: BlockId)
    requires entry in ir.blocks
    ensures Lifted(ir, func, entry, []) == ir
  {
    var n := ir.blocks[entry].numArgs;
    assert forall o | o in ir.ops :: RenameAll([], entry, n, ir.ops[o].operands) == ir.ops[o].operands;
    assert Lifted(ir, func, entry, []).ops == ir.ops;
  }

  lemma {:induction false} LiftedWithArgument(ir: Ir, height: map<OpId, nat>, func: OpId, entry: BlockId,
                                              caps: seq<Value>)
    requires entry in ir.blocks && WellFormed(ir, height)
    ensures var lifted := Lifted(ir, func, entry, caps);
            && lifted.ops.Keys == ir.ops.Keys && entry in lifted.blocks
            && lifted.blocks[entry].numArgs == ir.blocks[entry].numArgs + |caps|
            && WellFormed(WithArgument(lifted, entry), height)
  {
    ShapeWellFormed(ir, WithArgument(Lifted(ir, func, entry, caps), entry), height);
  }

  lemma {:induction false} RenameOneMore(caps: seq<Value>, entry: BlockId, n: nat, j: nat, v: Value)
    requires j < |caps| && !(caps[j].BlockArg? && caps[j].block == entry)
    ensures Renamed(caps[..j + 1], entry, n, v) ==
      if Renamed(caps[..j], entry, n, v) == caps[j] then BlockArg(entry, n + j) else Renamed(caps[..j], entry, n, v)
  {
    var a, b := caps[..j], caps[..j + 1];
    assert b == a + [caps[j]];
    assert forall i | 0 <= i < j :: b[i] == a[i];
    assert b[j] == caps[j];
  }

  lemma {:induction false} RenameAllOneMore(caps: seq<Value>, entry: BlockId, n: nat, j: nat, operands: seq<Value>)
    requires j < |caps| && !(caps[j].BlockArg? && caps[j].block == entry)
    ensures Replace(RenameAll(caps[..j], entry, n, operands), caps[j], BlockArg(entry, n + j))
         == RenameAll(caps[..j + 1], entry, n, operands)
  {
    var before, after := RenameAll(caps[..j], entry, n, operands), RenameAll(caps[..j + 1], entry, n, operands);
    forall i | 0 <= i < |operands|
      ensures after[i] == if before[i] == caps[j] then BlockArg(entry, n + j) else before[i] {
      RenameOneMore(caps, entry, n, j, operands[i]);
    }
  }

  /** Adding the next argument and replacing the next capture extends the lifting by one. */
  lemma {:induction false} LiftOneMore(ir: Ir, func: OpId, entry: BlockId, caps: seq<Value>, j: nat)
    requires entry in ir.blocks && j < |caps| && !InFunc(ir, func, entry, caps[j])
    ensures Substituted(WithArgument(Lifted(ir, func, entry, caps[..j]), entry), func, caps[j],
                        BlockArg(entry, ir.blocks[entry].numArgs + j))
         == Lifted(ir, func, entry, caps[..j + 1])
  {
    var n := ir.blocks[entry].numArgs;
    var mid := WithArgument(Lifted(ir, func, entry, caps[..j]), entry);
    var lhs := Substituted(mid, func, caps[j], BlockArg(entry, n + j));
    var rhs := Lifted(ir, func, entry, caps[..j + 1]);
    assert BlockUp(ir, entry, 0) == Some(entry);
    assert SameShape(ir, mid);
    ShapeInside(ir, mid, func, entry, caps[j]);
    forall o | o in ir.ops ensures lhs.ops[o] == rhs.ops[o] {
      RenameAllOneMore(caps, entry, n, j, ir.ops[o].operands);
    }
    assert lhs.ops == rhs.ops;
    assert lhs.blocks == rhs.blocks;
  }

  /** The state before the next argument is pushed, and what pushing it gives. */
  lemma {:induction false} NextLift(ir: Ir, height: map<OpId, nat>, func: OpId, entry: BlockId, caps: seq<Value>,
                                    j: nat)
    requires entry in ir.blocks && WellFormed(ir, height) && j < |caps| && !InFunc(ir, func, entry, caps[j])
    ensures var lifted := Lifted(ir, func, entry, caps[..j]);
            && lifted.ops.Keys == ir.ops.Keys && entry in lifted.blocks
              && WellFormed(WithArgument(lifted, entry), height)
            && Substituted(WithArgument(lifted, entry), func, caps[j], BlockArg(entry, lifted.blocks[entry].numArgs))
            == Lifted(ir, func, entry, caps[..j + 1])
  {
    LiftOneMore(ir, func, entry, caps, j);
    LiftedWithArgument(ir, height, func, entry, caps[..j]);
  }

  /** The first `k` steps up do not meet `func`. */
  ghost predicate Missed(ir: Ir, func: OpId, op: OpId, k: nat) {
    k == 0 || (OpUp(ir, op, k) != Some(func) && Missed(ir, func, op, k - 1))
  }

  lemma {:induction false} MissedAt(ir: Ir, func: OpId, op: OpId, k: nat, j: nat)
    requires Missed(ir, func, op, k) && 1 <= j <= k
    ensures OpUp(ir, op, j) != Some(func)
  {
    if j < k { MissedAt(ir, func, op, k - 1, j); }
  }

  lemma {:induction false} NeverMet(ir: Ir, func: OpId, op: OpId, k: nat)
    requires Missed(ir, func, op, k) && OpUp(ir, op, k + 1) == None
    ensures !OpInside(ir, func, op)
  {
    forall j: nat | j >= 1 ensures OpUp(ir, op, j) != Some(func) {
      if j > k { OpUpNone(ir, op, k + 1, j); } else { MissedAt(ir, func, op, k, j); }
    }
  }

  // ------------------------------------------------------------------------ the pass

  class Context {
    var ops: map<OpId, OpData>
    var blocks: map<BlockId, BlockData>

    ghost function Value(): Ir
      reads this
    {
      Ir(ops, blocks)
    }

    /** Whether `op` lies inside `func`: follow parent operations. `height` and `top` only
        justify that the walk ends. */
    method OpIsInFunc(func: OpId, op: OpId, ghost height: map<OpId, nat>, ghost top: nat) returns (r: bool)
      requires WellFormed(Value(), height) && forall o | o in ops :: height[o] <= top
      ensures r <==> OpInside(Value(), func, op)
    {
      var cur := op;
      ghost var k: nat := 0;
      ghost var ir := Value();
      while ParentOp(Ir(ops, blocks), cur).Some?
        invariant OpUp(ir, op, k) == Some(cur)
        invariant Missed(ir, func, op, k)
        decreases if cur in ops then top + 1 - height[cur] else 0
      {
        ParentIsHigher(ir, height, cur);
        var parent := ParentOp(Ir(ops, blocks), cur).value;
        assert OpUp(ir, op, k + 1) == Some(parent);
        if parent == func { return true; }
        cur := parent;
        k := k + 1;
      }
      assert OpUp(ir, op, k + 1) == None;
      NeverMet(ir, func, op, k);
      r := false;
    }

    method BlockIsInFunc(entry: BlockId, block: BlockId, ghost height: map<OpId, nat>, ghost top: nat) returns (r: bool)
      requires WellFormed(Value(), height) && forall o | o in ops :: height[o] <= top
      ensures r <==> BlockInside(Value(), entry, block)
    {
      ghost var ir := Value();
      assert BlockUp(ir, block, 0) == Some(block);
      if entry == block { return true; }
      var cur := block;
      ghost var k: nat := 0;
      while ParentBlock(Ir(ops, blocks), cur).Some?
        invariant BlockUp(ir, block, k) == Some(cur)
        invariant forall j: nat | j <= k :: BlockUp(ir, block, j) != Some(entry)
        decreases if cur in blocks && blocks[cur].parent.Some? && blocks[cur].parent.value in ops
                  then top + 1 - height[blocks[cur].parent.value] else 0
      {
        var parent := ParentBlock(Ir(ops, blocks), cur).value;
        assert BlockUp(ir, block, k + 1) == Some(parent);
        if parent == entry { return true; }
        ghost var o := blocks[cur].parent.value;
        if ParentOp(ir, o).Some? { ParentIsHigher(ir, height, o); }
        cur := parent;
        k := k + 1;
      }
      assert BlockUp(ir, block, k + 1) == None;
      forall j: nat ensures BlockUp(ir, block, j) != Some(entry) {
        if j > k { BlockUpNone(ir, block, k + 1, j); }
      }
      r := false;
    }

    method IsInFunc(func: OpId, entry: BlockId, v: Value, ghost height: map<OpId, nat>, ghost top: nat)
      returns (r: bool)
      requires WellFormed(Value(), height) && forall o | o in ops :: height[o] <= top
      ensures r <==> InFunc(Value(), func, entry, v)
    {
      match v {
        case OpResult(o, _) => r := OpIsInFunc(func, o, height, top);
        case BlockArg(b, _) => r := BlockIsInFunc(entry, b, height, top);
      }
    }

    method CollectCaptures(func: OpId, entry: BlockId, ghost height: map<OpId, nat>, ghost top: nat)
      returns (captures: seq<Value>)
      requires WellFormed(Value(), height) && IsFunc(Value(), func, entry) && forall o | o in ops :: height[o] <= top
      ensures captures == Captures(Value(), func, entry, Walk(Value(), height, func))
    {
      ghost var ir := Value();
      var walk := Walk(Ir(ops, blocks), height, func);
      captures := [];
      var i := 0;
      while i < |walk|
        invariant 0 <= i <= |walk|
        invariant captures == Captures(ir, func, entry, walk[..i])
      {
        var operands := ops[walk[i]].operands;
        var j := 0;
        while j < |operands|
          invariant 0 <= j <= |operands|
          invariant captures == Captures(ir, func, entry, walk[..i]) + Outside(ir, func, entry, operands[..j])
        {
          var inside := IsInFunc(func, entry, operands[j], height, top);
          if !inside { captures := captures + [operands[j]]; }
          j := j + 1;
          assert operands[..j][..j - 1] == operands[..j - 1];
        }
        assert operands[..j] == operands;
        i := i + 1;
        assert walk[..i][..i - 1] == walk[..i - 1];
      }
      assert walk[..i] == walk;
    }

    /** Rename the uses of `from` by operations inside the function. */
    method ReplaceUses(func: OpId, from: Value, to: Value, ghost height: map<OpId, nat>, ghost top: nat)
      requires WellFormed(Value(), height) && forall o | o in ops :: height[o] <= top
      modifies this
      ensures Value() == Substituted(old(Value()), func, from, to)
    {
      ghost var ir := Value();
      var todo := ops.Keys;
      PartlyNone(ir, func, from, to);
      while todo != {}
        invariant todo <= ops.Keys == ir.ops.Keys
        invariant Value() == Partly(ir, func, from, to, todo)
        decreases |todo|
      {
        var o :| o in todo;
        PartlyKeeps(ir, func, from, to, todo, height);
        PartlyStep(ir, func, from, to, todo, o);
        var inside := OpIsInFunc(func, o, height, top);
        if inside {
          ops := ops[o := ops[o].(operands := Replace(ops[o].operands, from, to))];
        }
        todo := todo - {o};
      }
      PartlyAll(ir, func, from, to);
    }

    /** One more argument, taking over the uses of `capture` inside the function. */
    method LiftOne(func: OpId, entry: BlockId, capture: Value, ghost height: map<OpId, nat>, ghost top: nat)
      requires entry in blocks && WellFormed(WithArgument(Value(), entry), height)
        && forall o | o in ops :: height[o] <= top
      modifies this
      ensures Value() == Substituted(WithArgument(old(Value()), entry), func, capture,
                                     BlockArg(entry, old(blocks[entry].numArgs)))
    {
      var id := blocks[entry].numArgs;
      blocks := blocks[entry := blocks[entry].(numArgs := id + 1)];
      ReplaceUses(func, capture, BlockArg(entry, id), height, top);
    }

    method LiftNext(ghost ir: Ir, func: OpId, entry: BlockId, captures: seq<Value>, j: nat,
                    ghost height: map<OpId, nat>, ghost top: nat)
      requires entry in ir.blocks && WellFormed(ir, height) && forall o | o in ir.ops :: height[o] <= top
      requires j < |captures| && !InFunc(ir, func, entry, captures[j])
      requires Value() == Lifted(ir, func, entry, captures[..j])
      modifies this
      ensures Value() == Lifted(ir, func, entry, captures[..j + 1])
    {
      NextLift(ir, height, func, entry, captures, j);
      LiftOne(func, entry, captures[j], height, top);
    }

    /** The second loop: an argument per capture. */
    method PushArguments(func: OpId, entry: BlockId, captures: seq<Value>, ghost height: map<OpId, nat>, ghost top: nat)
      requires entry in blocks && WellFormed(Value(), height) && forall o | o in ops :: height[o] <= top
      requires forall c | c in captures :: !InFunc(Value(), func, entry, c)
      modifies this
      ensures Value() == Lifted(old(Value()), func, entry, captures)
    {
      ghost var ir := Value();
      var j := 0;
      LiftNothing(ir, func, entry);
      while j < |captures|
        invariant 0 <= j <= |captures|
        invariant Value() == Lifted(ir, func, entry, captures[..j])
      {
        LiftNext(ir, func, entry, captures, j, height, top);
        j := j + 1;
      }
      assert captures[..j] == captures;
    }

    /** Lift the closure: one new argument per capture, each taking over the uses of its
        value inside the function. */
    method LiftClosure(func: OpId, entry: BlockId, ghost height: map<OpId, nat>, ghost top: nat)
      returns (captures: seq<Value>)
      requires WellFormed(Value(), height) && IsFunc(Value(), func, entry) && forall o | o in ops :: height[o] <= top
      modifies this
      ensures captures == Captures(old(Value()), func, entry, Walk(old(Value()), height, func))
      ensures Value() == Lifted(old(Value()), func, entry, captures)
    {
      captures := CollectCaptures(func, entry, height, top);
      CapturesOutside(Value(), height, func, entry);
      PushArguments(func, entry, captures, height, top);
    }
  }
}
