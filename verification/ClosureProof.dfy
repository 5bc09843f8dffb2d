/**
 Lifting preserves meaning: the lifted function, run standalone on its own arguments
 followed by the values of the captures, does what the closure did in its environment.
 */
module ClosureProof {
  import opened Options
  import opened ClosureIr
  import opened ClosureLift

  /** Defined in the function, and not one of the arguments lifting adds. */
  ghost predicate Local(ir: Ir, func: OpId, entry: BlockId, v: Value)
    requires entry in ir.blocks
  {
    InFunc(ir, func, entry, v) && !(v.BlockArg? && v.block == entry && v.idx >= ir.blocks[entry].numArgs)
  }

  /** What the simulation needs to know about an operation inside the function. */
  ghost predicate OpReady(ir: Ir, func: OpId, entry: BlockId, caps: seq<Value>, o: OpId)
    requires entry in ir.blocks
  {
    && o in ir.ops && OpInside(ir, func, o)
    && (forall v | v in ir.ops[o].operands :: v in caps || Local(ir, func, entry, v))
    && (forall b | b in ir.ops[o].regions :: b in ir.blocks && b != entry && BlockInside(ir, entry, b))
    && (forall b, c | b in ir.ops[o].regions && b in ir.blocks && c in ir.blocks[b].ops :: OpInside(ir, func, c))
  }

  ghost predicate Ready(ir: Ir, func: OpId, entry: BlockId, caps: seq<Value>)
    requires entry in ir.blocks
  {
    && (forall v | v in caps :: !InFunc(ir, func, entry, v))
    && (forall o | o in ir.ops && OpInside(ir, func, o) :: OpReady(ir, func, entry, caps, o))
    && (forall b, c | b in ir.blocks && c in ir.blocks[b].ops :: c in ir.ops)
  }

  // ------------------------------------------------------- the function is ready

  /** Inside a function, the blocks of operations are reached from its entry block. */
  lemma {:induction false} UpReachesEntry(ir: Ir, height: map<OpId, nat>, func: OpId, entry: BlockId, o: OpId, k: nat)
    requires WellFormed(ir, height) && IsFunc(ir, func, entry)
    requires k >= 1 && OpUp(ir, o, k) == Some(func) && o in ir.ops
    ensures ir.ops[o].parent.Some? && BlockUp(ir, ir.ops[o].parent.value, k - 1) == Some(entry)
    decreases k
  {
    assert OpUp(ir, o, 0) == Some(o);
    UpSplit(ir, o, k);
    var p := ParentOp(ir, o).value;
    var b := ir.ops[o].parent.value;
    if k > 1 {
      ParentIsHigher(ir, height, o);
      UpReachesEntry(ir, height, func, entry, p, k - 1);
      BlockUpSplit(ir, b, k - 1);
    } else {
      assert b in ir.ops[func].regions;
    }
  }

  /** The first step up can be taken first. */
  lemma {:induction false} UpSplit(ir: Ir, o: OpId, k: nat)
    requires k >= 1
    ensures OpUp(ir, o, k) == match ParentOp(ir, o) case None => None case Some(p) => OpUp(ir, p, k - 1)
  {
    if k == 1 {
      assert OpUp(ir, o, 0) == Some(o);
      if ParentOp(ir, o).Some? { assert OpUp(ir, ParentOp(ir, o).value, 0) == ParentOp(ir, o); }
    } else {
      UpSplit(ir, o, k - 1);
    }
  }

  lemma {:induction false} BlockUpSplit(ir: Ir, b: BlockId, k: nat)
    requires k >= 1
    ensures BlockUp(ir, b, k) == match ParentBlock(ir, b) case None => None case Some(p) => BlockUp(ir, p, k - 1)
  {
    if k == 1 {
      assert BlockUp(ir, b, 0) == Some(b);
      if ParentBlock(ir, b).Some? { assert BlockUp(ir, ParentBlock(ir, b).value, 0) == ParentBlock(ir, b); }
    } else {
      BlockUpSplit(ir, b, k - 1);
    }
  }

  lemma {:induction false} RegionInside(ir: Ir, height: map<OpId, nat>, func: OpId, entry: BlockId, o: OpId, b: BlockId)
    requires WellFormed(ir, height) && IsFunc(ir, func, entry)
    requires o in ir.ops && OpInside(ir, func, o) && b in ir.ops[o].regions
    ensures b in ir.blocks && b != entry && BlockInside(ir, entry, b)
  {
    var i :| 0 <= i < |ir.ops[o].regions| && ir.ops[o].regions[i] == b;
    assert ir.blocks[b].parent == Some(o);
    assert ir.ops[func].regions[0] == entry;
    if b == entry { NotInsideItself(ir, height, func); }
    var k: nat :| k >= 1 && OpUp(ir, o, k) == Some(func);
    UpReachesEntry(ir, height, func, entry, o, k);
    BlockUpSplit(ir, b, k);
  }

  lemma {:induction false} ChildInside(ir: Ir, height: map<OpId, nat>, func: OpId, o: OpId, c: OpId)
    requires WellFormed(ir, height) && Child(ir, o, c) && (o == func || OpInside(ir, func, o))
    ensures OpInside(ir, func, c)
  {
    ChildHasParent(ir, height, o, c);
    assert OpUp(ir, o, 0) == Some(o);
    var k: nat :| OpUp(ir, o, k) == Some(func);
    InsideUp(ir, func, o, c, k);
  }

  lemma {:induction false} InsideUp(ir: Ir, func: OpId, o: OpId, c: OpId, k: nat)
    requires ParentOp(ir, c) == Some(o) && OpUp(ir, o, k) == Some(func)
    ensures OpInside(ir, func, c)
  {
    UpSplit(ir, c, k + 1);
  }

  lemma {:induction false} OpIsReady(ir: Ir, height: map<OpId, nat>, func: OpId, entry: BlockId, walk: seq<OpId>,
                                     o: OpId)
    requires WellFormed(ir, height) && ArgsExist(ir) && IsFunc(ir, func, entry)
    requires (forall w | w in walk :: w in ir.ops) && o in walk && OpInside(ir, func, o)
    ensures OpReady(ir, func, entry, Captures(ir, func, entry, walk), o)
  {
    var caps := Captures(ir, func, entry, walk);
    forall v | v in ir.ops[o].operands ensures v in caps || Local(ir, func, entry, v) {
      CapturesMember(ir, func, entry, walk, v);
    }
    forall b | b in ir.ops[o].regions ensures b in ir.blocks && b != entry && BlockInside(ir, entry, b) {
      RegionInside(ir, height, func, entry, o, b);
    }
    forall b, c | b in ir.ops[o].regions && b in ir.blocks && c in ir.blocks[b].ops ensures OpInside(ir, func, c) {
      var j :| 0 <= j < |ir.blocks[b].ops| && ir.blocks[b].ops[j] == c;
      var i :| 0 <= i < |ir.ops[o].regions| && ir.ops[o].regions[i] == b;
      assert Child(ir, o, c);
      ChildInside(ir, height, func, o, c);
    }
  }

  lemma {:induction false} FunctionIsReady(ir: Ir, height: map<OpId, nat>, func: OpId, entry: BlockId)
    requires WellFormed(ir, height) && ArgsExist(ir) && IsFunc(ir, func, entry)
    ensures Ready(ir, func, entry, Captures(ir, func, entry, Walk(ir, height, func)))
  {
    var walk := Walk(ir, height, func);
    var caps := Captures(ir, func, entry, walk);
    CapturesOutside(ir, height, func, entry);
    forall o | o in ir.ops && OpInside(ir, func, o) ensures OpReady(ir, func, entry, caps, o) {
      WalkIsInside(ir, height, func, o);
      OpIsReady(ir, height, func, entry, walk, o);
    }
  }

  // ------------------------------------------------------------------ environments

  /** The environments agree on local values, and the second holds each captured value
      under its new name. */
  ghost predicate Agree(ir: Ir, func: OpId, entry: BlockId, caps: seq<Value>, e1: Env, e2: Env)
    requires entry in ir.blocks
  {
    && (forall v | Local(ir, func, entry, v) :: (v in e1 <==> v in e2) && (v in e1 ==> e1[v] == e2[v]))
    && (forall v | v in caps ::
          var w := Renamed(caps, entry, ir.blocks[entry].numArgs, v);
          v in e1 && w in e2 && e1[v] == e2[w])
  }

  predicate Bound(first: Value, len: nat, v: Value) { v == first.(idx := v.idx) && v.idx < len }

  lemma {:induction false} BindAt(env: Env, first: Value, values: seq<int>, v: Value)
    ensures v in Bind(env, first, values) <==> Bound(first, |values|, v) || v in env
    ensures v in Bind(env, first, values) ==>
      Bind(env, first, values)[v] == if Bound(first, |values|, v) then values[v.idx] else env[v]
  {
    if values != [] { BindAt(env, first, values[..|values| - 1], v); }
  }

  lemma {:induction false} BindAgree(ir: Ir, func: OpId, entry: BlockId, caps: seq<Value>, e1: Env, e2: Env,
                                     first: Value, values: seq<int>)
    requires entry in ir.blocks && Agree(ir, func, entry, caps, e1, e2)
    requires forall v | v in caps :: !InFunc(ir, func, entry, v)
    requires InFunc(ir, func, entry, first) && !(first.BlockArg? && first.block == entry)
    ensures Agree(ir, func, entry, caps, Bind(e1, first, values), Bind(e2, first, values))
  {
    var n := ir.blocks[entry].numArgs;
    var f1, f2 := Bind(e1, first, values), Bind(e2, first, values);
    forall v | Local(ir, func, entry, v) ensures (v in f1 <==> v in f2) && (v in f1 ==> f1[v] == f2[v]) {
      BindAt(e1, first, values, v);
      BindAt(e2, first, values, v);
    }
    forall v | v in caps
      ensures v in f1 && Renamed(caps, entry, n, v) in f2 && f1[v] == f2[Renamed(caps, entry, n, v)] {
      BindAt(e1, first, values, v);
      BindAt(e2, first, values, Renamed(caps, entry, n, v));
    }
  }

  lemma {:induction false} FetchAgree(ir: Ir, func: OpId, entry: BlockId, caps: seq<Value>, e1: Env, e2: Env,
                                      operands: seq<Value>)
    requires entry in ir.blocks && Agree(ir, func, entry, caps, e1, e2)
    requires forall v | v in caps :: !InFunc(ir, func, entry, v)
    requires forall v | v in operands :: v in caps || Local(ir, func, entry, v)
    ensures Fetch(e1, operands) == Fetch(e2, RenameAll(caps, entry, ir.blocks[entry].numArgs, operands))
  {
    var n := ir.blocks[entry].numArgs;
    var renamed := RenameAll(caps, entry, n, operands);
    if operands != [] {
      var m := |operands| - 1;
      FetchAgree(ir, func, entry, caps, e1, e2, operands[..m]);
      assert renamed[..m] == RenameAll(caps, entry, n, operands[..m]);
      assert operands[m] in operands;
    }
  }

  lemma {:induction false} FetchAt(env: Env, operands: seq<Value>, i: nat)
    requires Fetch(env, operands).Some?
    ensures |Fetch(env, operands).value| == |operands|
    ensures i < |operands| ==> operands[i] in env && Fetch(env, operands).value[i] == env[operands[i]]
  {
    if operands != [] { FetchAt(env, operands[..|operands| - 1], i); }
  }

  // -------------------------------------------------------------------- simulation

  lemma {:induction false} SimBlock<S>(sem: Sem<S>, ir: Ir, func: OpId, entry: BlockId, caps: seq<Value>,
                                      b: BlockId, args: seq<int>, e1: Env, e2: Env, s: S, fuel: nat)
    requires entry in ir.blocks && Ready(ir, func, entry, caps) && Agree(ir, func, entry, caps, e1, e2)
    requires b in ir.blocks && b != entry && BlockInside(ir, entry, b)
    requires forall c | c in ir.blocks[b].ops :: OpInside(ir, func, c)
    ensures RunBlock(sem, ir, b, args, e1, s, fuel)
      == RunBlock(sem, Lifted(ir, func, entry, caps), b, args, e2, s, fuel)
    decreases fuel, 2, 0
  {
    var out := Lifted(ir, func, entry, caps);
    assert out.blocks[b] == ir.blocks[b];
    if |args| == ir.blocks[b].numArgs {
      BindAgree(ir, func, entry, caps, e1, e2, BlockArg(b, 0), args);
      SimOps(sem, ir, func, entry, caps, ir.blocks[b].ops, Bind(e1, BlockArg(b, 0), args),
             Bind(e2, BlockArg(b, 0), args), s, fuel);
    }
  }

  lemma {:induction false} SimOps<S>(sem: Sem<S>, ir: Ir, func: OpId, entry: BlockId, caps: seq<Value>,
                                    ops: seq<OpId>, e1: Env, e2: Env, s: S, fuel: nat)
    requires entry in ir.blocks && Ready(ir, func, entry, caps) && Agree(ir, func, entry, caps, e1, e2)
    requires forall c | c in ops :: c in ir.ops && OpInside(ir, func, c)
    ensures RunOps(sem, ir, ops, e1, s, fuel) == RunOps(sem, Lifted(ir, func, entry, caps), ops, e2, s, fuel)
    decreases fuel, 1, |ops|
  {
    var out := Lifted(ir, func, entry, caps);
    if ops != [] {
      var o := ops[0];
      assert OpReady(ir, func, entry, caps, o);
      FetchAgree(ir, func, entry, caps, e1, e2, ir.ops[o].operands);
      var got := Fetch(e1, ir.ops[o].operands);
      assert got == Fetch(e2, out.ops[o].operands);
      if got.Some? && |ops| > 1 {
        SimOp(sem, ir, func, entry, caps, o, got.value, [], e1, e2, s, fuel);
        var run := RunOp(sem, ir, o, got.value, [], e1, s, fuel);
        if run.Ran? {
          BindAgree(ir, func, entry, caps, e1, e2, OpResult(o, 0), run.values);
          SimOps(sem, ir, func, entry, caps, ops[1..], Bind(e1, OpResult(o, 0), run.values),
                 Bind(e2, OpResult(o, 0), run.values), run.s, fuel);
        }
      }
    }
  }

  lemma {:induction false} SimRegion<S>(sem: Sem<S>, ir: Ir, func: OpId, entry: BlockId, caps: seq<Value>,
                                       o: OpId, r: nat, args: seq<int>, e1: Env, e2: Env, s: S, fuel: nat)
    requires entry in ir.blocks && Ready(ir, func, entry, caps) && Agree(ir, func, entry, caps, e1, e2)
    requires o in ir.ops && OpReady(ir, func, entry, caps, o) && r < |ir.ops[o].regions|
    ensures RunBlock(sem, ir, ir.ops[o].regions[r], args, e1, s, fuel)
         == RunBlock(sem, Lifted(ir, func, entry, caps), ir.ops[o].regions[r], args, e2, s, fuel)
    decreases fuel, 3, 0
  {
    assert ir.ops[o].regions[r] in ir.ops[o].regions;
    SimBlock(sem, ir, func, entry, caps, ir.ops[o].regions[r], args, e1, e2, s, fuel);
  }

  lemma {:induction false} SimOp<S>(sem: Sem<S>, ir: Ir, func: OpId, entry: BlockId, caps: seq<Value>,
                                   o: OpId, vals: seq<int>, history: seq<seq<int>>, e1: Env, e2: Env, s: S, fuel: nat)
    requires entry in ir.blocks && Ready(ir, func, entry, caps) && Agree(ir, func, entry, caps, e1, e2)
    requires o in ir.ops && OpReady(ir, func, entry, caps, o)
    ensures RunOp(sem, ir, o, vals, history, e1, s, fuel)
      == RunOp(sem, Lifted(ir, func, entry, caps), o, vals, history, e2, s, fuel)
    decreases fuel, 0, 0
  {
    var out := Lifted(ir, func, entry, caps);
    assert out.ops[o] == ir.ops[o].(operands := out.ops[o].operands);
    if fuel > 0 {
      var act := sem.act(ir.ops[o].kind, vals, history, s);
      if act.Enter? && act.region < |ir.ops[o].regions| {
        var b := ir.ops[o].regions[act.region];
        SimRegion(sem, ir, func, entry, caps, o, act.region, act.args, e1, e2, act.s, fuel - 1);
        var ran := RunBlock(sem, ir, b, act.args, e1, act.s, fuel - 1);
        if ran.Ran? {
          SimOp(sem, ir, func, entry, caps, o, vals, history + [ran.values], e1, e2, ran.s, fuel - 1);
        }
      }
    }
  }

  lemma {:induction false} EntryAgree(ir: Ir, func: OpId, entry: BlockId, caps: seq<Value>, outer: Env, args: seq<int>,
                                      vals: seq<int>)
    requires entry in ir.blocks && |args| == ir.blocks[entry].numArgs
    requires forall v | v in caps :: !InFunc(ir, func, entry, v)
    requires forall v | v in outer :: !InFunc(ir, func, entry, v)
    requires Fetch(outer, caps) == Some(vals)
    ensures Agree(ir, func, entry, caps, Bind(outer, BlockArg(entry, 0), args),
                  Bind(map[], BlockArg(entry, 0), args + vals))
  {
    var n := ir.blocks[entry].numArgs;
    var first := BlockArg(entry, 0);
    var e1, e2 := Bind(outer, first, args), Bind(map[], first, args + vals);
    assert BlockUp(ir, entry, 0) == Some(entry);
    FetchAt(outer, caps, 0);
    forall v | Local(ir, func, entry, v) ensures (v in e1 <==> v in e2) && (v in e1 ==> e1[v] == e2[v]) {
      BindAt(outer, first, args, v);
      BindAt(map[], first, args + vals, v);
    }
    forall v | v in caps
      ensures v in e1 && Renamed(caps, entry, n, v) in e2 && e1[v] == e2[Renamed(caps, entry, n, v)] {
      FetchAt(outer, caps, First(caps, v));
      BindAt(outer, first, args, v);
      BindAt(map[], first, args + vals, Renamed(caps, entry, n, v));
    }
  }

  /** Running the lifted function on its arguments and the captured values, with nothing
      else in scope, is running the closure where it was defined: same results, same state,
      same failures, for every meaning of the operations and every number of steps. */
  lemma {:induction false} LiftingCorrect<S>(sem: Sem<S>, ir: Ir, height: map<OpId, nat>, func: OpId, entry: BlockId,
                                            outer: Env, args: seq<int>, vals: seq<int>, s: S, fuel: nat)
    requires WellFormed(ir, height) && ArgsExist(ir) && IsFunc(ir, func, entry)
    requires forall v | v in outer :: !InFunc(ir, func, entry, v)
    requires Fetch(outer, Captures(ir, func, entry, Walk(ir, height, func))) == Some(vals)
    ensures RunBlock(sem, ir, entry, args, outer, s, fuel) ==
      RunBlock(sem, Lifted(ir, func, entry, Captures(ir, func, entry, Walk(ir, height, func))), entry, args + vals,
               map[], s, fuel)
  {
    var caps := Captures(ir, func, entry, Walk(ir, height, func));
    FunctionIsReady(ir, height, func, entry);
    FetchAt(outer, caps, 0);
    if |args| == ir.blocks[entry].numArgs {
      EntryAgree(ir, func, entry, caps, outer, args, vals);
      EntryOpsInside(ir, height, func, entry);
      SimOps(sem, ir, func, entry, caps, ir.blocks[entry].ops,
             Bind(outer, BlockArg(entry, 0), args), Bind(map[], BlockArg(entry, 0), args + vals), s, fuel);
    }
  }

  lemma {:induction false} EntryOpsInside(ir: Ir, height: map<OpId, nat>, func: OpId, entry: BlockId)
    requires WellFormed(ir, height) && IsFunc(ir, func, entry)
    ensures forall c | c in ir.blocks[entry].ops :: c in ir.ops && OpInside(ir, func, c)
  {
    forall c | c in ir.blocks[entry].ops ensures c in ir.ops && OpInside(ir, func, c) {
      var j :| 0 <= j < |ir.blocks[entry].ops| && ir.blocks[entry].ops[j] == c;
      assert ir.ops[func].regions[0] == entry;
      assert Child(ir, func, c);
      ChildInside(ir, height, func, func, c);
    }
  }
}
