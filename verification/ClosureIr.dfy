/**
 The IR a closure lives in, as the lifting pass sees it: operations and blocks that
 point at each other, operands that name the entity defining them, and a meaning for
 operations with nested regions.
 */
module ClosureIr {
  import opened Options

  type OpId = nat
  type BlockId = nat

  /** A value is a result of an operation or an argument of a block. */
  datatype Value = OpResult(op: OpId, idx: nat) | BlockArg(block: BlockId, idx: nat)

  /** Each region is one block. */
  datatype OpData = OpData(kind: nat, operands: seq<Value>, regions: seq<BlockId>, parent: Option<BlockId>)
  datatype BlockData = BlockData(numArgs: nat, ops: seq<OpId>, parent: Option<OpId>)

  datatype Ir = Ir(ops: map<OpId, OpData>, blocks: map<BlockId, BlockData>)

  predicate Child(ir: Ir, o: OpId, c: OpId) {
    && o in ir.ops && c in ir.ops
    && exists i :: 0 <= i < |ir.ops[o].regions| && ir.ops[o].regions[i] in ir.blocks
                   && c in ir.blocks[ir.ops[o].regions[i]].ops
  }

  /** Parents and children agree, and nesting is finite: `height` falls from an operation
      to those in its regions. */
  ghost predicate WellFormed(ir: Ir, height: map<OpId, nat>) {
    && (forall o | o in ir.ops :: o in height)
    && (forall o, i | o in ir.ops && 0 <= i < |ir.ops[o].regions| ::
          ir.ops[o].regions[i] in ir.blocks && ir.blocks[ir.ops[o].regions[i]].parent == Some(o))
    && (forall b, i | b in ir.blocks && 0 <= i < |ir.blocks[b].ops| ::
          ir.blocks[b].ops[i] in ir.ops && ir.ops[ir.blocks[b].ops[i]].parent == Some(b))
    && (forall o | o in ir.ops && ir.ops[o].parent.Some? ::
          ir.ops[o].parent.value in ir.blocks && o in ir.blocks[ir.ops[o].parent.value].ops)
    && (forall b | b in ir.blocks && ir.blocks[b].parent.Some? ::
          ir.blocks[b].parent.value in ir.ops && b in ir.ops[ir.blocks[b].parent.value].regions)
    && (forall o, c | Child(ir, o, c) :: height[c] < height[o])
  }

  /** Operands that name block arguments name arguments that exist. */
  ghost predicate ArgsExist(ir: Ir) {
    forall o, j | o in ir.ops && 0 <= j < |ir.ops[o].operands| ::
      var v := ir.ops[o].operands[j];
      v.BlockArg? && v.block in ir.blocks ==> v.idx < ir.blocks[v.block].numArgs
  }

  /** The operation around an operation: the parent of its parent block. */
  function ParentOp(ir: Ir, o: OpId): Option<OpId> {
    if o in ir.ops && ir.ops[o].parent.Some? && ir.ops[o].parent.value in ir.blocks
    then ir.blocks[ir.ops[o].parent.value].parent
    else None
  }

  /** The block around a block: the parent of its parent operation. */
  function ParentBlock(ir: Ir, b: BlockId): Option<BlockId> {
    if b in ir.blocks && ir.blocks[b].parent.Some? && ir.blocks[b].parent.value in ir.ops
    then ir.ops[ir.blocks[b].parent.value].parent
    else None
  }

  /** The `k`-th operation around `o`. */
  function OpUp(ir: Ir, o: OpId, k: nat): Option<OpId> {
    if k == 0 then Some(o)
    else
      match OpUp(ir, o, k - 1)
      case None => None
      case Some(p) => ParentOp(ir, p)
  }

  function BlockUp(ir: Ir, b: BlockId, k: nat): Option<BlockId> {
    if k == 0 then Some(b)
    else
      match BlockUp(ir, b, k - 1)
      case None => None
      case Some(p) => ParentBlock(ir, p)
  }

  ghost predicate OpInside(ir: Ir, func: OpId, o: OpId) {
    exists k: nat :: k >= 1 && OpUp(ir, o, k) == Some(func)
  }

  ghost predicate BlockInside(ir: Ir, entry: BlockId, b: BlockId) {
    exists k: nat :: BlockUp(ir, b, k) == Some(entry)
  }

  /** Whether the entity that defines `v` lies in the function. */
  ghost predicate InFunc(ir: Ir, func: OpId, entry: BlockId, v: Value) {
    match v
    case OpResult(o, _) => OpInside(ir, func, o)
    case BlockArg(b, _) => BlockInside(ir, entry, b)
  }

  ghost predicate IsFunc(ir: Ir, func: OpId, entry: BlockId) {
    func in ir.ops && ir.ops[func].regions == [entry] && entry in ir.blocks
  }

  // ---------------------------------------------------------------------- meaning

  type Env = map<Value, int>

  /** What an operation does next, given its kind, operand values, what its regions yielded
      so far, and the state: run one of its regions, or finish with results. Branches,
      loops and calls are all of this form. */
  datatype Action<S> = Enter(region: nat, args: seq<int>, s: S) | Finish(results: seq<int>, s: S)

  datatype Sem<!S> = Sem(act: (nat, seq<int>, seq<seq<int>>, S) -> Action<S>)

  datatype Res<S> = Stuck | Ran(values: seq<int>, s: S)

  /** Bind the values defined by one entity; `first` is any of them. */
  function Bind(env: Env, first: Value, values: seq<int>): Env {
    if values == [] then env
    else Bind(env, first, values[..|values| - 1])[first.(idx := |values| - 1) := values[|values| - 1]]
  }

  function Fetch(env: Env, operands: seq<Value>): Option<seq<int>> {
    if operands == [] then Some([])
    else
      var v := operands[|operands| - 1];
      match Fetch(env, operands[..|operands| - 1])
      case None => None
      case Some(vals) => if v in env then Some(vals + [env[v]]) else None
  }

  /** Run a block on arguments; its result is the operands of its last operation. */
  function RunBlock<S>(sem: Sem<S>, ir: Ir, b: BlockId, args: seq<int>, env: Env, s: S, fuel: nat): Res<S>
    decreases fuel, 2, 0
  {
    if b !in ir.blocks || |args| != ir.blocks[b].numArgs then Stuck
    else RunOps(sem, ir, ir.blocks[b].ops, Bind(env, BlockArg(b, 0), args), s, fuel)
  }

  function RunOps<S>(sem: Sem<S>, ir: Ir, ops: seq<OpId>, env: Env, s: S, fuel: nat): Res<S>
    decreases fuel, 1, |ops|
  {
    if ops == [] then Ran([], s)
    else if ops[0] !in ir.ops then Stuck
    else
      match Fetch(env, ir.ops[ops[0]].operands)
      case None => Stuck
      case Some(vals) =>
        if |ops| == 1 then Ran(vals, s)
        else
          match RunOp(sem, ir, ops[0], vals, [], env, s, fuel)
          case Stuck => Stuck
          case Ran(results, t) => RunOps(sem, ir, ops[1..], Bind(env, OpResult(ops[0], 0), results), t, fuel)
  }

  function RunOp<S>(sem: Sem<S>, ir: Ir, o: OpId, vals: seq<int>, history: seq<seq<int>>, env: Env, s: S,
                    fuel: nat): Res<S>
    requires o in ir.ops
    decreases fuel, 0, 0
  {
    if fuel == 0 then Stuck
    else
      match sem.act(ir.ops[o].kind, vals, history, s)
      case Finish(results, t) => Ran(results, t)
      case Enter(r, args, t) =>
        if r >= |ir.ops[o].regions| then Stuck
        else
          match RunBlock(sem, ir, ir.ops[o].regions[r], args, env, t, fuel - 1)
          case Stuck => Stuck
          case Ran(got, u) => RunOp(sem, ir, o, vals, history + [got], env, u, fuel - 1)
  }
}
