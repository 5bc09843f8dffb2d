/**
 The whole expansion: what the built blocks do when they run, against direct early exit.
 */
module ScopeExec {
  import opened Options
  import opened Lowering
  import opened LoweringSafe
  import opened LoweringSteer
  import opened LoweringProof
  import opened LoweringConverse
  import opened ScopeBlocks
  import opened ScopeProof

  /** The built blocks, run from the first, end in state `t`. */
  ghost predicate BlocksYield<S>(m: Machine<S>, bs: Blocks, s: S, mem: Mem, t: S) {
    WF(bs) && bs != [] &&
      exists f: nat :: IrEndsIn(ExecIr(m, Decode(bs, 0, 0, |bs|, 0, INil), [], s, mem, f), t)
  }

  /** Safe functions whose blocks are well formed: the blocks end exactly if direct early exit
      ends, and in the same state. */
  lemma {:induction false} BlocksCorrect<S>(m: Machine<S>, p: Prog, s: S, mem: Mem, t: S)
    requires WellScoped(p, false) && Buildable(p, None, 1) && Safe(p)
    ensures Yields(m, p, s, t) <==> BlocksYield(m, ExpandFunc(p), s, mem, t)
  {
    BlocksMean(m, p, s, mem, t);
    LoweringCorrect(m, p, s, mem, t);
  }

  lemma {:induction false} BlocksMean<S>(m: Machine<S>, p: Prog, s: S, mem: Mem, t: S)
    requires WellScoped(p, false) && Buildable(p, None, 1)
    ensures IrYields(m, p, s, mem, t) <==> BlocksYield(m, ExpandFunc(p), s, mem, t)
  {
    TerminatorsIff(p);
  }

  /** The expansion of `p` is right: no block is malformed, and on every machine the blocks do
      what direct early exit does. */
  ghost predicate RightlyBuilt(p: Prog) {
    && !Broken(ExpandFunc(p))
    && forall m: Machine<nat>, s: nat, mem: Mem, t: nat ::
         Yields(m, p, s, t) <==> BlocksYield(m, ExpandFunc(p), s, mem, t)
  }

  /** Exactly the programs that are buildable and safe are expanded rightly. */
  lemma {:induction false} RightlyBuiltIff(p: Prog)
    requires Distinct(p) && WellScoped(p, false)
    ensures RightlyBuilt(p) <==> Buildable(p, None, 1) && Safe(p)
  {
    TerminatorsIff(p);
    FaithfulIff(p);
    if Buildable(p, None, 1) {
      forall m: Machine<nat>, s: nat, mem: Mem, t: nat
        ensures IrYields(m, p, s, mem, t) <==> BlocksYield(m, ExpandFunc(p), s, mem, t)
      {
        BlocksMean(m, p, s, mem, t);
      }
    }
  }
}
