/**
 The expansion as the source performs it: scopes with an insertion point and two marks,
 appending to shared blocks and moving into guards. Every method computes what `ScopeSpec`
 says, for every program, and so has what `ScopeProof` shows about it.
 */
module ScopeBuilder {
  import opened Options
  import opened Lowering
  import opened LoweringSafe
  import opened LoweringProof
  import opened ScopeBlocks
  import Spec = ScopeSpec
  import Proof = ScopeProof

  class Context {
    var blocks: Blocks
    var nextFlag: nat

    constructor ()
      ensures blocks == [[]] && nextFlag == 0
    {
      blocks, nextFlag := [[]], 0;
    }
  }

  class Scope {
    const ctx: Context
    const brk: Option<nat>
    var block: nat
    var pos: nat
    var mayBreak: bool
    var mayReturn: bool

    constructor (ctx: Context, block: nat, brk: Option<nat>)
      ensures this.ctx == ctx && this.brk == brk && this.block == block && pos == 0 && !mayBreak && !mayReturn
    {
      this.ctx, this.brk, this.block := ctx, brk, block;
      pos, mayBreak, mayReturn := 0, false, false;
    }

    ghost function State(): Spec.St
      reads this, ctx
    {
      Spec.St(ctx.blocks, ctx.nextFlag, block, pos, mayBreak, mayReturn)
    }

    ghost predicate Valid()
      reads this, ctx
    {
      Spec.InBounds(State())
    }

    method Register(n: Node)
      requires Valid()
      modifies this`pos, ctx`blocks
      ensures Valid() && State() == Spec.Register(old(State()), n)
    {
      ctx.blocks := Insert(ctx.blocks, block, pos, n);
      pos := pos + 1;
    }

    method TerminateYield()
      requires Valid()
      modifies this`pos, ctx`blocks
      ensures Valid() && State() == Spec.Terminate(old(State()))
    {
      if !Ends(ctx.blocks[block]) { Register(NYield); }
    }

    method PredicateOnFlag(f: nat)
      requires Valid()
      modifies this`block, this`pos, ctx`blocks
      ensures Valid() && State() == Spec.PredicateOn(old(State()), f)
    {
      ghost var st := State();
      Spec.PredicateGrows(st, f);
      var thn := |ctx.blocks|;
      ctx.blocks := ctx.blocks + [[NYield]] + [[NYield]];
      assert State() == st.(blocks := st.blocks + [[NYield]] + [[NYield]]);
      Register(NGuard(f, thn, thn + 1));
      TerminateYield();
      block, pos := thn, 0;
    }

    /** The arguments say whether a child scope is marked. */
    method SetBreakReturn(childBreaks: bool, childReturns: bool)
      requires Valid() && (childBreaks ==> brk.Some?)
      modifies this, ctx`blocks
      ensures Valid() && State() == Spec.BreakReturn(old(State()), brk, childBreaks, childReturns)
    {
      SetMayBreak(childBreaks);
      SetMayReturn(childReturns);
    }

    method SetMayBreak(child: bool)
      requires Valid() && (child ==> brk.Some?)
      modifies this, ctx`blocks
      ensures Valid() && State() == Spec.MayBreak(old(State()), brk, child)
    {
      if child {
        mayBreak := true;
        PredicateOnFlag(brk.value);
      }
    }

    method SetMayReturn(child: bool)
      requires Valid()
      modifies this, ctx`blocks
      ensures Valid() && State() == Spec.MayReturn(old(State()), child)
    {
      if child {
        mayReturn := true;
        PredicateOnFlag(RET);
      }
    }

    /** A new block expanded in a scope of its own and terminated: a branch or a while body. */
    method BuildChild(p: Prog, childBrk: Option<nat>) returns (t: nat, breaks: bool, exits: bool)
      requires Valid() && WellScoped(p, childBrk.Some?)
      modifies ctx
      ensures Valid() && t == |old(ctx.blocks)|
      ensures var child := Spec.Branch(p, old(State()), childBrk);
              State() == Spec.Back(old(State()), child) && breaks == child.mayBreak && exits == child.mayReturn
      decreases p, 1
    {
      Spec.ChildGrows(p, State(), childBrk);
      t := |ctx.blocks|;
      ctx.blocks := ctx.blocks + [[]];
      var child := new Scope(ctx, t, childBrk);
      child.Expand(p);
      child.TerminateYield();
      breaks, exits := child.mayBreak, child.mayReturn;
    }

    method Expand(p: Prog)
      requires Valid() && WellScoped(p, brk.Some?)
      modifies this, ctx
      ensures Valid() && State() == Spec.Expand(p, old(State()), brk)
      decreases p, 0
    {
      if p.Then? {
        ExpandStmt(p.s);
        if !p.s.Break? { Expand(p.rest); }
      }
    }

    method ExpandStmt(st: Stmt)
      requires Valid() && WellScopedS(st, brk.Some?)
      modifies this, ctx
      ensures Valid() && State() == Spec.ExpandStmt(st, old(State()), brk)
      decreases st, 2
    {
      match st {
        case Act(a) => Register(NOp(a));
        case Break => Register(NClear(brk.value)); mayBreak := true;
        case Return => Register(NClear(RET)); mayReturn := true;
        case If(c, t, e) => ExpandIf(c, t, e);
        case While(c, body) => ExpandWhile(c, body);
        case For(r, body) => ExpandFor(r, body);
      }
    }

    method ExpandIf(c: Cond, t: Prog, e: Prog)
      requires Valid() && WellScoped(t, brk.Some?) && WellScoped(e, brk.Some?)
      modifies this, ctx
      ensures Valid() && State() == Spec.ExpandStmt(If(c, t, e), old(State()), brk)
      decreases If(c, t, e), 1
    {
      Proof.BranchMarks(t, State(), brk);
      Proof.MarksScoped(t, brk, ctx.nextFlag);
      var thn, thenBreaks, thenExits := BuildChild(t, brk);
      Proof.BranchMarks(e, State(), brk);
      Proof.MarksScoped(e, brk, ctx.nextFlag);
      var els, elseBreaks, elseExits := BuildChild(e, brk);
      Register(NIf(c, thn, els));
      SetBreakReturn(thenBreaks || elseBreaks, thenExits || elseExits);
    }

    method ExpandWhile(c: Cond, body: Prog)
      requires Valid()
      modifies this, ctx
      ensures Valid() && State() == Spec.ExpandStmt(While(c, body), old(State()), brk)
      decreases While(c, body), 1
    {
      var f := LoopFlag();
      var after, breaks, exits := BuildChild(body, Some(f));
      Register(NWhile(c, OwnFlag(breaks, f), exits, after));
    }

    /** `loop_child` declares the flag in the scope around the loop. */
    method LoopFlag() returns (f: nat)
      requires Valid()
      modifies this`pos, ctx
      ensures Valid() && f == old(ctx.nextFlag) && State() == Spec.DeclareFlag(old(State()))
    {
      f := ctx.nextFlag;
      ctx.nextFlag := f + 1;
      Register(NDeclare(f));
    }

    /** A range loop's body. Plain ranges terminate it at once; if it may exit, the step of
        the iteration variable `f` is appended at the body's insertion point. */
    method BuildBody(r: Span, body: Prog, f: nat) returns (t: nat, breaks: bool, exits: bool)
      requires Valid()
      modifies ctx
      ensures Valid() && t == |old(ctx.blocks)|
      ensures var open := Spec.Expand(body, Spec.Enter(old(State())), Some(f));
              && State() == Spec.Back(old(State()), Spec.FinishBody(r, f, open))
              && breaks == open.mayBreak && exits == open.mayReturn
      decreases body, 1
    {
      ghost var st := State();
      ghost var open := Spec.Expand(body, Spec.Enter(st), Some(f));
      Spec.ExpandGrows(body, Spec.Enter(st), Some(f));
      Spec.FinishGrows(r, f, open);
      Spec.GrowsTrans(Spec.Enter(st).blocks, open.blocks, Spec.FinishBody(r, f, open).blocks);
      Spec.BackGrows(st, Spec.FinishBody(r, f, open));
      t := |ctx.blocks|;
      ctx.blocks := ctx.blocks + [[]];
      var child := new Scope(ctx, t, Some(f));
      child.Expand(body);
      breaks, exits := child.mayBreak, child.mayReturn;
      if r.stride.One? { child.TerminateYield(); }
      if breaks || exits { child.Register(NBump(f)); }
      child.TerminateYield();
    }

    method ExpandFor(r: Span, body: Prog)
      requires Valid()
      modifies this, ctx
      ensures Valid() && State() == Spec.ExpandStmt(For(r, body), old(State()), brk)
      decreases For(r, body), 1
    {
      var exits := RegisterFor(r, body);
      SetBreakReturn(false, exits);
    }

    /** The flag, the body and the loop; whether the body may return. */
    method RegisterFor(r: Span, body: Prog) returns (exits: bool)
      requires Valid()
      modifies this`pos, ctx
      ensures Valid() && State() == Spec.ForLoop(r, body, old(State()))
      ensures exits == Spec.ForBody(r, body, old(State())).mayReturn
      decreases For(r, body), 0
    {
      ghost var st := State();
      ghost var child := Spec.ForBody(r, body, st);
      var f := LoopFlag();
      var t, breaks, returns_ := BuildBody(r, body, f);
      assert State() == Spec.Back(Spec.DeclareFlag(st), child) && breaks == child.mayBreak
        && returns_ == child.mayReturn
      by {
        Spec.FinishMarks(r, f, Spec.Expand(body, Spec.Enter(Spec.DeclareFlag(st)), Some(f)));
      }
      Register(if !breaks && !returns_ then NRange(r, t) else NRangeWhile(r, f, OwnFlag(breaks, f), returns_, t));
      exits := returns_;
    }
  }

  /** A whole function. No block has a terminator in its middle if and only if no plain range
      body exits outside every guard; then every block ends in its one terminator, and the
      blocks mean what `LowerFunc` says. */
  method ExpandFunc(p: Prog) returns (ctx: Context)
    requires WellScoped(p, false)
    ensures fresh(ctx) && ctx.blocks == Proof.ExpandFunc(p)
    ensures Proof.Broken(ctx.blocks) <==> !Proof.Buildable(p, None, 1)
    ensures Proof.Buildable(p, None, 1) ==> Complete(ctx.blocks, 0, LowerFunc(p))
  {
    ctx := new Context();
    var root := new Scope(ctx, 0, None);
    ctx.nextFlag := 1;
    root.Register(NDeclare(RET));
    root.Expand(p);
    root.TerminateYield();
    Proof.TerminatorsIff(p);
  }
}
