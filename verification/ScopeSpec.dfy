/**
 The expansion of a program by scopes, as a function of the blocks built so far and the
 scope's insertion point and marks. It follows the source operation by operation and is
 defined for every program, also those for which it leaves malformed blocks.
 */
module ScopeSpec {
  import opened Options
  import opened Lowering
  import opened ScopeBlocks

  /** The blocks and the next unused flag; the scope's insertion point and marks. */
  datatype St = St(blocks: Blocks, next: nat, block: nat, pos: nat, mayBreak: bool, mayReturn: bool)

  predicate InBounds(st: St) { st.block < |st.blocks| && st.pos <= |st.blocks[st.block]| }

  /** `register`. */
  function Register(st: St, n: Node): St {
    if InBounds(st) then st.(blocks := Insert(st.blocks, st.block, st.pos, n), pos := st.pos + 1) else st
  }

  /** `terminate_yield`. */
  function Terminate(st: St): St {
    if InBounds(st) && !Ends(st.blocks[st.block]) then Register(st, NYield) else st
  }

  /** `predicate_on_flag`. */
  function PredicateOn(st: St, f: nat): St {
    var thn := |st.blocks|;
    var guarded := Register(st.(blocks := st.blocks + [[NYield]] + [[NYield]]), NGuard(f, thn, thn + 1));
    Terminate(guarded).(block := thn, pos := 0)
  }

  /** `set_may_break`, given whether a child is marked. */
  function MayBreak(st: St, brk: Option<nat>, child: bool): St {
    if !child then st
    else
      var marked := st.(mayBreak := true);
      if brk.Some? then PredicateOn(marked, brk.value) else marked
  }

  /** `set_may_return`. */
  function MayReturn(st: St, child: bool): St {
    if child then PredicateOn(st.(mayReturn := true), RET) else st
  }

  function BreakReturn(st: St, brk: Option<nat>, childBreaks: bool, childReturns: bool): St {
    MayReturn(MayBreak(st, brk, childBreaks), childReturns)
  }

  /** A child scope at a new block, and the way back to its parent. */
  function Enter(st: St): St {
    St(st.blocks + [[]], st.next, |st.blocks|, 0, false, false)
  }

  function Back(st: St, child: St): St {
    St(child.blocks, child.next, st.block, st.pos, st.mayBreak, st.mayReturn)
  }

  /** A loop's own flag, declared in the scope around it. */
  function DeclareFlag(st: St): St { Register(st.(next := st.next + 1), NDeclare(st.next)) }

  function Expand(p: Prog, st: St, brk: Option<nat>): St
    decreases p, 0
  {
    match p
    case Done => st
    case Then(s, rest) =>
      var one := ExpandStmt(s, st, brk);
      if s.Break? then one else Expand(rest, one, brk)
  }

  function ExpandStmt(s: Stmt, st: St, brk: Option<nat>): St
    decreases s, 0
  {
    match s
    case Act(a) => Register(st, NOp(a))
    case Break => if brk.Some? then Register(st, NClear(brk.value)).(mayBreak := true) else st
    case Return => Register(st, NClear(RET)).(mayReturn := true)
    case If(c, t, e) =>
      var thn := Branch(t, st, brk);
      var one := Back(st, thn);
      var els := Branch(e, one, brk);
      var two := Register(Back(one, els), NIf(c, |st.blocks|, |one.blocks|));
      BreakReturn(two, brk, thn.mayBreak || els.mayBreak, thn.mayReturn || els.mayReturn)
    case While(c, body) =>
      var one := DeclareFlag(st);
      var child := Branch(body, one, Some(st.next));
      Register(Back(one, child), NWhile(c, OwnFlag(child.mayBreak, st.next), child.mayReturn, |one.blocks|))
    case For(r, body) => BreakReturn(ForLoop(r, body, st), brk, false, ForBody(r, body, st).mayReturn)
  }

  /** The child scope of a branch or a while body, terminated. */
  function Branch(p: Prog, st: St, brk: Option<nat>): St
    decreases p, 1
  {
    Terminate(Expand(p, Enter(st), brk))
  }

  /** The child scope of a range loop, finished. */
  function ForBody(r: Span, body: Prog, st: St): St
    decreases body, 1
  {
    FinishBody(r, st.next, Expand(body, Enter(DeclareFlag(st)), Some(st.next)))
  }

  /** The flag, the body and the loop itself. */
  function ForLoop(r: Span, body: Prog, st: St): St
    decreases body, 2
  {
    var child := ForBody(r, body, st);
    Register(Back(DeclareFlag(st), child), LoopNode(r, st.next, child, |DeclareFlag(st).blocks|))
  }

  /** A range body: ranges without an explicit step terminate it at once; if it may
      exit, the step of the iteration variable follows. */
  function FinishBody(r: Span, f: nat, child: St): St {
    var early := if r.stride.One? then Terminate(child) else child;
    Terminate(if child.mayBreak || child.mayReturn then Register(early, NBump(f)) else early)
  }

  lemma FinishMarks(r: Span, f: nat, child: St)
    ensures var out := FinishBody(r, f, child);
            out.mayBreak == child.mayBreak && out.mayReturn == child.mayReturn
  {
  }

  function LoopNode(r: Span, f: nat, child: St, body: nat): Node {
    if !child.mayBreak && !child.mayReturn then NRange(r, body)
    else NRangeWhile(r, f, OwnFlag(child.mayBreak, f), child.mayReturn, body)
  }

  // ---------------------------------------------------------------- blocks only grow

  /** Blocks are added and extended, and a malformed block stays malformed. */
  ghost predicate Grows(bs: Blocks, cs: Blocks) {
    |bs| <= |cs| && forall b | 0 <= b < |bs| :: |bs[b]| <= |cs[b]| && (OneEnd(cs[b]) ==> OneEnd(bs[b]))
  }

  lemma {:induction false} GrowsTrans(bs: Blocks, cs: Blocks, ds: Blocks)
    requires Grows(bs, cs) && Grows(cs, ds)
    ensures Grows(bs, ds)
  {
  }

  lemma {:induction false} InsertGrows(nodes: seq<Node>, pos: nat, n: Node)
    requires pos <= |nodes| && OneEnd(nodes[..pos] + [n] + nodes[pos..])
    ensures OneEnd(nodes)
  {
    var more := nodes[..pos] + [n] + nodes[pos..];
    forall i | 0 <= i < |nodes| - 1 ensures nodes[i] != NYield {
      assert nodes[i] == if i < pos then more[i] else more[i + 1];
    }
  }

  lemma {:induction false} RegisterGrows(st: St, n: Node)
    requires InBounds(st)
    ensures InBounds(Register(st, n)) && Grows(st.blocks, Register(st, n).blocks)
  {
    forall b | 0 <= b < |st.blocks| ensures OneEnd(Register(st, n).blocks[b]) ==> OneEnd(st.blocks[b]) {
      if b == st.block && OneEnd(Register(st, n).blocks[b]) { InsertGrows(st.blocks[b], st.pos, n); }
    }
  }

  lemma {:induction false} TerminateGrows(st: St)
    requires InBounds(st)
    ensures InBounds(Terminate(st)) && Grows(st.blocks, Terminate(st).blocks)
  {
    RegisterGrows(st, NYield);
  }

  lemma AddedGrow(st: St)
    requires InBounds(st)
    ensures var more := st.(blocks := st.blocks + [[NYield]] + [[NYield]]);
            InBounds(more) && Grows(st.blocks, more.blocks)
  {
  }

  lemma {:induction false} PredicateGrows(st: St, f: nat)
    requires InBounds(st)
    ensures InBounds(PredicateOn(st, f)) && Grows(st.blocks, PredicateOn(st, f).blocks)
  {
    var thn := |st.blocks|;
    var more := st.(blocks := st.blocks + [[NYield]] + [[NYield]]);
    var guarded := Register(more, NGuard(f, thn, thn + 1));
    AddedGrow(st);
    RegisterGrows(more, NGuard(f, thn, thn + 1));
    GrowsTrans(st.blocks, more.blocks, guarded.blocks);
    TerminateGrows(guarded);
    GrowsTrans(st.blocks, guarded.blocks, Terminate(guarded).blocks);
  }

  lemma {:induction false} BreakReturnGrows(st: St, brk: Option<nat>, cb: bool, cr: bool)
    requires InBounds(st)
    ensures InBounds(BreakReturn(st, brk, cb, cr)) && Grows(st.blocks, BreakReturn(st, brk, cb, cr).blocks)
  {
    var one := MayBreak(st, brk, cb);
    if cb && brk.Some? { PredicateGrows(st.(mayBreak := true), brk.value); }
    if cr {
      PredicateGrows(one.(mayReturn := true), RET);
      GrowsTrans(st.blocks, one.blocks, MayReturn(one, cr).blocks);
    }
  }

  /** Back from a child, the parent's insertion point is still there. */
  lemma {:induction false} BackGrows(st: St, child: St)
    requires InBounds(st) && Grows(Enter(st).blocks, child.blocks)
    ensures InBounds(Back(st, child)) && Grows(st.blocks, Back(st, child).blocks)
  {
    assert forall b | 0 <= b < |st.blocks| :: Enter(st).blocks[b] == st.blocks[b];
  }

  lemma {:induction false} DeclareGrows(st: St)
    requires InBounds(st)
    ensures InBounds(DeclareFlag(st)) && Grows(st.blocks, DeclareFlag(st).blocks)
  {
    RegisterGrows(st.(next := st.next + 1), NDeclare(st.next));
  }

  lemma {:induction false} FinishGrows(r: Span, f: nat, child: St)
    requires InBounds(child)
    ensures InBounds(FinishBody(r, f, child)) && Grows(child.blocks, FinishBody(r, f, child).blocks)
  {
    var early := if r.stride.One? then Terminate(child) else child;
    TerminateGrows(child);
    RegisterGrows(early, NBump(f));
    var last := if child.mayBreak || child.mayReturn then Register(early, NBump(f)) else early;
    GrowsTrans(child.blocks, early.blocks, last.blocks);
    TerminateGrows(last);
    GrowsTrans(child.blocks, last.blocks, Terminate(last).blocks);
  }

  lemma {:induction false} ExpandGrows(p: Prog, st: St, brk: Option<nat>)
    requires InBounds(st)
    ensures InBounds(Expand(p, st, brk)) && Grows(st.blocks, Expand(p, st, brk).blocks)
    decreases p, 0
  {
    if p.Then? {
      StmtGrows(p.s, st, brk);
      var one := ExpandStmt(p.s, st, brk);
      if !p.s.Break? {
        ExpandGrows(p.rest, one, brk);
        GrowsTrans(st.blocks, one.blocks, Expand(p.rest, one, brk).blocks);
      }
    }
  }

  /** A child expanded and terminated. */
  lemma {:induction false} ChildGrows(p: Prog, st: St, brk: Option<nat>)
    requires InBounds(st)
    ensures var child := Branch(p, st, brk);
            InBounds(child) && InBounds(Back(st, child)) && Grows(st.blocks, child.blocks)
    decreases p, 1
  {
    var child := Expand(p, Enter(st), brk);
    ExpandGrows(p, Enter(st), brk);
    TerminateGrows(child);
    GrowsTrans(Enter(st).blocks, child.blocks, Terminate(child).blocks);
    BackGrows(st, Terminate(child));
  }

  lemma {:induction false} StmtGrows(s: Stmt, st: St, brk: Option<nat>)
    requires InBounds(st)
    ensures InBounds(ExpandStmt(s, st, brk)) && Grows(st.blocks, ExpandStmt(s, st, brk).blocks)
    decreases s, 2
  {
    match s
    case Act(a) => RegisterGrows(st, NOp(a));
    case Break => if brk.Some? { RegisterGrows(st, NClear(brk.value)); }
    case Return => RegisterGrows(st, NClear(RET));
    case If(c, t, e) => IfGrows(c, t, e, st, brk);
    case While(c, body) => WhileGrows(c, body, st, brk);
    case For(r, body) =>
      LoopGrows(r, body, st);
      var two, exits := ForLoop(r, body, st), ForBody(r, body, st).mayReturn;
      BreakReturnGrows(two, brk, false, exits);
      GrowsTrans(st.blocks, two.blocks, BreakReturn(two, brk, false, exits).blocks);
  }

  lemma {:induction false} WhileGrows(c: Cond, body: Prog, st: St, brk: Option<nat>)
    requires InBounds(st)
    ensures var out := ExpandStmt(While(c, body), st, brk); InBounds(out) && Grows(st.blocks, out.blocks)
    decreases While(c, body), 1
  {
    var one := DeclareFlag(st);
    DeclareGrows(st);
    ChildGrows(body, one, Some(st.next));
    var child := Branch(body, one, Some(st.next));
    GrowsTrans(st.blocks, one.blocks, child.blocks);
    RegisterGrows(Back(one, child), NWhile(c, OwnFlag(child.mayBreak, st.next), child.mayReturn, |one.blocks|));
    GrowsTrans(st.blocks, child.blocks, ExpandStmt(While(c, body), st, brk).blocks);
  }

  lemma {:induction false} IfGrows(c: Cond, t: Prog, e: Prog, st: St, brk: Option<nat>)
    requires InBounds(st)
    ensures var out := ExpandStmt(If(c, t, e), st, brk); InBounds(out) && Grows(st.blocks, out.blocks)
    decreases If(c, t, e), 1
  {
    var thn := Branch(t, st, brk);
    ChildGrows(t, st, brk);
    var one := Back(st, thn);
    var els := Branch(e, one, brk);
    ChildGrows(e, one, brk);
    var node := NIf(c, |st.blocks|, |one.blocks|);
    RegisterGrows(Back(one, els), node);
    var two := Register(Back(one, els), node);
    GrowsTrans(st.blocks, one.blocks, els.blocks);
    GrowsTrans(st.blocks, els.blocks, two.blocks);
    BreakReturnGrows(two, brk, thn.mayBreak || els.mayBreak, thn.mayReturn || els.mayReturn);
    GrowsTrans(st.blocks, two.blocks, ExpandStmt(If(c, t, e), st, brk).blocks);
  }

  /** A range loop, up to the predication behind it. */
  lemma {:induction false} LoopGrows(r: Span, body: Prog, st: St)
    requires InBounds(st)
    ensures InBounds(ForLoop(r, body, st)) && Grows(st.blocks, ForLoop(r, body, st).blocks)
    ensures Grows(ForBody(r, body, st).blocks, ForLoop(r, body, st).blocks)
    decreases body, 1
  {
    var one := DeclareFlag(st);
    DeclareGrows(st);
    var open := Expand(body, Enter(one), Some(st.next));
    ExpandGrows(body, Enter(one), Some(st.next));
    FinishGrows(r, st.next, open);
    var child := ForBody(r, body, st);
    GrowsTrans(Enter(one).blocks, open.blocks, child.blocks);
    BackGrows(one, child);
    GrowsTrans(st.blocks, one.blocks, child.blocks);
    RegisterGrows(Back(one, child), LoopNode(r, st.next, child, |one.blocks|));
    GrowsTrans(st.blocks, child.blocks, ForLoop(r, body, st).blocks);
  }
}
