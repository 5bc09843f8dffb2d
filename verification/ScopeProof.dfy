/**
 What the expansion builds. If no plain range body exits outside every guard, the blocks
 mean what `Lower` says and each ends in its only terminator; otherwise some block has a
 terminator in its middle. So the condition is exact.
 */
module ScopeProof {
  import opened Options
  import opened Lowering
  import opened LoweringSafe
  import opened LoweringProof
  import opened ScopeBlocks
  import opened ScopeSpec

  // ------------------------------------------------------- one statement of Lower

  /** What one statement emits around `k`, what its scope emits afterwards. */
  function Wrap(st: Stmt, brk: Option<nat>, n: nat, k: IrBlock): IrBlock {
    match st
    case Act(a) => ICons(Op(a), k)
    case Break => if brk.Some? then ICons(Clear(brk.value), k) else k
    case Return => ICons(Clear(RET), k)
    case If(c, t, e) =>
      var lt := Lower(t, brk, n, false);
      var le := Lower(e, brk, lt.next, false);
      ICons(IfOp(c, lt.ir, le.ir), Predicate(brk, lt.mayBreak || le.mayBreak, lt.mayReturn || le.mayReturn, k))
    case While(c, body) =>
      var lb := Lower(body, Some(n), n + 1, false);
      ICons(Declare(n), ICons(WhileOp(c, OwnFlag(lb.mayBreak, n), lb.mayReturn, lb.ir), k))
    case For(r, body) =>
      var lb := Lower(body, Some(n), n + 1, false);
      ICons(Declare(n), ICons(LoweredFor(r, body, n), Predicate(brk, false, lb.mayReturn, k)))
  }

  /** The marks and the next flag after one statement. */
  function Alone(st: Stmt, brk: Option<nat>, n: nat): Lowered { Lower(Then(st, Done), brk, n, false) }

  lemma {:induction false} LowerThen(st: Stmt, rest: Prog, brk: Option<nat>, n: nat, bump: bool)
    requires !st.Break?
    ensures var one := Alone(st, brk, n); var l := Lower(rest, brk, one.next, bump);
            Lower(Then(st, rest), brk, n, bump) ==
              Lowered(Wrap(st, brk, n, l.ir), one.mayBreak || l.mayBreak, one.mayReturn || l.mayReturn, l.next)
  {
    match st
    case Act(a) => AtEnd(brk, n);
    case Return => AtEnd(brk, n);
    case If(c, t, e) =>
      var lt := Lower(t, brk, n, false);
      AtEnd(brk, Lower(e, brk, lt.next, false).next);
    case While(c, body) => AtEnd(brk, Lower(body, Some(n), n + 1, false).next);
    case For(r, body) => AtEnd(brk, Lower(body, Some(n), n + 1, false).next);
  }

  lemma AtEnd(brk: Option<nat>, n: nat)
    ensures Lower(Done, brk, n, false) == Lowered(INil, false, false, n)
  {
  }

  /** Whether the statement ends with the insertion point under a guard. */
  predicate Guards(st: Stmt, brk: Option<nat>, n: nat) {
    match st
    case If(_, _, _) => Alone(st, brk, n).mayBreak || Alone(st, brk, n).mayReturn
    case For(_, _) => Alone(st, brk, n).mayReturn
    case _ => false
  }

  predicate GuardsAny(p: Prog, brk: Option<nat>, n: nat) {
    match p
    case Done => false
    case Then(Break, _) => false
    case Then(st, rest) => Guards(st, brk, n) || GuardsAny(rest, brk, Alone(st, brk, n).next)
  }

  /** Plain ranges terminate the body before the step of the iteration variable is appended
      to it. That needs the insertion point to be under a guard whenever a body exits. */
  predicate BodyOk(r: Span, body: Prog, n: nat) {
    var lb := Lower(body, Some(n), n + 1, false);
    r.stride.One? && (lb.mayBreak || lb.mayReturn) ==> GuardsAny(body, Some(n), n + 1)
  }

  predicate Buildable(p: Prog, brk: Option<nat>, n: nat)
    decreases p, 1
  {
    match p
    case Done => true
    case Then(st, rest) =>
      BuildableStmt(st, brk, n) && (!st.Break? ==> Buildable(rest, brk, Alone(st, brk, n).next))
  }

  predicate BuildableStmt(st: Stmt, brk: Option<nat>, n: nat)
    decreases st, 0
  {
    match st
    case If(_, t, e) => Buildable(t, brk, n) && Buildable(e, brk, Lower(t, brk, n, false).next)
    case While(_, body) => Buildable(body, Some(n), n + 1)
    case For(r, body) => Buildable(body, Some(n), n + 1) && BodyOk(r, body, n)
    case _ => true
  }

  // -------------------------------------------------------------------- composing

  /** Two pieces of work in a row. */
  lemma {:induction false} Compose(bs: Blocks, b: nat, p: nat, cs: Blocks, c: nat, q: nat, ds: Blocks, d: nat, r: nat)
    requires Cursor(bs, b, p) && WF(bs) && Reached(bs, b, p, cs, c, q) && Reached(cs, c, q, ds, d, r)
    ensures Reached(bs, b, p, ds, d, r)
    ensures forall k :: Decode(ds, b, p, d, r, k) == Decode(cs, b, p, c, q, Decode(ds, c, q, d, r, k))
  {
    ReachTrans(bs, b, p, cs, c, q, ds, d, r);
    forall k ensures Decode(ds, b, p, d, r, k) == Decode(cs, b, p, c, q, Decode(ds, c, q, d, r, k)) {
      Plug(cs, ds, b, p, c, q, d, r, k);
    }
  }

  /** A statement and then the rest of its scope. */
  lemma {:induction false} ThenRest(st: Stmt, rest: Prog, brk: Option<nat>, n: nat, bs: Blocks, b: nat, p: nat,
                                    cs: Blocks, c: nat, q: nat, ds: Blocks, d: nat, r: nat)
    requires !st.Break? && Cursor(bs, b, p) && WF(bs) && Reached(bs, b, p, cs, c, q) && Reached(cs, c, q, ds, d, r)
    requires forall k :: Decode(cs, b, p, c, q, k) == Wrap(st, brk, n, k)
    requires forall bump ::
      Decode(ds, c, q, d, r, ScopeEnd(brk, bump)) == Lower(rest, brk, Alone(st, brk, n).next, bump).ir
    ensures Reached(bs, b, p, ds, d, r)
    ensures forall bump :: Decode(ds, b, p, d, r, ScopeEnd(brk, bump)) == Lower(Then(st, rest), brk, n, bump).ir
  {
    Compose(bs, b, p, cs, c, q, ds, d, r);
    forall bump ensures Decode(ds, b, p, d, r, ScopeEnd(brk, bump)) == Lower(Then(st, rest), brk, n, bump).ir {
      LowerThen(st, rest, brk, n, bump);
    }
  }

  /** An if over two children that are complete. */
  lemma {:induction false} IfMeans(bs: Blocks, b: nat, p: nat, one: Blocks, two: Blocks, c: Cond, t: nat, x: IrBlock,
                                   e: nat, y: IrBlock)
    requires WF(bs) && Cursor(bs, b, p) && Reached(bs, b, p, one, b, p) && Reached(one, b, p, two, b, p)
    requires t == |bs| && e == |one| && Complete(one, t, x) && Complete(two, e, y)
    ensures var cs := Insert(two, b, p, NIf(c, t, e));
            Reached(bs, b, p, cs, b, p + 1) && Decoded(cs, b, p, b, p + 1, IfOp(c, x, y))
  {
    var n := NIf(c, t, e);
    var cs := Insert(two, b, p, n);
    ReachTrans(bs, b, p, one, b, p, two, b, p);
    Inserts(two, b, p, n, INil);
    ReachTrans(bs, b, p, two, b, p, cs, b, p + 1);
    forall k ensures Decode(cs, b, p, b, p + 1, k) == ICons(IfOp(c, x, y), k) {
      Inserts(two, b, p, n, k);
      StaysComplete(one, t, x, cs, b, p + 1, k);
      StaysComplete(two, e, y, cs, b, p + 1, k);
    }
  }

  /** The work from `(b, p)` to `(c, q)` added one operation. */
  ghost predicate Decoded(bs: Blocks, b: nat, p: nat, c: nat, q: nat, op: Ir)
    requires WF(bs) && b < |bs| && p <= |bs[b]|
  {
    forall k :: Decode(bs, b, p, c, q, k) == ICons(op, k)
  }

  predicate IsLoop(n: Node, body: nat) { (n.NWhile? || n.NRange? || n.NRangeWhile?) && n.body == body }

  function LoopOf(n: Node, ir: IrBlock): Ir
    requires n.NWhile? || n.NRange? || n.NRangeWhile?
  {
    match n
    case NWhile(c, ob, or, _) => WhileOp(c, ob, or, ir)
    case NRange(r, _) => RangeOp(r, ir)
    case NRangeWhile(r, cell, ob, or, _) => RangeWhile(r, cell, ob, or, ir)
  }

  /** A loop over a body that is complete. */
  lemma {:induction false} LoopMeans(bs: Blocks, b: nat, p: nat, one: Blocks, n: Node, body: nat, x: IrBlock)
    requires WF(bs) && Cursor(bs, b, p) && Reached(bs, b, p, one, b, p)
    requires body == |bs| && Complete(one, body, x) && IsLoop(n, body)
    ensures var cs := Insert(one, b, p, n);
            Reached(bs, b, p, cs, b, p + 1) && Decoded(cs, b, p, b, p + 1, LoopOf(n, x))
  {
    var cs := Insert(one, b, p, n);
    Inserts(one, b, p, n, INil);
    ReachTrans(bs, b, p, one, b, p, cs, b, p + 1);
    forall k ensures Decode(cs, b, p, b, p + 1, k) == ICons(LoopOf(n, x), k) {
      Inserts(one, b, p, n, k);
      StaysComplete(one, body, x, cs, b, p + 1, k);
    }
  }

  /** A loop's flag and then the loop. */
  lemma {:induction false} LoopBuilt(bs: Blocks, b: nat, p: nat, f: nat, cs: Blocks, q: nat, one: Blocks, n: Node,
                                     body: nat, x: IrBlock, r: nat)
    requires WF(bs) && Cursor(bs, b, p) && Reached(bs, b, p, cs, b, q) && Decoded(cs, b, p, b, q, Declare(f))
    requires Reached(cs, b, q, one, b, q) && body == |cs| && Complete(one, body, x) && IsLoop(n, body) && r == q + 1
    ensures var ds := Insert(one, b, q, n);
            Reached(bs, b, p, ds, b, r)
              && forall k :: Decode(ds, b, p, b, r, k) == ICons(Declare(f), ICons(LoopOf(n, x), k))
  {
    LoopMeans(cs, b, q, one, n, body, x);
    Compose(bs, b, p, cs, b, q, Insert(one, b, q, n), b, r);
  }

  lemma {:induction false} BodyBuilt(bs: Blocks, b: nat, pos: nat, cs: Blocks, c: nat, q: nat, ir: IrBlock)
    requires WF(bs) && Cursor(bs, b, pos) && Reached(bs + [[]], |bs|, 0, cs, c, q)
      && Decode(cs, |bs|, 0, c, q, INil) == ir
    ensures Complete(Terminated(cs, c, q), |bs|, ir) && Reached(bs, b, pos, Terminated(cs, c, q), b, pos)
  {
    Completes(bs + [[]], |bs|, cs, c, q, ir);
    ChildBuilt(bs, b, pos, cs, c, q, ir);
  }

  /** Marks for a break need a loop around. */
  lemma {:induction false} MarksScoped(p: Prog, brk: Option<nat>, n: nat)
    ensures Lower(p, brk, n, false).mayBreak ==> brk.Some?
  {
    match p
    case Done =>
    case Then(Break, _) =>
    case Then(If(c, t, e), rest) =>
      var lt := Lower(t, brk, n, false);
      MarksScoped(t, brk, n);
      MarksScoped(e, brk, lt.next);
      MarksScoped(rest, brk, Lower(e, brk, lt.next, false).next);
    case Then(While(c, body), rest) => MarksScoped(rest, brk, Lower(body, Some(n), n + 1, false).next);
    case Then(For(r, body), rest) => MarksScoped(rest, brk, Lower(body, Some(n), n + 1, false).next);
    case Then(_, rest) => MarksScoped(rest, brk, n);
  }

  lemma {:induction false} EmptyBlock(bs: Blocks)
    requires WF(bs)
    ensures WF(bs + [[]]) && Cursor(bs + [[]], |bs|, 0)
  {
  }

  // ------------------------------------------------------------------------- marks

  /** Marks and flags do not depend on the blocks. */
  lemma {:induction false} ExpandMarks(p: Prog, st: St, brk: Option<nat>)
    ensures var out, l := Expand(p, st, brk), Lower(p, brk, st.next, false);
            && out.next == l.next
            && out.mayBreak == (st.mayBreak || l.mayBreak) && out.mayReturn == (st.mayReturn || l.mayReturn)
    decreases p, 0
  {
    if p.Then? {
      StmtMarks(p.s, st, brk);
      if !p.s.Break? {
        LowerThen(p.s, p.rest, brk, st.next, false);
        ExpandMarks(p.rest, ExpandStmt(p.s, st, brk), brk);
      }
    }
  }

  lemma {:induction false} StmtMarks(s: Stmt, st: St, brk: Option<nat>)
    ensures var out, l := ExpandStmt(s, st, brk), Alone(s, brk, st.next);
            && out.next == l.next
            && out.mayBreak == (st.mayBreak || l.mayBreak) && out.mayReturn == (st.mayReturn || l.mayReturn)
    decreases s, 1
  {
    match s
    case Act(_) => AtEnd(brk, st.next);
    case Break =>
    case Return => AtEnd(brk, st.next);
    case If(c, t, e) => IfMarks(c, t, e, st, brk);
    case While(c, body) => WhileMarks(c, body, st, brk);
    case For(r, body) =>
      ForMarks(r, body, st);
      BreakReturnMarks(ForLoop(r, body, st), brk, false, ForBody(r, body, st).mayReturn);
      AtEnd(brk, Lower(body, Some(st.next), st.next + 1, false).next);
  }

  lemma BreakReturnMarks(st: St, brk: Option<nat>, cb: bool, cr: bool)
    ensures var out := BreakReturn(st, brk, cb, cr);
            out.next == st.next && out.mayBreak == (st.mayBreak || cb) && out.mayReturn == (st.mayReturn || cr)
  {
  }

  lemma {:induction false} IfMarks(c: Cond, t: Prog, e: Prog, st: St, brk: Option<nat>)
    ensures var out, l := ExpandStmt(If(c, t, e), st, brk), Alone(If(c, t, e), brk, st.next);
            && out.next == l.next
            && out.mayBreak == (st.mayBreak || l.mayBreak) && out.mayReturn == (st.mayReturn || l.mayReturn)
    decreases If(c, t, e), 0
  {
    var thn := Branch(t, st, brk);
    var one := Back(st, thn);
    var els := Branch(e, one, brk);
    BranchMarks(t, st, brk);
    BranchMarks(e, one, brk);
    IfAlone(c, t, e, brk, st.next);
    BreakReturnMarks(Register(Back(one, els), NIf(c, |st.blocks|, |one.blocks|)), brk,
                     thn.mayBreak || els.mayBreak, thn.mayReturn || els.mayReturn);
  }

  lemma {:induction false} WhileMarks(c: Cond, body: Prog, st: St, brk: Option<nat>)
    ensures var out, l := ExpandStmt(While(c, body), st, brk), Alone(While(c, body), brk, st.next);
            && out.next == l.next
            && out.mayBreak == (st.mayBreak || l.mayBreak) && out.mayReturn == (st.mayReturn || l.mayReturn)
    decreases While(c, body), 0
  {
    BranchMarks(body, DeclareFlag(st), Some(st.next));
    AtEnd(brk, Lower(body, Some(st.next), st.next + 1, false).next);
  }

  lemma {:induction false} BranchMarks(p: Prog, st: St, brk: Option<nat>)
    ensures var child, l := Branch(p, st, brk), Lower(p, brk, st.next, false);
            child.next == l.next && child.mayBreak == l.mayBreak && child.mayReturn == l.mayReturn
    decreases p, 1
  {
    ExpandMarks(p, Enter(st), brk);
  }

  lemma IfAlone(c: Cond, t: Prog, e: Prog, brk: Option<nat>, n: nat)
    ensures var lt := Lower(t, brk, n, false);
            var le := Lower(e, brk, lt.next, false);
            var l := Alone(If(c, t, e), brk, n);
            && l.next == le.next && l.mayBreak == (lt.mayBreak || le.mayBreak)
              && l.mayReturn == (lt.mayReturn || le.mayReturn)
  {
    var lt := Lower(t, brk, n, false);
    AtEnd(brk, Lower(e, brk, lt.next, false).next);
  }

  lemma {:induction false} ForMarks(r: Span, body: Prog, st: St)
    ensures var child, l := ForBody(r, body, st), Lower(body, Some(st.next), st.next + 1, false);
            && child.next == l.next && child.mayBreak == l.mayBreak && child.mayReturn == l.mayReturn
            && ForLoop(r, body, st).next == l.next
            && ForLoop(r, body, st).mayBreak == st.mayBreak
              && ForLoop(r, body, st).mayReturn == st.mayReturn
    decreases body, 1
  {
    ExpandMarks(body, Enter(DeclareFlag(st)), Some(st.next));
  }

  // --------------------------------------------------------------- single operations

  ghost predicate Ready(st: St) { WF(st.blocks) && Cursor(st.blocks, st.block, st.pos) }

  /** Good work: from one insertion point to the next. */
  ghost predicate Went(st: St, out: St) {
    Ready(out) && Reached(st.blocks, st.block, st.pos, out.blocks, out.block, out.pos)
  }

  /** What the work from `st` to `out` means around whatever follows. */
  ghost function Meaning(st: St, out: St, k: IrBlock): IrBlock
    requires WF(out.blocks) && st.block < |out.blocks| && st.pos <= |out.blocks[st.block]|
  {
    Decode(out.blocks, st.block, st.pos, out.block, out.pos, k)
  }

  lemma {:induction false} WentOn(st: St, mid: St, out: St)
    requires Ready(st) && Went(st, mid) && Went(mid, out)
    ensures Went(st, out)
    ensures forall k :: Meaning(st, out, k) == Meaning(st, mid, Meaning(mid, out, k))
  {
    Compose(st.blocks, st.block, st.pos, mid.blocks, mid.block, mid.pos, out.blocks, out.block, out.pos);
  }

  /** An operation without regions. */
  lemma {:induction false} EmitGood(st: St, n: Node)
    requires Ready(st) && (n.NOp? || n.NDeclare? || n.NClear? || n.NBump?)
    ensures Went(st, Register(st, n))
    ensures forall k :: Meaning(st, Register(st, n), k) == ICons(Plain(n), k)
  {
    var out := Register(st, n);
    forall k ensures Went(st, out) && Meaning(st, out, k) == ICons(Plain(n), k) {
      Inserts(st.blocks, st.block, st.pos, n, k);
    }
    Inserts(st.blocks, st.block, st.pos, n, INil);
  }

  /** A cleared flag and a mark. */
  lemma {:induction false} ClearGood(st: St, f: nat, mayBreak: bool, mayReturn: bool)
    requires Ready(st)
    ensures var out := Register(st, NClear(f)).(mayBreak := mayBreak, mayReturn := mayReturn);
            Went(st, out) && out.block == st.block && forall k :: Meaning(st, out, k) == ICons(Clear(f), k)
  {
    EmitGood(st, NClear(f));
    var out := Register(st, NClear(f)).(mayBreak := mayBreak, mayReturn := mayReturn);
    forall k ensures Meaning(st, out, k) == ICons(Clear(f), k) {
      assert Meaning(st, Register(st, NClear(f)), k) == ICons(Clear(f), k);
    }
  }

  function Plain(n: Node): Ir
    requires n.NOp? || n.NDeclare? || n.NClear? || n.NBump?
  {
    match n
    case NOp(a) => Op(a)
    case NDeclare(f) => Declare(f)
    case NClear(f) => Clear(f)
    case NBump(c) => Bump(c)
  }

  lemma {:induction false} PredicateGood(st: St, f: nat)
    requires Ready(st)
    ensures Went(st, PredicateOn(st, f)) && PredicateOn(st, f).block >= |st.blocks|
    ensures forall k :: Meaning(st, PredicateOn(st, f), k) == ICons(Guard(f, k), INil)
  {
    Predicates(st.blocks, st.block, st.pos, f);
    assert PredicateOn(st, f).blocks == Predicated(st.blocks, st.block, st.pos, f);
  }

  lemma {:induction false} BreakReturnGood(st: St, brk: Option<nat>, cb: bool, cr: bool)
    requires Ready(st) && (cb ==> brk.Some?)
    ensures var out := BreakReturn(st, brk, cb, cr);
            Went(st, out) && (out.block != st.block <==> cb || cr)
    ensures forall k :: Meaning(st, BreakReturn(st, brk, cb, cr), k) == Predicate(brk, cb, cr, k)
  {
    var one := MayBreak(st, brk, cb);
    if cb { PredicateGood(st.(mayBreak := true), brk.value); }
    assert forall k :: Meaning(st, one, k) == Predicate(brk, cb, false, k);
    if cr {
      PredicateGood(one.(mayReturn := true), RET);
      var out := MayReturn(one, cr);
      assert forall k :: Meaning(one, out, k) == ICons(Guard(RET, k), INil);
      if cb { WentOn(st, one, out); }
    }
  }

  // ------------------------------------------------------------ well-formed results

  /** A child scope, expanded and terminated. */
  lemma {:induction false} ChildGood(p: Prog, st: St, brk: Option<nat>)
    requires Ready(st) && WellScoped(p, brk.Some?) && Buildable(p, brk, st.next)
    ensures var child := Branch(p, st, brk);
            Complete(child.blocks, |st.blocks|, Lower(p, brk, st.next, false).ir) && Went(st, Back(st, child))
    decreases p, 1
  {
    EmptyBlock(st.blocks);
    ExpandGood(p, Enter(st), brk);
    var open := Expand(p, Enter(st), brk);
    assert Meaning(Enter(st), open, ScopeEnd(brk, false)) == Lower(p, brk, st.next, false).ir;
    BodyBuilt(st.blocks, st.block, st.pos, open.blocks, open.block, open.pos, Lower(p, brk, st.next, false).ir);
  }

  lemma {:induction false} ExpandGood(p: Prog, st: St, brk: Option<nat>)
    requires Ready(st) && WellScoped(p, brk.Some?) && Buildable(p, brk, st.next)
    ensures var out := Expand(p, st, brk);
            Went(st, out) && (out.block != st.block <==> GuardsAny(p, brk, st.next))
    ensures forall bump ::
      Meaning(st, Expand(p, st, brk), ScopeEnd(brk, bump)) == Lower(p, brk, st.next, bump).ir
    decreases p, 0
  {
    if p.Then? {
      StmtGood(p.s, st, brk);
      StmtMarks(p.s, st, brk);
      var one := ExpandStmt(p.s, st, brk);
      if !p.s.Break? {
        ExpandGood(p.rest, one, brk);
        var out := Expand(p.rest, one, brk);
        ThenRest(p.s, p.rest, brk, st.next, st.blocks, st.block, st.pos, one.blocks, one.block, one.pos,
                 out.blocks, out.block, out.pos);
      }
    }
  }

  lemma {:induction false} StmtGood(s: Stmt, st: St, brk: Option<nat>)
    requires Ready(st) && WellScopedS(s, brk.Some?) && BuildableStmt(s, brk, st.next)
    ensures var out := ExpandStmt(s, st, brk);
            Went(st, out) && (out.block != st.block <==> Guards(s, brk, st.next))
    ensures forall k :: Meaning(st, ExpandStmt(s, st, brk), k) == Wrap(s, brk, st.next, k)
    decreases s, 3
  {
    match s
    case Act(a) => EmitGood(st, NOp(a));
    case Break => ClearGood(st, brk.value, true, st.mayReturn);
    case Return => ClearGood(st, RET, st.mayBreak, true);
    case If(c, t, e) => IfGood(c, t, e, st, brk);
    case While(c, body) => WhileGood(c, body, st, brk);
    case For(r, body) => ForGood(r, body, st, brk);
  }

  lemma {:induction false} IfGood(c: Cond, t: Prog, e: Prog, st: St, brk: Option<nat>)
    requires Ready(st) && WellScoped(t, brk.Some?) && WellScoped(e, brk.Some?)
    requires Buildable(t, brk, st.next) && Buildable(e, brk, Lower(t, brk, st.next, false).next)
    ensures var out := ExpandStmt(If(c, t, e), st, brk);
            Went(st, out) && (out.block != st.block <==> Guards(If(c, t, e), brk, st.next))
    ensures forall k :: Meaning(st, ExpandStmt(If(c, t, e), st, brk), k) == Wrap(If(c, t, e), brk, st.next, k)
    decreases If(c, t, e), 2
  {
    var thn := Branch(t, st, brk);
    var one := Back(st, thn);
    var els := Branch(e, one, brk);
    var two := Register(Back(one, els), NIf(c, |st.blocks|, |one.blocks|));
    BranchesGood(c, t, e, st, brk);
    BranchMarks(t, st, brk);
    BranchMarks(e, one, brk);
    IfAlone(c, t, e, brk, st.next);
    MarksScoped(t, brk, st.next);
    MarksScoped(e, brk, one.next);
    var cb, cr := thn.mayBreak || els.mayBreak, thn.mayReturn || els.mayReturn;
    BreakReturnGood(two, brk, cb, cr);
    WentOn(st, two, BreakReturn(two, brk, cb, cr));
  }

  /** Both branches, then the if itself. */
  lemma {:induction false} BranchesGood(c: Cond, t: Prog, e: Prog, st: St, brk: Option<nat>)
    requires Ready(st) && WellScoped(t, brk.Some?) && WellScoped(e, brk.Some?)
    requires Buildable(t, brk, st.next) && Buildable(e, brk, Lower(t, brk, st.next, false).next)
    ensures var one := Back(st, Branch(t, st, brk));
            var two := Register(Back(one, Branch(e, one, brk)), NIf(c, |st.blocks|, |one.blocks|));
            var lt := Lower(t, brk, st.next, false);
            && Went(st, two) && two.block == st.block
            && forall k :: Meaning(st, two, k) == ICons(IfOp(c, lt.ir, Lower(e, brk, lt.next, false).ir), k)
    decreases If(c, t, e), 1
  {
    BranchesComplete(c, t, e, st, brk);
    var thn := Branch(t, st, brk);
    var lt := Lower(t, brk, st.next, false);
    IfRegistered(st, thn, Branch(e, Back(st, thn), brk), c, lt.ir, Lower(e, brk, lt.next, false).ir);
  }

  /** An `if` over complete branches. */
  lemma {:induction false} IfRegistered(st: St, thn: St, els: St, c: Cond, x: IrBlock, y: IrBlock)
    requires Ready(st)
    requires var one := Back(st, thn);
             && Went(st, one) && Complete(one.blocks, |st.blocks|, x)
             && Went(one, Back(one, els)) && Complete(els.blocks, |one.blocks|, y)
    ensures var two := Register(Back(Back(st, thn), els), NIf(c, |st.blocks|, |thn.blocks|));
            && Went(st, two) && two.block == st.block
            && forall k :: Meaning(st, two, k) == ICons(IfOp(c, x, y), k)
  {
    IfMeans(st.blocks, st.block, st.pos, thn.blocks, els.blocks, c, |st.blocks|, x, |thn.blocks|, y);
    var two := Register(Back(Back(st, thn), els), NIf(c, |st.blocks|, |thn.blocks|));
    forall k ensures Meaning(st, two, k) == ICons(IfOp(c, x, y), k) {
      assert Decode(two.blocks, st.block, st.pos, st.block, st.pos + 1, k) == ICons(IfOp(c, x, y), k);
    }
  }

  lemma {:induction false} BranchesComplete(c: Cond, t: Prog, e: Prog, st: St, brk: Option<nat>)
    requires Ready(st) && WellScoped(t, brk.Some?) && WellScoped(e, brk.Some?)
    requires Buildable(t, brk, st.next) && Buildable(e, brk, Lower(t, brk, st.next, false).next)
    ensures var one := Back(st, Branch(t, st, brk)); var els := Branch(e, one, brk);
            var lt := Lower(t, brk, st.next, false);
            && Went(st, one) && Complete(one.blocks, |st.blocks|, lt.ir)
            && Went(one, Back(one, els)) && Complete(els.blocks, |one.blocks|, Lower(e, brk, lt.next, false).ir)
    decreases If(c, t, e), 0
  {
    BranchMarks(t, st, brk);
    ChildGood(t, st, brk);
    ChildGood(e, Back(st, Branch(t, st, brk)), brk);
  }

  /** A loop over a complete body, registered behind the declaration of its flag. */
  lemma {:induction false} LoopRegistered(st: St, child: St, node: Node, x: IrBlock)
    requires Ready(st)
    requires var one := DeclareFlag(st);
             Complete(child.blocks, |one.blocks|, x) && Went(one, Back(one, child)) && IsLoop(node, |one.blocks|)
    ensures var out := Register(Back(DeclareFlag(st), child), node);
            && Went(st, out) && out.block == st.block
            && forall k :: Meaning(st, out, k) == ICons(Declare(st.next), ICons(LoopOf(node, x), k))
  {
    var one := DeclareFlag(st);
    DeclareGood(st);
    LoopBuilt(st.blocks, st.block, st.pos, st.next, one.blocks, one.pos, child.blocks, node, |one.blocks|, x,
              one.pos + 1);
  }

  lemma {:induction false} WhileGood(c: Cond, body: Prog, st: St, brk: Option<nat>)
    requires Ready(st) && Buildable(body, Some(st.next), st.next + 1)
    ensures var out := ExpandStmt(While(c, body), st, brk); Went(st, out) && out.block == st.block
    ensures forall k ::
      Meaning(st, ExpandStmt(While(c, body), st, brk), k) == Wrap(While(c, body), brk, st.next, k)
    decreases While(c, body), 1
  {
    var f, one := st.next, DeclareFlag(st);
    DeclareGood(st);
    BranchMarks(body, one, Some(f));
    ChildGood(body, one, Some(f));
    var child := Branch(body, one, Some(f));
    var node := NWhile(c, OwnFlag(child.mayBreak, f), child.mayReturn, |one.blocks|);
    LoopRegistered(st, child, node, Lower(body, Some(f), f + 1, false).ir);
  }

  lemma {:induction false} DeclareGood(st: St)
    requires Ready(st)
    ensures var out := DeclareFlag(st);
            && Went(st, out) && out.block == st.block && out.next == st.next + 1
            && Decoded(out.blocks, st.block, st.pos, out.block, out.pos, Declare(st.next))
  {
    var more := st.(next := st.next + 1);
    EmitGood(more, NDeclare(st.next));
    forall k
      ensures Decode(DeclareFlag(st).blocks, st.block, st.pos, DeclareFlag(st).block, DeclareFlag(st).pos, k)
        == ICons(Declare(st.next), k) {
      assert Meaning(more, Register(more, NDeclare(st.next)), k) == ICons(Declare(st.next), k);
    }
  }

  /** A range body: the early termination does nothing under a guard, and the step goes where
      the body ended. */
  lemma {:induction false} BodyGood(r: Span, body: Prog, st: St)
    requires Ready(st) && Buildable(body, Some(st.next), st.next + 1)
    requires BodyOk(r, body, st.next)
    ensures var one, child := DeclareFlag(st), ForBody(r, body, st);
            && Complete(child.blocks, |one.blocks|,
                        Lower(body, Some(st.next), st.next + 1, child.mayBreak || child.mayReturn).ir)
            && Went(one, Back(one, child))
    decreases body, 2
  {
    var f, one := st.next, DeclareFlag(st);
    var open := Expand(body, Enter(one), Some(f));
    var marked := open.mayBreak || open.mayReturn;
    var ir := Lower(body, Some(f), f + 1, marked).ir;
    DeclareGood(st);
    BodyOpen(r, body, one, f);
    if marked {
      StepGood(one, open, f, ir);
      FinishMarked(r, f, open);
    } else {
      FinishUnmarked(r, f, open);
      BodyBuilt(one.blocks, one.block, one.pos, open.blocks, open.block, open.pos, ir);
    }
  }

  /** The body expanded, before it is finished. */
  lemma {:induction false} BodyOpen(r: Span, body: Prog, one: St, f: nat)
    requires Ready(one) && one.next == f + 1 && Buildable(body, Some(f), f + 1)
    requires BodyOk(r, body, f)
    ensures var open := Expand(body, Enter(one), Some(f));
            var marked := open.mayBreak || open.mayReturn;
            && Went(Enter(one), open) && (marked && r.stride.One? ==> Ends(open.blocks[open.block]))
            && Meaning(Enter(one), open, ScopeEnd(Some(f), marked)) == Lower(body, Some(f), f + 1, marked).ir
    decreases body, 1
  {
    EmptyBlock(one.blocks);
    ExpandGood(body, Enter(one), Some(f));
    ExpandMarks(body, Enter(one), Some(f));
  }

  /** The step appended, and the body terminated. */
  lemma {:induction false} StepGood(one: St, open: St, f: nat, ir: IrBlock)
    requires Ready(one) && Went(Enter(one), open) && Meaning(Enter(one), open, ScopeEnd(Some(f), true)) == ir
    ensures var last := Register(open, NBump(f));
            && Complete(Terminate(last).blocks, |one.blocks|, ir) && Went(one, Back(one, Terminate(last)))
  {
    var last := Register(open, NBump(f));
    EmptyBlock(one.blocks);
    EmitGood(open, NBump(f));
    WentOn(Enter(one), open, last);
    assert Meaning(open, last, INil) == ScopeEnd(Some(f), true);
    assert Meaning(Enter(one), last, INil) == ir;
    BodyBuilt(one.blocks, one.block, one.pos, last.blocks, last.block, last.pos, ir);
  }

  lemma FinishMarked(r: Span, f: nat, open: St)
    requires Ready(open) && (open.mayBreak || open.mayReturn) && (r.stride.One? ==> Ends(open.blocks[open.block]))
    ensures FinishBody(r, f, open) == Terminate(Register(open, NBump(f)))
  {
  }

  lemma FinishUnmarked(r: Span, f: nat, open: St)
    requires Ready(open) && !open.mayBreak && !open.mayReturn
    ensures FinishBody(r, f, open).blocks == Terminate(open).blocks
  {
    Terminates(open.blocks, open.block, open.pos);
  }

  lemma {:induction false} ForGood(r: Span, body: Prog, st: St, brk: Option<nat>)
    requires Ready(st) && Buildable(body, Some(st.next), st.next + 1)
    requires BodyOk(r, body, st.next)
    ensures var out := ExpandStmt(For(r, body), st, brk);
            Went(st, out) && (out.block != st.block <==> Guards(For(r, body), brk, st.next))
    ensures forall k :: Meaning(st, ExpandStmt(For(r, body), st, brk), k) == Wrap(For(r, body), brk, st.next, k)
    decreases For(r, body), 1
  {
    LoopGood(r, body, st);
    var two, exits := ForLoop(r, body, st), ForBody(r, body, st).mayReturn;
    ForMarks(r, body, st);
    AtEnd(brk, two.next);
    BreakReturnGood(two, brk, false, exits);
    WentOn(st, two, BreakReturn(two, brk, false, exits));
  }

  lemma {:induction false} LoopGood(r: Span, body: Prog, st: St)
    requires Ready(st) && Buildable(body, Some(st.next), st.next + 1)
    requires BodyOk(r, body, st.next)
    ensures Went(st, ForLoop(r, body, st)) && ForLoop(r, body, st).block == st.block
    ensures forall k ::
      Meaning(st, ForLoop(r, body, st), k) == ICons(Declare(st.next), ICons(LoweredFor(r, body, st.next), k))
    decreases body, 3
  {
    var one, child := DeclareFlag(st), ForBody(r, body, st);
    BodyGood(r, body, st);
    LoopNodeMeans(r, body, st);
    LoopRegistered(st, child, LoopNode(r, st.next, child, |one.blocks|),
                   Lower(body, Some(st.next), st.next + 1, child.mayBreak || child.mayReturn).ir);
  }

  /** The node registered for a range loop is the operation it is lowered to. */
  lemma {:induction false} LoopNodeMeans(r: Span, body: Prog, st: St)
    ensures var f, child, b := st.next, ForBody(r, body, st), |DeclareFlag(st).blocks|;
            var node := LoopNode(r, f, child, b);
            IsLoop(node, b) &&
              LoopOf(node, Lower(body, Some(f), f + 1, child.mayBreak || child.mayReturn).ir) == LoweredFor(r, body, f)
    decreases body, 2
  {
    ForMarks(r, body, st);
  }

  // --------------------------------------------------------------- malformed results

  ghost predicate Broken(bs: Blocks) { exists b :: 0 <= b < |bs| && !OneEnd(bs[b]) }

  lemma {:induction false} StaysBroken(bs: Blocks, cs: Blocks)
    requires Broken(bs) && Grows(bs, cs)
    ensures Broken(cs)
  {
    var b :| 0 <= b < |bs| && !OneEnd(bs[b]);
    assert !OneEnd(cs[b]);
  }

  /** The early termination of a body that may exit outside every guard. */
  lemma {:induction false} BodyBroken(r: Span, body: Prog, st: St)
    requires Ready(st) && Buildable(body, Some(st.next), st.next + 1)
    requires !BodyOk(r, body, st.next)
    ensures Broken(ForBody(r, body, st).blocks)
  {
    var f, one := st.next, DeclareFlag(st);
    DeclareGood(st);
    EmptyBlock(one.blocks);
    ExpandGood(body, Enter(one), Some(f));
    ExpandMarks(body, Enter(one), Some(f));
    var open := Expand(body, Enter(one), Some(f));
    assert open.block == |one.blocks| && !Ends(open.blocks[open.block]);
    EarlyStepIff(open.blocks, open.block, open.pos, f);
    EarlyFinish(r, f, open);
  }

  lemma {:induction false} EarlyFinish(r: Span, f: nat, open: St)
    requires Ready(open) && r.stride.One? && (open.mayBreak || open.mayReturn)
    ensures FinishBody(r, f, open).blocks == EarlyStep(open.blocks, open.block, open.pos, f)
  {
    Terminates(open.blocks, open.block, open.pos);
  }

  lemma {:induction false} BranchBroken(p: Prog, st: St, brk: Option<nat>)
    requires Ready(st) && WellScoped(p, brk.Some?) && !Buildable(p, brk, st.next)
    ensures Broken(Branch(p, st, brk).blocks)
    decreases p, 1
  {
    EmptyBlock(st.blocks);
    ExpandBroken(p, Enter(st), brk);
    var open := Expand(p, Enter(st), brk);
    ExpandGrows(p, Enter(st), brk);
    TerminateGrows(open);
    StaysBroken(open.blocks, Terminate(open).blocks);
  }

  lemma {:induction false} ExpandBroken(p: Prog, st: St, brk: Option<nat>)
    requires Ready(st) && WellScoped(p, brk.Some?) && !Buildable(p, brk, st.next)
    ensures Broken(Expand(p, st, brk).blocks)
    decreases p, 0
  {
    var one := ExpandStmt(p.s, st, brk);
    StmtMarks(p.s, st, brk);
    if BuildableStmt(p.s, brk, st.next) {
      StmtGood(p.s, st, brk);
      ExpandBroken(p.rest, one, brk);
    } else {
      StmtBroken(p.s, st, brk);
      StmtGrows(p.s, st, brk);
      ExpandGrows(p.rest, one, brk);
      if !p.s.Break? { StaysBroken(one.blocks, Expand(p.rest, one, brk).blocks); }
    }
  }

  lemma {:induction false} StmtBroken(s: Stmt, st: St, brk: Option<nat>)
    requires Ready(st) && WellScopedS(s, brk.Some?) && !BuildableStmt(s, brk, st.next)
    ensures Broken(ExpandStmt(s, st, brk).blocks)
    decreases s, 2
  {
    match s
    case If(c, t, e) => IfBroken(c, t, e, st, brk);
    case While(c, body) => WhileBroken(c, body, st, brk);
    case For(r, body) => ForBroken(r, body, st, brk);
  }

  lemma {:induction false} IfBroken(c: Cond, t: Prog, e: Prog, st: St, brk: Option<nat>)
    requires Ready(st) && WellScoped(t, brk.Some?) && WellScoped(e, brk.Some?)
    requires !(Buildable(t, brk, st.next) && Buildable(e, brk, Lower(t, brk, st.next, false).next))
    ensures Broken(ExpandStmt(If(c, t, e), st, brk).blocks)
    decreases If(c, t, e), 1
  {
    var thn := Branch(t, st, brk);
    var one := Back(st, thn);
    var els := Branch(e, one, brk);
    BranchesBroken(c, t, e, st, brk);
    NodeBroken(Back(one, els), NIf(c, |st.blocks|, |one.blocks|), brk,
               thn.mayBreak || els.mayBreak, thn.mayReturn || els.mayReturn);
  }

  lemma {:induction false} BranchesBroken(c: Cond, t: Prog, e: Prog, st: St, brk: Option<nat>)
    requires Ready(st) && WellScoped(t, brk.Some?) && WellScoped(e, brk.Some?)
    requires !(Buildable(t, brk, st.next) && Buildable(e, brk, Lower(t, brk, st.next, false).next))
    ensures var one := Back(st, Branch(t, st, brk)); var two := Back(one, Branch(e, one, brk));
            InBounds(two) && Broken(two.blocks)
    decreases If(c, t, e), 0
  {
    var one := Back(st, Branch(t, st, brk));
    ChildGrows(t, st, brk);
    ChildGrows(e, one, brk);
    if Buildable(t, brk, st.next) {
      BranchMarks(t, st, brk);
      ChildGood(t, st, brk);
      BranchBroken(e, one, brk);
    } else {
      BranchBroken(t, st, brk);
      StaysBroken(one.blocks, Branch(e, one, brk).blocks);
    }
  }

  /** One more operation and predication mend nothing. */
  lemma {:induction false} NodeBroken(st: St, n: Node, brk: Option<nat>, cb: bool, cr: bool)
    requires InBounds(st) && Broken(st.blocks)
    ensures Broken(BreakReturn(Register(st, n), brk, cb, cr).blocks)
  {
    RegisterGrows(st, n);
    var two := Register(st, n);
    StaysBroken(st.blocks, two.blocks);
    BreakReturnGrows(two, brk, cb, cr);
    StaysBroken(two.blocks, BreakReturn(two, brk, cb, cr).blocks);
  }

  lemma {:induction false} WhileBroken(c: Cond, body: Prog, st: St, brk: Option<nat>)
    requires Ready(st) && !Buildable(body, Some(st.next), st.next + 1)
    ensures Broken(ExpandStmt(While(c, body), st, brk).blocks)
    decreases While(c, body), 1
  {
    var f, one := st.next, DeclareFlag(st);
    DeclareGood(st);
    BranchBroken(body, one, Some(f));
    ChildGrows(body, one, Some(f));
    var child := Branch(body, one, Some(f));
    RegisterGrows(Back(one, child), NWhile(c, OwnFlag(child.mayBreak, f), child.mayReturn, |one.blocks|));
    StaysBroken(child.blocks, ExpandStmt(While(c, body), st, brk).blocks);
  }

  lemma {:induction false} ForBroken(r: Span, body: Prog, st: St, brk: Option<nat>)
    requires Ready(st)
    requires !(Buildable(body, Some(st.next), st.next + 1) && BodyOk(r, body, st.next))
    ensures Broken(ExpandStmt(For(r, body), st, brk).blocks)
    decreases For(r, body), 1
  {
    var child, two := ForBody(r, body, st), ForLoop(r, body, st);
    if Buildable(body, Some(st.next), st.next + 1) {
      BodyBroken(r, body, st);
    } else {
      InnerBroken(r, body, st);
    }
    LoopGrows(r, body, st);
    StaysBroken(child.blocks, two.blocks);
    BreakReturnGrows(two, brk, false, child.mayReturn);
    StaysBroken(two.blocks, BreakReturn(two, brk, false, child.mayReturn).blocks);
  }

  lemma {:induction false} InnerBroken(r: Span, body: Prog, st: St)
    requires Ready(st) && !Buildable(body, Some(st.next), st.next + 1)
    ensures Broken(ForBody(r, body, st).blocks)
    decreases body, 1
  {
    var one := DeclareFlag(st);
    DeclareGood(st);
    EmptyBlock(one.blocks);
    ExpandBroken(body, Enter(one), Some(st.next));
    ExpandGrows(body, Enter(one), Some(st.next));
    var open := Expand(body, Enter(one), Some(st.next));
    FinishGrows(r, st.next, open);
    StaysBroken(open.blocks, ForBody(r, body, st).blocks);
  }

  // ------------------------------------------------------------------ whole functions

  /** The root scope, with the return flag declared in it. */
  function Root(): St { Register(St([[]], 1, 0, 0, false, false), NDeclare(RET)) }

  function ExpandFunc(p: Prog): Blocks { Terminate(Expand(p, Root(), None)).blocks }

  lemma {:induction false} RootGood()
    ensures var empty := St([[]], 1, 0, 0, false, false);
            && Ready(empty) && Went(empty, Root()) && Root().block == 0 && Root().next == 1
            && forall k :: Meaning(empty, Root(), k) == ICons(Declare(RET), k)
  {
    var none: Blocks := [];
    EmptyBlock(none);
    assert none + [[]] == [[]];
    EmitGood(St([[]], 1, 0, 0, false, false), NDeclare(RET));
  }

  lemma {:induction false} FuncGood(p: Prog)
    requires WellScoped(p, false) && Buildable(p, None, 1)
    ensures Complete(ExpandFunc(p), 0, LowerFunc(p))
  {
    RootGood();
    var empty, out := St([[]], 1, 0, 0, false, false), Expand(p, Root(), None);
    ExpandGood(p, Root(), None);
    assert Meaning(Root(), out, ScopeEnd(None, false)) == Lower(p, None, 1, false).ir;
    WentOn(empty, Root(), out);
    assert Meaning(empty, out, INil) == LowerFunc(p);
    Completes([[]], 0, out.blocks, out.block, out.pos, LowerFunc(p));
  }

  lemma {:induction false} FuncBroken(p: Prog)
    requires WellScoped(p, false) && !Buildable(p, None, 1)
    ensures Broken(ExpandFunc(p))
  {
    RootGood();
    var out := Expand(p, Root(), None);
    ExpandBroken(p, Root(), None);
    ExpandGrows(p, Root(), None);
    TerminateGrows(out);
    StaysBroken(out.blocks, Terminate(out).blocks);
  }

  /** For every function: no block has a terminator in its middle if and only if no plain range
      body exits outside every guard. Then every block ends in its one terminator and the
      blocks mean what `LowerFunc` says. */
  lemma {:induction false} TerminatorsIff(p: Prog)
    requires WellScoped(p, false)
    ensures Broken(ExpandFunc(p)) <==> !Buildable(p, None, 1)
    ensures Buildable(p, None, 1) ==> Complete(ExpandFunc(p), 0, LowerFunc(p))
  {
    if Buildable(p, None, 1) { FuncGood(p); } else { FuncBroken(p); }
  }

  lemma BreakMarks()
    ensures Lower(Then(Break, Done), Some(1), 2, false).mayBreak && !GuardsAny(Then(Break, Done), Some(1), 2)
    ensures Buildable(Then(Break, Done), Some(1), 2)
  {
  }

  lemma ForAlone(r: Span, body: Prog)
    ensures Buildable(Then(For(r, body), Done), None, 1) <==> Buildable(body, Some(1), 2) && BodyOk(r, body, 1)
  {
  }

  /** A plain range loop whose body just breaks gets a block with two terminators; with an
      explicit step it does not. */
  lemma {:induction false} PlainBreakMalformed(r: Span)
    ensures var loop := Then(For(r, Then(Break, Done)), Done);
            WellScoped(loop, false) && (Broken(ExpandFunc(loop)) <==> r.stride.One?)
  {
    var body := Then(Break, Done);
    BreakMarks();
    ForAlone(r, body);
    TerminatorsIff(Then(For(r, body), Done));
  }
}
