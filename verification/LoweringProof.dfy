/**
 The expansion against the direct meaning: a safe program's emitted IR can be observed to do
 exactly what early exit does, for every machine and every start state, including which
 runs do not end.
 */
module LoweringProof {
  import opened Options
  import opened Lowering
  import opened LoweringSafe

  // --------------------------------------------------------------- the emitted code

  /** The loop operation a range loop becomes. */
  function LoweredFor(k: Span, b: Prog, n: nat): Ir {
    var lb := Lower(b, Some(n), n + 1, false);
    if !lb.mayBreak && !lb.mayReturn then RangeOp(k, lb.ir)
    else RangeWhile(k, n, OwnFlag(lb.mayBreak, n), lb.mayReturn, Lower(b, Some(n), n + 1, true).ir)
  }

  /** The operation of a statement, and the next unused flag after it. */
  function OpOf(st: Stmt, brk: Option<nat>, n: nat): Ir
    requires !st.Break?
  {
    match st
    case Act(a) => Op(a)
    case Return => Clear(RET)
    case If(c, t, e) =>
      var lt := Lower(t, brk, n, false);
      IfOp(c, lt.ir, Lower(e, brk, lt.next, false).ir)
    case While(c, b) =>
      var lb := Lower(b, Some(n), n + 1, false);
      WhileOp(c, OwnFlag(lb.mayBreak, n), lb.mayReturn, lb.ir)
    case For(k, b) => LoweredFor(k, b, n)
  }

  function NextOf(st: Stmt, brk: Option<nat>, n: nat): nat {
    match st
    case If(_, t, e) => Lower(e, brk, Lower(t, brk, n, false).next, false).next
    case While(_, b) => Lower(b, Some(n), n + 1, false).next
    case For(_, b) => Lower(b, Some(n), n + 1, false).next
    case _ => n
  }

  lemma NextLater(st: Stmt, brk: Option<nat>, n: nat)
    ensures NextOf(st, brk, n) >= n
  {
    match st
    case If(_, t, e) =>
      LowerMarks(t, brk, n, false);
      LowerMarks(e, brk, Lower(t, brk, n, false).next, false);
    case While(_, b) => LowerMarks(b, Some(n), n + 1, false);
    case For(_, b) => LowerMarks(b, Some(n), n + 1, false);
    case _ =>
  }

  /** A loop is emitted after the declaration of its flag. */
  function Declared(st: Stmt, n: nat, mem: Mem): Mem {
    if st.While? || st.For? then SetFlag(mem, n, true) else mem
  }

  function Chain<S>(q: IrRes<S>, m: Machine<S>, rest: IrBlock, iters: seq<int>, fuel: nat): IrRes<S> {
    match q
    case IrStuck => IrStuck
    case IrEnded(t, mem') => ExecIr(m, rest, iters, t, mem', fuel)
  }

  lemma {:induction false} ExecCons<S>(m: Machine<S>, op: Ir, rest: IrBlock, iters: seq<int>, s: S, mem: Mem, fuel: nat)
    ensures ExecIr(m, ICons(op, rest), iters, s, mem, fuel)
         == Chain(ExecOp(m, op, iters, s, mem, fuel), m, rest, iters, fuel)
  {
  }

  lemma {:induction false} StepIr<S>(m: Machine<S>, op: Ir, rest: IrBlock, iters: seq<int>, s: S, mem: Mem, t: S,
                                     mem': Mem, fuel: nat)
    requires ExecOp(m, op, iters, s, mem, fuel) == IrEnded(t, mem')
    ensures ExecIr(m, ICons(op, rest), iters, s, mem, fuel) == ExecIr(m, rest, iters, t, mem', fuel)
  {
  }

  lemma {:induction false} ExecScopeEnd<S>(m: Machine<S>, brk: Option<nat>, bump: bool, iters: seq<int>, s: S, mem: Mem,
                                           fuel: nat)
    ensures ExecIr(m, ScopeEnd(brk, bump), iters, s, mem, fuel)
         == IrEnded(s, if bump && brk.Some? then BumpCell(mem, brk.value) else mem)
  {
    if bump && brk.Some? {
      StepIr(m, Bump(brk.value), INil, iters, s, mem, s, BumpCell(mem, brk.value), fuel);
    }
  }

  /** What a scope emits behind a statement. */
  function Behind(st: Stmt, rest: Prog, brk: Option<nat>, n: nat, bump: bool): IrBlock {
    Predicate(brk, BreakGuarded(st), Guarded(st), Lower(rest, brk, NextOf(st, brk, n), bump).ir)
  }

  lemma {:induction false} LowerShape(st: Stmt, rest: Prog, brk: Option<nat>, n: nat, bump: bool)
    requires !st.Break?
    ensures var tail := ICons(OpOf(st, brk, n), Behind(st, rest, brk, n, bump));
            Lower(Then(st, rest), brk, n, bump).ir == if st.While? || st.For? then ICons(Declare(n), tail) else tail
  {
    match st
    case If(c, t, e) =>
      LowerMarks(t, brk, n, false);
      LowerMarks(e, brk, Lower(t, brk, n, false).next, false);
    case While(c, b) => LowerMarks(b, Some(n), n + 1, false);
    case For(r, b) => LowerMarks(b, Some(n), n + 1, false);
    case _ =>
  }

  /** The scope's code is the statement's operation followed by the predicated rest. */
  lemma {:induction false} Shape<S>(m: Machine<S>, st: Stmt, rest: Prog, brk: Option<nat>, n: nat, bump: bool,
                                    iters: seq<int>, s: S, mem: Mem, fuel: nat)
    requires !st.Break?
    ensures ExecIr(m, Lower(Then(st, rest), brk, n, bump).ir, iters, s, mem, fuel)
         == Chain(ExecOp(m, OpOf(st, brk, n), iters, s, Declared(st, n, mem), fuel), m,
                  Behind(st, rest, brk, n, bump), iters, fuel)
  {
    LowerShape(st, rest, brk, n, bump);
    var op, after := OpOf(st, brk, n), Behind(st, rest, brk, n, bump);
    if st.While? || st.For? {
      StepIr(m, Declare(n), ICons(op, after), iters, s, mem, s, SetFlag(mem, n, true), fuel);
      ExecCons(m, op, after, iters, s, SetFlag(mem, n, true), fuel);
    } else {
      ExecCons(m, op, after, iters, s, mem, fuel);
    }
  }

  lemma {:induction false} SingleGuard<S>(m: Machine<S>, f: nat, ir: IrBlock, iters: seq<int>, s: S, mem: Mem,
                                          fuel: nat)
    ensures ExecIr(m, ICons(Guard(f, ir), INil), iters, s, mem, fuel)
         == if Flag(mem, f) then ExecIr(m, ir, iters, s, mem, fuel) else IrEnded(s, mem)
  {
    var q := ExecOp(m, Guard(f, ir), iters, s, mem, fuel);
    if q.IrEnded? { assert ExecIr(m, INil, iters, q.s, q.mem, fuel) == q; }
  }

  /** No flag of the scope stands in the way. */
  predicate Open(mem: Mem, brk: Option<nat>) { brk.Some? ==> Flag(mem, brk.value) }

  /** The guards behind a statement. */
  lemma {:induction false} ExecBehind<S>(m: Machine<S>, brk: Option<nat>, mb: bool, mr: bool, ir: IrBlock,
                                         iters: seq<int>, s: S, mem: Mem, fuel: nat)
    ensures ExecIr(m, Predicate(brk, mb, mr, ir), iters, s, mem, fuel)
         == if (mb && !Open(mem, brk)) || (mr && !Flag(mem, RET)) then IrEnded(s, mem)
            else ExecIr(m, ir, iters, s, mem, fuel)
  {
    var inner := if mr then ICons(Guard(RET, ir), INil) else ir;
    if mr { SingleGuard(m, RET, ir, iters, s, mem, fuel); }
    if mb && brk.Some? { SingleGuard(m, brk.value, inner, iters, s, mem, fuel); }
  }

  /** A cleared flag ends a loop. */
  lemma WhileStops<S>(m: Machine<S>, c: Cond, onBreak: Option<nat>, onReturn: bool, body: IrBlock,
                      iters: seq<int>, s: S, mem: Mem, fuel: nat)
    requires !FlagsHold(mem, onBreak, onReturn) && c.pure
    ensures LoopIr(m, c, onBreak, onReturn, body, iters, s, mem, fuel) == IrEnded(s, mem)
  {
  }

  lemma RangeStops<S>(m: Machine<S>, end: int, cell: nat, onBreak: Option<nat>, onReturn: bool, body: IrBlock,
                      iters: seq<int>, s: S, mem: Mem, fuel: nat)
    requires !FlagsHold(mem, onBreak, onReturn)
    ensures RangeLoopIr(m, end, cell, onBreak, onReturn, body, iters, s, mem, fuel) == IrEnded(s, mem)
  {
  }

  /** A turn that clears a flag is the last. */
  lemma WhileOneTurn<S>(m: Machine<S>, c: Cond, onBreak: Option<nat>, onReturn: bool, body: IrBlock,
                        iters: seq<int>, s: S, mem: Mem, fuel: nat, q: IrRes<S>)
    requires c.pure && fuel > 0 && FlagsHold(mem, onBreak, onReturn)
    requires q == ExecIr(m, body, iters, s, mem, fuel - 1) && q.IrEnded? && !FlagsHold(q.mem, onBreak, onReturn)
    ensures LoopIr(m, c, onBreak, onReturn, body, iters, s, mem, fuel)
         == if m.test(c.id, iters, s) then q else IrEnded(s, mem)
  {
    WhileStops(m, c, onBreak, onReturn, body, iters, q.s, q.mem, fuel - 1);
  }

  // ------------------------------------------------------------------------ frames

  /** Below `n`, only the scope's own flags and the cell it bumps may have changed. */
  ghost predicate Frame(mem: Mem, mem': Mem, brk: Option<nat>, n: nat, bump: bool) {
    && (forall x: nat | x < n && x != RET && !(brk.Some? && brk.value == x) :: Flag(mem', x) == Flag(mem, x))
    && (forall x: nat | x < n && !(bump && brk.Some? && brk.value == x) :: Cell(mem', x) == Cell(mem, x))
    && (forall x: nat | x < n :: StepOf(mem', x) == StepOf(mem, x))
  }

  lemma FrameThen(a: Mem, b: Mem, c: Mem, brk: Option<nat>, n: nat, n2: nat, bump: bool)
    requires Frame(a, b, brk, n, false) && Frame(b, c, brk, n2, bump) && n <= n2
    ensures Frame(a, c, brk, n, bump)
    ensures Named(brk, n, bump) && Bumped(b, c, brk, bump) ==> Bumped(a, c, brk, bump)
  {
  }

  /** The iteration variable of the scope's own loop was stepped. */
  ghost predicate Bumped(mem: Mem, mem': Mem, brk: Option<nat>, bump: bool) {
    bump && brk.Some? ==> Cell(mem', brk.value) == Cell(mem, brk.value) + StepOf(mem, brk.value)
  }

  predicate Named(brk: Option<nat>, n: nat, bump: bool) {
    RET < n && (brk.Some? ==> RET < brk.value < n) && (bump ==> brk.Some?)
  }

  predicate Start(mem: Mem, brk: Option<nat>, n: nat, bump: bool) {
    Named(brk, n, bump) && Flag(mem, RET) && Open(mem, brk)
  }

  // ------------------------------------------------------ after the function returned

  /** The return flag is cleared, the scope's own is not. */
  predicate After(mem: Mem, brk: Option<nat>, n: nat, bump: bool) {
    Named(brk, n, bump) && !Flag(mem, RET) && Open(mem, brk)
  }

  /** Nothing was observed. The break flag can still be set only if `drifts`, and can be
      cleared only if a guard on it follows. Without a guard on the return flag (`mark`) the end
      of the scope was reached. */
  ghost predicate Still<S>(q: IrRes<S>, s: S, mem: Mem, brk: Option<nat>, n: nat, bump: bool, drifts: bool,
                           guard: bool, mark: bool) {
    && q.IrEnded? && q.s == s && !Flag(q.mem, RET)
    && (Open(q.mem, brk) ==> drifts && (mark || Bumped(mem, q.mem, brk, bump))) && (!Open(q.mem, brk) ==> guard)
    && Frame(mem, q.mem, brk, n, bump)
  }

  lemma {:induction false} IdleProg<S>(m: Machine<S>, p: Prog, brk: Option<nat>, n: nat, bump: bool, iters: seq<int>,
                                       s: S, mem: Mem, fuel: nat)
    requires Idle(p) && WellScoped(p, brk.Some?) && After(mem, brk, n, bump) && fuel >= DriftTurns(m, p, iters, s)
    ensures Still(ExecIr(m, Lower(p, brk, n, bump).ir, iters, s, mem, fuel), s, mem, brk, n, bump,
                  Drifts(p), BreakMark(p), Mark(p))
    decreases p, 1, 0
  {
    if p.Done? {
      ExecScopeEnd(m, brk, bump, iters, s, mem, fuel);
    } else if p.s.Break? {
      BreakScope(m, p.rest, brk, n, bump, iters, s, mem, fuel);
    } else {
      IdleOne(m, p.s, brk, n, iters, s, mem, fuel);
      IdleThen(m, p.s, p.rest, brk, n, bump, iters, s, mem, fuel);
    }
  }

  /** A `break` clears the flag and ends what is emitted. */
  lemma {:induction false} BreakScope<S>(m: Machine<S>, rest: Prog, brk: Option<nat>, n: nat, bump: bool,
                                         iters: seq<int>, s: S, mem: Mem, fuel: nat)
    requires brk.Some? && Named(brk, n, bump)
    ensures var q := ExecIr(m, Lower(Then(Break, rest), brk, n, bump).ir, iters, s, mem, fuel);
            && q.IrEnded? && q.s == s && Flag(q.mem, RET) == Flag(mem, RET) && !Open(q.mem, brk)
            && Frame(mem, q.mem, brk, n, bump)
  {
    var cleared := SetFlag(mem, brk.value, false);
    StepIr(m, Clear(brk.value), ScopeEnd(brk, bump), iters, s, mem, s, cleared, fuel);
    ExecScopeEnd(m, brk, bump, iters, s, cleared, fuel);
  }

  lemma {:induction false} IdleThen<S>(m: Machine<S>, st: Stmt, rest: Prog, brk: Option<nat>, n: nat, bump: bool,
                                       iters: seq<int>, s: S, mem: Mem, fuel: nat)
    requires !st.Break? && Idle(Then(st, rest)) && WellScoped(rest, brk.Some?) && After(mem, brk, n, bump)
    requires fuel >= DriftTurns(m, rest, iters, s)
    requires Still(ExecOp(m, OpOf(st, brk, n), iters, s, Declared(st, n, mem), fuel), s, mem, brk, n, false,
                   Holds(st) || Passes(st), BreakGuarded(st), false)
    ensures var p := Then(st, rest);
            Still(ExecIr(m, Lower(p, brk, n, bump).ir, iters, s, mem, fuel), s, mem, brk, n, bump, Drifts(p),
                  BreakMark(p), Mark(p))
    decreases Then(st, rest), 0, 0
  {
    var q := ExecOp(m, OpOf(st, brk, n), iters, s, Declared(st, n, mem), fuel);
    var n2 := NextOf(st, brk, n);
    NextLater(st, brk, n);
    Shape(m, st, rest, brk, n, bump, iters, s, mem, fuel);
    ExecBehind(m, brk, BreakGuarded(st), Guarded(st), Lower(rest, brk, n2, bump).ir, iters, s, q.mem, fuel);
    if Open(q.mem, brk) && !Guarded(st) {
      assert Passes(st);
      IdleProg(m, rest, brk, n2, bump, iters, s, q.mem, fuel);
      FrameThen(mem, q.mem, ExecIr(m, Lower(rest, brk, n2, bump).ir, iters, s, q.mem, fuel).mem, brk, n, n2, bump);
    }
  }

  lemma {:induction false} IdleOne<S>(m: Machine<S>, st: Stmt, brk: Option<nat>, n: nat, iters: seq<int>, s: S,
                                      mem: Mem, fuel: nat)
    requires !st.Break? && IdleStmt(st) && WellScopedS(st, brk.Some?) && After(mem, brk, n, false)
    requires fuel >= DriftTurnsOf(m, st, iters, s)
    ensures Still(ExecOp(m, OpOf(st, brk, n), iters, s, Declared(st, n, mem), fuel), s, mem, brk, n, false,
                  Holds(st) || Passes(st), BreakGuarded(st), false)
    decreases st, 3, 0
  {
    match st
    case Return =>
    case If(c, t, e) =>
      var lt := Lower(t, brk, n, false);
      LowerMarks(t, brk, n, false);
      if m.test(c.id, iters, s) { IdleProg(m, t, brk, n, false, iters, s, mem, fuel); }
      else { IdleProg(m, e, brk, lt.next, false, iters, s, mem, fuel); }
    case While(c, b) =>
      if Mark(b) { MarkedWhile(m, c, b, brk, n, iters, s, mem, fuel); }
      else { IdleWhile(m, c, b, brk, n, iters, s, mem, fuel - 1); }
    case For(r, b) =>
      if Mark(b) { MarkedFor(m, r, b, brk, n, iters, s, mem, fuel); }
      else { IdleFor(m, r, b, brk, n, iters, s, mem, fuel); }
  }

  /** Nothing was observed of a loop, and only its own flag moved. */
  ghost predicate Quiet<S>(q: IrRes<S>, s: S, mem: Mem, n: nat) {
    q.IrEnded? && q.s == s && !Flag(q.mem, RET) && Frame(mem, q.mem, None, n, false)
  }

  lemma QuietStill<S>(q: IrRes<S>, s: S, mem: Mem, mem': Mem, brk: Option<nat>, n: nat)
    requires Quiet(q, s, mem', n) && Frame(mem, mem', None, n, false) && After(mem, brk, n, false)
    ensures Still(q, s, mem, brk, n, false, true, false, false)
  {
  }

  lemma StillQuiet<S>(q: IrRes<S>, s: S, mem: Mem, n: nat, bump: bool, drifts: bool, guard: bool,
                      mark: bool)
    requires Still(q, s, mem, Some(n), n + 1, bump, drifts, guard, mark) && RET < n
    ensures Quiet(q, s, mem, n)
  {
  }

  /** One turn shows nothing and clears the loop's flag. */
  ghost predicate Cleared<S>(m: Machine<S>, ir: IrBlock, n: nat, iters: seq<int>, s: S, mem: Mem, fuel: nat) {
    var q := ExecIr(m, ir, iters, s, mem, fuel);
    Quiet(q, s, mem, n) && !Flag(q.mem, n)
  }

  /** The body of a loop that breaks in its first turn. */
  lemma {:induction false} BodyBreaks<S>(m: Machine<S>, b: Prog, n: nat, iters: seq<int>, s: S, mem: Mem, fuel: nat)
    requires Idle(b) && !Drifts(b) && After(mem, Some(n), n + 1, false)
    requires fuel >= DriftTurns(m, b, iters, s)
    ensures Cleared(m, Lower(b, Some(n), n + 1, false).ir, n, iters, s, mem, fuel) && BreakMark(b)
    decreases b, 2, 0
  {
    var q := ExecIr(m, Lower(b, Some(n), n + 1, false).ir, iters, s, mem, fuel);
    IdleProg(m, b, Some(n), n + 1, false, iters, s, mem, fuel);
    StillQuiet(q, s, mem, n, false, Drifts(b), BreakMark(b), Mark(b));
  }

  /** A loop that holds the return flag stops at once. */
  lemma {:induction false} MarkedWhile<S>(m: Machine<S>, c: Cond, b: Prog, brk: Option<nat>, n: nat, iters: seq<int>,
                                          s: S, mem: Mem, fuel: nat)
    requires c.pure && Mark(b) && After(mem, brk, n, false)
    ensures Still(ExecOp(m, OpOf(While(c, b), brk, n), iters, s, SetFlag(mem, n, true), fuel),
                  s, mem, brk, n, false, true, false, false)
  {
    var mem1 := SetFlag(mem, n, true);
    WhileRuns(m, c, b, brk, n, iters, s, mem1, fuel);
    WhileStops(m, c, OwnFlag(BreakMark(b), n), true, Lower(b, Some(n), n + 1, false).ir, iters, s, mem1, fuel);
    QuietStill(ExecOp(m, OpOf(While(c, b), brk, n), iters, s, mem1, fuel), s, mem, mem1, brk, n);
  }

  /** Another must break in its first turn. */
  lemma {:induction false} IdleWhile<S>(m: Machine<S>, c: Cond, b: Prog, brk: Option<nat>, n: nat, iters: seq<int>,
                                        s: S, mem: Mem, g: nat)
    requires c.pure && !Mark(b) && Idle(b) && !Drifts(b)
    requires After(mem, brk, n, false) && g >= DriftTurns(m, b, iters, s)
    ensures Still(ExecOp(m, OpOf(While(c, b), brk, n), iters, s, SetFlag(mem, n, true), g + 1),
                  s, mem, brk, n, false, true, false, false)
    decreases b, 4, 0
  {
    var mem1 := SetFlag(mem, n, true);
    WhileRuns(m, c, b, brk, n, iters, s, mem1, g + 1);
    IdleLoop(m, c, b, n, iters, s, mem1, g);
    QuietStill(ExecOp(m, OpOf(While(c, b), brk, n), iters, s, mem1, g + 1), s, mem, mem1, brk, n);
  }

  lemma {:induction false} WhileRuns<S>(m: Machine<S>, c: Cond, b: Prog, brk: Option<nat>, n: nat, iters: seq<int>,
                                        s: S, mem: Mem, fuel: nat)
    ensures ExecOp(m, OpOf(While(c, b), brk, n), iters, s, mem, fuel)
         == LoopIr(m, c, OwnFlag(BreakMark(b), n), Mark(b), Lower(b, Some(n), n + 1, false).ir, iters, s, mem, fuel)
  {
    LowerMarks(b, Some(n), n + 1, false);
  }

  lemma {:induction false} IdleLoop<S>(m: Machine<S>, c: Cond, b: Prog, n: nat, iters: seq<int>, s: S, mem: Mem,
                                       g: nat)
    requires Idle(b) && !Drifts(b) && g >= DriftTurns(m, b, iters, s)
    requires c.pure && After(mem, Some(n), n + 1, false)
    ensures Quiet(LoopIr(m, c, OwnFlag(BreakMark(b), n), false, Lower(b, Some(n), n + 1, false).ir, iters, s, mem,
                         g + 1),
                  s, mem, n)
    decreases b, 3, 0
  {
    BodyBreaks(m, b, n, iters, s, mem, g);
    QuietWhile(m, c, n, Lower(b, Some(n), n + 1, false).ir, iters, s, mem, g + 1);
  }

  lemma {:induction false} QuietWhile<S>(m: Machine<S>, c: Cond, n: nat, ir: IrBlock, iters: seq<int>, s: S, mem: Mem,
                                         fuel: nat)
    requires c.pure && Flag(mem, n) && !Flag(mem, RET) && fuel > 0 && Cleared(m, ir, n, iters, s, mem, fuel - 1)
    ensures Quiet(LoopIr(m, c, Some(n), false, ir, iters, s, mem, fuel), s, mem, n)
  {
    WhileOneTurn(m, c, Some(n), false, ir, iters, s, mem, fuel, ExecIr(m, ir, iters, s, mem, fuel - 1));
  }

  lemma {:induction false} MarkedFor<S>(m: Machine<S>, r: Span, b: Prog, brk: Option<nat>, n: nat, iters: seq<int>,
                                        s: S, mem: Mem, fuel: nat)
    requires Mark(b) && After(mem, brk, n, false)
    ensures Still(ExecOp(m, OpOf(For(r, b), brk, n), iters, s, SetFlag(mem, n, true), fuel),
                  s, mem, brk, n, false, true, false, false)
  {
    ForRuns(m, r, b, n, iters, s, SetFlag(mem, n, true), fuel);
    var range := RangeOf(m, r, iters, s);
    var mem1 := InitCell(SetFlag(mem, n, true), n, range);
    RangeStops(m, range.end, n, OwnFlag(BreakMark(b), n), true, Lower(b, Some(n), n + 1, true).ir, iters, s, mem1,
               fuel);
    QuietStill(ExecOp(m, OpOf(For(r, b), brk, n), iters, s, SetFlag(mem, n, true), fuel), s, mem, mem1, brk, n);
  }

  lemma {:induction false} IdleFor<S>(m: Machine<S>, r: Span, b: Prog, brk: Option<nat>, n: nat, iters: seq<int>,
                                      s: S, mem: Mem, fuel: nat)
    requires !Mark(b) && Idle(b) && (Advances(r) || !Drifts(b)) && After(mem, brk, n, false)
    requires var range := RangeOf(m, r, iters, s); fuel >= RangeTurns(m, range, range.start, b, iters, s)
    ensures Still(ExecOp(m, OpOf(For(r, b), brk, n), iters, s, SetFlag(mem, n, true), fuel),
                  s, mem, brk, n, false, true, false, false)
    decreases b, 4, 0
  {
    var range := RangeOf(m, r, iters, s);
    var mem0 := SetFlag(mem, n, true);
    var q := ExecOp(m, OpOf(For(r, b), brk, n), iters, s, mem0, fuel);
    if BreakMark(b) {
      var mem1 := InitCell(mem0, n, range);
      ForRuns(m, r, b, n, iters, s, mem0, fuel);
      IdleRangeLoop(m, range, b, n, iters, s, mem1, fuel);
      QuietStill(q, s, mem, mem1, brk, n);
    } else {
      NoBreakDrifts(b);
      PlainForRuns(m, r, b, n, iters, s, mem0, fuel);
      IdleRange(m, range, range.start, b, n, iters, s, mem0, fuel);
      QuietStill(q, s, mem, mem0, brk, n);
    }
  }

  /** A range loop that may exit runs as a while over its iteration variable. */
  lemma {:induction false} ForRuns<S>(m: Machine<S>, r: Span, b: Prog, n: nat, iters: seq<int>, s: S, mem: Mem,
                                      fuel: nat)
    requires BreakMark(b) || Mark(b)
    ensures ExecOp(m, LoweredFor(r, b, n), iters, s, mem, fuel)
         == RangeLoopIr(m, RangeOf(m, r, iters, s).end, n, OwnFlag(BreakMark(b), n), Mark(b),
                        Lower(b, Some(n), n + 1, true).ir, iters, s, InitCell(mem, n, RangeOf(m, r, iters, s)), fuel)
  {
    LowerMarks(b, Some(n), n + 1, false);
  }

  lemma {:induction false} PlainForRuns<S>(m: Machine<S>, r: Span, b: Prog, n: nat, iters: seq<int>, s: S, mem: Mem,
                                           fuel: nat)
    requires !BreakMark(b) && !Mark(b)
    ensures ExecOp(m, LoweredFor(r, b, n), iters, s, mem, fuel)
         == RangeIr(m, RangeOf(m, r, iters, s), RangeOf(m, r, iters, s).start, Lower(b, Some(n), n + 1, false).ir,
                    iters, s, mem, fuel)
  {
    LowerMarks(b, Some(n), n + 1, false);
  }

  /** The turns that are left are idle; the range ends, or a turn breaks. */
  lemma {:induction false} IdleRangeLoop<S>(m: Machine<S>, range: Range, b: Prog, n: nat, iters: seq<int>, s: S,
                                            mem: Mem, fuel: nat)
    requires !Mark(b) && Idle(b) && (range.step > 0 || !Drifts(b))
    requires After(mem, Some(n), n + 1, true) && StepOf(mem, n) == range.step
    requires fuel >= RangeTurns(m, range, Cell(mem, n), b, iters, s)
    ensures Quiet(RangeLoopIr(m, range.end, n, OwnFlag(BreakMark(b), n), false, Lower(b, Some(n), n + 1, true).ir,
                              iters, s, mem, fuel), s, mem, n)
    decreases b, 3, if Cell(mem, n) < range.end then range.end - Cell(mem, n) else 0
  {
    var ir, own, i := Lower(b, Some(n), n + 1, true).ir, OwnFlag(BreakMark(b), n), Cell(mem, n);
    if i < range.end {
      var q := ExecIr(m, ir, iters + [i], s, mem, fuel - 1);
      IdleProg(m, b, Some(n), n + 1, true, iters + [i], s, mem, fuel - 1);
      StillQuiet(q, s, mem, n, true, Drifts(b), BreakMark(b), false);
      if Open(q.mem, Some(n)) {
        IdleRangeLoop(m, range, b, n, iters, s, q.mem, fuel - 1);
        QuietTurn(q, RangeLoopIr(m, range.end, n, own, false, ir, iters, s, q.mem, fuel - 1), s, mem, n);
      } else {
        RangeStops(m, range.end, n, own, false, ir, iters, s, q.mem, fuel - 1);
      }
    }
  }

  lemma QuietTurn<S>(q: IrRes<S>, q2: IrRes<S>, s: S, mem: Mem, n: nat)
    requires Quiet(q, s, mem, n) && Quiet(q2, s, q.mem, n)
    ensures Quiet(q2, s, mem, n)
  {
  }

  lemma {:induction false} IdleRange<S>(m: Machine<S>, range: Range, i: int, b: Prog, n: nat, iters: seq<int>, s: S,
                                        mem: Mem, fuel: nat)
    requires !Mark(b) && !BreakMark(b) && Idle(b) && range.step > 0 && After(mem, Some(n), n + 1, false)
    requires fuel >= RangeTurns(m, range, i, b, iters, s)
    ensures Quiet(RangeIr(m, range, i, Lower(b, Some(n), n + 1, false).ir, iters, s, mem, fuel), s, mem, n)
    decreases b, 3, if i < range.end then range.end - i else 0
  {
    var ir := Lower(b, Some(n), n + 1, false).ir;
    if i < range.end {
      var q := ExecIr(m, ir, iters + [i], s, mem, fuel - 1);
      IdleProg(m, b, Some(n), n + 1, false, iters + [i], s, mem, fuel - 1);
      StillQuiet(q, s, mem, n, false, Drifts(b), BreakMark(b), false);
      IdleRange(m, range, i + range.step, b, n, iters, s, q.mem, fuel - 1);
      QuietTurn(q, RangeIr(m, range, i + range.step, ir, iters, s, q.mem, fuel - 1), s, mem, n);
    }
  }

  // -------------------------------------------------------------------- simulation

  /** The emitted IR ended where direct execution did, and the flags say how. After a `return`
      the break flag can still be set only if `escapes`; it can be cleared only if a guard on
      it follows. Without a guard on the return flag (`mark`) the end was then reached. */
  ghost predicate Match<S>(t: S, exit: Exit, q: IrRes<S>, escapes: bool, guard: bool, mark: bool, brk: Option<nat>,
                           n: nat, bump: bool, mem: Mem) {
    && q.IrEnded? && q.s == t && Flag(q.mem, RET) == !exit.Returned?
    && (exit.Fall? ==> Open(q.mem, brk) && Bumped(mem, q.mem, brk, bump)) && (exit.Broke? ==> !Open(q.mem, brk))
    && (exit.Returned? && Open(q.mem, brk) ==> escapes && (mark || Bumped(mem, q.mem, brk, bump)))
    && (!Open(q.mem, brk) ==> guard)
    && Frame(mem, q.mem, brk, n, bump)
  }

  /** Direct execution with fuel `f` against the IR with fuel `h`. */
  ghost predicate Sync<S>(r: Res<S>, q: IrRes<S>, f: nat, h: nat, slack: nat, escapes: bool, guard: bool,
                          mark: bool, brk: Option<nat>, n: nat, bump: bool, mem: Mem) {
    match r
    case Stuck => h == f ==> q.IrStuck?
    case Ended(t, exit) => (exit.Returned? ==> h >= f + slack) ==>
      Match(t, exit, q, escapes, guard, mark, brk, n, bump, mem)
  }

  /** What the scope around a loop sees of it. */
  ghost predicate LoopMatch<S>(t: S, exit: Exit, q: IrRes<S>, n: nat, mem: Mem) {
    && q.IrEnded? && q.s == t && !exit.Broke? && Flag(q.mem, RET) == !exit.Returned?
    && Frame(mem, q.mem, None, n, false)
  }

  ghost predicate LoopSync<S>(r: Res<S>, q: IrRes<S>, f: nat, h: nat, slack: nat, n: nat, mem: Mem) {
    match r
    case Stuck => h == f ==> q.IrStuck?
    case Ended(t, exit) => (exit.Returned? ==> h >= f + slack) ==> LoopMatch(t, exit, q, n, mem)
  }

  /** A safe program, from a state in which no flag is cleared. */
  lemma {:induction false} Sim<S>(m: Machine<S>, p: Prog, brk: Option<nat>, n: nat, bump: bool, iters: seq<int>,
                                  s: S, mem: Mem, f: nat, h: nat)
    requires Safe(p) && WellScoped(p, brk.Some?) && Start(mem, brk, n, bump) && h >= f
    ensures Sync(Exec(m, p, iters, s, f), ExecIr(m, Lower(p, brk, n, bump).ir, iters, s, mem, h), f, h,
                 Need(m, p, iters, s, f), Escapes(p), BreakMark(p), Mark(p), brk, n, bump, mem)
    decreases f, p, 2
  {
    if p.Done? {
      ExecScopeEnd(m, brk, bump, iters, s, mem, h);
    } else if p.s.Break? {
      BreakScope(m, p.rest, brk, n, bump, iters, s, mem, h);
      assert ExecStmt(m, Break, iters, s, f) == Ended(s, Broke);
    } else {
      StmtSim(m, p.s, brk, n, iters, s, mem, f, h);
      StmtExits(m, p.s, iters, s, f);
      SimThen(m, p.s, p.rest, brk, n, bump, iters, s, mem, f, h);
    }
  }

  /** One statement: its operation ends like the statement. */
  lemma {:induction false} StmtSim<S>(m: Machine<S>, st: Stmt, brk: Option<nat>, n: nat, iters: seq<int>, s: S,
                                      mem: Mem, f: nat, h: nat)
    requires !st.Break? && SafeStmt(st) && WellScopedS(st, brk.Some?) && Start(mem, brk, n, false) && h >= f
    ensures Sync(ExecStmt(m, st, iters, s, f), ExecOp(m, OpOf(st, brk, n), iters, s, Declared(st, n, mem), h), f, h,
                 StmtNeed(m, st, iters, s, f), Stops(st) || Leaves(st), BreakGuarded(st), false, brk, n, false, mem)
    decreases f, st, 6
  {
    match st
    case Act(a) =>
    case Return =>
    case If(c, t, e) => IfSim(m, c, t, e, brk, n, iters, s, mem, f, h);
    case While(c, b) => WhileInScope(m, c, b, brk, n, iters, s, mem, f, h);
    case For(r, b) => ForInScope(m, r, b, brk, n, iters, s, mem, f, h);
  }

  lemma {:induction false} IfSim<S>(m: Machine<S>, c: Cond, t: Prog, e: Prog, brk: Option<nat>, n: nat, iters: seq<int>,
                                    s: S, mem: Mem, f: nat, h: nat)
    requires Safe(t) && Safe(e) && WellScoped(t, brk.Some?) && WellScoped(e, brk.Some?)
    requires Start(mem, brk, n, false) && h >= f
    ensures var st := If(c, t, e);
            Sync(ExecStmt(m, st, iters, s, f), ExecOp(m, OpOf(st, brk, n), iters, s, mem, h), f, h,
                 StmtNeed(m, st, iters, s, f), Stops(st) || Leaves(st), BreakGuarded(st), false, brk, n, false, mem)
    decreases f, If(c, t, e), 4
  {
    var n2 := Lower(t, brk, n, false).next;
    LowerMarks(t, brk, n, false);
    if m.test(c.id, iters, s) { Sim(m, t, brk, n, false, iters, Touch(m, c, iters, s), mem, f, h); }
    else { Sim(m, e, brk, n2, false, iters, Touch(m, c, iters, s), mem, f, h); }
  }

  /** Behind a statement, the guards let run exactly what can be observed to be right. */
  lemma {:induction false} SimThen<S>(m: Machine<S>, st: Stmt, rest: Prog, brk: Option<nat>, n: nat, bump: bool,
                                      iters: seq<int>, s: S, mem: Mem, f: nat, h: nat)
    requires !st.Break? && Safe(Then(st, rest)) && WellScoped(rest, brk.Some?) && Start(mem, brk, n, bump) && h >= f
    requires Exits(ExecStmt(m, st, iters, s, f), Falls(st), Breaks(st), Returns(st))
    requires Sync(ExecStmt(m, st, iters, s, f), ExecOp(m, OpOf(st, brk, n), iters, s, Declared(st, n, mem), h), f, h,
                  StmtNeed(m, st, iters, s, f), Stops(st) || Leaves(st), BreakGuarded(st), false, brk, n, false, mem)
    ensures var p := Then(st, rest);
            Sync(Exec(m, p, iters, s, f), ExecIr(m, Lower(p, brk, n, bump).ir, iters, s, mem, h), f, h,
                 Need(m, p, iters, s, f), Escapes(p), BreakMark(p), Mark(p), brk, n, bump, mem)
    decreases f, Then(st, rest), 1
  {
    var r := ExecStmt(m, st, iters, s, f);
    var q := ExecOp(m, OpOf(st, brk, n), iters, s, Declared(st, n, mem), h);
    Shape(m, st, rest, brk, n, bump, iters, s, mem, h);
    if r.Ended? && (r.exit.Returned? ==> h >= f + Need(m, Then(st, rest), iters, s, f)) {
      if r.exit.Fall? { SimFell(m, st, rest, brk, n, bump, iters, r.s, q, mem, f, h); }
      else { SimLeft(m, st, rest, brk, n, bump, iters, r.s, r.exit, q, mem, h); }
    }
  }

  lemma {:induction false} SimFell<S>(m: Machine<S>, st: Stmt, rest: Prog, brk: Option<nat>, n: nat, bump: bool,
                                      iters: seq<int>, t: S, q: IrRes<S>, mem: Mem, f: nat, h: nat)
    requires Safe(rest) && WellScoped(rest, brk.Some?) && Start(mem, brk, n, bump) && h >= f && Falls(st)
    requires Match(t, Fall, q, Stops(st) || Leaves(st), BreakGuarded(st), false, brk, n, false, mem)
    ensures var p := Then(st, rest);
            Sync(Exec(m, rest, iters, t, f), ExecIr(m, Behind(st, rest, brk, n, bump), iters, t, q.mem, h), f, h,
                 Need(m, rest, iters, t, f), Escapes(p), BreakMark(p), Mark(p), brk, n, bump, mem)
    decreases f, rest, 3
  {
    var n2 := NextOf(st, brk, n);
    var ir := Lower(rest, brk, n2, bump).ir;
    NextLater(st, brk, n);
    ExecBehind(m, brk, BreakGuarded(st), Guarded(st), ir, iters, t, q.mem, h);
    Sim(m, rest, brk, n2, bump, iters, t, q.mem, f, h);
    var p := Then(st, rest);
    MatchThen(Exec(m, rest, iters, t, f), q, ExecIr(m, ir, iters, t, q.mem, h), f, h, Need(m, rest, iters, t, f),
              Escapes(rest), Escapes(p), BreakMark(rest), BreakMark(p), Mark(rest), Mark(p), brk, n, n2, bump, mem);
  }

  /** After a `break` or a `return`: a guard stops the emitted code, or it is idle. */
  lemma {:induction false} SimLeft<S>(m: Machine<S>, st: Stmt, rest: Prog, brk: Option<nat>, n: nat, bump: bool,
                                      iters: seq<int>, t: S, exit: Exit, q: IrRes<S>, mem: Mem, h: nat)
    requires exit.Returned? && Leaves(st) ==> Idle(rest) && h >= DriftTurns(m, rest, iters, t)
    requires WellScoped(rest, brk.Some?) && Start(mem, brk, n, bump) && !exit.Fall?
    requires Match(t, exit, q, Stops(st) || Leaves(st), BreakGuarded(st), false, brk, n, false, mem)
    ensures var p := Then(st, rest);
            Match(t, exit, ExecIr(m, Behind(st, rest, brk, n, bump), iters, t, q.mem, h), Escapes(p), BreakMark(p),
                  Mark(p), brk, n, bump, mem)
  {
    var n2 := NextOf(st, brk, n);
    var ir := Lower(rest, brk, n2, bump).ir;
    NextLater(st, brk, n);
    ExecBehind(m, brk, BreakGuarded(st), Guarded(st), ir, iters, t, q.mem, h);
    if exit.Returned? && Open(q.mem, brk) && !Guarded(st) {
      IdleProg(m, rest, brk, n2, bump, iters, t, q.mem, h);
      FrameThen(mem, q.mem, ExecIr(m, ir, iters, t, q.mem, h).mem, brk, n, n2, bump);
    }
  }

  /** The rest's outcome is the scope's. */
  lemma MatchThen<S>(r: Res<S>, q: IrRes<S>, q2: IrRes<S>, f: nat, h: nat, slack: nat, escapes: bool, escapes': bool,
                     guard: bool, guard': bool, mark: bool, mark': bool, brk: Option<nat>, n: nat, n2: nat, bump: bool,
                     mem: Mem)
    requires q.IrEnded? && Frame(mem, q.mem, brk, n, false) && n <= n2 && Named(brk, n, bump)
    requires Sync(r, q2, f, h, slack, escapes, guard, mark, brk, n2, bump, q.mem)
    requires (escapes ==> escapes') && (guard ==> guard') && (mark ==> mark')
    ensures Sync(r, q2, f, h, slack, escapes', guard', mark', brk, n, bump, mem)
  {
  }

  // ------------------------------------------------------------------------- loops

  /** A loop's outcome, seen from the scope around it. */
  lemma {:induction false} LoopInScope<S>(r: Res<S>, q: IrRes<S>, f: nat, h: nat, slack: nat, escapes: bool,
                                          brk: Option<nat>, n: nat, mem: Mem, mem1: Mem)
    requires LoopSync(r, q, f, h, slack, n, mem1) && Frame(mem, mem1, None, n, false) && Start(mem, brk, n, false)
    requires Exits(r, true, false, escapes)
    ensures Sync(r, q, f, h, slack, escapes, false, false, brk, n, false, mem)
  {
  }

  lemma {:induction false} WhileInScope<S>(m: Machine<S>, c: Cond, b: Prog, brk: Option<nat>, n: nat, iters: seq<int>,
                                           s: S, mem: Mem, f: nat, h: nat)
    requires SafeStmt(While(c, b)) && Start(mem, brk, n, false) && h >= f
    ensures Sync(ExecWhile(m, c, b, iters, s, f),
                 ExecOp(m, OpOf(While(c, b), brk, n), iters, s, SetFlag(mem, n, true), h),
                 f, h, WhileNeed(m, c, b, iters, s, f), CanReturn(b), false, false, brk, n, false, mem)
    decreases f, b, 5
  {
    var mem1 := SetFlag(mem, n, true);
    WhileRuns(m, c, b, brk, n, iters, s, mem1, h);
    SimWhile(m, c, b, n, iters, s, mem1, f, h);
    WhileExits(m, c, b, iters, s, f);
    LoopInScope(ExecWhile(m, c, b, iters, s, f), ExecOp(m, OpOf(While(c, b), brk, n), iters, s, mem1, h), f, h,
                WhileNeed(m, c, b, iters, s, f), CanReturn(b), brk, n, mem, mem1);
  }

  /** One turn of a loop: the flags tell whether another follows. After a `return` another can
      follow only if the body is idle (`idle`). */
  ghost predicate TurnSync<S>(r: Res<S>, q: IrRes<S>, f: nat, h: nat, slack: nat, own: bool, marked: bool, idle: bool,
                              n: nat, bump: bool, mem: Mem) {
    match r
    case Stuck => h == f ==> q.IrStuck?
    case Ended(t, exit) =>
      (exit.Returned? ==> h >= f + slack) ==>
        && q.IrEnded? && q.s == t && Flag(q.mem, RET) == !exit.Returned?
        && (exit.Fall? ==> FlagsHold(q.mem, OwnFlag(own, n), marked))
        && (exit.Broke? ==> !FlagsHold(q.mem, OwnFlag(own, n), marked))
        && (exit.Returned? && FlagsHold(q.mem, OwnFlag(own, n), marked) ==> idle && !marked)
        && Frame(mem, q.mem, None, n, false) && StepOf(q.mem, n) == StepOf(mem, n)
        && (FlagsHold(q.mem, OwnFlag(own, n), marked) ==> Flag(q.mem, n) && Bumped(mem, q.mem, Some(n), bump))
  }

  lemma TurnEnds<S>(r: Res<S>, q: IrRes<S>, f: nat, h: nat, slack: nat, escapes: bool, own: bool, marked: bool,
                    idle: bool, n: nat, bump: bool, mem: Mem)
    requires Sync(r, q, f, h, slack, escapes, own, marked, Some(n), n + 1, bump, mem) && RET < n
    requires r.Ended? && r.exit.Returned? ==> marked || !escapes || idle
    ensures TurnSync(r, q, f, h, slack, own, marked, idle, n, bump, mem)
  {
  }

  /** The body of a safe loop. */
  lemma {:induction false} BodySync<S>(m: Machine<S>, b: Prog, idle: bool, n: nat, bump: bool, iters: seq<int>, s: S,
                                       mem: Mem, f: nat, h: nat)
    requires Safe(b) && (CanReturn(b) ==> Mark(b) || !Escapes(b) || idle)
    requires Start(mem, Some(n), n + 1, bump) && RET < n && h >= f
    ensures TurnSync(Exec(m, b, iters, s, f), ExecIr(m, Lower(b, Some(n), n + 1, bump).ir, iters, s, mem, h), f, h,
                     Need(m, b, iters, s, f), BreakMark(b), Mark(b), idle, n, bump, mem)
    decreases f, b, 3
  {
    Sim(m, b, Some(n), n + 1, bump, iters, s, mem, f, h);
    ProgExits(m, b, iters, s, f);
    TurnEnds(Exec(m, b, iters, s, f), ExecIr(m, Lower(b, Some(n), n + 1, bump).ir, iters, s, mem, h), f, h,
             Need(m, b, iters, s, f), Escapes(b), BreakMark(b), Mark(b), idle, n, bump, mem);
  }

  /** One `while`, by induction on its turns. */
  lemma {:induction false} SimWhile<S>(m: Machine<S>, c: Cond, b: Prog, n: nat, iters: seq<int>, s: S, mem: Mem,
                                       f: nat, h: nat)
    requires SafeStmt(While(c, b)) && Start(mem, Some(n), n + 1, false) && RET < n && h >= f
    ensures LoopSync(ExecWhile(m, c, b, iters, s, f),
                     LoopIr(m, c, OwnFlag(BreakMark(b), n), Mark(b), Lower(b, Some(n), n + 1, false).ir, iters, s, mem,
                            h),
                     f, h, WhileNeed(m, c, b, iters, s, f), n, mem)
    decreases f, b, 4
  {
    var ir := Lower(b, Some(n), n + 1, false).ir;
    if m.test(c.id, iters, s) && f > 0 {
      var s1 := Touch(m, c, iters, s);
      BodySync(m, b, false, n, false, iters, s1, mem, f - 1, h - 1);
      ProgExits(m, b, iters, s1, f - 1);
      var r, q := Exec(m, b, iters, s1, f - 1), ExecIr(m, ir, iters, s1, mem, h - 1);
      if r.Ended? && r.exit.Fall? { SimWhile(m, c, b, n, iters, r.s, q.mem, f - 1, h - 1); }
      WhileTurn(m, c, b, BreakMark(b), Mark(b), ir, n, iters, s, mem, f, h, r, q);
    }
  }

  /** A turn and what follows it. */
  lemma {:induction false} WhileTurn<S>(m: Machine<S>, c: Cond, b: Prog, own: bool, marked: bool, ir: IrBlock, n: nat,
                                        iters: seq<int>, s: S, mem: Mem, f: nat, h: nat, r: Res<S>, q: IrRes<S>)
    requires m.test(c.id, iters, s) && 0 < f <= h && FlagsHold(mem, OwnFlag(own, n), marked)
    requires r == Exec(m, b, iters, Touch(m, c, iters, s), f - 1)
    requires q == ExecIr(m, ir, iters, Touch(m, c, iters, s), mem, h - 1)
    requires TurnSync(r, q, f - 1, h - 1, Need(m, b, iters, Touch(m, c, iters, s), f - 1), own, marked, false, n, false,
                      mem)
    requires r.Ended? && !r.exit.Fall? ==> c.pure
    requires r.Ended? && r.exit.Fall? ==>
      LoopSync(ExecWhile(m, c, b, iters, r.s, f - 1),
               LoopIr(m, c, OwnFlag(own, n), marked, ir, iters, q.s, q.mem, h - 1), f - 1, h - 1,
               WhileNeed(m, c, b, iters, r.s, f - 1), n, q.mem)
    ensures LoopSync(ExecWhile(m, c, b, iters, s, f), LoopIr(m, c, OwnFlag(own, n), marked, ir, iters, s, mem, h),
                     f, h, WhileNeed(m, c, b, iters, s, f), n, mem)
  {
    if q.IrEnded? && !FlagsHold(q.mem, OwnFlag(own, n), marked) && c.pure {
      WhileStops(m, c, OwnFlag(own, n), marked, ir, iters, q.s, q.mem, h - 1);
    }
  }

  lemma {:induction false} ForInScope<S>(m: Machine<S>, k: Span, b: Prog, brk: Option<nat>, n: nat, iters: seq<int>,
                                         s: S, mem: Mem, f: nat, h: nat)
    requires SafeStmt(For(k, b)) && Start(mem, brk, n, false) && h >= f
    ensures Sync(ExecStmt(m, For(k, b), iters, s, f),
                 ExecOp(m, LoweredFor(k, b, n), iters, s, SetFlag(mem, n, true), h),
                 f, h, StmtNeed(m, For(k, b), iters, s, f), CanReturn(b), false, false, brk, n, false, mem)
    decreases f, b, 5
  {
    var range := RangeOf(m, k, iters, s);
    var mem0 := SetFlag(mem, n, true);
    var r, q := ExecStmt(m, For(k, b), iters, s, f), ExecOp(m, LoweredFor(k, b, n), iters, s, mem0, h);
    RangeExits(m, range, range.start, b, iters, s, f);
    if BreakMark(b) || Mark(b) {
      var mem1 := InitCell(mem0, n, range);
      ForRuns(m, k, b, n, iters, s, mem0, h);
      SimRangeWhile(m, range, b, n, iters, s, mem1, f, h);
      LoopInScope(r, q, f, h, StmtNeed(m, For(k, b), iters, s, f), CanReturn(b), brk, n, mem, mem1);
    } else {
      PlainForRuns(m, k, b, n, iters, s, mem0, h);
      SimRange(m, range, range.start, b, n, iters, s, mem0, f, h);
      LoopInScope(r, q, f, h, StmtNeed(m, For(k, b), iters, s, f), CanReturn(b), brk, n, mem, mem0);
    }
  }

  /** A range loop kept as it is: its body never leaves early, or idles on after a `return`. */
  lemma {:induction false} SimRange<S>(m: Machine<S>, range: Range, i: int, b: Prog, n: nat, iters: seq<int>, s: S,
                                       mem: Mem, f: nat, h: nat)
    requires Safe(b) && (CanReturn(b) ==> Mark(b) || !Escapes(b) || (range.step > 0 && Idle(b)))
    requires !BreakMark(b) && !Mark(b) && Start(mem, Some(n), n + 1, false) && RET < n && h >= f
    ensures LoopSync(ExecRange(m, range, i, b, iters, s, f),
                     RangeIr(m, range, i, Lower(b, Some(n), n + 1, false).ir, iters, s, mem, h), f, h,
                     RangeNeed(m, range, i, b, iters, s, f), n, mem)
    decreases f, b, 4
  {
    var ir, idle := Lower(b, Some(n), n + 1, false).ir, range.step > 0 && Idle(b);
    if i < range.end && f > 0 {
      BodySync(m, b, idle, n, false, iters + [i], s, mem, f - 1, h - 1);
      var r, q := Exec(m, b, iters + [i], s, f - 1), ExecIr(m, ir, iters + [i], s, mem, h - 1);
      if r.Ended? && r.exit.Fall? { SimRange(m, range, i + range.step, b, n, iters, r.s, q.mem, f - 1, h - 1); }
      if r.Ended? && r.exit.Returned? && h >= f + RangeNeed(m, range, i, b, iters, s, f) {
        IdleRange(m, range, i + range.step, b, n, iters, r.s, q.mem, h - 1);
      }
      RangeTurn(m, range, i, b, idle, ir, n, iters, s, mem, f, h, r, q);
    }
  }

  lemma {:induction false} RangeTurn<S>(m: Machine<S>, range: Range, i: int, b: Prog, idle: bool, ir: IrBlock, n: nat,
                                        iters: seq<int>, s: S, mem: Mem, f: nat, h: nat, r: Res<S>, q: IrRes<S>)
    requires i < range.end && 0 < f <= h
    requires r == Exec(m, b, iters + [i], s, f - 1) && q == ExecIr(m, ir, iters + [i], s, mem, h - 1)
    requires TurnSync(r, q, f - 1, h - 1, Need(m, b, iters + [i], s, f - 1), false, false, idle, n, false, mem)
    requires r.Ended? && r.exit.Fall? ==>
      LoopSync(ExecRange(m, range, i + range.step, b, iters, r.s, f - 1),
               RangeIr(m, range, i + range.step, ir, iters, q.s, q.mem, h - 1), f - 1, h - 1,
               RangeNeed(m, range, i + range.step, b, iters, r.s, f - 1), n, q.mem)
    requires r.Ended? && r.exit.Returned? && h >= f + RangeNeed(m, range, i, b, iters, s, f) && q.IrEnded? ==>
      Quiet(RangeIr(m, range, i + range.step, ir, iters, q.s, q.mem, h - 1), q.s, q.mem, n)
    ensures LoopSync(ExecRange(m, range, i, b, iters, s, f), RangeIr(m, range, i, ir, iters, s, mem, h),
                     f, h, RangeNeed(m, range, i, b, iters, s, f), n, mem)
  {
  }

  /** A range loop rewritten as a while over its iteration variable. */
  lemma {:induction false} SimRangeWhile<S>(m: Machine<S>, range: Range, b: Prog, n: nat, iters: seq<int>, s: S,
                                            mem: Mem, f: nat, h: nat)
    requires Safe(b) && (CanReturn(b) ==> Mark(b) || !Escapes(b) || (range.step > 0 && Idle(b)))
    requires StepOf(mem, n) == range.step && Start(mem, Some(n), n + 1, true) && RET < n && h >= f
    ensures LoopSync(ExecRange(m, range, Cell(mem, n), b, iters, s, f),
                     RangeLoopIr(m, range.end, n, OwnFlag(BreakMark(b), n), Mark(b), Lower(b, Some(n), n + 1, true).ir,
                                 iters, s, mem, h), f, h, RangeNeed(m, range, Cell(mem, n), b, iters, s, f), n, mem)
    decreases f, b, 4
  {
    var i := Cell(mem, n);
    if i < range.end && f > 0 {
      var r := Exec(m, b, iters + [i], s, f - 1);
      if r.Ended? && !r.exit.Fall? {
        SimRangeLeft(m, range, b, n, iters, s, mem, f, h);
      } else {
        var ir := Lower(b, Some(n), n + 1, true).ir;
        var q := ExecIr(m, ir, iters + [i], s, mem, h - 1);
        BodySync(m, b, range.step > 0 && Idle(b), n, true, iters + [i], s, mem, f - 1, h - 1);
        if r.Ended? { SimRangeWhile(m, range, b, n, iters, r.s, q.mem, f - 1, h - 1); }
        RangeWhileTurn(m, range, b, BreakMark(b), Mark(b), range.step > 0 && Idle(b), ir, n, iters, s, mem, f, h, r, q);
      }
    }
  }

  lemma {:induction false} SimRangeLeft<S>(m: Machine<S>, range: Range, b: Prog, n: nat, iters: seq<int>, s: S,
                                           mem: Mem, f: nat, h: nat)
    requires Safe(b) && (CanReturn(b) ==> Mark(b) || !Escapes(b) || (range.step > 0 && Idle(b)))
    requires StepOf(mem, n) == range.step && Start(mem, Some(n), n + 1, true) && RET < n && Cell(mem, n) < range.end
    requires 0 < f <= h
    requires var r := Exec(m, b, iters + [Cell(mem, n)], s, f - 1); r.Ended? && !r.exit.Fall?
    ensures LoopSync(ExecRange(m, range, Cell(mem, n), b, iters, s, f),
                     RangeLoopIr(m, range.end, n, OwnFlag(BreakMark(b), n), Mark(b), Lower(b, Some(n), n + 1, true).ir,
                                 iters, s, mem, h), f, h, RangeNeed(m, range, Cell(mem, n), b, iters, s, f), n, mem)
    decreases f, b, 3
  {
    var ir, i := Lower(b, Some(n), n + 1, true).ir, Cell(mem, n);
    BodySync(m, b, range.step > 0 && Idle(b), n, true, iters + [i], s, mem, f - 1, h - 1);
    TurnsLeft(m, range, b, n, iters, s, mem, f, h);
    RangeWhileLeft(m, range, b, BreakMark(b), Mark(b), range.step > 0 && Idle(b), ir, n, iters, s, mem, f, h,
                   Exec(m, b, iters + [i], s, f - 1), ExecIr(m, ir, iters + [i], s, mem, h - 1));
  }

  /** The body returned, and the emitted loop takes another turn. */
  ghost predicate GoesOn<S>(r: Res<S>, q: IrRes<S>, f: nat, h: nat, need: nat, own: bool, marked: bool, n: nat) {
    r.Ended? && r.exit.Returned? && h >= f + need && q.IrEnded? && FlagsHold(q.mem, OwnFlag(own, n), marked)
  }

  /** Then the turns that are left are idle. */
  lemma {:induction false} TurnsLeft<S>(m: Machine<S>, range: Range, b: Prog, n: nat, iters: seq<int>, s: S, mem: Mem,
                                        f: nat, h: nat)
    requires Safe(b) && (CanReturn(b) ==> Mark(b) || !Escapes(b) || (range.step > 0 && Idle(b)))
    requires StepOf(mem, n) == range.step && Start(mem, Some(n), n + 1, true) && RET < n
    requires Cell(mem, n) < range.end && 0 < f <= h
    ensures var i, ir := Cell(mem, n), Lower(b, Some(n), n + 1, true).ir;
            var r, q := Exec(m, b, iters + [i], s, f - 1), ExecIr(m, ir, iters + [i], s, mem, h - 1);
            GoesOn(r, q, f, h, RangeNeed(m, range, i, b, iters, s, f), BreakMark(b), Mark(b), n) ==>
              Quiet(RangeLoopIr(m, range.end, n, OwnFlag(BreakMark(b), n), Mark(b), ir, iters, q.s, q.mem, h - 1),
                    q.s, q.mem, n)
    decreases f, b, 2
  {
    var i, ir := Cell(mem, n), Lower(b, Some(n), n + 1, true).ir;
    var r, q := Exec(m, b, iters + [i], s, f - 1), ExecIr(m, ir, iters + [i], s, mem, h - 1);
    BodySync(m, b, range.step > 0 && Idle(b), n, true, iters + [i], s, mem, f - 1, h - 1);
    if GoesOn(r, q, f, h, RangeNeed(m, range, i, b, iters, s, f), BreakMark(b), Mark(b), n) {
      IdleRangeLoop(m, range, b, n, iters, r.s, q.mem, h - 1);
    }
  }

  lemma {:induction false} RangeWhileTurn<S>(m: Machine<S>, range: Range, b: Prog, own: bool, marked: bool, idle: bool,
                                             ir: IrBlock, n: nat, iters: seq<int>, s: S, mem: Mem, f: nat, h: nat,
                                             r: Res<S>, q: IrRes<S>)
    requires Cell(mem, n) < range.end && 0 < f <= h && FlagsHold(mem, OwnFlag(own, n), marked)
    requires StepOf(mem, n) == range.step && (r.Ended? ==> r.exit.Fall?)
    requires r == Exec(m, b, iters + [Cell(mem, n)], s, f - 1)
    requires q == ExecIr(m, ir, iters + [Cell(mem, n)], s, mem, h - 1)
    requires TurnSync(r, q, f - 1, h - 1, Need(m, b, iters + [Cell(mem, n)], s, f - 1), own, marked, idle, n, true, mem)
    requires r.Ended? ==>
      LoopSync(ExecRange(m, range, Cell(mem, n) + range.step, b, iters, r.s, f - 1),
               RangeLoopIr(m, range.end, n, OwnFlag(own, n), marked, ir, iters, q.s, q.mem, h - 1),
               f - 1, h - 1, RangeNeed(m, range, Cell(mem, n) + range.step, b, iters, r.s, f - 1), n, q.mem)
    ensures LoopSync(ExecRange(m, range, Cell(mem, n), b, iters, s, f),
                     RangeLoopIr(m, range.end, n, OwnFlag(own, n), marked, ir, iters, s, mem, h), f, h,
                     RangeNeed(m, range, Cell(mem, n), b, iters, s, f), n, mem)
  {
  }

  lemma {:induction false} RangeWhileLeft<S>(m: Machine<S>, range: Range, b: Prog, own: bool, marked: bool, idle: bool,
                                             ir: IrBlock, n: nat, iters: seq<int>, s: S, mem: Mem, f: nat, h: nat,
                                             r: Res<S>, q: IrRes<S>)
    requires Cell(mem, n) < range.end && 0 < f <= h && FlagsHold(mem, OwnFlag(own, n), marked)
    requires r == Exec(m, b, iters + [Cell(mem, n)], s, f - 1) && r.Ended? && !r.exit.Fall?
    requires q == ExecIr(m, ir, iters + [Cell(mem, n)], s, mem, h - 1)
    requires TurnSync(r, q, f - 1, h - 1, Need(m, b, iters + [Cell(mem, n)], s, f - 1), own, marked, idle, n, true, mem)
    requires GoesOn(r, q, f, h, RangeNeed(m, range, Cell(mem, n), b, iters, s, f), own, marked, n) ==>
      Quiet(RangeLoopIr(m, range.end, n, OwnFlag(own, n), marked, ir, iters, q.s, q.mem, h - 1), q.s, q.mem, n)
    ensures LoopSync(ExecRange(m, range, Cell(mem, n), b, iters, s, f),
                     RangeLoopIr(m, range.end, n, OwnFlag(own, n), marked, ir, iters, s, mem, h), f, h,
                     RangeNeed(m, range, Cell(mem, n), b, iters, s, f), n, mem)
  {
    if q.IrEnded? && !FlagsHold(q.mem, OwnFlag(own, n), marked) {
      RangeStops(m, range.end, n, OwnFlag(own, n), marked, ir, iters, q.s, q.mem, h - 1);
    }
  }

  /** After a safe statement that falls through, both executions go on from the same state. */
  lemma {:induction false} FallThrough<S>(m: Machine<S>, st: Stmt, rest: Prog, brk: Option<nat>, n: nat, bump: bool,
                                          iters: seq<int>, s: S, mem: Mem, f: nat, h: nat)
    returns (t: S, mem': Mem)
    requires !st.Break? && SafeStmt(st) && WellScopedS(st, brk.Some?) && Start(mem, brk, n, bump) && h >= f
    requires var r := ExecStmt(m, st, iters, s, f); r.Ended? && r.exit.Fall?
    ensures ExecStmt(m, st, iters, s, f) == Ended(t, Fall) && Falls(st)
    ensures Start(mem', brk, NextOf(st, brk, n), bump) && Frame(mem, mem', brk, n, false) && NextOf(st, brk, n) >= n
    ensures Exec(m, Then(st, rest), iters, s, f) == Exec(m, rest, iters, t, f)
    ensures ExecIr(m, Lower(Then(st, rest), brk, n, bump).ir, iters, s, mem, h)
         == ExecIr(m, Lower(rest, brk, NextOf(st, brk, n), bump).ir, iters, t, mem', h)
  {
    var q := ExecOp(m, OpOf(st, brk, n), iters, s, Declared(st, n, mem), h);
    NextLater(st, brk, n);
    StmtExits(m, st, iters, s, f);
    StmtSim(m, st, brk, n, iters, s, mem, f, h);
    Shape(m, st, rest, brk, n, bump, iters, s, mem, h);
    t, mem' := q.s, q.mem;
    ExecBehind(m, brk, BreakGuarded(st), Guarded(st), Lower(rest, brk, NextOf(st, brk, n), bump).ir, iters, t, mem', h);
  }

  // --------------------------------------------------------------------- more fuel

  /** More fuel keeps what ended. */
  predicate Keeps<S(==)>(q: IrRes<S>, q': IrRes<S>) { q.IrEnded? ==> q' == q }

  lemma {:induction false} IrMono<S>(m: Machine<S>, b: IrBlock, iters: seq<int>, s: S, mem: Mem, f: nat, h: nat)
    requires f <= h
    ensures Keeps(ExecIr(m, b, iters, s, mem, f), ExecIr(m, b, iters, s, mem, h))
    decreases f, b, 0
  {
    if b.ICons? {
      OpMono(m, b.op, iters, s, mem, f, h);
      var q := ExecOp(m, b.op, iters, s, mem, f);
      if q.IrEnded? { IrMono(m, b.rest, iters, q.s, q.mem, f, h); }
    }
  }

  lemma {:induction false} OpMono<S>(m: Machine<S>, op: Ir, iters: seq<int>, s: S, mem: Mem, f: nat, h: nat)
    requires f <= h
    ensures Keeps(ExecOp(m, op, iters, s, mem, f), ExecOp(m, op, iters, s, mem, h))
    decreases f, op, 1
  {
    match op
    case Guard(_, thn) => IrMono(m, thn, iters, s, mem, f, h);
    case IfOp(c, t, e) =>
      if m.test(c.id, iters, s) { IrMono(m, t, iters, Touch(m, c, iters, s), mem, f, h); }
      else { IrMono(m, e, iters, Touch(m, c, iters, s), mem, f, h); }
    case WhileOp(c, onBreak, onReturn, body) => LoopMono(m, c, onBreak, onReturn, body, iters, s, mem, f, h);
    case RangeOp(r, body) =>
      RangeMono(m, RangeOf(m, r, iters, s), RangeOf(m, r, iters, s).start, body, iters, s, mem, f, h);
    case RangeWhile(r, cell, onBreak, onReturn, body) =>
      var range := RangeOf(m, r, iters, s);
      RangeLoopMono(m, range.end, cell, onBreak, onReturn, body, iters, s, InitCell(mem, cell, range), f, h);
    case _ =>
  }

  lemma {:induction false} LoopMono<S>(m: Machine<S>, c: Cond, onBreak: Option<nat>, onReturn: bool, body: IrBlock,
                                       iters: seq<int>, s: S, mem: Mem, f: nat, h: nat)
    requires f <= h
    ensures Keeps(LoopIr(m, c, onBreak, onReturn, body, iters, s, mem, f),
                  LoopIr(m, c, onBreak, onReturn, body, iters, s, mem, h))
    decreases f, body, 1
  {
    if m.test(c.id, iters, s) && FlagsHold(mem, onBreak, onReturn) && f > 0 {
      var t := Touch(m, c, iters, s);
      IrMono(m, body, iters, t, mem, f - 1, h - 1);
      var q := ExecIr(m, body, iters, t, mem, f - 1);
      if q.IrEnded? { LoopMono(m, c, onBreak, onReturn, body, iters, q.s, q.mem, f - 1, h - 1); }
    }
  }

  lemma {:induction false} RangeMono<S>(m: Machine<S>, range: Range, i: int, body: IrBlock, iters: seq<int>, s: S,
                                        mem: Mem, f: nat, h: nat)
    requires f <= h
    ensures Keeps(RangeIr(m, range, i, body, iters, s, mem, f), RangeIr(m, range, i, body, iters, s, mem, h))
    decreases f, body, 1
  {
    if i < range.end && f > 0 {
      IrMono(m, body, iters + [i], s, mem, f - 1, h - 1);
      var q := ExecIr(m, body, iters + [i], s, mem, f - 1);
      if q.IrEnded? { RangeMono(m, range, i + range.step, body, iters, q.s, q.mem, f - 1, h - 1); }
    }
  }

  lemma {:induction false} RangeLoopMono<S>(m: Machine<S>, end: int, cell: nat, onBreak: Option<nat>, onReturn: bool,
                                            body: IrBlock, iters: seq<int>, s: S, mem: Mem, f: nat, h: nat)
    requires f <= h
    ensures Keeps(RangeLoopIr(m, end, cell, onBreak, onReturn, body, iters, s, mem, f),
                  RangeLoopIr(m, end, cell, onBreak, onReturn, body, iters, s, mem, h))
    decreases f, body, 1
  {
    var i := Cell(mem, cell);
    if i < end && FlagsHold(mem, onBreak, onReturn) && f > 0 {
      IrMono(m, body, iters + [i], s, mem, f - 1, h - 1);
      var q := ExecIr(m, body, iters + [i], s, mem, f - 1);
      if q.IrEnded? { RangeLoopMono(m, end, cell, onBreak, onReturn, body, iters, q.s, q.mem, f - 1, h - 1); }
    }
  }

  // --------------------------------------------------------------- whole functions

  /** Turn by turn: with as much fuel, the emitted IR does not end before direct execution;
      with `Need` more it ends in the same state. */
  lemma {:induction false} FuncSync<S>(m: Machine<S>, p: Prog, s: S, mem: Mem, f: nat, h: nat)
    requires Safe(p) && WellScoped(p, false) && h >= f
    ensures var r, q := Exec(m, p, [], s, f), ExecIr(m, LowerFunc(p), [], s, mem, h);
            && (r.Stuck? && h == f ==> q.IrStuck?)
            && (r.Ended? && h >= f + Need(m, p, [], s, f) ==> q.IrEnded? && q.s == r.s)
  {
    StepIr(m, Declare(RET), Lower(p, None, 1, false).ir, [], s, mem, s, SetFlag(mem, RET, true), h);
    Sim(m, p, None, 1, false, [], s, SetFlag(mem, RET, true), f, h);
  }

  predicate EndsIn<S(==)>(r: Res<S>, t: S) { r.Ended? && r.s == t }
  predicate IrEndsIn<S(==)>(q: IrRes<S>, t: S) { q.IrEnded? && q.s == t }

  /** Direct execution ends, in state `t`. */
  ghost predicate Yields<S>(m: Machine<S>, p: Prog, s: S, t: S) {
    exists f: nat :: EndsIn(Exec(m, p, [], s, f), t)
  }

  /** The emitted IR ends, in state `t`. */
  ghost predicate IrYields<S>(m: Machine<S>, p: Prog, s: S, mem: Mem, t: S) {
    exists f: nat :: IrEndsIn(ExecIr(m, LowerFunc(p), [], s, mem, f), t)
  }

  /** Meaning is preserved: for every safe function, machine and start state, the emitted IR
      ends exactly if direct early exit ends, and in the same state. */
  lemma {:induction false} LoweringCorrect<S>(m: Machine<S>, p: Prog, s: S, mem: Mem, t: S)
    requires Safe(p) && WellScoped(p, false)
    ensures Yields(m, p, s, t) <==> IrYields(m, p, s, mem, t)
  {
    if Yields(m, p, s, t) {
      var f: nat :| EndsIn(Exec(m, p, [], s, f), t);
      FuncSync(m, p, s, mem, f, f + Need(m, p, [], s, f));
      assert IrEndsIn(ExecIr(m, LowerFunc(p), [], s, mem, f + Need(m, p, [], s, f)), t);
    }
    if IrYields(m, p, s, mem, t) {
      var f: nat :| IrEndsIn(ExecIr(m, LowerFunc(p), [], s, mem, f), t);
      FuncSync(m, p, s, mem, f, f);
      FuncSync(m, p, s, mem, f, f + Need(m, p, [], s, f));
      IrMono(m, LowerFunc(p), [], s, mem, f, f + Need(m, p, [], s, f));
      assert EndsIn(Exec(m, p, [], s, f), t);
    }
  }
}
