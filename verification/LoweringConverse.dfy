/**
 The conditions of `Safe` are exact: where ids are distinct, a program that is not safe has a
 machine, counting what can be observed, on which direct execution ends and the emitted IR
 counts more or does not end.
 */
module LoweringConverse {
  import opened Options
  import opened Lowering
  import opened LoweringSafe
  import opened LoweringSteer
  import opened LoweringProof

  /** What is steered: in the second turn of the range that runs twice, all conditions and ranges
      follow their own steering. Every other iteration variable is 0. */
  function Now(x: Failure, iters: seq<int>): set<nat> {
    if x.again.Some? && 1 in iters then x.again.value.later else x.on
  }

  /** No second turn is running. */
  predicate First(x: Failure, iters: seq<int>) { x.again.Some? ==> 1 !in iters }

  /** The machine of a steering. It counts every operation and every evaluation with side
      effects, or the evaluations of `e` alone. */
  function Steered(x: Failure): Machine<nat> {
    Machine(
      (a, iters, s) => if x.e.None? then s + 1 else s,
      (c, iters, s) => CondKey(c) in Now(x, iters) || (CondKey(c) in x.once && s == 0),
      (c, iters, s) => if x.e.None? || x.e.value == c then s + 1 else s,
      (r, iters, s) => if RangeKey(r) in Now(x, iters) then Range(0, Turns(x, r), if x.e.None? then 0 else 1)
                       else Range(0, 0, 1))
  }

  function Turns(x: Failure, r: nat): int { if x.again.Some? && x.again.value.r == r then 2 else 1 }

  /** The range a loop runs over; one that need not advance runs for ever, where all is counted. */
  function RangeAt(x: Failure, r: Span, iters: seq<int>): Range {
    if RangeKey(r.id) in Now(x, iters) then Range(0, Turns(x, r.id), if x.e.None? && !Advances(r) then 0 else 1)
    else Range(0, 0, 1)
  }

  lemma SteeredRange(x: Failure, r: Span, iters: seq<int>, s: nat)
    ensures RangeOf(Steered(x), r, iters, s) == RangeAt(x, r, iters)
  {
  }

  lemma InFirstTurn(x: Failure, iters: seq<int>)
    ensures Now(x, iters + [0]) == Now(x, iters) && (First(x, iters) ==> First(x, iters + [0]))
  {
  }

  /** A steering that counts everything. */
  predicate Counting(x: Failure) { x.e.None? && x.once == {} }

  // ------------------------------------------------------------- what was counted stays

  predicate Grown(s: nat, q: IrRes<nat>) { q.IrEnded? ==> s <= q.s }

  lemma {:induction false} Grows(x: Failure, b: IrBlock, iters: seq<int>, s: nat, mem: Mem, h: nat)
    ensures Grown(s, ExecIr(Steered(x), b, iters, s, mem, h))
    decreases h, b, 0
  {
    if b.ICons? {
      OpGrows(x, b.op, iters, s, mem, h);
      var q := ExecOp(Steered(x), b.op, iters, s, mem, h);
      if q.IrEnded? { Grows(x, b.rest, iters, q.s, q.mem, h); }
    }
  }

  lemma {:induction false} OpGrows(x: Failure, op: Ir, iters: seq<int>, s: nat, mem: Mem, h: nat)
    ensures Grown(s, ExecOp(Steered(x), op, iters, s, mem, h))
    decreases h, op, 1
  {
    var m := Steered(x);
    match op
    case Guard(_, thn) => Grows(x, thn, iters, s, mem, h);
    case IfOp(c, t, e) =>
      if m.test(c.id, iters, s) { Grows(x, t, iters, Touch(m, c, iters, s), mem, h); }
      else { Grows(x, e, iters, Touch(m, c, iters, s), mem, h); }
    case WhileOp(c, onBreak, onReturn, body) => LoopGrows(x, c, onBreak, onReturn, body, iters, s, mem, h);
    case RangeOp(r, body) => RangeGrows(x, RangeOf(m, r, iters, s), RangeOf(m, r, iters, s).start, body, iters, s, mem,
                                        h);
    case RangeWhile(r, cell, onBreak, onReturn, body) =>
      var range := RangeOf(m, r, iters, s);
      RangeLoopGrows(x, range.end, cell, onBreak, onReturn, body, iters, s, InitCell(mem, cell, range), h);
    case _ =>
  }

  /** A condition with side effects is counted whenever it is evaluated. */
  lemma {:induction false} LoopGrows(x: Failure, c: Cond, onBreak: Option<nat>, onReturn: bool, body: IrBlock,
                                     iters: seq<int>, s: nat, mem: Mem, h: nat)
    ensures Grown(Touch(Steered(x), c, iters, s), LoopIr(Steered(x), c, onBreak, onReturn, body, iters, s, mem, h))
    ensures s <= Touch(Steered(x), c, iters, s)
    decreases h, body, 1
  {
    var m := Steered(x);
    if m.test(c.id, iters, s) && FlagsHold(mem, onBreak, onReturn) && h > 0 {
      var t := Touch(m, c, iters, s);
      Grows(x, body, iters, t, mem, h - 1);
      var q := ExecIr(m, body, iters, t, mem, h - 1);
      if q.IrEnded? { LoopGrows(x, c, onBreak, onReturn, body, iters, q.s, q.mem, h - 1); }
    }
  }

  lemma {:induction false} RangeGrows(x: Failure, range: Range, i: int, body: IrBlock, iters: seq<int>, s: nat,
                                      mem: Mem, h: nat)
    ensures Grown(s, RangeIr(Steered(x), range, i, body, iters, s, mem, h))
    decreases h, body, 1
  {
    if i < range.end && h > 0 {
      Grows(x, body, iters + [i], s, mem, h - 1);
      var q := ExecIr(Steered(x), body, iters + [i], s, mem, h - 1);
      if q.IrEnded? { RangeGrows(x, range, i + range.step, body, iters, q.s, q.mem, h - 1); }
    }
  }

  lemma {:induction false} RangeLoopGrows(x: Failure, end: int, cell: nat, onBreak: Option<nat>, onReturn: bool,
                                          body: IrBlock, iters: seq<int>, s: nat, mem: Mem, h: nat)
    ensures Grown(s, RangeLoopIr(Steered(x), end, cell, onBreak, onReturn, body, iters, s, mem, h))
    decreases h, body, 1
  {
    var i := Cell(mem, cell);
    if i < end && FlagsHold(mem, onBreak, onReturn) && h > 0 {
      Grows(x, body, iters + [i], s, mem, h - 1);
      var q := ExecIr(Steered(x), body, iters + [i], s, mem, h - 1);
      if q.IrEnded? { RangeLoopGrows(x, end, cell, onBreak, onReturn, body, iters, q.s, q.mem, h - 1); }
    }
  }

  // -------------------------------------------------------------- direct execution

  /** Loops take one turn at most, so the nesting depth is fuel enough. */
  function Depth(p: Prog): nat {
    match p
    case Done => 0
    case Then(st, rest) => Max(DepthOf(st), Depth(rest))
  }

  function DepthOf(st: Stmt): nat {
    match st
    case If(_, t, e) => Max(Depth(t), Depth(e))
    case While(_, b) => 1 + Depth(b)
    case For(_, b) => 1 + Depth(b)
    case _ => 0
  }

  predicate Took(r: Res<nat>, w: Way) {
    match w
    case Falling => r.Ended? && r.exit.Fall?
    case Breaking => r.Ended? && r.exit.Broke?
    case Returning => r.Ended? && r.exit.Returned?
    case Loops => true
  }

  /** ... and counts nothing but evaluations of `e`, if only those count. */
  predicate Counted(x: Failure, keys: set<nat>, s: nat, r: Res<nat>) {
    r.Ended? && x.e.Some? && CondKey(x.e.value) !in keys ==> r.s == s
  }

  /** Direct execution goes the way it is steered. */
  lemma {:induction false} Follows(x: Failure, p: Prog, iters: seq<int>, s: nat, f: nat)
    requires Keys(p) !! x.once && f >= Depth(p) && !WayOf(x.on, p).Loops? && First(x, iters)
    ensures Took(Exec(Steered(x), p, iters, s, f), WayOf(x.on, p))
    ensures Counted(x, Keys(p), s, Exec(Steered(x), p, iters, s, f))
    decreases p, 0
  {
    if p.Then? {
      FollowsStmt(x, p.s, iters, s, f);
      var r := ExecStmt(Steered(x), p.s, iters, s, f);
      if StmtWay(x.on, p.s).Falling? { Follows(x, p.rest, iters, r.s, f); }
    }
  }

  lemma {:induction false} FollowsStmt(x: Failure, st: Stmt, iters: seq<int>, s: nat, f: nat)
    requires KeysOf(st) !! x.once && f >= DepthOf(st) && !StmtWay(x.on, st).Loops? && First(x, iters)
    ensures Took(ExecStmt(Steered(x), st, iters, s, f), StmtWay(x.on, st))
    ensures Counted(x, KeysOf(st), s, ExecStmt(Steered(x), st, iters, s, f))
    decreases st, 0
  {
    var m := Steered(x);
    match st
    case If(c, t, e) =>
      var s1 := Touch(m, c, iters, s);
      if CondKey(c.id) in x.on { Follows(x, t, iters, s1, f); } else { Follows(x, e, iters, s1, f); }
    case While(c, b) =>
      if CondKey(c.id) in x.on { Follows(x, b, iters, Touch(m, c, iters, s), f - 1); }
    case For(r, b) => FollowsFor(x, r, b, iters, s, f);
    case _ =>
  }

  lemma {:induction false} FollowsFor(x: Failure, r: Span, b: Prog, iters: seq<int>, s: nat, f: nat)
    requires KeysOf(For(r, b)) !! x.once && f >= 1 + Depth(b) && !StmtWay(x.on, For(r, b)).Loops? && First(x, iters)
    ensures Took(ExecStmt(Steered(x), For(r, b), iters, s, f), StmtWay(x.on, For(r, b)))
    ensures Counted(x, KeysOf(For(r, b)), s, ExecStmt(Steered(x), For(r, b), iters, s, f))
    decreases b, 1
  {
    SteeredRange(x, r, iters, s);
    InFirstTurn(x, iters);
    if RangeKey(r.id) in x.on { Follows(x, b, iters + [0], s, f - 1); }
  }

  /** Where nothing is steered, no loop runs. */
  lemma {:induction false} OffRuns(on: set<nat>, p: Prog)
    requires Keys(p) !! on
    ensures !WayOf(on, p).Loops?
  {
    if p.Then? {
      OffRuns(on, p.rest);
      if p.s.If? { OffRuns(on, p.s.els); }
    }
  }

  // ------------------------------------------------------ after the function returned

  /** The code does not hold the range that runs twice. */
  predicate Fresh(x: Failure, keys: set<nat>) { x.again.Some? ==> RangeKey(x.again.value.r) !in keys }

  /** The emitted code did what its drift says, if it ended. */
  ghost predicate Drifted(d: Drift, q: IrRes<nat>, s: nat, mem: Mem, brk: Option<nat>, n: nat, bump: bool,
                          guard: bool, mark: bool) {
    q.IrEnded? ==>
      if d.Loud? then s < q.s
      else Still(q, s, mem, brk, n, bump, d.Opened?, guard, mark) && (d.Opened? ==> Open(q.mem, brk))
  }

  lemma {:induction false} DriftProg(x: Failure, p: Prog, brk: Option<nat>, n: nat, bump: bool, iters: seq<int>, s: nat,
                                     mem: Mem, h: nat)
    requires Counting(x) && Fresh(x, Keys(p)) && WellScoped(p, brk.Some?) && After(mem, brk, n, bump)
    ensures Drifted(DriftOf(Now(x, iters), p), ExecIr(Steered(x), Lower(p, brk, n, bump).ir, iters, s, mem, h), s, mem,
                    brk, n,
                    bump, BreakMark(p), Mark(p))
    decreases h, p, 1
  {
    var m := Steered(x);
    if p.Done? {
      ExecScopeEnd(m, brk, bump, iters, s, mem, h);
    } else if p.s.Break? {
      assert StmtDrift(Now(x, iters), p.s).Shut?;
      BreakScope(m, p.rest, brk, n, bump, iters, s, mem, h);
    } else {
      DriftOne(x, p.s, brk, n, iters, s, mem, h);
      DriftThen(x, p.s, p.rest, brk, n, bump, iters, s, mem, h);
    }
  }

  lemma {:induction false} DriftThen(x: Failure, st: Stmt, rest: Prog, brk: Option<nat>, n: nat, bump: bool,
                                     iters: seq<int>, s: nat, mem: Mem, h: nat)
    requires !st.Break? && Counting(x) && Fresh(x, Keys(rest)) && WellScoped(rest, brk.Some?)
      && After(mem, brk, n, bump)
    requires Drifted(StmtDrift(Now(x, iters), st),
                     ExecOp(Steered(x), OpOf(st, brk, n), iters, s, Declared(st, n, mem), h), s,
                     mem, brk, n, false, BreakGuarded(st), false)
    ensures var p := Then(st, rest);
            Drifted(DriftOf(Now(x, iters), p), ExecIr(Steered(x), Lower(p, brk, n, bump).ir, iters, s, mem, h), s, mem,
                    brk, n,
                    bump, BreakMark(p), Mark(p))
    decreases h, Then(st, rest), 0
  {
    var m := Steered(x);
    var q := ExecOp(m, OpOf(st, brk, n), iters, s, Declared(st, n, mem), h);
    var n2 := NextOf(st, brk, n);
    var ir := Lower(rest, brk, n2, bump).ir;
    NextLater(st, brk, n);
    Shape(m, st, rest, brk, n, bump, iters, s, mem, h);
    if q.IrEnded? {
      if StmtDrift(Now(x, iters), st).Loud? {
        Grows(x, Behind(st, rest, brk, n, bump), iters, q.s, q.mem, h);
      } else {
        ExecBehind(m, brk, BreakGuarded(st), Guarded(st), ir, iters, q.s, q.mem, h);
        if StmtDrift(Now(x, iters), st).Opened? && !Guarded(st) {
          DriftProg(x, rest, brk, n2, bump, iters, s, q.mem, h);
          DriftedThen(DriftOf(Now(x, iters), rest), q, ExecIr(m, ir, iters, s, q.mem, h), s, mem, brk, n, n2, bump,
                      BreakMark(rest), BreakMark(Then(st, rest)), Mark(rest), Mark(Then(st, rest)));
        }
      }
    }
  }

  lemma DriftedThen(d: Drift, q: IrRes<nat>, q2: IrRes<nat>, s: nat, mem: Mem, brk: Option<nat>, n: nat, n2: nat,
                    bump: bool, guard: bool, guard': bool, mark: bool, mark': bool)
    requires q.IrEnded? && Frame(mem, q.mem, brk, n, false) && n <= n2 && Named(brk, n, bump)
    requires (guard ==> guard') && (mark ==> mark')
    requires Drifted(d, q2, s, q.mem, brk, n2, bump, guard, mark)
    ensures Drifted(d, q2, s, mem, brk, n, bump, guard', mark')
  {
  }

  lemma {:induction false} DriftOne(x: Failure, st: Stmt, brk: Option<nat>, n: nat, iters: seq<int>, s: nat, mem: Mem,
                                    h: nat)
    requires !st.Break? && Counting(x) && Fresh(x, KeysOf(st)) && WellScopedS(st, brk.Some?)
      && After(mem, brk, n, false)
    ensures Drifted(StmtDrift(Now(x, iters), st),
                    ExecOp(Steered(x), OpOf(st, brk, n), iters, s, Declared(st, n, mem), h), s,
                    mem, brk, n, false, BreakGuarded(st), false)
    decreases h, st, 6
  {
    match st
    case Act(_) =>
    case Return =>
    case If(c, t, e) => DriftIf(x, c, t, e, brk, n, iters, s, mem, h);
    case While(c, b) => DriftWhile(x, c, b, brk, n, iters, s, mem, h);
    case For(r, b) => DriftFor(x, r, b, brk, n, iters, s, mem, h);
  }

  lemma {:induction false} DriftIf(x: Failure, c: Cond, t: Prog, e: Prog, brk: Option<nat>, n: nat, iters: seq<int>,
                                   s: nat, mem: Mem, h: nat)
    requires Counting(x) && Fresh(x, KeysOf(If(c, t, e)))
    requires WellScoped(t, brk.Some?) && WellScoped(e, brk.Some?) && After(mem, brk, n, false)
    ensures var st := If(c, t, e);
            Drifted(StmtDrift(Now(x, iters), st), ExecOp(Steered(x), OpOf(st, brk, n), iters, s, mem, h), s, mem, brk,
                    n, false,
                    BreakGuarded(st), false)
    decreases h, If(c, t, e), 4
  {
    var m := Steered(x);
    var lt := Lower(t, brk, n, false);
    LowerMarks(t, brk, n, false);
    if c.pure {
      if CondKey(c.id) in Now(x, iters) { DriftProg(x, t, brk, n, false, iters, s, mem, h); }
      else { DriftProg(x, e, brk, lt.next, false, iters, s, mem, h); }
    } else {
      Grows(x, if m.test(c.id, iters, s) then lt.ir else Lower(e, brk, lt.next, false).ir, iters, s + 1, mem, h);
    }
  }

  lemma {:induction false} DriftWhile(x: Failure, c: Cond, b: Prog, brk: Option<nat>, n: nat, iters: seq<int>, s: nat,
                                      mem: Mem, h: nat)
    requires Counting(x) && Fresh(x, Keys(b)) && After(mem, brk, n, false)
    ensures Drifted(StmtDrift(Now(x, iters), While(c, b)), ExecOp(Steered(x), OpOf(While(c, b), brk, n), iters, s,
                                                          SetFlag(mem, n, true), h), s, mem, brk, n, false, false,
                    false)
    decreases h, b, 4
  {
    var m := Steered(x);
    var mem1 := SetFlag(mem, n, true);
    var ir, own := Lower(b, Some(n), n + 1, false).ir, OwnFlag(BreakMark(b), n);
    var q := ExecOp(m, OpOf(While(c, b), brk, n), iters, s, mem1, h);
    WhileRuns(m, c, b, brk, n, iters, s, mem1, h);
    if !c.pure {
      LoopGrows(x, c, own, Mark(b), ir, iters, s, mem1, h);
    } else if Mark(b) {
      MarkedWhile(m, c, b, brk, n, iters, s, mem, h);
    } else {
      if CondKey(c.id) in Now(x, iters) { DriftLoop(x, c, b, n, iters, s, mem1, h); }
      if q.IrEnded? && !StmtDrift(Now(x, iters), While(c, b)).Loud? { QuietStill(q, s, mem, mem1, brk, n); }
    }
  }

  /** A loop that runs on with the flag cleared. */
  ghost predicate LoopDrifted(d: Drift, q: IrRes<nat>, s: nat, mem: Mem, n: nat) {
    q.IrEnded? ==> if d.Loud? then s < q.s else Quiet(q, s, mem, n)
  }

  lemma {:induction false} DriftLoop(x: Failure, c: Cond, b: Prog, n: nat, iters: seq<int>, s: nat, mem: Mem, h: nat)
    requires Counting(x) && Fresh(x, Keys(b)) && c.pure && CondKey(c.id) in Now(x, iters)
    requires After(mem, Some(n), n + 1, false) && RET < n
    ensures LoopDrifted(LoopDrift(DriftOf(Now(x, iters), b)),
                        LoopIr(Steered(x), c, OwnFlag(BreakMark(b), n), false, Lower(b, Some(n), n + 1, false).ir,
                               iters, s, mem, h), s, mem, n)
    decreases h, b, 3
  {
    var m, d := Steered(x), DriftOf(Now(x, iters), b);
    var ir, own := Lower(b, Some(n), n + 1, false).ir, OwnFlag(BreakMark(b), n);
    if h > 0 {
      DriftProg(x, b, Some(n), n + 1, false, iters, s, mem, h - 1);
      var q := ExecIr(m, ir, iters, s, mem, h - 1);
      if q.IrEnded? {
        LoopGrows(x, c, own, false, ir, iters, q.s, q.mem, h - 1);
        if d.Opened? { DriftLoop(x, c, b, n, iters, q.s, q.mem, h - 1); }
        if d.Shut? {
          WhileStops(m, c, own, false, ir, iters, q.s, q.mem, h - 1);
          StillQuiet(q, s, mem, n, false, false, BreakMark(b), Mark(b));
        }
      }
    }
  }

  lemma {:induction false} DriftFor(x: Failure, r: Span, b: Prog, brk: Option<nat>, n: nat, iters: seq<int>, s: nat,
                                    mem: Mem, h: nat)
    requires Counting(x) && Fresh(x, KeysOf(For(r, b))) && After(mem, brk, n, false)
    ensures Drifted(StmtDrift(Now(x, iters), For(r, b)),
                    ExecOp(Steered(x), OpOf(For(r, b), brk, n), iters, s, SetFlag(mem, n, true), h), s, mem, brk, n,
                    false, false, false)
    decreases h, b, 5
  {
    if Mark(b) {
      MarkedFor(Steered(x), r, b, brk, n, iters, s, mem, h);
    } else if BreakMark(b) {
      DriftForLoop(x, r, b, brk, n, iters, s, mem, h);
    } else {
      DriftForPlain(x, r, b, brk, n, iters, s, mem, h);
    }
  }

  lemma {:induction false} DriftForLoop(x: Failure, r: Span, b: Prog, brk: Option<nat>, n: nat, iters: seq<int>, s: nat,
                                        mem: Mem, h: nat)
    requires Counting(x) && Fresh(x, KeysOf(For(r, b))) && After(mem, brk, n, false) && BreakMark(b) && !Mark(b)
    ensures Drifted(StmtDrift(Now(x, iters), For(r, b)),
                    ExecOp(Steered(x), OpOf(For(r, b), brk, n), iters, s, SetFlag(mem, n, true), h), s, mem, brk, n,
                    false, false, false)
    decreases h, b, 4
  {
    var mem0 := SetFlag(mem, n, true);
    var mem1 := InitCell(mem0, n, RangeAt(x, r, iters));
    var q := ExecOp(Steered(x), OpOf(For(r, b), brk, n), iters, s, mem0, h);
    SteeredRange(x, r, iters, s);
    ForRuns(Steered(x), r, b, n, iters, s, mem0, h);
    if RangeKey(r.id) in Now(x, iters) { DriftRangeLoop(x, r, b, n, iters, s, mem1, h); }
    if q.IrEnded? && !StmtDrift(Now(x, iters), For(r, b)).Loud? { QuietStill(q, s, mem, mem1, brk, n); }
  }

  lemma {:induction false} DriftForPlain(x: Failure, r: Span, b: Prog, brk: Option<nat>, n: nat, iters: seq<int>,
                                         s: nat, mem: Mem, h: nat)
    requires Counting(x) && Fresh(x, KeysOf(For(r, b))) && After(mem, brk, n, false) && !BreakMark(b) && !Mark(b)
    ensures Drifted(StmtDrift(Now(x, iters), For(r, b)),
                    ExecOp(Steered(x), OpOf(For(r, b), brk, n), iters, s, SetFlag(mem, n, true), h), s, mem, brk, n,
                    false, false, false)
    decreases h, b, 4
  {
    var mem0 := SetFlag(mem, n, true);
    var q := ExecOp(Steered(x), OpOf(For(r, b), brk, n), iters, s, mem0, h);
    SteeredRange(x, r, iters, s);
    PlainForRuns(Steered(x), r, b, n, iters, s, mem0, h);
    if RangeKey(r.id) in Now(x, iters) { DriftRange(x, r, b, n, iters, s, mem0, h); }
    if q.IrEnded? && !StmtDrift(Now(x, iters), For(r, b)).Loud? { QuietStill(q, s, mem, mem0, brk, n); }
  }

  /** The range of a loop that runs once, or for ever. */
  function Single(r: Span): Range { Range(0, 1, if Advances(r) then 1 else 0) }

  lemma {:induction false} DriftRangeLoop(x: Failure, r: Span, b: Prog, n: nat, iters: seq<int>, s: nat, mem: Mem,
                                          h: nat)
    requires Counting(x) && Fresh(x, Keys(b)) && !Mark(b) && After(mem, Some(n), n + 1, true) && RET < n
    requires Cell(mem, n) == 0 && StepOf(mem, n) == Single(r).step
    ensures LoopDrifted(RangeDrift(r, DriftOf(Now(x, iters), b)),
                        RangeLoopIr(Steered(x), 1, n, OwnFlag(BreakMark(b), n), false,
                                    Lower(b, Some(n), n + 1, true).ir, iters, s, mem, h), s, mem, n)
    decreases h, b, 3
  {
    var m, d := Steered(x), DriftOf(Now(x, iters), b);
    var ir, own := Lower(b, Some(n), n + 1, true).ir, OwnFlag(BreakMark(b), n);
    InFirstTurn(x, iters);
    if h > 0 {
      DriftProg(x, b, Some(n), n + 1, true, iters + [0], s, mem, h - 1);
      var q := ExecIr(m, ir, iters + [0], s, mem, h - 1);
      if q.IrEnded? {
        RangeLoopGrows(x, 1, n, own, false, ir, iters, q.s, q.mem, h - 1);
        if d.Opened? && !Advances(r) { DriftRangeLoop(x, r, b, n, iters, q.s, q.mem, h - 1); }
        if !d.Loud? { StillQuiet(q, s, mem, n, true, d.Opened?, BreakMark(b), Mark(b)); }
        if d.Shut? { RangeStops(m, 1, n, own, false, ir, iters, q.s, q.mem, h - 1); }
      }
    }
  }

  lemma {:induction false} DriftRange(x: Failure, r: Span, b: Prog, n: nat, iters: seq<int>, s: nat, mem: Mem, h: nat)
    requires Counting(x) && Fresh(x, Keys(b)) && After(mem, Some(n), n + 1, false) && RET < n && !BreakMark(b)
    ensures LoopDrifted(RangeDrift(r, DriftOf(Now(x, iters), b)),
                        RangeIr(Steered(x), Single(r), 0, Lower(b, Some(n), n + 1, false).ir, iters, s, mem, h), s,
                          mem, n)
    decreases h, b, 3
  {
    var d, ir := DriftOf(Now(x, iters), b), Lower(b, Some(n), n + 1, false).ir;
    InFirstTurn(x, iters);
    if h > 0 {
      DriftProg(x, b, Some(n), n + 1, false, iters + [0], s, mem, h - 1);
      var q := ExecIr(Steered(x), ir, iters + [0], s, mem, h - 1);
      if q.IrEnded? && !d.Shut? {
        RangeGrows(x, Single(r), Single(r).step, ir, iters, q.s, q.mem, h - 1);
        if d.Opened? {
          StillQuiet(q, s, mem, n, false, true, BreakMark(b), Mark(b));
          if !Advances(r) { DriftRange(x, r, b, n, iters, q.s, q.mem, h - 1); }
        }
      }
    }
  }

  // ----------------------------------------------------------- up to the first failure

  /** Where direct execution fell through, or returned and left the break flag set, the emitted
      code run once more does not clear it. */
  lemma {:induction false} NotShut(on: set<nat>, p: Prog)
    requires WayOf(on, p).Falling? || (WayOf(on, p).Returning? && EscapesBy(on, p))
    ensures !DriftOf(on, p).Shut?
  {
    if p.Then? {
      if p.s.If? {
        if CondKey(p.s.c.id) in on {
          if !WayOf(on, p.s.thn).Breaking? { NotShut(on, p.s.thn); }
        } else {
          if !WayOf(on, p.s.els).Breaking? { NotShut(on, p.s.els); }
        }
      }
      if StmtWay(on, p.s).Falling? { NotShut(on, p.rest); }
    }
  }

  /** The emitted code ended with the break flag set. */
  ghost predicate LeftOpen(q: IrRes<nat>, brk: Option<nat>) { q.IrEnded? && Open(q.mem, brk) }

  lemma {:induction false} EscapeOpen(x: Failure, p: Prog, brk: Option<nat>, n: nat, bump: bool, iters: seq<int>,
                                      s: nat, mem: Mem, f: nat, h: nat)
    requires Counting(x) && First(x, iters) && Fresh(x, Keys(p))
    requires Safe(p) && WellScoped(p, brk.Some?) && Start(mem, brk, n, bump)
    requires WayOf(x.on, p).Returning? && EscapesBy(x.on, p) && f >= Depth(p)
      && h >= f + Need(Steered(x), p, iters, s, f)
    ensures LeftOpen(ExecIr(Steered(x), Lower(p, brk, n, bump).ir, iters, s, mem, h), brk)
    decreases p, 1
  {
    FollowsStmt(x, p.s, iters, s, f);
    if StmtWay(x.on, p.s).Falling? {
      var t, mem' := FallThrough(Steered(x), p.s, p.rest, brk, n, bump, iters, s, mem, f, h);
      EscapeOpen(x, p.rest, brk, NextOf(p.s, brk, n), bump, iters, t, mem', f, h);
    } else {
      EscapeOne(x, p.s, brk, n, iters, s, mem, f, h);
      Sim(Steered(x), p, brk, n, bump, iters, s, mem, f, h);
      Follows(x, p, iters, s, f);
      EscapeRest(x, p.s, p.rest, brk, n, bump, iters, s, mem, f, h);
    }
  }

  /** The guard behind the statement stops the emitted code, or what follows leaves the flag set. */
  lemma {:induction false} EscapeRest(x: Failure, st: Stmt, rest: Prog, brk: Option<nat>, n: nat, bump: bool,
                                      iters: seq<int>, s: nat, mem: Mem, f: nat, h: nat)
    requires Counting(x) && First(x, iters) && Fresh(x, Keys(rest))
    requires SafeStmt(st) && WellScoped(Then(st, rest), brk.Some?) && Start(mem, brk, n, bump)
    requires StmtWay(x.on, st).Returning? && (Guarded(st) || DriftOf(x.on, rest).Opened?)
    requires f >= DepthOf(st) && h >= f + StmtNeed(Steered(x), st, iters, s, f)
    requires LeftOpen(ExecOp(Steered(x), OpOf(st, brk, n), iters, s, Declared(st, n, mem), h), brk)
    requires ExecIr(Steered(x), Lower(Then(st, rest), brk, n, bump).ir, iters, s, mem, h).IrEnded?
    ensures LeftOpen(ExecIr(Steered(x), Lower(Then(st, rest), brk, n, bump).ir, iters, s, mem, h), brk)
  {
    var m := Steered(x);
    var n2 := NextOf(st, brk, n);
    var q := ExecOp(m, OpOf(st, brk, n), iters, s, Declared(st, n, mem), h);
    NextLater(st, brk, n);
    FollowsStmt(x, st, iters, s, f);
    StmtSim(m, st, brk, n, iters, s, mem, f, h);
    Shape(m, st, rest, brk, n, bump, iters, s, mem, h);
    ExecBehind(m, brk, BreakGuarded(st), Guarded(st), Lower(rest, brk, n2, bump).ir, iters, q.s, q.mem, h);
    if !Guarded(st) { DriftProg(x, rest, brk, n2, bump, iters, q.s, q.mem, h); }
  }

  lemma {:induction false} EscapeOne(x: Failure, st: Stmt, brk: Option<nat>, n: nat, iters: seq<int>, s: nat,
                                     mem: Mem, f: nat, h: nat)
    requires Counting(x) && First(x, iters) && Fresh(x, KeysOf(st))
    requires SafeStmt(st) && WellScopedS(st, brk.Some?) && Start(mem, brk, n, false)
    requires StmtWay(x.on, st).Returning? && StmtEscapesBy(x.on, st) && f >= DepthOf(st)
      && h >= f + StmtNeed(Steered(x), st, iters, s, f)
    ensures LeftOpen(ExecOp(Steered(x), OpOf(st, brk, n), iters, s, Declared(st, n, mem), h), brk)
    decreases st, 0
  {
    var m := Steered(x);
    if st.If? {
      var s1 := Touch(m, st.c, iters, s);
      LowerMarks(st.thn, brk, n, false);
      if CondKey(st.c.id) in x.on { EscapeOpen(x, st.thn, brk, n, false, iters, s1, mem, f, h); }
      else { EscapeOpen(x, st.els, brk, Lower(st.thn, brk, n, false).next, false, iters, s1, mem, f, h); }
    } else {
      FollowsStmt(x, st, iters, s, f);
      StmtSim(m, st, brk, n, iters, s, mem, f, h);
    }
  }

  // ------------------------------------------------------------ running on after a return

  /** The emitted code counted more, or did not end. */
  predicate Later(s: nat, q: IrRes<nat>) { q.IrEnded? ==> s < q.s }

  /** Direct execution returned; the emitted code counted more, or did not end. */
  ghost predicate Differs(r: Res<nat>, q: IrRes<nat>) {
    r.Ended? && r.exit.Returned? && (q.IrEnded? ==> r.s < q.s)
  }

  lemma {:induction false} ExposedRuns(x: Failure, p: Prog, brk: Option<nat>, n: nat, bump: bool, iters: seq<int>,
                                       s: nat, mem: Mem, f: nat, h: nat)
    requires Counting(x) && First(x, iters) && Exposed(x.on, x.again, p) && WellScoped(p, brk.Some?)
      && Start(mem, brk, n, bump)
    requires f >= Depth(p) && h >= f + Need(Steered(x), p, iters, s, f)
    ensures Differs(Exec(Steered(x), p, iters, s, f), ExecIr(Steered(x), Lower(p, brk, n, bump).ir, iters, s, mem, h))
    decreases p, 2
  {
    var st, rest := p.s, p.rest;
    FollowsStmt(x, st, iters, s, f);
    if StmtWay(x.on, st).Falling? {
      var t, mem' := FallThrough(Steered(x), st, rest, brk, n, bump, iters, s, mem, f, h);
      ExposedRuns(x, rest, brk, NextOf(st, brk, n), bump, iters, t, mem', f, h);
    } else if StmtExposed(x.on, x.again, st) {
      StmtExposedRuns(x, st, brk, n, iters, s, mem, f, h);
      Shape(Steered(x), st, rest, brk, n, bump, iters, s, mem, h);
      var q := ExecOp(Steered(x), OpOf(st, brk, n), iters, s, Declared(st, n, mem), h);
      if q.IrEnded? { Grows(x, Behind(st, rest, brk, n, bump), iters, q.s, q.mem, h); }
    } else {
      RestRuns(x, st, rest, brk, n, bump, iters, s, mem, f, h);
    }
  }

  /** What follows the statement runs on. */
  lemma {:induction false} RestRuns(x: Failure, st: Stmt, rest: Prog, brk: Option<nat>, n: nat, bump: bool,
                                    iters: seq<int>, s: nat, mem: Mem, f: nat, h: nat)
    requires Counting(x) && x.again.None? && WellScoped(Then(st, rest), brk.Some?) && Start(mem, brk, n, bump)
    requires f >= DepthOf(st) && h >= f + StmtNeed(Steered(x), st, iters, s, f) && StmtWay(x.on, st).Returning?
    requires SafeStmt(st) && StmtEscapesBy(x.on, st) && !Guarded(st) && DriftOf(x.on, rest).Loud?
    ensures var p := Then(st, rest);
            Differs(Exec(Steered(x), p, iters, s, f), ExecIr(Steered(x), Lower(p, brk, n, bump).ir, iters, s, mem, h))
  {
    var m := Steered(x);
    var n2 := NextOf(st, brk, n);
    var q := ExecOp(m, OpOf(st, brk, n), iters, s, Declared(st, n, mem), h);
    NextLater(st, brk, n);
    FollowsStmt(x, st, iters, s, f);
    StmtSim(m, st, brk, n, iters, s, mem, f, h);
    EscapeOne(x, st, brk, n, iters, s, mem, f, h);
    Shape(m, st, rest, brk, n, bump, iters, s, mem, h);
    ExecBehind(m, brk, BreakGuarded(st), Guarded(st), Lower(rest, brk, n2, bump).ir, iters, q.s, q.mem, h);
    DriftProg(x, rest, brk, n2, bump, iters, q.s, q.mem, h);
  }

  lemma {:induction false} StmtExposedRuns(x: Failure, st: Stmt, brk: Option<nat>, n: nat, iters: seq<int>, s: nat,
                                           mem: Mem, f: nat, h: nat)
    requires Counting(x) && First(x, iters) && StmtExposed(x.on, x.again, st) && StmtWay(x.on, st).Returning?
    requires WellScopedS(st, brk.Some?) && Start(mem, brk, n, false) && f >= DepthOf(st)
      && h >= f + StmtNeed(Steered(x), st, iters, s, f)
    ensures Differs(ExecStmt(Steered(x), st, iters, s, f),
                    ExecOp(Steered(x), OpOf(st, brk, n), iters, s, Declared(st, n, mem), h))
    decreases st, 1
  {
    var m := Steered(x);
    match st
    case If(c, t, e) =>
      var s1 := Touch(m, c, iters, s);
      LowerMarks(t, brk, n, false);
      if CondKey(c.id) in x.on { ExposedRuns(x, t, brk, n, false, iters, s1, mem, f, h); }
      else { ExposedRuns(x, e, brk, Lower(t, brk, n, false).next, false, iters, s1, mem, f, h); }
    case While(c, b) =>
      FollowsStmt(x, st, iters, s, f);
      WhileRuns(m, c, b, brk, n, iters, s, SetFlag(mem, n, true), h);
      WhileExposedRuns(x, c, b, n, iters, s, SetFlag(mem, n, true), f, h);
    case For(r, b) =>
      FollowsStmt(x, st, iters, s, f);
      ForExposedRuns(x, r, b, n, iters, s, SetFlag(mem, n, true), f, h);
  }

  lemma {:induction false} WhileExposedRuns(x: Failure, c: Cond, b: Prog, n: nat, iters: seq<int>, s: nat, mem: Mem,
                                            f: nat, h: nat)
    requires Counting(x) && First(x, iters) && StmtExposed(x.on, x.again, While(c, b)) && WayOf(x.on, b).Returning?
    requires Start(mem, Some(n), n + 1, false) && RET < n
    requires f >= 1 + Depth(b) && h >= f + WhileNeed(Steered(x), c, b, iters, s, f)
    ensures Differs(ExecWhile(Steered(x), c, b, iters, s, f),
                    LoopIr(Steered(x), c, OwnFlag(BreakMark(b), n), Mark(b), Lower(b, Some(n), n + 1, false).ir, iters,
                           s, mem, h))
    decreases b, 4
  {
    var m := Steered(x);
    var ir, own := Lower(b, Some(n), n + 1, false).ir, OwnFlag(BreakMark(b), n);
    var s1 := Touch(m, c, iters, s);
    var q := ExecIr(m, ir, iters, s1, mem, h - 1);
    Follows(x, b, iters, s1, f - 1);
    if Exposed(x.on, x.again, b) {
      ExposedRuns(x, b, Some(n), n + 1, false, iters, s1, mem, f - 1, h - 1);
      if q.IrEnded? { LoopGrows(x, c, own, Mark(b), ir, iters, q.s, q.mem, h - 1); }
    } else {
      WhileTurnsAgain(x, c, b, n, iters, s1, mem, f - 1, h - 1);
    }
    WhileDiffers(m, c, b, own, Mark(b), ir, iters, s, mem, f, h);
  }

  /** Direct execution returns in the first turn. */
  lemma WhileDiffers(m: Machine<nat>, c: Cond, b: Prog, own: Option<nat>, marked: bool, ir: IrBlock, iters: seq<int>,
                     s: nat, mem: Mem, f: nat, h: nat)
    requires m.test(c.id, iters, s) && FlagsHold(mem, own, marked) && 0 < f && 0 < h
    requires var s1 := Touch(m, c, iters, s);
             var r, q := Exec(m, b, iters, s1, f - 1), ExecIr(m, ir, iters, s1, mem, h - 1);
             && r.Ended? && r.exit.Returned?
             && (q.IrEnded? ==> Later(r.s, LoopIr(m, c, own, marked, ir, iters, q.s, q.mem, h - 1)))
    ensures Differs(ExecWhile(m, c, b, iters, s, f), LoopIr(m, c, own, marked, ir, iters, s, mem, h))
  {
  }

  /** The emitted loop evaluates its condition again, or takes another turn. */
  lemma {:induction false} WhileTurnsAgain(x: Failure, c: Cond, b: Prog, n: nat, iters: seq<int>, s: nat, mem: Mem,
                                           f: nat, h: nat)
    requires Counting(x) && First(x, iters) && Safe(b) && WayOf(x.on, b).Returning? && CondKey(c.id) in x.on
    requires (TurnsAgain(x.on, b) && x.again.None?) || !c.pure
    requires Start(mem, Some(n), n + 1, false) && RET < n
    requires f >= Depth(b) && h >= f + Need(Steered(x), b, iters, s, f)
    ensures var ir := Lower(b, Some(n), n + 1, false).ir;
            var q := ExecIr(Steered(x), ir, iters, s, mem, h);
            var r := Exec(Steered(x), b, iters, s, f);
            && q.IrEnded? && r.Ended? && q.s == r.s
            && Later(q.s, LoopIr(Steered(x), c, OwnFlag(BreakMark(b), n), Mark(b), ir, iters, q.s, q.mem, h))
  {
    var m := Steered(x);
    var ir, own := Lower(b, Some(n), n + 1, false).ir, OwnFlag(BreakMark(b), n);
    var q := ExecIr(m, ir, iters, s, mem, h);
    Follows(x, b, iters, s, f);
    Sim(m, b, Some(n), n + 1, false, iters, s, mem, f, h);
    if c.pure {
      EscapeOpen(x, b, Some(n), n + 1, false, iters, s, mem, f, h);
      NotShut(x.on, b);
      DriftLoop(x, c, b, n, iters, q.s, q.mem, h);
    } else {
      LoopGrows(x, c, own, Mark(b), ir, iters, q.s, q.mem, h);
    }
  }

  lemma {:induction false} ForExposedRuns(x: Failure, r: Span, b: Prog, n: nat, iters: seq<int>, s: nat, mem: Mem,
                                          f: nat, h: nat)
    requires Counting(x) && First(x, iters) && StmtExposed(x.on, x.again, For(r, b)) && WayOf(x.on, b).Returning?
    requires Start(mem, Some(n), n + 1, false) && RET < n
    requires f >= 1 + Depth(b) && h >= f + StmtNeed(Steered(x), For(r, b), iters, s, f)
    ensures Differs(ExecStmt(Steered(x), For(r, b), iters, s, f),
                    ExecOp(Steered(x), LoweredFor(r, b, n), iters, s, mem, h))
    decreases b, 5
  {
    var m, range := Steered(x), RangeAt(x, r, iters);
    SteeredRange(x, r, iters, s);
    InFirstTurn(x, iters);
    Follows(x, b, iters + [0], s, f - 1);
    if BreakMark(b) || Mark(b) {
      ForRuns(m, r, b, n, iters, s, mem, h);
      RangeLoopExposedRuns(x, r, b, n, iters, s, InitCell(mem, n, range), f - 1, h);
    } else {
      PlainForRuns(m, r, b, n, iters, s, mem, h);
      RangeExposedRuns(x, r, b, n, iters, s, mem, f - 1, h);
    }
  }

  /** The emitted loop, against the turn in which direct execution returns. */
  lemma {:induction false} RangeLoopExposedRuns(x: Failure, r: Span, b: Prog, n: nat, iters: seq<int>, s: nat, mem: Mem,
                                                f: nat, h: nat)
    requires Counting(x) && First(x, iters + [0]) && RangeKey(r.id) in Now(x, iters)
    requires Exposed(x.on, x.again, b) || (TurnsAgain(x.on, b) && AgainShows(x.again, r, b))
    requires Start(mem, Some(n), n + 1, true) && RET < n
    requires f >= Depth(b) && h >= 1 + f + Need(Steered(x), b, iters + [0], s, f)
    requires Cell(mem, n) == 0 && StepOf(mem, n) == RangeAt(x, r, iters).step
    ensures Differs(Exec(Steered(x), b, iters + [0], s, f),
                    RangeLoopIr(Steered(x), Turns(x, r.id), n, OwnFlag(BreakMark(b), n), Mark(b),
                                Lower(b, Some(n), n + 1, true).ir, iters, s, mem, h))
    decreases b, 4
  {
    var m, end := Steered(x), Turns(x, r.id);
    var ir, own := Lower(b, Some(n), n + 1, true).ir, OwnFlag(BreakMark(b), n);
    var q := ExecIr(m, ir, iters + [0], s, mem, h - 1);
    if Exposed(x.on, x.again, b) {
      ExposedRuns(x, b, Some(n), n + 1, true, iters + [0], s, mem, f, h - 1);
      if q.IrEnded? { RangeLoopGrows(x, end, n, own, Mark(b), ir, iters, q.s, q.mem, h - 1); }
    } else {
      RangeLoopTurnsAgain(x, r, b, n, iters, s, mem, f, h - 1);
    }
    RangeLoopDiffers(m, Exec(m, b, iters + [0], s, f), end, n, own, Mark(b), ir, iters, s, mem, h);
  }

  lemma RangeLoopDiffers(m: Machine<nat>, r: Res<nat>, end: int, n: nat, own: Option<nat>, marked: bool, ir: IrBlock,
                         iters: seq<int>, s: nat, mem: Mem, h: nat)
    requires FlagsHold(mem, own, marked) && 0 < h && Cell(mem, n) == 0 < end && r.Ended? && r.exit.Returned?
    requires var q := ExecIr(m, ir, iters + [0], s, mem, h - 1);
             q.IrEnded? ==> Later(r.s, RangeLoopIr(m, end, n, own, marked, ir, iters, q.s, q.mem, h - 1))
    ensures Differs(r, RangeLoopIr(m, end, n, own, marked, ir, iters, s, mem, h))
  {
  }

  /** The body returned, and no flag of the emitted loop was cleared. */
  ghost predicate LeftRunning(r: Res<nat>, q: IrRes<nat>, n: nat, bump: bool, mem: Mem) {
    && r.Ended? && r.exit.Returned? && q.IrEnded? && q.s == r.s
    && After(q.mem, Some(n), n + 1, bump) && Bumped(mem, q.mem, Some(n), bump) && StepOf(q.mem, n) == StepOf(mem, n)
  }

  lemma {:induction false} ReturnedOpen(x: Failure, b: Prog, n: nat, bump: bool, iters: seq<int>, s: nat, mem: Mem,
                                        f: nat, h: nat)
    requires Counting(x) && First(x, iters) && Fresh(x, Keys(b)) && TurnsAgain(x.on, b)
    requires Start(mem, Some(n), n + 1, bump) && RET < n && f >= Depth(b) && h >= f + Need(Steered(x), b, iters, s, f)
    ensures LeftRunning(Exec(Steered(x), b, iters, s, f),
                        ExecIr(Steered(x), Lower(b, Some(n), n + 1, bump).ir, iters, s, mem, h), n, bump, mem)
    decreases b, 3
  {
    var r, q := Exec(Steered(x), b, iters, s, f),
      ExecIr(Steered(x), Lower(b, Some(n), n + 1, bump).ir, iters, s, mem, h);
    Follows(x, b, iters, s, f);
    EscapeOpen(x, b, Some(n), n + 1, bump, iters, s, mem, f, h);
    Sim(Steered(x), b, Some(n), n + 1, bump, iters, s, mem, f, h);
    MatchRuns(r, q, f, h, Need(Steered(x), b, iters, s, f), Escapes(b), BreakMark(b), n, bump, mem);
  }

  lemma MatchRuns(r: Res<nat>, q: IrRes<nat>, f: nat, h: nat, need: nat, escapes: bool, guard: bool, n: nat, bump: bool,
                  mem: Mem)
    requires r.Ended? && r.exit.Returned? && h >= f + need && LeftOpen(q, Some(n)) && RET < n
    requires Sync(r, q, f, h, need, escapes, guard, false, Some(n), n + 1, bump, mem)
    ensures LeftRunning(r, q, n, bump, mem)
  {
  }

  lemma {:induction false} RangeLoopTurnsAgain(x: Failure, r: Span, b: Prog, n: nat, iters: seq<int>, s: nat, mem: Mem,
                                               f: nat, h: nat)
    requires Counting(x) && First(x, iters + [0]) && RangeKey(r.id) in Now(x, iters)
    requires TurnsAgain(x.on, b) && AgainShows(x.again, r, b) && Start(mem, Some(n), n + 1, true) && RET < n
    requires f >= Depth(b) && h >= f + Need(Steered(x), b, iters + [0], s, f)
    requires Cell(mem, n) == 0 && StepOf(mem, n) == RangeAt(x, r, iters).step
    ensures var ir := Lower(b, Some(n), n + 1, true).ir;
            var r1, q := Exec(Steered(x), b, iters + [0], s, f), ExecIr(Steered(x), ir, iters + [0], s, mem, h);
            && q.IrEnded? && r1.Ended? && r1.exit.Returned? && q.s == r1.s
            && Later(q.s, RangeLoopIr(Steered(x), Turns(x, r.id), n, OwnFlag(BreakMark(b), n), Mark(b), ir, iters, q.s,
                                      q.mem, h))
  {
    var q := ExecIr(Steered(x), Lower(b, Some(n), n + 1, true).ir, iters + [0], s, mem, h);
    ReturnedOpen(x, b, n, true, iters + [0], s, mem, f, h);
    if Advances(r) {
      SecondTurnLoop(x, r, b, n, iters, q.s, q.mem, h);
    } else {
      NotShut(x.on, b);
      DriftRangeLoop(x, r, b, n, iters, q.s, q.mem, h);
    }
  }

  lemma {:induction false} SecondTurnLoop(x: Failure, r: Span, b: Prog, n: nat, iters: seq<int>, s: nat, mem: Mem,
                                          h: nat)
    requires Counting(x) && Advances(r) && AgainShows(x.again, r, b) && !Mark(b)
    requires After(mem, Some(n), n + 1, true) && RET < n && Cell(mem, n) == 1
    ensures Later(s, RangeLoopIr(Steered(x), 2, n, OwnFlag(BreakMark(b), n), false, Lower(b, Some(n), n + 1, true).ir,
                                 iters, s, mem, h))
  {
    var m, ir, own := Steered(x), Lower(b, Some(n), n + 1, true).ir, OwnFlag(BreakMark(b), n);
    if h > 0 {
      assert 1 in iters + [1] by { assert (iters + [1])[|iters|] == 1; }
      DriftProg(x, b, Some(n), n + 1, true, iters + [1], s, mem, h - 1);
      var q := ExecIr(m, ir, iters + [1], s, mem, h - 1);
      if q.IrEnded? { RangeLoopGrows(x, 2, n, own, false, ir, iters, q.s, q.mem, h - 1); }
    }
  }

  lemma {:induction false} RangeExposedRuns(x: Failure, r: Span, b: Prog, n: nat, iters: seq<int>, s: nat, mem: Mem,
                                            f: nat, h: nat)
    requires Counting(x) && First(x, iters + [0]) && RangeKey(r.id) in Now(x, iters)
    requires Exposed(x.on, x.again, b) || (TurnsAgain(x.on, b) && AgainShows(x.again, r, b))
    requires Start(mem, Some(n), n + 1, false) && RET < n && !BreakMark(b)
    requires f >= Depth(b) && h >= 1 + f + Need(Steered(x), b, iters + [0], s, f)
    ensures Differs(Exec(Steered(x), b, iters + [0], s, f),
                    RangeIr(Steered(x), RangeAt(x, r, iters), 0, Lower(b, Some(n), n + 1, false).ir, iters, s, mem, h))
    decreases b, 4
  {
    var m, range, ir := Steered(x), RangeAt(x, r, iters), Lower(b, Some(n), n + 1, false).ir;
    if Exposed(x.on, x.again, b) {
      ExposedRuns(x, b, Some(n), n + 1, false, iters + [0], s, mem, f, h - 1);
      var q := ExecIr(m, ir, iters + [0], s, mem, h - 1);
      if q.IrEnded? { RangeGrows(x, range, range.step, ir, iters, q.s, q.mem, h - 1); }
    } else {
      RangeTurnsAgain(x, r, b, n, iters, s, mem, f, h - 1);
    }
  }

  lemma {:induction false} RangeTurnsAgain(x: Failure, r: Span, b: Prog, n: nat, iters: seq<int>, s: nat, mem: Mem,
                                           f: nat, h: nat)
    requires Counting(x) && First(x, iters + [0]) && RangeKey(r.id) in Now(x, iters)
    requires TurnsAgain(x.on, b) && AgainShows(x.again, r, b) && Start(mem, Some(n), n + 1, false) && RET < n
    requires !BreakMark(b) && f >= Depth(b) && h >= f + Need(Steered(x), b, iters + [0], s, f)
    ensures var ir, range := Lower(b, Some(n), n + 1, false).ir, RangeAt(x, r, iters);
            var r1, q := Exec(Steered(x), b, iters + [0], s, f), ExecIr(Steered(x), ir, iters + [0], s, mem, h);
            && q.IrEnded? && r1.Ended? && r1.exit.Returned? && q.s == r1.s
            && Later(q.s, RangeIr(Steered(x), range, range.step, ir, iters, q.s, q.mem, h))
  {
    var q := ExecIr(Steered(x), Lower(b, Some(n), n + 1, false).ir, iters + [0], s, mem, h);
    ReturnedOpen(x, b, n, false, iters + [0], s, mem, f, h);
    if Advances(r) {
      SecondTurn(x, r, b, n, iters, q.s, q.mem, h);
    } else {
      NotShut(x.on, b);
      DriftRange(x, r, b, n, iters, q.s, q.mem, h);
    }
  }

  lemma {:induction false} SecondTurn(x: Failure, r: Span, b: Prog, n: nat, iters: seq<int>, s: nat, mem: Mem, h: nat)
    requires Counting(x) && Advances(r) && AgainShows(x.again, r, b)
    requires After(mem, Some(n), n + 1, false) && RET < n
    ensures Later(s, RangeIr(Steered(x), Range(0, 2, 1), 1, Lower(b, Some(n), n + 1, false).ir, iters, s, mem, h))
  {
    var m, ir := Steered(x), Lower(b, Some(n), n + 1, false).ir;
    if h > 0 {
      assert 1 in iters + [1] by { assert (iters + [1])[|iters|] == 1; }
      DriftProg(x, b, Some(n), n + 1, false, iters + [1], s, mem, h - 1);
      var q := ExecIr(m, ir, iters + [1], s, mem, h - 1);
      if q.IrEnded? { RangeGrows(x, Range(0, 2, 1), 2, ir, iters, q.s, q.mem, h - 1); }
    }
  }

  // ------------------------------------------------------------ a condition evaluated twice

  /** Direct execution evaluated `e` once; the emitted code more often, or it did not end. */
  ghost predicate Doubled(r: Res<nat>, q: IrRes<nat>) {
    r.Ended? && r.s == 1 && (q.IrEnded? ==> r.s < q.s)
  }

  predicate Repeated(x: Failure, p: Prog) {
    x.e.Some? && x.again.None? && x.on !! x.once && Repeats(x.on, x.once, x.e.value, p)
  }

  predicate StmtRepeated(x: Failure, st: Stmt) {
    x.e.Some? && x.again.None? && x.on !! x.once && StmtRepeats(x.on, x.once, x.e.value, st)
  }

  lemma {:induction false} RepeatedRuns(x: Failure, p: Prog, brk: Option<nat>, n: nat, bump: bool, iters: seq<int>,
                                        mem: Mem, f: nat, h: nat)
    requires Repeated(x, p) && WellScoped(p, brk.Some?) && Start(mem, brk, n, bump) && h >= f >= Depth(p)
    ensures Doubled(Exec(Steered(x), p, iters, 0, f), ExecIr(Steered(x), Lower(p, brk, n, bump).ir, iters, 0, mem, h))
    decreases p, 2
  {
    var m, st, rest, e := Steered(x), p.s, p.rest, x.e.value;
    if StmtRepeats(x.on, x.once, e, st) && Off(x.on + x.once, rest, e) {
      StmtRepeatedRuns(x, st, brk, n, iters, mem, f, h);
      OffRuns(x.on, rest);
      Follows(x, rest, iters, 1, f);
      Shape(m, st, rest, brk, n, bump, iters, 0, mem, h);
      var q := ExecOp(m, OpOf(st, brk, n), iters, 0, Declared(st, n, mem), h);
      if q.IrEnded? { Grows(x, Behind(st, rest, brk, n, bump), iters, q.s, q.mem, h); }
    } else {
      FollowsStmt(x, st, iters, 0, f);
      var t, mem' := FallThrough(m, st, rest, brk, n, bump, iters, 0, mem, f, h);
      RepeatedRuns(x, rest, brk, NextOf(st, brk, n), bump, iters, mem', f, h);
    }
  }

  lemma {:induction false} StmtRepeatedRuns(x: Failure, st: Stmt, brk: Option<nat>, n: nat, iters: seq<int>,
                                            mem: Mem, f: nat, h: nat)
    requires StmtRepeated(x, st) && WellScopedS(st, brk.Some?) && Start(mem, brk, n, false) && h >= f >= DepthOf(st)
    ensures Doubled(ExecStmt(Steered(x), st, iters, 0, f),
                    ExecOp(Steered(x), OpOf(st, brk, n), iters, 0, Declared(st, n, mem), h))
    decreases st, 1
  {
    var m := Steered(x);
    match st
    case If(c, t, e) =>
      LowerMarks(t, brk, n, false);
      if CondKey(c.id) in x.on { RepeatedRuns(x, t, brk, n, false, iters, mem, f, h); }
      else { RepeatedRuns(x, e, brk, Lower(t, brk, n, false).next, false, iters, mem, f, h); }
    case While(c, b) =>
      WhileRuns(m, c, b, brk, n, iters, 0, SetFlag(mem, n, true), h);
      if c.id == x.e.value { EvaluatedTwice(x, c, b, n, iters, SetFlag(mem, n, true), f, h); }
      else { WhileRepeatedRuns(x, c, b, n, iters, SetFlag(mem, n, true), f, h); }
    case For(r, b) => ForRepeatedRuns(x, r, b, n, iters, SetFlag(mem, n, true), f, h);
  }

  /** The loop with the condition `e`: its body breaks. */
  lemma {:induction false} EvaluatedTwice(x: Failure, c: Cond, b: Prog, n: nat, iters: seq<int>, mem: Mem, f: nat,
                                          h: nat)
    requires StmtRepeated(x, While(c, b)) && c.id == x.e.value && Start(mem, Some(n), n + 1, false) && RET < n
    requires h >= f >= 1 + Depth(b)
    ensures Doubled(ExecWhile(Steered(x), c, b, iters, 0, f),
                    LoopIr(Steered(x), c, OwnFlag(BreakMark(b), n), Mark(b), Lower(b, Some(n), n + 1, false).ir, iters,
                           0, mem, h))
  {
    var m := Steered(x);
    var ir, own := Lower(b, Some(n), n + 1, false).ir, OwnFlag(BreakMark(b), n);
    Follows(x, b, iters, 1, f - 1);
    Sim(m, b, Some(n), n + 1, false, iters, 1, mem, f - 1, h - 1);
    var q := ExecIr(m, ir, iters, 1, mem, h - 1);
    LoopGrows(x, c, own, Mark(b), ir, iters, q.s, q.mem, h - 1);
  }

  /** A loop around it: the condition holds only until `e` was evaluated. */
  lemma {:induction false} WhileRepeatedRuns(x: Failure, c: Cond, b: Prog, n: nat, iters: seq<int>, mem: Mem,
                                             f: nat, h: nat)
    requires StmtRepeated(x, While(c, b)) && c.id != x.e.value && Start(mem, Some(n), n + 1, false) && RET < n
    requires h >= f >= 1 + Depth(b)
    ensures Doubled(ExecWhile(Steered(x), c, b, iters, 0, f),
                    LoopIr(Steered(x), c, OwnFlag(BreakMark(b), n), Mark(b), Lower(b, Some(n), n + 1, false).ir, iters,
                           0, mem, h))
    decreases b, 4
  {
    var m := Steered(x);
    var ir, own := Lower(b, Some(n), n + 1, false).ir, OwnFlag(BreakMark(b), n);
    RepeatedRuns(x, b, Some(n), n + 1, false, iters, mem, f - 1, h - 1);
    var q := ExecIr(m, ir, iters, 0, mem, h - 1);
    if q.IrEnded? { LoopGrows(x, c, own, Mark(b), ir, iters, q.s, q.mem, h - 1); }
  }

  /** A range of one turn. */
  const ONCE := Range(0, 1, 1)

  lemma {:induction false} OneTurn(m: Machine<nat>, b: Prog, iters: seq<int>, f: nat)
    requires f > 0 && Exec(m, b, iters + [0], 0, f - 1).Ended?
    ensures var r := ExecRange(m, ONCE, 0, b, iters, 0, f);
            r.Ended? && r.s == Exec(m, b, iters + [0], 0, f - 1).s
  {
    var s := Exec(m, b, iters + [0], 0, f - 1).s;
    assert ExecRange(m, ONCE, 1, b, iters, s, f - 1) == Ended(s, Fall);
  }

  lemma {:induction false} ForRepeatedRuns(x: Failure, r: Span, b: Prog, n: nat, iters: seq<int>, mem: Mem, f: nat,
                                           h: nat)
    requires StmtRepeated(x, For(r, b)) && Start(mem, Some(n), n + 1, false) && RET < n && h >= f >= 1 + Depth(b)
    ensures Doubled(ExecStmt(Steered(x), For(r, b), iters, 0, f),
                    ExecOp(Steered(x), LoweredFor(r, b, n), iters, 0, mem, h))
    decreases b, 5
  {
    var m := Steered(x);
    SteeredRange(x, r, iters, 0);
    if BreakMark(b) || Mark(b) {
      ForRuns(m, r, b, n, iters, 0, mem, h);
      RangeLoopRepeatedRuns(x, b, n, iters, InitCell(mem, n, ONCE), f - 1, h - 1);
    } else {
      PlainForRuns(m, r, b, n, iters, 0, mem, h);
      RangeRepeatedRuns(x, b, n, iters, mem, f - 1, h - 1);
    }
    OneTurn(m, b, iters, f);
  }

  lemma {:induction false} RangeLoopRepeatedRuns(x: Failure, b: Prog, n: nat, iters: seq<int>, mem: Mem, f: nat, h: nat)
    requires Repeated(x, b) && Start(mem, Some(n), n + 1, true) && RET < n && h >= f >= Depth(b) && Cell(mem, n) == 0
    ensures Doubled(Exec(Steered(x), b, iters + [0], 0, f),
                    RangeLoopIr(Steered(x), 1, n, OwnFlag(BreakMark(b), n), Mark(b), Lower(b, Some(n), n + 1, true).ir,
                                iters, 0, mem, h + 1))
    decreases b, 4
  {
    var ir := Lower(b, Some(n), n + 1, true).ir;
    RepeatedRuns(x, b, Some(n), n + 1, true, iters + [0], mem, f, h);
    var q := ExecIr(Steered(x), ir, iters + [0], 0, mem, h);
    if q.IrEnded? { RangeLoopGrows(x, 1, n, OwnFlag(BreakMark(b), n), Mark(b), ir, iters, q.s, q.mem, h); }
  }

  lemma {:induction false} RangeRepeatedRuns(x: Failure, b: Prog, n: nat, iters: seq<int>, mem: Mem, f: nat, h: nat)
    requires Repeated(x, b) && Start(mem, Some(n), n + 1, false) && RET < n && h >= f >= Depth(b)
    ensures Doubled(Exec(Steered(x), b, iters + [0], 0, f),
                    RangeIr(Steered(x), ONCE, 0, Lower(b, Some(n), n + 1, false).ir, iters, 0, mem, h + 1))
    decreases b, 4
  {
    var ir := Lower(b, Some(n), n + 1, false).ir;
    RepeatedRuns(x, b, Some(n), n + 1, false, iters + [0], mem, f, h);
    var q := ExecIr(Steered(x), ir, iters + [0], 0, mem, h);
    if q.IrEnded? { RangeGrows(x, ONCE, 1, ir, iters, q.s, q.mem, h); }
  }

  // --------------------------------------------------------------- whole functions

  /** Direct execution ends, the emitted IR ends in no such state. */
  ghost predicate Unfaithful(m: Machine<nat>, p: Prog, s: nat, mem: Mem, t: nat) {
    Yields(m, p, s, t) && !IrYields(m, p, s, mem, t)
  }

  /** A steering that leads to a failure. */
  predicate Shows(x: Failure, p: Prog) {
    if x.e.None? then x.once == {} && Exposed(x.on, x.again, p) else Repeated(x, p)
  }

  /** Every unsafe function with distinct ids has a machine on which the emitted IR is wrong,
      whatever the flags were before. */
  lemma {:induction false} UnsafeFails(p: Prog) returns (x: Failure, t: nat)
    requires Distinct(p) && WellScoped(p, false) && !Safe(p)
    ensures forall mem: Mem :: Unfaithful(Steered(x), p, 0, mem, t)
  {
    x := SteerFailure(p);
    t := ShownFails(x, p);
  }

  /** So has every function that can be steered to a failure, whatever its ids. */
  lemma {:induction false} ShownFails(x: Failure, p: Prog) returns (t: nat)
    requires WellScoped(p, false) && Shows(x, p)
    ensures forall mem: Mem :: Unfaithful(Steered(x), p, 0, mem, t)
  {
    FuncDiffers(x, p, Mem(map[], map[], map[]), 0);
    t := Exec(Steered(x), p, [], 0, Depth(p)).s;
    forall mem: Mem ensures Unfaithful(Steered(x), p, 0, mem, t) {
      FuncDiffers(x, p, mem, 0);
      assert EndsIn(Exec(Steered(x), p, [], 0, Depth(p)), t);
      if IrYields(Steered(x), p, 0, mem, t) {
        var h: nat :| IrEndsIn(ExecIr(Steered(x), LowerFunc(p), [], 0, mem, h), t);
        FuncDiffers(x, p, mem, h);
        IrMono(Steered(x), LowerFunc(p), [], 0, mem, h, Depth(p) + Need(Steered(x), p, [], 0, Depth(p)) + h);
      }
    }
  }

  lemma {:induction false} FuncDiffers(x: Failure, p: Prog, mem: Mem, h: nat)
    requires WellScoped(p, false) && Shows(x, p)
    ensures var r := Exec(Steered(x), p, [], 0, Depth(p));
            var q := ExecIr(Steered(x), LowerFunc(p), [], 0, mem, Depth(p) + Need(Steered(x), p, [], 0, Depth(p)) + h);
            r.Ended? && (q.IrEnded? ==> r.s < q.s)
  {
    var f, mem1 := Depth(p), SetFlag(mem, RET, true);
    StepIr(Steered(x), Declare(RET), Lower(p, None, 1, false).ir, [], 0, mem, 0, mem1,
           f + Need(Steered(x), p, [], 0, f) + h);
    if x.e.None? {
      ExposedRuns(x, p, None, 1, false, [], 0, mem1, f, f + Need(Steered(x), p, [], 0, f) + h);
    } else {
      RepeatedRuns(x, p, None, 1, false, [], mem1, f, f + Need(Steered(x), p, [], 0, f) + h);
    }
  }

  /** The emitted IR means what direct execution means, on every machine. */
  ghost predicate Faithful(p: Prog) {
    forall m: Machine<nat>, s: nat, mem: Mem, t: nat :: Yields(m, p, s, t) <==> IrYields(m, p, s, mem, t)
  }

  lemma {:induction false} FaithfulIff(p: Prog)
    requires Distinct(p) && WellScoped(p, false)
    ensures Faithful(p) <==> Safe(p)
  {
    if Safe(p) {
      forall m: Machine<nat>, s: nat, mem: Mem, t: nat ensures Yields(m, p, s, t) <==> IrYields(m, p, s, mem, t) {
        LoweringCorrect(m, p, s, mem, t);
      }
    } else {
      var x, t := UnsafeFails(p);
      assert Unfaithful(Steered(x), p, 0, Mem(map[], map[], map[]), t);
    }
  }

  // ------------------------------------------------------------------------ shapes

  function Append(q: Prog, r: Prog): Prog {
    match q
    case Done => r
    case Then(st, rest) => Then(st, Append(rest, r))
  }

  lemma {:induction false} ReachedUnsafe(q: Prog, r: Prog)
    requires CanFall(q) && !Safe(r)
    ensures !Safe(Append(q, r))
  {
    if q.Then? { ReachedUnsafe(q.rest, r); }
  }

  /** The emitted IR of `p` is wrong, if its ids are distinct. */
  ghost predicate Wrong(p: Prog) { Distinct(p) && WellScoped(p, false) ==> !Faithful(p) }

  /** Code after a `return` in the same block is emitted unguarded and runs, wherever it is
      reached. */
  lemma {:induction false} CodeAfterReturnRuns(q: Prog, a: nat, rest: Prog)
    requires CanFall(q)
    ensures Wrong(Append(q, Then(Return, Then(Act(a), rest))))
  {
    var r := Then(Return, Then(Act(a), rest));
    assert !Idle(r.rest);
    ReachedUnsafe(q, r);
    UnsafeWrong(Append(q, r));
  }

  /** A `return` inside a `while` stops the loop but not what follows it. */
  lemma {:induction false} CodeAfterWhileRuns(q: Prog, c: Cond, b: Prog, a: nat, rest: Prog)
    requires CanFall(q) && CanReturn(b)
    ensures Wrong(Append(q, Then(While(c, b), Then(Act(a), rest))))
  {
    var r := Then(While(c, b), Then(Act(a), rest));
    assert Leaves(r.s) && !Idle(r.rest);
    ReachedUnsafe(q, r);
    UnsafeWrong(Append(q, r));
  }

  /** A condition with side effects is evaluated once more after a `break`. */
  lemma {:induction false} ConditionRunsAgain(q: Prog, c: Cond, b: Prog, rest: Prog)
    requires CanFall(q) && CanBreak(b) && !c.pure
    ensures Wrong(Append(q, Then(While(c, b), rest)))
  {
    var r := Then(While(c, b), rest);
    assert !SafeStmt(r.s);
    ReachedUnsafe(q, r);
    UnsafeWrong(Append(q, r));
  }

  lemma UnsafeWrong(p: Prog)
    requires !Safe(p)
    ensures Wrong(p)
  {
    if Distinct(p) && WellScoped(p, false) { FaithfulIff(p); }
  }

  /** An `if` that can return puts what follows under a guard, also for a loop before it. */
  lemma {:induction false} GuardedRestIsSafe(c: Cond, b: Prog, e: Cond, rest: Prog)
    requires SafeStmt(While(c, b)) && e.pure && Safe(rest)
    ensures Safe(Then(While(c, b), Then(If(e, Then(Return, Done), Done), rest)))
  {
    var after := If(e, Then(Return, Done), Done);
    assert Idle(Done) && Idle(Then(Return, Done)) && Mark(Then(Return, Done)) && Safe(Then(Return, Done));
    assert Guarded(after) && IdleStmt(after) && SafeStmt(after);
    assert Safe(Then(after, rest));
  }

  /** A body that runs on idly after its `return` is right in a range that advances, and in no
      other. */
  lemma {:induction false} IdleRangeSafeIff(r: Span, b: Prog)
    requires Safe(b) && Idle(b) && CanReturn(b) && Escapes(b) && !Mark(b)
    ensures Safe(Then(For(r, b), Done)) <==> Advances(r)
  {
    assert Safe(Done) && Idle(Done);
    assert SafeStmt(For(r, b)) <==> Advances(r);
  }

  /** For example one that only searches: `for i { while c { w } }` where `w` can return. */
  lemma {:induction false} SearchSafeIff(r: Span, c: Cond, w: Prog)
    requires SafeStmt(While(c, w)) && CanReturn(w) && Mark(w)
    ensures Safe(Then(For(r, Then(While(c, w), Done)), Done)) <==> Advances(r)
  {
    var st := While(c, w);
    assert Idle(Done) && Drifts(Done) && Safe(Done) && !Mark(Done);
    assert IdleStmt(st) && Returns(st) && Leaves(st) && !Guarded(st);
    IdleRangeSafeIff(r, Then(st, Done));
  }
}
