/**
 Structured control flow. A kernel may leave a loop (`break`) or the whole function
 (`return`) from anywhere; the IR has neither. The expansion replaces both by stores
 to inverted flags, wraps the rest of a scope in an `if` on the flag after every
 construct that may have cleared it, and adds the flags to loop conditions.

 `Exec` is the direct meaning with early exits, `Lower` the expansion, `ExecIr` the
 meaning of what it emits. User operations and conditions are arbitrary functions of
 an arbitrary state, which may hold a trace of everything observable.
 */
module Lowering {
  import opened Options

  /** A condition; an impure one changes the state when it is evaluated. */
  datatype Cond = Cond(id: nat, pure: bool)

  /** The step of a range: always one (`a..b`), explicit and positive, or explicit and not known
      to be positive. */
  datatype Stride = One | Positive | Any

  datatype Span = Span(id: nat, stride: Stride)

  predicate Advances(r: Span) { !r.stride.Any? }

  datatype Stmt =
    | Act(a: nat)
    | If(c: Cond, thn: Prog, els: Prog)
    | While(c: Cond, body: Prog)          // `while` and `loop`
    | For(r: Span, body: Prog)            // range loops
    | Break
    | Return                              // `terminate!()`

  datatype Prog = Done | Then(s: Stmt, rest: Prog)

  datatype Range = Range(start: int, end: int, step: int)

  /** The meaning of user operations. `iters` are the values of the enclosing range
      loops' variables, outermost first. */
  datatype Machine<!S> = Machine(
    act: (nat, seq<int>, S) -> S,
    test: (nat, seq<int>, S) -> bool,
    effect: (nat, seq<int>, S) -> S,
    range: (nat, seq<int>, S) -> Range)

  function Touch<S>(m: Machine<S>, c: Cond, iters: seq<int>, s: S): S {
    if c.pure then s else m.effect(c.id, iters, s)
  }

  /** The values a range loop runs over; a machine decides no more than the program leaves open. */
  function RangeOf<S>(m: Machine<S>, r: Span, iters: seq<int>, s: S): (g: Range)
    ensures Advances(r) ==> g.step > 0
  {
    var g := m.range(r.id, iters, s);
    if r.stride.One? || (r.stride.Positive? && g.step <= 0) then g.(step := 1) else g
  }

  // -------------------------------------------------------------- direct meaning

  datatype Exit = Fall | Broke | Returned

  /** `Stuck`: some loop needs more than `fuel` nested turns. */
  datatype Res<S> = Stuck | Ended(s: S, exit: Exit)

  function Exec<S>(m: Machine<S>, p: Prog, iters: seq<int>, s: S, fuel: nat): Res<S>
    decreases fuel, p
  {
    match p
    case Done => Ended(s, Fall)
    case Then(st, rest) =>
      var r := ExecStmt(m, st, iters, s, fuel);
      if r.Ended? && r.exit.Fall? then Exec(m, rest, iters, r.s, fuel) else r
  }

  function ExecStmt<S>(m: Machine<S>, st: Stmt, iters: seq<int>, s: S, fuel: nat): Res<S>
    decreases fuel, st
  {
    match st
    case Act(a) => Ended(m.act(a, iters, s), Fall)
    case If(c, t, e) =>
      Exec(m, if m.test(c.id, iters, s) then t else e, iters, Touch(m, c, iters, s), fuel)
    case While(c, body) => ExecWhile(m, c, body, iters, s, fuel)
    case For(r, body) =>
      var range := RangeOf(m, r, iters, s);
      ExecRange(m, range, range.start, body, iters, s, fuel)
    case Break => Ended(s, Broke)
    case Return => Ended(s, Returned)
  }

  function ExecWhile<S>(m: Machine<S>, c: Cond, body: Prog, iters: seq<int>, s: S, fuel: nat): Res<S>
    decreases fuel, body
  {
    if !m.test(c.id, iters, s) then Ended(Touch(m, c, iters, s), Fall)
    else if fuel == 0 then Stuck
    else
      match Exec(m, body, iters, Touch(m, c, iters, s), fuel - 1)
      case Stuck => Stuck
      case Ended(t, Fall) => ExecWhile(m, c, body, iters, t, fuel - 1)
      case Ended(t, Broke) => Ended(t, Fall)
      case Ended(t, Returned) => Ended(t, Returned)
  }

  function ExecRange<S>(m: Machine<S>, range: Range, i: int, body: Prog, iters: seq<int>, s: S, fuel: nat): Res<S>
    decreases fuel, body
  {
    if !(i < range.end) then Ended(s, Fall)
    else if fuel == 0 then Stuck
    else
      match Exec(m, body, iters + [i], s, fuel - 1)
      case Stuck => Stuck
      case Ended(t, Fall) => ExecRange(m, range, i + range.step, body, iters, t, fuel - 1)
      case Ended(t, Broke) => Ended(t, Fall)
      case Ended(t, Returned) => Ended(t, Returned)
  }

  // ------------------------------------------------------------------ emitted IR

  /** Flag 0 is the function's inverted return flag; every loop owns a later flag, which
      also names the iteration variable of a range loop rewritten as a while. */
  const RET: nat := 0

  datatype Ir =
    | Op(a: nat)
    | Declare(f: nat)                                        // initialised to true each time
    | Clear(f: nat)
    | Guard(f: nat, thn: IrBlock)                            // predication on a flag
    | IfOp(c: Cond, thn: IrBlock, els: IrBlock)
    | WhileOp(c: Cond, onBreak: Option<nat>, onReturn: bool, body: IrBlock)
    | RangeOp(r: Span, body: IrBlock)
    | RangeWhile(r: Span, cell: nat, onBreak: Option<nat>, onReturn: bool, body: IrBlock)
    | Bump(cell: nat)

  datatype IrBlock = INil | ICons(op: Ir, rest: IrBlock)

  /** Flags, and the iteration variables with their steps. */
  datatype Mem = Mem(flags: map<nat, bool>, cells: map<nat, int>, steps: map<nat, int>)

  function Flag(mem: Mem, f: nat): bool { f in mem.flags ==> mem.flags[f] }
  function Cell(mem: Mem, c: nat): int { if c in mem.cells then mem.cells[c] else 0 }
  function StepOf(mem: Mem, c: nat): int { if c in mem.steps then mem.steps[c] else 0 }

  function BumpCell(mem: Mem, c: nat): Mem { mem.(cells := mem.cells[c := Cell(mem, c) + StepOf(mem, c)]) }
  function InitCell(mem: Mem, c: nat, range: Range): Mem {
    mem.(cells := mem.cells[c := range.start], steps := mem.steps[c := range.step])
  }
  function SetFlag(mem: Mem, f: nat, b: bool): Mem { mem.(flags := mem.flags[f := b]) }

  datatype IrRes<S> = IrStuck | IrEnded(s: S, mem: Mem)

  function ExecIr<S>(m: Machine<S>, b: IrBlock, iters: seq<int>, s: S, mem: Mem, fuel: nat): IrRes<S>
    decreases fuel, b
  {
    match b
    case INil => IrEnded(s, mem)
    case ICons(op, rest) =>
      match ExecOp(m, op, iters, s, mem, fuel)
      case IrStuck => IrStuck
      case IrEnded(t, mem') => ExecIr(m, rest, iters, t, mem', fuel)
  }

  function ExecOp<S>(m: Machine<S>, op: Ir, iters: seq<int>, s: S, mem: Mem, fuel: nat): IrRes<S>
    decreases fuel, op
  {
    match op
    case Op(a) => IrEnded(m.act(a, iters, s), mem)
    case Declare(f) => IrEnded(s, SetFlag(mem, f, true))
    case Clear(f) => IrEnded(s, SetFlag(mem, f, false))
    case Guard(f, thn) => if Flag(mem, f) then ExecIr(m, thn, iters, s, mem, fuel) else IrEnded(s, mem)
    case IfOp(c, t, e) =>
      ExecIr(m, if m.test(c.id, iters, s) then t else e, iters, Touch(m, c, iters, s), mem, fuel)
    case WhileOp(c, onBreak, onReturn, body) => LoopIr(m, c, onBreak, onReturn, body, iters, s, mem, fuel)
    case RangeOp(r, body) =>
      var range := RangeOf(m, r, iters, s);
      RangeIr(m, range, range.start, body, iters, s, mem, fuel)
    case RangeWhile(r, cell, onBreak, onReturn, body) =>
      var range := RangeOf(m, r, iters, s);
      RangeLoopIr(m, range.end, cell, onBreak, onReturn, body, iters, s, InitCell(mem, cell, range), fuel)
    case Bump(c) => IrEnded(s, BumpCell(mem, c))
  }

  predicate FlagsHold(mem: Mem, onBreak: Option<nat>, onReturn: bool) {
    (onBreak.Some? ==> Flag(mem, onBreak.value)) && (onReturn ==> Flag(mem, RET))
  }

  /** The before-block evaluates the condition and then ands the flags onto it. */
  function LoopIr<S>(m: Machine<S>, c: Cond, onBreak: Option<nat>, onReturn: bool, body: IrBlock,
                     iters: seq<int>, s: S, mem: Mem, fuel: nat): IrRes<S>
    decreases fuel, body
  {
    var t := Touch(m, c, iters, s);
    if !(m.test(c.id, iters, s) && FlagsHold(mem, onBreak, onReturn)) then IrEnded(t, mem)
    else if fuel == 0 then IrStuck
    else
      match ExecIr(m, body, iters, t, mem, fuel - 1)
      case IrStuck => IrStuck
      case IrEnded(u, mem') => LoopIr(m, c, onBreak, onReturn, body, iters, u, mem', fuel - 1)
  }

  function RangeIr<S>(m: Machine<S>, range: Range, i: int, body: IrBlock, iters: seq<int>, s: S, mem: Mem,
                      fuel: nat): IrRes<S>
    decreases fuel, body
  {
    if !(i < range.end) then IrEnded(s, mem)
    else if fuel == 0 then IrStuck
    else
      match ExecIr(m, body, iters + [i], s, mem, fuel - 1)
      case IrStuck => IrStuck
      case IrEnded(t, mem') => RangeIr(m, range, i + range.step, body, iters, t, mem', fuel - 1)
  }

  function RangeLoopIr<S>(m: Machine<S>, end: int, cell: nat, onBreak: Option<nat>, onReturn: bool, body: IrBlock,
                          iters: seq<int>, s: S, mem: Mem, fuel: nat): IrRes<S>
    decreases fuel, body
  {
    var i := Cell(mem, cell);
    if !(i < end && FlagsHold(mem, onBreak, onReturn)) then IrEnded(s, mem)
    else if fuel == 0 then IrStuck
    else
      match ExecIr(m, body, iters + [i], s, mem, fuel - 1)
      case IrStuck => IrStuck
      case IrEnded(t, mem') => RangeLoopIr(m, end, cell, onBreak, onReturn, body, iters, t, mem', fuel - 1)
  }

  // ------------------------------------------------------------------ expansion

  /** What expanding a scope leaves: the IR, the scope's two `may` marks and the next
      unused flag. */
  datatype Lowered = Lowered(ir: IrBlock, mayBreak: bool, mayReturn: bool, next: nat)

  /** `predicate_on_flag` for the break flag, then for the return flag, around what the
      scope emits afterwards. */
  function Predicate(brk: Option<nat>, mayBreak: bool, mayReturn: bool, rest: IrBlock): IrBlock {
    var inner := if mayReturn then ICons(Guard(RET, rest), INil) else rest;
    if mayBreak && brk.Some? then ICons(Guard(brk.value, inner), INil) else inner
  }

  function ScopeEnd(brk: Option<nat>, bump: bool): IrBlock {
    if bump && brk.Some? then ICons(Bump(brk.value), INil) else INil
  }

  function OwnFlag(used: bool, f: nat): Option<nat> { if used then Some(f) else None }

  /** Expand `p` in a scope with break flag `brk`; `next` is the next unused flag. With
      `bump` the scope ends by stepping the iteration variable of its own loop. */
  function Lower(p: Prog, brk: Option<nat>, next: nat, bump: bool): Lowered
    decreases p
  {
    match p
    case Done => Lowered(ScopeEnd(brk, bump), false, false, next)
    case Then(Act(a), rest) =>
      var l := Lower(rest, brk, next, bump);
      l.(ir := ICons(Op(a), l.ir))
    case Then(Break, rest) =>
      // ends the expansion closure: nothing after it in this scope is emitted
      if brk.Some? then Lowered(ICons(Clear(brk.value), ScopeEnd(brk, bump)), true, false, next)
      else Lowered(INil, false, false, next)      // the source panics: not in a loop
    case Then(Return, rest) =>
      // does not end the closure
      var l := Lower(rest, brk, next, bump);
      l.(ir := ICons(Clear(RET), l.ir), mayReturn := true)
    case Then(If(c, t, e), rest) =>
      var lt := Lower(t, brk, next, false);
      var le := Lower(e, brk, lt.next, false);
      var mb, mr := lt.mayBreak || le.mayBreak, lt.mayReturn || le.mayReturn;
      var l := Lower(rest, brk, le.next, bump);
      Lowered(ICons(IfOp(c, lt.ir, le.ir), Predicate(brk, mb, mr, l.ir)),
              mb || l.mayBreak, mr || l.mayReturn, l.next)
    case Then(While(c, body), rest) =>
      var lb := Lower(body, Some(next), next + 1, false);
      var l := Lower(rest, brk, lb.next, bump);
      // unlike the range loops, the builder does not pass `may_return` on
      l.(ir := ICons(Declare(next), ICons(WhileOp(c, OwnFlag(lb.mayBreak, next), lb.mayReturn, lb.ir), l.ir)))
    case Then(For(r, body), rest) =>
      var lb := Lower(body, Some(next), next + 1, false);
      var l := Lower(rest, brk, lb.next, bump);
      var loop :=
        if !lb.mayBreak && !lb.mayReturn then RangeOp(r, lb.ir)
        else RangeWhile(r, next, OwnFlag(lb.mayBreak, next), lb.mayReturn, Lower(body, Some(next), next + 1, true).ir);
      Lowered(ICons(Declare(next), ICons(loop, Predicate(brk, false, lb.mayReturn, l.ir))),
              l.mayBreak, lb.mayReturn || l.mayReturn, l.next)
  }

  /** A whole function body: its return flag is declared first. */
  function LowerFunc(p: Prog): IrBlock {
    ICons(Declare(RET), Lower(p, None, 1, false).ir)
  }
}
