/**
 Which programs the expansion gets right, told from their text. After a `return` the emitted
 IR runs on with the return flag cleared, until a guard or the end of the function stops
 it; a program is safe if nothing it then runs can be observed.
 */
module LoweringSafe {
  import opened Options
  import opened Lowering

  function Max(a: nat, b: nat): nat { if a < b then b else a }

  // ------------------------------------------------------------------------- marks

  /** The scope of `p` is marked `may_return`: emitted code holds a `return` outside `while`. */
  predicate Mark(p: Prog) {
    match p
    case Done => false
    case Then(st, rest) => !st.Break? && (st.Return? || Guarded(st) || Mark(rest))
  }

  /** What follows the statement is put under a guard on the return flag. */
  predicate Guarded(st: Stmt) {
    match st
    case If(_, t, e) => Mark(t) || Mark(e)
    case For(_, b) => Mark(b)
    case _ => false
  }

  /** The scope of `p` is marked `may_break`. */
  predicate BreakMark(p: Prog) {
    match p
    case Done => false
    case Then(st, rest) => st.Break? || BreakGuarded(st) || BreakMark(rest)
  }

  predicate BreakGuarded(st: Stmt) {
    match st
    case If(_, t, e) => BreakMark(t) || BreakMark(e)
    case _ => false
  }

  /** Every `break` is inside a loop; the expansion panics otherwise. */
  predicate WellScoped(p: Prog, inLoop: bool) { inLoop || !BreakMark(p) }
  predicate WellScopedS(st: Stmt, inLoop: bool) { inLoop || !(st.Break? || BreakGuarded(st)) }

  // -------------------------------------------------------------- direct execution

  /** Control can run off the end of `p`: nothing is known of conditions, and loops can run
      no turns. */
  predicate CanFall(p: Prog) {
    match p
    case Done => true
    case Then(st, rest) => Falls(st) && CanFall(rest)
  }

  predicate Falls(st: Stmt) {
    match st
    case Break => false
    case Return => false
    case If(_, t, e) => CanFall(t) || CanFall(e)
    case _ => true
  }

  /** A `break` of the loop around `p` can be reached. */
  predicate CanBreak(p: Prog) {
    match p
    case Done => false
    case Then(st, rest) => Breaks(st) || (Falls(st) && CanBreak(rest))
  }

  predicate Breaks(st: Stmt) {
    match st
    case Break => true
    case If(_, t, e) => CanBreak(t) || CanBreak(e)
    case _ => false
  }

  /** A `return` can be reached, at any depth. */
  predicate CanReturn(p: Prog) {
    match p
    case Done => false
    case Then(st, rest) => Returns(st) || (Falls(st) && CanReturn(rest))
  }

  predicate Returns(st: Stmt) {
    match st
    case Return => true
    case If(_, t, e) => CanReturn(t) || CanReturn(e)
    case While(_, b) => CanReturn(b)
    case For(_, b) => CanReturn(b)
    case _ => false
  }

  // ------------------------------------------------------ after the function returned

  /** Run with the return flag cleared, the code of `p` can leave the break flag set. */
  predicate Drifts(p: Prog) {
    match p
    case Done => true
    case Then(st, rest) => Holds(st) || (Passes(st) && Drifts(rest))
  }

  /** ... and the guard behind the statement stops it. */
  predicate Holds(st: Stmt) {
    match st
    case If(_, t, e) => Guarded(st) && (Drifts(t) || Drifts(e))
    case For(_, b) => Guarded(st)
    case _ => false
  }

  /** ... and it goes on behind the statement. */
  predicate Passes(st: Stmt) {
    match st
    case Break => false
    case If(_, t, e) => !Guarded(st) && (Drifts(t) || Drifts(e))
    case For(_, b) => !Guarded(st)
    case _ => true
  }

  /** Run with the return flag cleared, `p` does nothing that can be observed. Loops whose
      condition holds the flag stop at once; others must be idle turn by turn, and end: ranges
      that advance do, the rest must break in their first turn. */
  predicate Idle(p: Prog) {
    match p
    case Done => true
    case Then(st, rest) => IdleStmt(st) && (Passes(st) ==> Idle(rest))
  }

  predicate IdleStmt(st: Stmt) {
    match st
    case Act(_) => false
    case Break => true
    case Return => true
    case If(c, t, e) => c.pure && Idle(t) && Idle(e)
    case While(c, b) => c.pure && (Mark(b) || (Idle(b) && !Drifts(b)))
    case For(r, b) => Mark(b) || (Idle(b) && (Advances(r) || !Drifts(b)))
  }

  // ---------------------------------------------------------------------- safety

  /** A `return` reached in `p` can leave the emitted IR at the end of `p` with the break flag
      set. */
  predicate Escapes(p: Prog) {
    match p
    case Done => false
    case Then(st, rest) => Stops(st) || (Leaves(st) && Drifts(rest)) || (Falls(st) && Escapes(rest))
  }

  /** ... stopped by the guard behind the statement. */
  predicate Stops(st: Stmt) {
    match st
    case If(_, t, e) => Guarded(st) && (Escapes(t) || Escapes(e))
    case For(_, b) => Guarded(st) && CanReturn(b)
    case _ => false
  }

  /** ... so that it goes on behind the statement. */
  predicate Leaves(st: Stmt) {
    match st
    case Return => true
    case If(_, t, e) => !Guarded(st) && (Escapes(t) || Escapes(e))
    case While(_, b) => CanReturn(b)
    case For(_, b) => !Guarded(st) && CanReturn(b)
    case _ => false
  }

  /** Whatever control does, the emitted IR can be observed to do the same. */
  predicate Safe(p: Prog) {
    match p
    case Done => true
    case Then(st, rest) => SafeStmt(st) && (Leaves(st) ==> Idle(rest)) && (Falls(st) ==> Safe(rest))
  }

  /** A `while` that can be left early has a condition without side effects, and a loop whose
      body can return also stops then: by the return flag, by its own, or because it is a
      range that advances and its turns are idle. */
  predicate SafeStmt(st: Stmt) {
    match st
    case If(_, t, e) => Safe(t) && Safe(e)
    case While(c, b) =>
      && Safe(b) && (CanBreak(b) ==> c.pure)
      && (CanReturn(b) ==> c.pure && (Mark(b) || !Escapes(b)))
    case For(r, b) => Safe(b) && (CanReturn(b) ==> Mark(b) || !Escapes(b) || (Advances(r) && Idle(b)))
    case _ => true
  }

  // -------------------------------------------------------------------------- fuel

  /** Nested turns enough for idle code with the return flag cleared; it does not change `s`. */
  function DriftTurns<S>(m: Machine<S>, p: Prog, iters: seq<int>, s: S): nat
    decreases p, 0, 0
  {
    match p
    case Done => 0
    case Then(st, rest) => Max(DriftTurnsOf(m, st, iters, s), DriftTurns(m, rest, iters, s))
  }

  function DriftTurnsOf<S>(m: Machine<S>, st: Stmt, iters: seq<int>, s: S): nat
    decreases st, 0, 0
  {
    match st
    case If(_, t, e) => Max(DriftTurns(m, t, iters, s), DriftTurns(m, e, iters, s))
    case While(_, b) => if Mark(b) then 0 else 1 + DriftTurns(m, b, iters, s)
    case For(r, b) =>
      var range := RangeOf(m, r, iters, s);
      if Mark(b) then 0 else RangeTurns(m, range, range.start, b, iters, s)
    case _ => 0
  }

  /** From the value `i` on; a range that does not advance must end in its first turn. */
  function RangeTurns<S>(m: Machine<S>, range: Range, i: int, b: Prog, iters: seq<int>, s: S): nat
    decreases b, 1, if i < range.end then range.end - i else 0
  {
    if !(i < range.end) then 0
    else
      var later := if range.step > 0 then RangeTurns(m, range, i + range.step, b, iters, s) else 0;
      1 + Max(DriftTurns(m, b, iters + [i], s), later)
  }

  /** How many more nested turns than direct execution with fuel `f` the emitted IR needs; none
      unless direct execution returns. */
  function Need<S>(m: Machine<S>, p: Prog, iters: seq<int>, s: S, f: nat): nat
    decreases f, p
  {
    match p
    case Done => 0
    case Then(st, rest) =>
      match ExecStmt(m, st, iters, s, f)
      case Ended(t, Fall) => Need(m, rest, iters, t, f)
      case Ended(t, Returned) => Max(StmtNeed(m, st, iters, s, f), DriftTurns(m, rest, iters, t))
      case _ => 0
  }

  function StmtNeed<S>(m: Machine<S>, st: Stmt, iters: seq<int>, s: S, f: nat): nat
    decreases f, st
  {
    match st
    case If(c, t, e) => Need(m, if m.test(c.id, iters, s) then t else e, iters, Touch(m, c, iters, s), f)
    case While(c, b) => WhileNeed(m, c, b, iters, s, f)
    case For(r, b) => RangeNeed(m, RangeOf(m, r, iters, s), RangeOf(m, r, iters, s).start, b, iters, s, f)
    case _ => 0
  }

  function WhileNeed<S>(m: Machine<S>, c: Cond, b: Prog, iters: seq<int>, s: S, f: nat): nat
    decreases f, b
  {
    if !m.test(c.id, iters, s) || f == 0 then 0
    else
      match Exec(m, b, iters, Touch(m, c, iters, s), f - 1)
      case Ended(t, Fall) => WhileNeed(m, c, b, iters, t, f - 1)
      case Ended(t, Returned) => Need(m, b, iters, Touch(m, c, iters, s), f - 1)
      case _ => 0
  }

  /** After a `return` the turns that are left may be taken. */
  function RangeNeed<S>(m: Machine<S>, range: Range, i: int, b: Prog, iters: seq<int>, s: S, f: nat): nat
    decreases f, b
  {
    if !(i < range.end) || f == 0 then 0
    else
      match Exec(m, b, iters + [i], s, f - 1)
      case Ended(t, Fall) => RangeNeed(m, range, i + range.step, b, iters, t, f - 1)
      case Ended(t, Returned) =>
        Max(Need(m, b, iters + [i], s, f - 1), RangeTurns(m, range, i + range.step, b, iters, t))
      case _ => 0
  }

  // ------------------------------------------------------------------------- facts

  /** Without a mark nothing clears the break flag. */
  lemma {:induction false} NoBreakDrifts(p: Prog)
    requires !BreakMark(p)
    ensures Drifts(p)
    decreases p
  {
    if p.Then? {
      NoBreakDrifts(p.rest);
      if p.s.If? { NoBreakDrifts(p.s.thn); }
    }
  }

  /** The marks of the expansion, and its flags. */
  lemma {:induction false} LowerMarks(p: Prog, brk: Option<nat>, n: nat, bump: bool)
    ensures Lower(p, brk, n, bump).next >= n
    ensures Lower(p, brk, n, bump).mayReturn == Mark(p)
    ensures brk.Some? ==> Lower(p, brk, n, bump).mayBreak == BreakMark(p)
  {
    match p
    case Done =>
    case Then(Act(_), rest) => LowerMarks(rest, brk, n, bump);
    case Then(Break, rest) =>
    case Then(Return, rest) => LowerMarks(rest, brk, n, bump);
    case Then(If(c, t, e), rest) =>
      LowerMarks(t, brk, n, false);
      var lt := Lower(t, brk, n, false);
      LowerMarks(e, brk, lt.next, false);
      LowerMarks(rest, brk, Lower(e, brk, lt.next, false).next, bump);
    case Then(While(c, b), rest) =>
      LowerMarks(b, Some(n), n + 1, false);
      LowerMarks(rest, brk, Lower(b, Some(n), n + 1, false).next, bump);
    case Then(For(r, b), rest) =>
      LowerMarks(b, Some(n), n + 1, false);
      LowerMarks(rest, brk, Lower(b, Some(n), n + 1, false).next, bump);
  }

  lemma {:induction false} BumpKeepsMarks(p: Prog, brk: Option<nat>, n: nat)
    ensures Lower(p, brk, n, true) == Lower(p, brk, n, false).(ir := Lower(p, brk, n, true).ir)
  {
    match p
    case Done =>
    case Then(Act(_), rest) => BumpKeepsMarks(rest, brk, n);
    case Then(Break, rest) =>
    case Then(Return, rest) => BumpKeepsMarks(rest, brk, n);
    case Then(If(c, t, e), rest) =>
      BumpKeepsMarks(rest, brk, Lower(e, brk, Lower(t, brk, n, false).next, false).next);
    case Then(While(c, b), rest) => BumpKeepsMarks(rest, brk, Lower(b, Some(n), n + 1, false).next);
    case Then(For(r, b), rest) => BumpKeepsMarks(rest, brk, Lower(b, Some(n), n + 1, false).next);
  }

  ghost predicate Exits<S>(r: Res<S>, falls: bool, breaks: bool, returns_: bool) {
    r.Ended? ==> (r.exit.Fall? ==> falls) && (r.exit.Broke? ==> breaks) && (r.exit.Returned? ==> returns_)
  }

  /** Which exits a program can take, whatever its conditions do. */
  lemma {:induction false} ProgExits<S>(m: Machine<S>, p: Prog, iters: seq<int>, s: S, fuel: nat)
    ensures Exits(Exec(m, p, iters, s, fuel), CanFall(p), CanBreak(p), CanReturn(p))
    decreases fuel, p, 0
  {
    if p.Then? {
      StmtExits(m, p.s, iters, s, fuel);
      var r := ExecStmt(m, p.s, iters, s, fuel);
      if r.Ended? && r.exit.Fall? { ProgExits(m, p.rest, iters, r.s, fuel); }
    }
  }

  lemma {:induction false} StmtExits<S>(m: Machine<S>, st: Stmt, iters: seq<int>, s: S, fuel: nat)
    ensures Exits(ExecStmt(m, st, iters, s, fuel), Falls(st), Breaks(st), Returns(st))
    decreases fuel, st, 1
  {
    match st
    case If(c, t, e) => ProgExits(m, if m.test(c.id, iters, s) then t else e, iters, Touch(m, c, iters, s), fuel);
    case While(c, body) => WhileExits(m, c, body, iters, s, fuel);
    case For(r, body) => RangeExits(m, RangeOf(m, r, iters, s), RangeOf(m, r, iters, s).start, body, iters, s, fuel);
    case _ =>
  }

  lemma {:induction false} WhileExits<S>(m: Machine<S>, c: Cond, b: Prog, iters: seq<int>, s: S, fuel: nat)
    ensures Exits(ExecWhile(m, c, b, iters, s, fuel), true, false, CanReturn(b))
    decreases fuel, b, 1
  {
    if m.test(c.id, iters, s) && fuel > 0 {
      ProgExits(m, b, iters, Touch(m, c, iters, s), fuel - 1);
      var r := Exec(m, b, iters, Touch(m, c, iters, s), fuel - 1);
      if r.Ended? && r.exit.Fall? { WhileExits(m, c, b, iters, r.s, fuel - 1); }
    }
  }

  lemma {:induction false} RangeExits<S>(m: Machine<S>, range: Range, i: int, b: Prog, iters: seq<int>, s: S, fuel: nat)
    ensures Exits(ExecRange(m, range, i, b, iters, s, fuel), true, false, CanReturn(b))
    decreases fuel, b, 1
  {
    if i < range.end && fuel > 0 {
      ProgExits(m, b, iters + [i], s, fuel - 1);
      var r := Exec(m, b, iters + [i], s, fuel - 1);
      if r.Ended? && r.exit.Fall? { RangeExits(m, range, i + range.step, b, iters, r.s, fuel - 1); }
    }
  }
}
