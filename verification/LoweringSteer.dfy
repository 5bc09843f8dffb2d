/**
 How conditions and ranges can be steered so that an unsafe program shows it. A steering is
 the set of the conditions that hold and the ranges that run; where ids are distinct, every
 statement of a program can be steered on its own.
 */
module LoweringSteer {
  import opened Options
  import opened Lowering
  import opened LoweringSafe

  function CondKey(c: nat): nat { 2 * c }
  function RangeKey(r: nat): nat { 2 * r + 1 }

  function Keys(p: Prog): set<nat> {
    match p
    case Done => {}
    case Then(st, rest) => KeysOf(st) + Keys(rest)
  }

  function KeysOf(st: Stmt): set<nat> {
    match st
    case If(c, t, e) => {CondKey(c.id)} + Keys(t) + Keys(e)
    case While(c, b) => {CondKey(c.id)} + Keys(b)
    case For(r, b) => {RangeKey(r.id)} + Keys(b)
    case _ => {}
  }

  /** No two conditions and no two ranges share an id. */
  predicate Distinct(p: Prog) {
    match p
    case Done => true
    case Then(st, rest) => DistinctS(st) && Distinct(rest) && KeysOf(st) !! Keys(rest)
  }

  predicate DistinctS(st: Stmt) {
    match st
    case If(c, t, e) =>
      && Distinct(t) && Distinct(e) && Keys(t) !! Keys(e)
      && CondKey(c.id) !in Keys(t) && CondKey(c.id) !in Keys(e)
    case While(c, b) => Distinct(b) && CondKey(c.id) !in Keys(b)
    case For(r, b) => Distinct(b) && RangeKey(r.id) !in Keys(b)
    case _ => true
  }

  // -------------------------------------------------------------- direct execution

  /** How direct execution ends under a steering; `Loops`: a loop is steered to go on. */
  datatype Way = Falling | Breaking | Returning | Loops

  function WayOf(on: set<nat>, p: Prog): Way {
    match p
    case Done => Falling
    case Then(st, rest) => if StmtWay(on, st).Falling? then WayOf(on, rest) else StmtWay(on, st)
  }

  function StmtWay(on: set<nat>, st: Stmt): Way {
    match st
    case Act(_) => Falling
    case Break => Breaking
    case Return => Returning
    case If(c, t, e) => if CondKey(c.id) in on then WayOf(on, t) else WayOf(on, e)
    case While(c, b) => if CondKey(c.id) in on then LoopWay(WayOf(on, b)) else Falling
    case For(r, b) => if RangeKey(r.id) in on then LoopWay(WayOf(on, b)) else Falling
  }

  function LoopWay(w: Way): Way {
    match w
    case Breaking => Falling
    case Returning => Returning
    case _ => Loops
  }

  // ------------------------------------------------------ after the function returned

  /** What the emitted code does with the return flag cleared: something that can be observed
      (or it does not end); or nothing, and it leaves the break flag set or cleared. */
  datatype Drift = Loud | Opened | Shut

  function DriftOf(on: set<nat>, p: Prog): Drift {
    match p
    case Done => Opened
    case Then(st, rest) =>
      if StmtDrift(on, st).Opened? && !Guarded(st) then DriftOf(on, rest) else StmtDrift(on, st)
  }

  function StmtDrift(on: set<nat>, st: Stmt): Drift {
    match st
    case Act(_) => Loud
    case Break => Shut
    case Return => Opened
    case If(c, t, e) =>
      if !c.pure then Loud else if CondKey(c.id) in on then DriftOf(on, t) else DriftOf(on, e)
    case While(c, b) =>
      if !c.pure then Loud else if CondKey(c.id) in on && !Mark(b) then LoopDrift(DriftOf(on, b)) else Opened
    case For(r, b) => if RangeKey(r.id) in on && !Mark(b) then RangeDrift(r, DriftOf(on, b)) else Opened
  }

  /** A loop whose body leaves the flag set does not end. */
  function LoopDrift(d: Drift): Drift { if d.Shut? then Opened else Loud }

  /** A range that advances runs for one turn, another does not end by itself. */
  function RangeDrift(r: Span, d: Drift): Drift {
    if Advances(r) then (if d.Loud? then Loud else Opened) else LoopDrift(d)
  }

  /** When direct execution returned, the emitted code reached the end with the break flag set. */
  predicate EscapesBy(on: set<nat>, p: Prog) {
    match p
    case Done => false
    case Then(st, rest) =>
      if StmtWay(on, st).Falling? then EscapesBy(on, rest)
      else StmtEscapesBy(on, st) && (Guarded(st) || DriftOf(on, rest).Opened?)
  }

  predicate StmtEscapesBy(on: set<nat>, st: Stmt) {
    match st
    case If(c, t, e) => if CondKey(c.id) in on then EscapesBy(on, t) else EscapesBy(on, e)
    case _ => true
  }

  // ------------------------------------------------------------- steered to a failure

  /** The range `r` runs for two turns, and everything in the second is steered by `later`. */
  datatype Again = Again(r: nat, later: set<nat>)

  /** Direct execution returns, the emitted code goes on and something can be observed. */
  predicate Exposed(on: set<nat>, again: Option<Again>, p: Prog) {
    match p
    case Done => false
    case Then(st, rest) =>
      if StmtWay(on, st).Falling? then SafeStmt(st) && Exposed(on, again, rest)
      else
        && StmtWay(on, st).Returning?
        && (StmtExposed(on, again, st)
            || (again.None? && SafeStmt(st) && StmtEscapesBy(on, st) && !Guarded(st) && DriftOf(on, rest).Loud?))
  }

  predicate StmtExposed(on: set<nat>, again: Option<Again>, st: Stmt) {
    match st
    case If(c, t, e) => if CondKey(c.id) in on then Exposed(on, again, t) else Exposed(on, again, e)
    case While(c, b) =>
      CondKey(c.id) in on
        && (Exposed(on, again, b) || (again.None? && TurnsAgain(on, b))
            || (Safe(b) && WayOf(on, b).Returning? && !c.pure))
    case For(r, b) =>
      RangeKey(r.id) in on && (Exposed(on, again, b) || (TurnsAgain(on, b) && AgainShows(again, r, b)))
    case _ => false
  }

  /** The return out of the loop's body stops no turn of the emitted loop. */
  predicate TurnsAgain(on: set<nat>, b: Prog) {
    Safe(b) && WayOf(on, b).Returning? && !Mark(b) && EscapesBy(on, b)
  }

  /** ... and a range loop shows it: it does not end, or its second turn can be observed. */
  predicate AgainShows(again: Option<Again>, r: Span, b: Prog) {
    if !Advances(r) then again.None?
    else
      && again.Some? && again.value.r == r.id && RangeKey(r.id) !in Keys(b)
      && DriftOf(again.value.later, b).Loud?
  }

  /** The condition `e`, which has side effects, is evaluated once by direct execution and once
      more by the emitted code. The conditions in `once` hold until `e` was evaluated. */
  predicate Repeats(on: set<nat>, once: set<nat>, e: nat, p: Prog) {
    match p
    case Done => false
    case Then(st, rest) =>
      || (StmtRepeats(on, once, e, st) && Off(on + once, rest, e))
      || (SafeStmt(st) && StmtWay(on, st).Falling? && OffS(once, st, e) && Repeats(on, once, e, rest))
  }

  predicate StmtRepeats(on: set<nat>, once: set<nat>, e: nat, st: Stmt) {
    match st
    case If(c, t, f) =>
      && CondKey(c.id) !in once && c.id != e
      && if CondKey(c.id) in on then Repeats(on, once, e, t) else Repeats(on, once, e, f)
    case While(c, b) =>
      if c.id == e then
        !c.pure && CondKey(c.id) in on && Safe(b) && WayOf(on, b).Breaking? && Off(once, b, e)
      else
        CondKey(c.id) in once && CondKey(c.id) !in on && Repeats(on, once, e, b)
    case For(r, b) => RangeKey(r.id) in on && Repeats(on, once, e, b)
    case _ => false
  }

  /** No key is steered, and `e` does not occur. */
  predicate Off(keys: set<nat>, p: Prog, e: nat) { Keys(p) !! keys && CondKey(e) !in Keys(p) }
  predicate OffS(keys: set<nat>, st: Stmt, e: nat) { KeysOf(st) !! keys && CondKey(e) !in KeysOf(st) }

  // -------------------------------------------------------- only a program's own keys

  ghost predicate Same(on: set<nat>, on': set<nat>, keys: set<nat>) {
    forall k: nat | k in keys :: k in on <==> k in on'
  }

  lemma {:induction false} Local(on: set<nat>, on': set<nat>, p: Prog)
    requires Same(on, on', Keys(p))
    ensures WayOf(on, p) == WayOf(on', p) && DriftOf(on, p) == DriftOf(on', p) && EscapesBy(on, p) == EscapesBy(on', p)
  {
    if p.Then? {
      LocalStmt(on, on', p.s);
      Local(on, on', p.rest);
    }
  }

  lemma {:induction false} LocalStmt(on: set<nat>, on': set<nat>, st: Stmt)
    requires Same(on, on', KeysOf(st))
    ensures StmtWay(on, st) == StmtWay(on', st) && StmtDrift(on, st) == StmtDrift(on', st)
    ensures StmtEscapesBy(on, st) == StmtEscapesBy(on', st)
  {
    match st
    case If(c, t, e) =>
      Local(on, on', t);
      Local(on, on', e);
    case While(c, b) => Local(on, on', b);
    case For(r, b) => Local(on, on', b);
    case _ =>
  }

  lemma {:induction false} LocalExposed(on: set<nat>, on': set<nat>, again: Option<Again>, p: Prog)
    requires Same(on, on', Keys(p))
    ensures Exposed(on, again, p) == Exposed(on', again, p)
  {
    if p.Then? {
      LocalStmt(on, on', p.s);
      Local(on, on', p.rest);
      LocalStmtExposed(on, on', again, p.s);
      LocalExposed(on, on', again, p.rest);
    }
  }

  lemma {:induction false} LocalStmtExposed(on: set<nat>, on': set<nat>, again: Option<Again>, st: Stmt)
    requires Same(on, on', KeysOf(st))
    ensures StmtExposed(on, again, st) == StmtExposed(on', again, st)
  {
    match st
    case If(c, t, e) =>
      LocalExposed(on, on', again, t);
      LocalExposed(on, on', again, e);
    case While(c, b) =>
      Local(on, on', b);
      LocalExposed(on, on', again, b);
    case For(r, b) =>
      Local(on, on', b);
      LocalExposed(on, on', again, b);
    case _ =>
  }

  lemma {:induction false} LocalRepeats(on: set<nat>, on': set<nat>, once: set<nat>, once': set<nat>, e: nat, p: Prog)
    requires Same(on, on', Keys(p)) && Same(once, once', Keys(p))
    ensures Repeats(on, once, e, p) == Repeats(on', once', e, p)
  {
    if p.Then? {
      LocalStmt(on, on', p.s);
      LocalStmtRepeats(on, on', once, once', e, p.s);
      LocalRepeats(on, on', once, once', e, p.rest);
    }
  }

  lemma {:induction false} LocalStmtRepeats(on: set<nat>, on': set<nat>, once: set<nat>, once': set<nat>, e: nat,
                                            st: Stmt)
    requires Same(on, on', KeysOf(st)) && Same(once, once', KeysOf(st))
    ensures StmtRepeats(on, once, e, st) == StmtRepeats(on', once', e, st)
  {
    match st
    case If(c, t, f) =>
      LocalRepeats(on, on', once, once', e, t);
      LocalRepeats(on, on', once, once', e, f);
    case While(c, b) =>
      Local(on, on', b);
      LocalRepeats(on, on', once, once', e, b);
    case For(r, b) => LocalRepeats(on, on', once, once', e, b);
    case _ =>
  }

  // --------------------------------------------------------- every way can be steered

  predicate Can(p: Prog, w: Way) {
    match w
    case Falling => CanFall(p)
    case Breaking => CanBreak(p)
    case Returning => CanReturn(p)
    case Loops => false
  }

  predicate CanS(st: Stmt, w: Way) {
    match w
    case Falling => Falls(st)
    case Breaking => Breaks(st)
    case Returning => Returns(st)
    case Loops => false
  }

  lemma {:induction false} SteerWay(p: Prog, w: Way) returns (on: set<nat>)
    requires Distinct(p) && Can(p, w)
    ensures on <= Keys(p) && WayOf(on, p) == w
  {
    if p.Done? {
      on := {};
    } else if !w.Falling? && CanS(p.s, w) {
      on := SteerStmtWay(p.s, w);
    } else {
      var on1 := SteerStmtWay(p.s, Falling);
      var on2 := SteerWay(p.rest, w);
      on := on1 + on2;
      LocalStmt(on1, on, p.s);
      Local(on2, on, p.rest);
    }
  }

  lemma {:induction false} SteerStmtWay(st: Stmt, w: Way) returns (on: set<nat>)
    requires DistinctS(st) && CanS(st, w)
    ensures on <= KeysOf(st) && StmtWay(on, st) == w
  {
    match st
    case If(c, t, e) =>
      if Can(t, w) {
        var on1 := SteerWay(t, w);
        on := on1 + {CondKey(c.id)};
        Local(on1, on, t);
      } else {
        on := SteerWay(e, w);
      }
    case While(c, b) =>
      if w.Falling? { on := {}; }
      else {
        var on1 := SteerWay(b, w);
        on := on1 + {CondKey(c.id)};
        Local(on1, on, b);
      }
    case For(r, b) =>
      if w.Falling? { on := {}; }
      else {
        var on1 := SteerWay(b, w);
        on := on1 + {RangeKey(r.id)};
        Local(on1, on, b);
      }
    case _ => on := {};
  }

  /** Idle code that can leave the break flag set. */
  lemma {:induction false} SteerOpened(p: Prog) returns (on: set<nat>)
    requires Distinct(p) && Idle(p) && Drifts(p)
    ensures on <= Keys(p) && DriftOf(on, p).Opened?
  {
    if p.Done? {
      on := {};
    } else {
      var on1 := SteerStmtOpened(p.s);
      on := on1;
      if !Guarded(p.s) {
        var on2 := SteerOpened(p.rest);
        on := on1 + on2;
        LocalStmt(on1, on, p.s);
        Local(on2, on, p.rest);
      }
    }
  }

  lemma {:induction false} SteerStmtOpened(st: Stmt) returns (on: set<nat>)
    requires DistinctS(st) && IdleStmt(st) && (Holds(st) || Passes(st))
    ensures on <= KeysOf(st) && StmtDrift(on, st).Opened?
  {
    on := {};
    if st.If? {
      if Drifts(st.thn) {
        var on1 := SteerOpened(st.thn);
        on := on1 + {CondKey(st.c.id)};
        Local(on1, on, st.thn);
      } else {
        on := SteerOpened(st.els);
      }
    }
  }

  /** Code that is not idle. */
  lemma {:induction false} SteerLoud(p: Prog) returns (on: set<nat>)
    requires Distinct(p) && !Idle(p)
    ensures on <= Keys(p) && DriftOf(on, p).Loud?
    decreases p, 0
  {
    if !IdleStmt(p.s) {
      on := SteerStmtLoud(p.s);
    } else {
      var on1 := SteerStmtOpened(p.s);
      var on2 := SteerLoud(p.rest);
      on := on1 + on2;
      LocalStmt(on1, on, p.s);
      Local(on2, on, p.rest);
    }
  }

  lemma {:induction false} SteerStmtLoud(st: Stmt) returns (on: set<nat>)
    requires DistinctS(st) && !IdleStmt(st)
    ensures on <= KeysOf(st) && StmtDrift(on, st).Loud?
    decreases st, 0
  {
    on := {};
    match st
    case If(c, t, e) =>
      if c.pure && !Idle(t) {
        var on1 := SteerLoud(t);
        on := on1 + {CondKey(c.id)};
        Local(on1, on, t);
      } else if c.pure {
        on := SteerLoud(e);
      }
    case While(c, b) =>
      if c.pure {
        var on1 := SteerEndless(b);
        on := on1 + {CondKey(c.id)};
        Local(on1, on, b);
      }
    case For(r, b) =>
      var on1: set<nat>;
      if Advances(r) { on1 := SteerLoud(b); } else { on1 := SteerEndless(b); }
      on := on1 + {RangeKey(r.id)};
      Local(on1, on, b);
    case _ =>
  }

  lemma {:induction false} SteerEndless(b: Prog) returns (on: set<nat>)
    requires Distinct(b) && !(Idle(b) && !Drifts(b))
    ensures on <= Keys(b) && !DriftOf(on, b).Shut?
    decreases b, 1
  {
    if Idle(b) { on := SteerOpened(b); } else { on := SteerLoud(b); }
  }

  /** A `return` that leaves the emitted code at the end of the scope. */
  lemma {:induction false} SteerEscape(p: Prog) returns (on: set<nat>)
    requires Distinct(p) && Safe(p) && Escapes(p)
    ensures on <= Keys(p) && WayOf(on, p).Returning? && EscapesBy(on, p)
  {
    var st, rest := p.s, p.rest;
    if Stops(st) {
      on := SteerStmtEscape(st);
    } else if Leaves(st) && Drifts(rest) {
      var on1 := SteerStmtEscape(st);
      var on2 := SteerOpened(rest);
      on := on1 + on2;
      LocalStmt(on1, on, st);
      Local(on2, on, rest);
    } else {
      var on1 := SteerStmtWay(st, Falling);
      var on2 := SteerEscape(rest);
      on := on1 + on2;
      LocalStmt(on1, on, st);
      Local(on2, on, rest);
    }
  }

  lemma {:induction false} SteerStmtEscape(st: Stmt) returns (on: set<nat>)
    requires DistinctS(st) && SafeStmt(st) && (Stops(st) || Leaves(st))
    ensures on <= KeysOf(st) && StmtWay(on, st).Returning? && StmtEscapesBy(on, st)
  {
    match st
    case Return => on := {};
    case If(c, t, e) =>
      if Escapes(t) {
        var on1 := SteerEscape(t);
        on := on1 + {CondKey(c.id)};
        Local(on1, on, t);
      } else {
        on := SteerEscape(e);
      }
    case While(c, b) => on := SteerStmtWay(st, Returning);
    case For(r, b) => on := SteerStmtWay(st, Returning);
  }

  // ---------------------------------------------------- an unsafe program can be exposed

  /** A steering under which a program fails: by running on after a `return`, or by evaluating
      the condition `e` twice. */
  datatype Failure = Failure(on: set<nat>, again: Option<Again>, once: set<nat>, e: Option<nat>)

  ghost predicate Fails(x: Failure, p: Prog) {
    && x.on <= Keys(p) && x.once <= Keys(p) && x.on !! x.once
    && match x.e
       case None => x.once == {} && Exposed(x.on, x.again, p) && WayOf(x.on, p).Returning?
       case Some(e) => x.again.None? && CondKey(e) in Keys(p) && Repeats(x.on, x.once, e, p)
  }

  ghost predicate StmtFails(x: Failure, st: Stmt) {
    && x.on <= KeysOf(st) && x.once <= KeysOf(st) && x.on !! x.once
    && match x.e
       case None => x.once == {} && StmtExposed(x.on, x.again, st) && StmtWay(x.on, st).Returning?
       case Some(e) => x.again.None? && CondKey(e) in KeysOf(st) && StmtRepeats(x.on, x.once, e, st)
  }

  /** Every unsafe program with distinct ids can be steered to fail. */
  lemma {:induction false} SteerFailure(p: Prog) returns (x: Failure)
    requires Distinct(p) && !Safe(p)
    ensures Fails(x, p)
    decreases p, 0
  {
    var st, rest := p.s, p.rest;
    if !SafeStmt(st) {
      x := SteerStmtFailure(st);
    } else if Leaves(st) && !Idle(rest) {
      var on1 := SteerStmtEscape(st);
      var on2 := SteerLoud(rest);
      x := Failure(on1 + on2, None, {}, None);
      LocalStmt(on1, x.on, st);
      Local(on2, x.on, rest);
    } else {
      var on1 := SteerStmtWay(st, Falling);
      var y := SteerFailure(rest);
      x := y.(on := on1 + y.on);
      LocalStmt(on1, x.on, st);
      Local(y.on, x.on, rest);
      if y.e.None? { LocalExposed(y.on, x.on, x.again, rest); }
      else { LocalRepeats(y.on, x.on, y.once, x.once, y.e.value, rest); }
    }
  }

  lemma {:induction false} SteerStmtFailure(st: Stmt) returns (x: Failure)
    requires DistinctS(st) && !SafeStmt(st)
    ensures StmtFails(x, st)
    decreases st, 0
  {
    match st
    case If(c, t, e) =>
      if !Safe(t) {
        var y := SteerFailure(t);
        x := y.(on := y.on + {CondKey(c.id)});
        SameFailure(x, y, t);
      } else {
        x := SteerFailure(e);
      }
    case While(c, b) => x := SteerWhileFailure(c, b);
    case For(r, b) =>
      if !Safe(b) {
        var y := SteerFailure(b);
        x := y.(on := y.on + {RangeKey(r.id)});
        SameFailure(x, y, b);
      } else {
        var on1 := SteerEscape(b);
        var again := None;
        if Advances(r) {
          var later := SteerLoud(b);
          again := Some(Again(r.id, later));
        }
        x := Failure(on1 + {RangeKey(r.id)}, again, {}, None);
        Local(on1, x.on, b);
      }
  }

  lemma {:induction false} SteerWhileFailure(c: Cond, b: Prog) returns (x: Failure)
    requires DistinctS(While(c, b)) && !SafeStmt(While(c, b))
    ensures StmtFails(x, While(c, b))
    decreases b, 1
  {
    var k := {CondKey(c.id)};
    if !Safe(b) {
      var y := SteerFailure(b);
      x := if y.e.None? then y.(on := y.on + k) else y.(once := y.once + k);
      SameFailure(x, y, b);
    } else if !c.pure {
      var w := if CanBreak(b) then Breaking else Returning;
      var on1 := SteerWay(b, w);
      x := Failure(on1 + k, None, {}, if CanBreak(b) then Some(c.id) else None);
      Local(on1, x.on, b);
    } else {
      var on1 := SteerEscape(b);
      x := Failure(on1 + k, None, {}, None);
      Local(on1, x.on, b);
    }
  }

  /** A steering of other keys changes nothing. */
  lemma {:induction false} SameFailure(x: Failure, y: Failure, p: Prog)
    requires Same(x.on, y.on, Keys(p)) && Same(x.once, y.once, Keys(p)) && x.e == y.e
    requires x.again == y.again
    ensures WayOf(x.on, p) == WayOf(y.on, p) && Exposed(x.on, x.again, p) == Exposed(y.on, y.again, p)
    ensures x.e.Some? ==> Repeats(x.on, x.once, x.e.value, p) == Repeats(y.on, y.once, x.e.value, p)
  {
    Local(x.on, y.on, p);
    LocalExposed(x.on, y.on, x.again, p);
    if x.e.Some? { LocalRepeats(x.on, y.on, x.once, y.once, x.e.value, p); }
  }
}
