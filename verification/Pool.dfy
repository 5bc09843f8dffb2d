/**
 The lease pool: slots handed out through an atomic flag, values cleared when a handle is
 dropped. A run interleaves the probes of `acquire` (one at a time, it takes the pool
 exclusively) with the two phases of dropping handles on other threads.
 */
module Pool {
  import opened Options

  /** A dropped handle first clears the value, then frees the slot. */
  datatype Handle = Handle(slot: nat, reclaimed: bool)

  datatype State = State(
    leased: seq<bool>,
    clean: seq<bool>,                // the slot's value is fresh or reclaimed
    scan: Option<nat>,               // the next slot the active `acquire` probes
    handles: map<nat, Handle>,
    owner: seq<nat>,                 // the last handle of each slot
    nextHandle: nat,
    peak: nat)                       // the most slots ever leased at once

  datatype Step = Begin | Probe | Grow | Use(h: nat) | Reclaim(h: nat) | Free(h: nat)

  function Count(flags: seq<bool>): nat {
    if flags == [] then 0 else Count(flags[..|flags| - 1]) + if flags[|flags| - 1] then 1 else 0
  }

  function Max(a: nat, b: nat): nat { if a < b then b else a }

  function Start(): State { State([], [], None, map[], [], 0, 0) }

  ghost predicate Sized(s: State) {
    |s.leased| == |s.clean| == |s.owner| && forall h | h in s.handles :: s.handles[h].slot < |s.leased|
  }

  ghost predicate Enabled(s: State, step: Step)
    requires Sized(s)
  {
    match step
    case Begin => s.scan == None
    case Probe => s.scan.Some? && s.scan.value < |s.leased|
    case Grow => s.scan.Some? && s.scan.value == |s.leased|
    case Use(h) => h in s.handles && !s.handles[h].reclaimed
    case Reclaim(h) => h in s.handles && !s.handles[h].reclaimed
    case Free(h) => h in s.handles && s.handles[h].reclaimed
  }

  /** Hand out slot `i`, flagged `leased` as given. */
  function Lease(s: State, leased: seq<bool>, clean: seq<bool>, owner: seq<nat>, i: nat): State {
    s.(leased := leased, clean := clean, owner := owner, scan := None,
       handles := s.handles[s.nextHandle := Handle(i, false)],
       nextHandle := s.nextHandle + 1, peak := Max(s.peak, Count(leased)))
  }

  ghost function Apply(s: State, step: Step): State
    requires Sized(s) && Enabled(s, step)
  {
    match step
    case Begin => s.(scan := Some(0))
    case Probe =>
      var i := s.scan.value;
      if s.leased[i] then s.(scan := Some(i + 1))
      else Lease(s, s.leased[i := true], s.clean, s.owner[i := s.nextHandle], i)
    case Grow => Lease(s, s.leased + [true], s.clean + [true], s.owner + [s.nextHandle], |s.leased|)
    case Use(h) => s.(clean := s.clean[s.handles[h].slot := false])
    case Reclaim(h) => s.(clean := s.clean[s.handles[h].slot := true],
                          handles := s.handles[h := s.handles[h].(reclaimed := true)])
    case Free(h) => s.(leased := s.leased[s.handles[h].slot := false], handles := s.handles - {h})
  }

  /** The state after a run, or nothing when some step was not possible. */
  ghost function After(run: seq<Step>): Option<State> {
    if run == [] then Some(Start())
    else
      var before := After(run[..|run| - 1]);
      var step := run[|run| - 1];
      if before.Some? && Sized(before.value) && Enabled(before.value, step)
        then Some(Apply(before.value, step)) else None
  }

  // ----------------------------------------------------------------- exclusive leases

  /** Leased slots and handles are one to one, and only leased slots may hold used values. */
  ghost predicate Exclusive(s: State) {
    && Sized(s)
    && (forall h | h in s.handles :: h < s.nextHandle && s.leased[s.handles[h].slot] && s.owner[s.handles[h].slot] == h)
    && (forall i | 0 <= i < |s.leased| && s.leased[i] :: s.owner[i] in s.handles && s.handles[s.owner[i]].slot == i)
    && (forall i | 0 <= i < |s.leased| && !s.leased[i] :: s.clean[i])
    && (forall h | h in s.handles && s.handles[h].reclaimed :: s.clean[s.handles[h].slot])
  }

  lemma {:induction false} ProbeExclusive(s: State)
    requires Exclusive(s) && Enabled(s, Probe)
    ensures Exclusive(Apply(s, Probe))
  {
  }

  lemma {:induction false} GrowExclusive(s: State)
    requires Exclusive(s) && Enabled(s, Grow)
    ensures Exclusive(Apply(s, Grow))
  {
    var t := Apply(s, Grow);
    assert forall i | 0 <= i < |s.leased| ::
      t.leased[i] == s.leased[i] && t.clean[i] == s.clean[i] && t.owner[i] == s.owner[i];
  }

  lemma {:induction false} DropExclusive(s: State, step: Step)
    requires Exclusive(s) && Enabled(s, step) && !step.Probe? && !step.Grow?
    ensures Exclusive(Apply(s, step))
  {
  }

  lemma {:induction false} StepExclusive(s: State, step: Step)
    requires Exclusive(s) && Enabled(s, step)
    ensures Exclusive(Apply(s, step))
  {
    if step.Probe? { ProbeExclusive(s); } else if step.Grow? { GrowExclusive(s); } else { DropExclusive(s, step); }
  }

  lemma {:induction false} ExclusiveAlways(run: seq<Step>)
    requires After(run).Some?
    ensures Exclusive(After(run).value)
  {
    if run != [] {
      ExclusiveAlways(run[..|run| - 1]);
      StepExclusive(After(run[..|run| - 1]).value, run[|run| - 1]);
    }
  }

  /** In every interleaving two handles never share a slot, and `acquire` hands out a slot
      nobody holds whose value is fresh or reclaimed. */
  lemma {:induction false} LeasesAreExclusive(run: seq<Step>, step: Step, h: nat, g: nat)
    requires After(run).Some? && Sized(After(run).value) && Enabled(After(run).value, step)
    ensures var s := After(run).value; var t := Apply(s, step);
            && (h in s.handles && g in s.handles && s.handles[h].slot == s.handles[g].slot ==> h == g)
            && (h in t.handles && h !in s.handles ==>
                  && t.handles[h].slot < |t.clean| && t.clean[t.handles[h].slot]
                  && (g in s.handles ==> s.handles[g].slot != t.handles[h].slot))
  {
    ExclusiveAlways(run);
    StepExclusive(After(run).value, step);
  }

  // ---------------------------------------------------------------------- pool size

  lemma {:induction false} CountBound(flags: seq<bool>)
    ensures Count(flags) <= |flags|
    ensures Count(flags) == |flags| <==> forall i | 0 <= i < |flags| :: flags[i]
  {
    if flags != [] {
      var init := flags[..|flags| - 1];
      CountBound(init);
      assert forall i | 0 <= i < |init| :: init[i] == flags[i];
    }
  }

  /** A slot the scan has already passed is freed. */
  ghost predicate FreesBehind(s: State, step: Step) {
    s.scan.Some? && step.Free? && step.h in s.handles && s.handles[step.h].slot < s.scan.value
  }

  /** Since the last `acquire` began, a slot behind its scan was freed. */
  ghost predicate Raced(run: seq<Step>)
    requires After(run).Some?
    decreases |run|
  {
    if run == [] then false
    else
      var init, step := run[..|run| - 1], run[|run| - 1];
      !step.Begin? && (FreesBehind(After(init).value, step) || Raced(init))
  }

  /** All slots the scan has passed are leased. */
  ghost predicate Clear(s: State) {
    s.scan.Some? ==> s.scan.value <= |s.leased| && forall i | 0 <= i < s.scan.value :: s.leased[i]
  }

  lemma {:induction false} StepClear(s: State, step: Step)
    requires Exclusive(s) && Enabled(s, step) && (s.scan.Some? ==> s.scan.value <= |s.leased|)
    ensures var t := Apply(s, step);
            && (t.scan.Some? ==> t.scan.value <= |t.leased|)
            && (t.scan.Some? && s.scan.Some? ==> (Clear(t) <==> Clear(s) && !FreesBehind(s, step)))
            && (t.scan.Some? && s.scan.None? ==> step.Begin? && Clear(t))
  {
    if step.Free? {
      var t, i := Apply(s, step), s.handles[step.h].slot;
      assert t.leased == s.leased[i := false];
      assert !t.leased[i];
      assert forall j | 0 <= j < |s.leased| && j != i :: t.leased[j] == s.leased[j];
    }
  }

  /** During a scan, a free slot lies behind it exactly when one was freed behind it. */
  lemma {:induction false} ClearIff(run: seq<Step>)
    requires After(run).Some?
    ensures var s := After(run).value;
            && (s.scan.Some? ==> s.scan.value <= |s.leased|)
            && (s.scan.Some? ==> (Clear(s) <==> !Raced(run)))
    decreases |run|
  {
    if run != [] {
      var init, step := run[..|run| - 1], run[|run| - 1];
      ClearIff(init);
      ExclusiveAlways(init);
      StepClear(After(init).value, step);
    }
  }

  predicate AtPeak(s: State) { |s.leased| == s.peak }

  /** From a pool at its peak, growing stays there if and only if every slot is leased. */
  lemma {:induction false} GrowAtPeak(s: State)
    requires Exclusive(s) && AtPeak(s) && Enabled(s, Grow)
    ensures AtPeak(Apply(s, Grow)) <==> Clear(s)
  {
    var more := s.leased + [true];
    CountBound(more);
    assert forall i | 0 <= i < |s.leased| :: more[i] == s.leased[i];
  }

  /** Every other step stays at the peak. */
  lemma {:induction false} OthersAtPeak(s: State, step: Step)
    requires Exclusive(s) && AtPeak(s) && Enabled(s, step) && !step.Grow?
    ensures AtPeak(Apply(s, step))
  {
    if step.Probe? { CountBound(s.leased[s.scan.value := true]); }
  }

  /** Every state along the run has as many slots as were ever leased at once. */
  ghost predicate AlwaysAtPeak(run: seq<Step>) {
    forall n | 0 <= n <= |run| :: After(run[..n]).Some? ==> AtPeak(After(run[..n]).value)
  }

  /** No `acquire` that grew the pool had a slot freed behind its scan. */
  ghost predicate GrowthUnraced(run: seq<Step>) {
    forall n | 0 <= n < |run| && run[n].Grow? :: After(run[..n]).Some? ==> !Raced(run[..n])
  }

  lemma {:induction false} PeakSplit(run: seq<Step>)
    requires run != [] && After(run).Some?
    ensures var init := run[..|run| - 1];
            && (AlwaysAtPeak(run) <==> AlwaysAtPeak(init) && AtPeak(After(run).value))
            && (AlwaysAtPeak(init) ==> AtPeak(After(init).value))
  {
    var init := run[..|run| - 1];
    assert forall n | 0 <= n <= |init| :: init[..n] == run[..n];
    assert run[..|run|] == run && init[..|init|] == init;
  }

  lemma {:induction false} UnracedSplit(run: seq<Step>)
    requires run != [] && After(run).Some?
    ensures var init := run[..|run| - 1];
            GrowthUnraced(run) <==> GrowthUnraced(init) && (run[|run| - 1].Grow? ==> !Raced(init))
  {
    var init := run[..|run| - 1];
    assert forall n | 0 <= n <= |init| :: init[..n] == run[..n];
    assert init[..|init|] == init;
  }

  /** In every run: the pool always has exactly as many slots as were ever leased at once if
      and only if no `acquire` grew it after a slot behind its scan was freed. */
  lemma {:induction false} SizeIsPeakIff(run: seq<Step>)
    requires After(run).Some?
    ensures AlwaysAtPeak(run) <==> GrowthUnraced(run)
    decreases |run|
  {
    if run == [] {
      assert run[..0] == [];
    } else {
      var init, step := run[..|run| - 1], run[|run| - 1];
      PeakSplit(run);
      UnracedSplit(run);
      SizeIsPeakIff(init);
      ExclusiveAlways(init);
      ClearIff(init);
      if AlwaysAtPeak(init) {
        if step.Grow? { GrowAtPeak(After(init).value); } else { OthersAtPeak(After(init).value, step); }
      }
    }
  }

  /** Never fewer. */
  lemma {:induction false} PeakFits(run: seq<Step>)
    requires After(run).Some?
    ensures After(run).value.peak <= |After(run).value.leased|
  {
    if run != [] {
      PeakFits(run[..|run| - 1]);
      var s, step := After(run[..|run| - 1]).value, run[|run| - 1];
      if step.Probe? { CountBound(s.leased[s.scan.value := true]); }
      if step.Grow? { CountBound(s.leased + [true]); }
    }
  }

  /** A slot freed behind the scan makes the pool grow past its peak: one slot, leased and
      freed while the second `acquire` has just passed it. */
  lemma {:induction false} RaceGrows()
    ensures var run := [Begin, Grow, Begin, Probe, Reclaim(0), Free(0), Grow];
            After(run).Some? && |After(run).value.leased| == 2 && After(run).value.peak == 1
  {
    var run4 := [Begin] + [Grow] + [Begin] + [Probe];
    RaceBegins();
    var s4 := State([true], [true], Some(1), map[0 := Handle(0, false)], [0], 1, 1);
    var s5 := State([true], [true], Some(1), map[0 := Handle(0, true)], [0], 1, 1);
    Extend(run4, Reclaim(0));
    assert Apply(s4, Reclaim(0)).clean == [true] && Apply(s4, Reclaim(0)).handles == s5.handles;
    Extend(run4 + [Reclaim(0)], Free(0));
    assert Apply(s5, Free(0)).leased == [false];
    Extend(run4 + [Reclaim(0)] + [Free(0)], Grow);
    assert [false] + [true] == [false, true];
    SmallCounts();
    assert [Begin, Grow, Begin, Probe, Reclaim(0), Free(0), Grow] == run4 + [Reclaim(0)] + [Free(0)] + [Grow];
  }

  lemma SmallCounts()
    ensures Count([true]) == 1 && Count([false, true]) == 1
  {
    assert [true][..0] == [] && [false][..0] == [] && [false, true][..1] == [false];
    assert Count([false]) == 0;
  }

  /** One slot leased, and the scan of the next `acquire` just past it. */
  lemma {:induction false} RaceBegins()
    ensures After([Begin] + [Grow] + [Begin] + [Probe])
         == Some(State([true], [true], Some(1), map[0 := Handle(0, false)], [0], 1, 1))
  {
    var s2 := State([true], [true], None, map[0 := Handle(0, false)], [0], 1, 1);
    SmallCounts();
    Extend([], Begin);
    Extend([Begin], Grow);
    assert [] + [Begin] == [Begin];
    assert [] + [true] == [true] && [] + [0] == [0];
    assert After([Begin] + [Grow]) == Some(s2);
    Extend([Begin] + [Grow], Begin);
    Extend([Begin] + [Grow] + [Begin], Probe);
  }

  lemma Extend(run: seq<Step>, step: Step)
    ensures After(run + [step]) ==
      if After(run).Some? && Sized(After(run).value) && Enabled(After(run).value, step)
        then Some(Apply(After(run).value, step)) else None
  {
    assert (run + [step])[..|run|] == run;
  }

  // -------------------------------------------------------------------- the method

  /** The first free slot, or the next new one. */
  predicate FirstFree(leased: seq<bool>, i: nat) {
    && i <= |leased| && (forall j | 0 <= j < i :: leased[j]) && (i < |leased| ==> !leased[i])
  }

  lemma ProbePast(s: State, i: nat)
    requires Sized(s) && i < |s.leased| && s.leased[i]
    ensures Enabled(s.(scan := Some(i)), Probe) && Apply(s.(scan := Some(i)), Probe) == s.(scan := Some(i + 1))
  {
  }

  /** An `acquire` nothing interrupts: the scan up to slot `i`. */
  lemma {:induction false} ScanTo(run: seq<Step>, i: nat) returns (more: seq<Step>)
    requires After(run).Some? && After(run).value.scan == None
    requires i <= |After(run).value.leased| && forall j | 0 <= j < i :: After(run).value.leased[j]
    ensures After(more) == Some(After(run).value.(scan := Some(i)))
  {
    ExclusiveAlways(run);
    if i == 0 {
      more := run + [Begin];
      Extend(run, Begin);
    } else {
      var before := ScanTo(run, i - 1);
      more := before + [Probe];
      Extend(before, Probe);
      ProbePast(After(run).value, i - 1);
    }
  }

  /** It takes the slot the method below returns, and flags it the same way. */
  lemma {:induction false} AcquireAlone(run: seq<Step>, i: nat) returns (more: seq<Step>)
    requires After(run).Some? && After(run).value.scan == None && FirstFree(After(run).value.leased, i)
    ensures After(more).Some?
    ensures var s, t := After(run).value, After(more).value;
            && t.scan == None && s.nextHandle in t.handles && t.handles[s.nextHandle] == Handle(i, false)
            && t.leased == if i < |s.leased| then s.leased[i := true] else s.leased + [true]
  {
    ExclusiveAlways(run);
    var before := ScanTo(run, i);
    var step := if i < |After(run).value.leased| then Probe else Grow;
    more := before + [step];
    Extend(before, step);
  }

  class LeasePool {
    var leased: seq<bool>

    /** Take the first free slot, or a new one; which is returned. */
    method Acquire() returns (slot: nat)
      modifies this
      ensures FirstFree(old(leased), slot)
      ensures leased == if slot < |old(leased)| then old(leased)[slot := true] else old(leased) + [true]
    {
      slot := 0;
      while slot < |leased|
        invariant 0 <= slot <= |leased| && leased == old(leased)
        invariant forall i | 0 <= i < slot :: leased[i]
      {
        if !leased[slot] {
          leased := leased[slot := true];
          return;
        }
        slot := slot + 1;
      }
      leased := leased + [true];
    }
  }
}
