/**
 What the arena's two counters buy: exclusive hand-out, an assertion that fires
 exactly when the arena is gone, and a destructor that runs once for every payload.
 The last holds along a run exactly if no drop is taken while the clones of its slot number
 one more than a positive multiple of 2^32, because the count that triggers it is 32 bits
 wide; it holds in particular while no slot has more than 2^32 clones.
 */
module ArenaSafety {
  import opened Options
  import opened ArenaProtocol

  /** Logical clones of slot `i`: handles the 32-bit count stands for. */
  function Clones(s: State, i: nat): nat { Tally(s.handles, s.nextHandle, i, false) }

  // -------------------------------------------------- hand-out and the assertion

  /** Whenever `reserve` takes a slot, no handle in any phase refers to it. */
  lemma HandoutIsExclusive(count: nat, run: seq<Step>)
    requires After(count, run).Some? && Enabled(After(count, run).value, TakeStorage)
    ensures var s := After(count, run).value;
            s.alive && forall g | g in s.handles :: s.handles[g].slot != s.scan.slot
  {
    RunKeepsCounters(count, run);
  }

  /** Whenever `init` writes, no other handle refers to the slot, and the "exactly two
      owners" assertion fails exactly when the arena has already let the slot go. */
  lemma InitAssertion(count: nat, run: seq<Step>, h: nat)
    requires After(count, run).Some? && Enabled(After(count, run).value, Init(h))
    ensures var s := After(count, run).value;
            var slot := s.slots[s.handles[h].slot];
            && Alone(s.handles, h)
            && (slot.strong == 2 <==> slot.arenaHolds)
            && (s.alive ==> slot.strong == 2)
  {
    RunKeepsCounters(count, run);
    var s := After(count, run).value;
    assert HandleOk(s, h) && SlotCounts(s, s.handles[h].slot);
    TallyAlone(s.handles, s.nextHandle, h);
  }

  /** What `init` does: while the arena holds the slot the payload is stored and the handle is
      live; otherwise the assertion fails, the handle is gone and nothing is stored. */
  lemma InitOutcome(count: nat, run: seq<Step>, h: nat)
    requires After(count, run).Some? && Enabled(After(count, run).value, Init(h))
    ensures var s, t := After(count, run).value, Apply(After(count, run).value, Init(h));
            var i, p := s.handles[h].slot, s.nextPayload;
            && |t.slots| == |s.slots|
            && (forall j | 0 <= j < |s.slots| && j != i :: t.slots[j] == s.slots[j])
            && if s.slots[i].arenaHolds then
                 && t.handles == s.handles[h := Handle(i, p, Live)] && t.slots[i].content == Some(p)
                 && t.nextPayload == p + 1
               else
                 h !in t.handles && t.slots[i].content == s.slots[i].content && t.nextPayload == p
  {
    InitAssertion(count, run, h);
  }

  /** The storage a handle refers to is never freed, and is never given out as free. */
  lemma StorageOutlivesHandles(count: nat, run: seq<Step>, h: nat)
    requires After(count, run).Some? && h in After(count, run).value.handles
    ensures var s := After(count, run).value;
            var i := s.handles[h].slot;
            i < |s.slots| && s.slots[i].strong >= 1 && (s.alive ==> s.slots[i].strong >= 2)
  {
    RunKeepsCounters(count, run);
    var s := After(count, run).value;
    assert HandleOk(s, h);
    var owner := if s.handles[h].phase.Cloning? then s.handles[h].phase.src else h;
    assert HandleOk(s, owner) && SlotCounts(s, s.handles[h].slot);
    TallyMember(s.handles, s.nextHandle, s.handles[h].slot, true, owner);
  }

  // ------------------------------------------------------------- the destructor

  lemma {:induction false} ResidueIsMod(r: nat, n: nat)
    ensures Residue(r, n) <==> r == n % WRAP
  {
    if n >= WRAP { ResidueIsMod(r, n - WRAP); assert (n - WRAP) % WRAP == n % WRAP; }
  }

  /** A drop claims the destructor exactly when the clones of its slot number one more
      than a multiple of 2^32: the last clone, or a false last clone after overflow. */
  lemma DropClaimsDestructor(count: nat, run: seq<Step>, h: nat)
    requires After(count, run).Some? && Enabled(After(count, run).value, DropCount(h))
    ensures var s := After(count, run).value;
            var n := Clones(s, s.handles[h].slot);
            var t := Apply(s, DropCount(h));
            && n >= 1 && Clones(t, s.handles[h].slot) == n - 1
            && (t.handles[h].phase == Leaving(true) <==> n % WRAP == 1)
            && (n <= WRAP ==> (t.handles[h].phase == Leaving(true) <==> n == 1))
  {
    RunKeepsCounters(count, run);
    var s := After(count, run).value;
    var i := s.handles[h].slot;
    assert HandleOk(s, h);
    TallyMember(s.handles, s.nextHandle, i, false, h);
    ResidueIsMod(s.slots[i].refCount, Clones(s, i));
    TallyUpdate(s.handles, s.nextHandle, h, CountDown(s, h).handles[h], i, false);
  }

  /** The drop of `h` would find the 32-bit count at 1 although other clones are left. */
  predicate FalseLast(s: State, h: nat) {
    h in s.handles && Clones(s, s.handles[h].slot) > 1 && Clones(s, s.handles[h].slot) % WRAP == 1
  }

  /** The step, if possible, is no such drop. */
  predicate Careful(s: Option<State>, step: Step) {
    s.Some? && step.DropCount? ==> !FalseLast(s.value, step.h)
  }

  predicate CarefulRun(count: nat, run: seq<Step>) {
    forall k | 0 <= k < |run| :: Careful(After(count, run[..k]), run[k])
  }

  /** Whoever may run a destructor leaves no clone behind. */
  predicate ClaimsAreLast(s: State) {
    forall h | h in s.handles && s.handles[h].phase == Leaving(true) :: Clones(s, s.handles[h].slot) == 0
  }

  predicate Bounded(s: State) {
    forall i | 0 <= i < |s.slots| :: Clones(s, i) <= WRAP
  }

  /** No state along the run has a slot with more than 2^32 clones. */
  predicate BoundedRun(count: nat, run: seq<Step>) {
    forall k | 0 <= k <= |run| :: After(count, run[..k]).Some? ==> Bounded(After(count, run[..k]).value)
  }

  predicate Owes(x: Handle, i: nat, p: nat) {
    x.slot == i && x.payload == p && (x.phase.Live? || x.phase.Cloning? || x.phase == Leaving(true))
  }

  predicate ContentOk(s: State, i: nat)
    requires i < |s.slots|
  {
    s.slots[i].content.Some? ==>
      && s.slots[i].content.value < s.nextPayload
      && s.slots[i].content.value !in s.destroyed
      && exists h :: h in s.handles && Owes(s.handles[h], i, s.slots[i].content.value)
  }

  predicate OwnerOk(s: State, h: nat)
    requires h in s.handles
  {
    var x := s.handles[h];
    && x.slot < |s.slots|
    && (x.phase.Live? || x.phase.Cloning? ==> s.slots[x.slot].content == Some(x.payload))
    && (x.phase == Leaving(true) ==>
          && s.slots[x.slot].content == Some(x.payload)
          && forall g | g in s.handles && s.handles[g].slot == x.slot && g != h :: s.handles[g].phase == Leaving(false))
  }

  predicate Stored(s: State, p: nat) {
    exists i :: 0 <= i < |s.slots| && s.slots[i].content == Some(p)
  }

  /** Every payload ever stored sits in one slot that a handle still answers for, or its
      destructor has run, once. */
  predicate Payloads(s: State) {
    && (forall i | 0 <= i < |s.slots| :: ContentOk(s, i))
    && (forall h | h in s.handles :: OwnerOk(s, h))
    && (forall i, j | 0 <= i < j < |s.slots| && s.slots[i].content.Some? :: s.slots[i].content != s.slots[j].content)
    && (forall p | 0 <= p < s.nextPayload :: p in s.destroyed || Stored(s, p))
    && (forall a, b | 0 <= a < b < |s.destroyed| :: s.destroyed[a] != s.destroyed[b])
    && (forall p | p in s.destroyed :: p < s.nextPayload)
  }

  lemma {:induction false} TallyFind(hs: map<nat, Handle>, n: nat, i: nat, st: bool) returns (h: nat)
    requires Tally(hs, n, i, st) >= 1
    ensures h in hs && h < n && For(hs[h], i, st)
  {
    if n - 1 in hs && For(hs[n - 1], i, st) { h := n - 1; } else { h := TallyFind(hs, n - 1, i, st); }
  }

  /** A step that neither stores nor destroys, and touches no handle that owes. */
  predicate Quiet(s: State, t: State) {
    && |s.slots| <= |t.slots|
    && (forall i | 0 <= i < |s.slots| :: t.slots[i].content == s.slots[i].content)
    && (forall i | |s.slots| <= i < |t.slots| :: t.slots[i].content == None)
    && t.nextPayload == s.nextPayload && t.destroyed == s.destroyed
    && (forall h | h in s.handles && (h !in t.handles || t.handles[h] != s.handles[h]) ::
          s.handles[h].phase.Reserving? || s.handles[h].phase.Uninit? || s.handles[h].phase == Leaving(false))
    && (forall h | h in t.handles && (h !in s.handles || t.handles[h] != s.handles[h]) ::
          && (t.handles[h].phase.Reserving? || t.handles[h].phase.Uninit?)
          && t.handles[h].slot < |t.slots|
          && forall g | g in s.handles && s.handles[g].slot == t.handles[h].slot :: g == h)
  }

  lemma QuietKeepsPayloads(s: State, t: State)
    requires Payloads(s) && Quiet(s, t)
    ensures Payloads(t)
  {
    forall i | 0 <= i < |t.slots| ensures ContentOk(t, i) {
      if i < |s.slots| && s.slots[i].content.Some? {
        assert ContentOk(s, i);
        var h :| h in s.handles && Owes(s.handles[h], i, s.slots[i].content.value);
        assert h in t.handles && Owes(t.handles[h], i, t.slots[i].content.value);
      }
    }
    forall h | h in t.handles ensures OwnerOk(t, h) {
      if h in s.handles { assert OwnerOk(s, h); }
    }
    forall p | 0 <= p < t.nextPayload ensures p in t.destroyed || Stored(t, p) {
      if p !in s.destroyed {
        assert Stored(s, p);
        var i :| 0 <= i < |s.slots| && s.slots[i].content == Some(p);
        assert t.slots[i].content == Some(p);
      }
    }
  }

  lemma QuietSteps(s: State, step: Step)
    requires Counters(s) && Payloads(s) && Enabled(s, step)
    requires !step.Init? && !step.CloneCount? && !step.CloneStorage? && !step.DropCount? && !step.Destroy?
    ensures Payloads(Apply(s, step))
  {
    if step.Abandon? || step.Release? || step.DropArena? || step.DropArenaSlot? {
      QuietLeaves(s, step);
    } else {
      QuietReserves(s, step);
    }
    QuietKeepsPayloads(s, Apply(s, step));
  }

  lemma QuietReserves(s: State, step: Step)
    requires Counters(s) && Enabled(s, step)
      && (step.StartReserve? || step.Probe? || step.TakeStorage? || step.StoreCount?)
    ensures Quiet(s, Apply(s, step))
  {
    NextFresh(s);
    if step.StoreCount? { assert HandleOk(s, s.scan.handle); }
  }

  lemma QuietLeaves(s: State, step: Step)
    requires Counters(s) && Enabled(s, step)
      && (step.Abandon? || step.Release? || step.DropArena? || step.DropArenaSlot?)
    ensures Quiet(s, Apply(s, step))
  {
  }

  lemma NothingOverwritten(s: State, h: nat)
    requires Counters(s) && Payloads(s) && Enabled(s, Init(h))
    ensures s.slots[s.handles[h].slot].content == None
  {
    assert HandleOk(s, h) && ContentOk(s, s.handles[h].slot);
  }

  lemma FillContent(s: State, h: nat, j: nat)
    requires Counters(s) && Payloads(s) && Enabled(s, Init(h)) && j < |s.slots|
    ensures ContentOk(Fill(s, h), j)
  {
    var i, t := s.handles[h].slot, Fill(s, h);
    assert HandleOk(s, h) && ContentOk(s, j);
    if j == i {
      assert Owes(t.handles[h], i, s.nextPayload);
    } else if s.slots[j].content.Some? {
      var g :| g in s.handles && Owes(s.handles[g], j, s.slots[j].content.value);
      assert g in t.handles && Owes(t.handles[g], j, t.slots[j].content.value);
    }
  }

  lemma FillKeepsPayloads(s: State, h: nat)
    requires Counters(s) && Payloads(s) && Enabled(s, Init(h))
    ensures Payloads(Fill(s, h))
  {
    var i := s.handles[h].slot;
    NothingOverwritten(s, h);
    var t := Fill(s, h);
    forall j | 0 <= j < |t.slots| ensures ContentOk(t, j) { FillContent(s, h, j); }
    forall g | g in t.handles ensures OwnerOk(t, g) { assert OwnerOk(s, g); }
    forall a, b | 0 <= a < b < |t.slots| && t.slots[a].content.Some? ensures t.slots[a].content != t.slots[b].content {
      assert ContentOk(s, a) && ContentOk(s, b);
    }
    forall p | 0 <= p < t.nextPayload ensures p in t.destroyed || Stored(t, p) {
      if p == s.nextPayload { assert t.slots[i].content == Some(p); }
      else if p !in s.destroyed {
        assert Stored(s, p);
        var j :| 0 <= j < |s.slots| && s.slots[j].content == Some(p);
        assert t.slots[j].content == Some(p);
      }
    }
  }

  /** Contents untouched: what is left to check is who answers for them. */
  lemma SameContents(s: State, t: State)
    requires Payloads(s)
    requires |s.slots| == |t.slots| && t.nextPayload == s.nextPayload && t.destroyed == s.destroyed
    requires forall i | 0 <= i < |s.slots| :: t.slots[i].content == s.slots[i].content
    requires forall h | h in t.handles :: OwnerOk(t, h)
    requires forall i | 0 <= i < |t.slots| :: ContentOk(t, i)
    ensures Payloads(t)
  {
    forall p | 0 <= p < t.nextPayload ensures p in t.destroyed || Stored(t, p) {
      if p !in s.destroyed {
        assert Stored(s, p);
        var i :| 0 <= i < |s.slots| && s.slots[i].content == Some(p);
        assert t.slots[i].content == Some(p);
      }
    }
  }

  lemma CloneKeepsPayloads(s: State, h: nat, t: State)
    requires Counters(s) && Payloads(s) && Has(s, h)
    requires (s.handles[h].phase.Live? && t == CountUp(s, h))
      || (s.handles[h].phase.Cloning? && t == ShareStorage(s, h))
    ensures Payloads(t)
  {
    NextFresh(s);
    forall i | 0 <= i < |t.slots| ensures ContentOk(t, i) {
      assert ContentOk(s, i);
      if s.slots[i].content.Some? {
        var g :| g in s.handles && Owes(s.handles[g], i, s.slots[i].content.value);
        assert g in t.handles && Owes(t.handles[g], i, t.slots[i].content.value);
      }
    }
    forall g | g in t.handles ensures OwnerOk(t, g) {
      assert OwnerOk(s, h);
      if g in s.handles { assert OwnerOk(s, g); }
    }
    SameContents(s, t);
  }

  lemma DropKeepsPayloads(s: State, h: nat)
    requires Counters(s) && Payloads(s) && !FalseLast(s, h) && Enabled(s, DropCount(h))
    ensures Payloads(CountDown(s, h))
  {
    var t := CountDown(s, h);
    var n, k := s.nextHandle, s.handles[h].slot;
    assert HandleOk(s, h) && OwnerOk(s, h);
    ResidueIsMod(s.slots[k].refCount, Clones(s, k));
    TallyMember(s.handles, n, k, false, h);
    TallyRemove(s.handles, n, h, k, false);
    var last := s.slots[k].refCount == 1;
    forall i | 0 <= i < |t.slots| ensures ContentOk(t, i) { DropContent(s, h, i); }
    forall g | g in t.handles ensures OwnerOk(t, g) {
      assert OwnerOk(s, g);
      if g == h && last {
        forall f | f in t.handles && t.handles[f].slot == k && f != h ensures t.handles[f].phase == Leaving(false) {
          LastOne(s, h, f);
        }
      }
    }
    SameContents(s, t);
  }

  lemma DropContent(s: State, h: nat, i: nat)
    requires Counters(s) && Payloads(s) && !FalseLast(s, h) && Enabled(s, DropCount(h)) && i < |s.slots|
    ensures ContentOk(CountDown(s, h), i)
  {
    var t := CountDown(s, h);
    var k := s.handles[h].slot;
    assert ContentOk(s, i) && OwnerOk(s, h);
    if i == k {
      if s.slots[k].refCount == 1 {
        assert Owes(t.handles[h], k, s.handles[h].payload);
      } else {
        OtherOwner(s, h);
        var g :| g != h && g in s.handles && Owes(s.handles[g], k, s.handles[h].payload);
        assert g in t.handles && Owes(t.handles[g], k, s.handles[h].payload);
      }
    } else if s.slots[i].content.Some? {
      var g :| g in s.handles && Owes(s.handles[g], i, s.slots[i].content.value);
      assert g in t.handles && Owes(t.handles[g], i, t.slots[i].content.value);
    }
  }

  lemma OtherOwner(s: State, h: nat)
    requires Counters(s) && Payloads(s) && !FalseLast(s, h) && Enabled(s, DropCount(h))
    requires s.slots[s.handles[h].slot].refCount != 1
    ensures exists g :: g != h && g in s.handles && Owes(s.handles[g], s.handles[h].slot, s.handles[h].payload)
  {
    var n, k := s.nextHandle, s.handles[h].slot;
    assert HandleOk(s, h);
    ResidueIsMod(s.slots[k].refCount, Clones(s, k));
    TallyMember(s.handles, n, k, false, h);
    TallyRemove(s.handles, n, h, k, false);
    var g := TallyFind(s.handles - {h}, n, k, false);
    assert HandleOk(s, g);
    assert Owes(s.handles[g], k, s.handles[h].payload);
  }

  lemma LastOne(s: State, h: nat, f: nat)
    requires Counters(s) && Payloads(s) && !FalseLast(s, h) && Enabled(s, DropCount(h))
    requires s.slots[s.handles[h].slot].refCount == 1
    requires f in s.handles && f != h && s.handles[f].slot == s.handles[h].slot
    ensures s.handles[f].phase == Leaving(false)
  {
    var n, k := s.nextHandle, s.handles[h].slot;
    assert HandleOk(s, h) && HandleOk(s, f) && OwnerOk(s, f);
    ResidueIsMod(s.slots[k].refCount, Clones(s, k));
    if Counts(s.handles[f].phase) { TallyPair(s.handles, n, k, false, h, f); }
  }

  lemma DestroyKeepsPayloads(s: State, h: nat)
    requires Counters(s) && Payloads(s) && Enabled(s, Destroy(h))
    ensures Payloads(RunDestructor(s, h))
  {
    var t := RunDestructor(s, h);
    var k, q := s.handles[h].slot, s.handles[h].payload;
    assert OwnerOk(s, h) && ContentOk(s, k);
    forall i | 0 <= i < |t.slots| ensures ContentOk(t, i) { DestroyContent(s, h, i); }
    forall g | g in t.handles ensures OwnerOk(t, g) { assert OwnerOk(s, g); }
    forall p | 0 <= p < t.nextPayload ensures p in t.destroyed || Stored(t, p) {
      if p !in s.destroyed && p != q {
        assert Stored(s, p);
        var i :| 0 <= i < |s.slots| && s.slots[i].content == Some(p);
        assert t.slots[i].content == Some(p);
      }
    }
  }

  lemma DestroyContent(s: State, h: nat, i: nat)
    requires Payloads(s) && Enabled(s, Destroy(h)) && i < |s.slots|
    ensures ContentOk(RunDestructor(s, h), i)
  {
    var t := RunDestructor(s, h);
    var k := s.handles[h].slot;
    assert OwnerOk(s, h) && ContentOk(s, i);
    if t.slots[i].content.Some? {
      assert i < k || k < i;
      var g :| g in s.handles && Owes(s.handles[g], i, s.slots[i].content.value);
      assert g in t.handles && Owes(t.handles[g], i, t.slots[i].content.value);
    }
  }

  lemma StepKeepsPayloads(s: State, step: Step)
    requires Counters(s) && Payloads(s) && Careful(Some(s), step) && Enabled(s, step)
    ensures Payloads(Apply(s, step))
  {
    match step
    case Init(h) =>
      if s.slots[s.handles[h].slot].strong == 2 { FillKeepsPayloads(s, h); }
      else { QuietKeepsPayloads(s, ReleaseStorage(s, h)); }
    case CloneCount(h) => CloneKeepsPayloads(s, h, CountUp(s, h));
    case CloneStorage(h) => CloneKeepsPayloads(s, h, ShareStorage(s, h));
    case DropCount(h) => DropKeepsPayloads(s, h);
    case Destroy(h) => DestroyKeepsPayloads(s, h);
    case _ => QuietSteps(s, step);
  }

  lemma {:induction false} RunKeepsPayloads(count: nat, run: seq<Step>)
    requires After(count, run).Some? && CarefulRun(count, run)
    ensures Payloads(After(count, run).value)
    decreases |run|
  {
    if run != [] {
      var m := |run| - 1;
      var before := run[..m];
      CarefulBefore(count, run);
      RunKeepsPayloads(count, before);
      RunKeepsCounters(count, before);
      assert Careful(After(count, run[..m]), run[m]);
      StepKeepsPayloads(After(count, before).value, run[m]);
    }
  }

  lemma CarefulBefore(count: nat, run: seq<Step>)
    requires run != [] && CarefulRun(count, run)
    ensures CarefulRun(count, run[..|run| - 1])
  {
    var before := run[..|run| - 1];
    forall k | 0 <= k < |before| ensures Careful(After(count, before[..k]), before[k]) {
      assert before[..k] == run[..k];
      assert Careful(After(count, run[..k]), run[k]);
    }
  }

  lemma FewClones(s: State, h: nat)
    requires Bounded(s) && h in s.handles && s.handles[h].slot < |s.slots|
    ensures !FalseLast(s, h)
  {
  }

  /** Within 2^32 clones no drop is a false last one. */
  lemma BoundedIsCareful(count: nat, run: seq<Step>)
    requires BoundedRun(count, run)
    ensures CarefulRun(count, run)
  {
    forall k | 0 <= k < |run| ensures Careful(After(count, run[..k]), run[k]) {
      var s := After(count, run[..k]);
      if s.Some? && run[k].DropCount? && run[k].h in s.value.handles {
        RunKeepsCounters(count, run[..k]);
        assert HandleOk(s.value, run[k].h);
        FewClones(s.value, run[k].h);
      }
    }
  }

  /** Safety of the destructor in every interleaving without a false last drop: it runs at
      most once for a payload, only when the payload is still in the slot and every other
      handle there has already given up its claim. */
  lemma DestructorSafety(count: nat, run: seq<Step>, h: nat)
    requires After(count, run).Some? && CarefulRun(count, run)
    requires Enabled(After(count, run).value, Destroy(h))
    ensures var s := After(count, run).value;
            var x := s.handles[h];
            && s.slots[x.slot].content == Some(x.payload)
            && x.payload !in s.destroyed
            && Clones(s, x.slot) == 0
            && forall g | g in s.handles && s.handles[g].slot == x.slot && g != h ::
              s.handles[g].phase == Leaving(false)
  {
    RunKeepsPayloads(count, run);
    var s := After(count, run).value;
    assert OwnerOk(s, h) && ContentOk(s, s.handles[h].slot);
    TallyNone(s.handles, s.nextHandle, s.handles[h].slot, false);
  }

  lemma {:induction false} PrefixRuns(count: nat, run: seq<Step>, k: nat)
    requires After(count, run).Some? && k <= |run|
    ensures After(count, run[..k]).Some?
    decreases |run|
  {
    if k == |run| {
      assert run[..k] == run;
    } else {
      PrefixRuns(count, run[..|run| - 1], k);
      assert run[..|run| - 1][..k] == run[..k];
    }
  }

  /** A false last drop claims the destructor while other clones are left. */
  lemma FalseLastClaims(count: nat, run: seq<Step>, h: nat)
    requires After(count, run).Some? && Enabled(After(count, run).value, DropCount(h))
    requires FalseLast(After(count, run).value, h)
    ensures !ClaimsAreLast(Apply(After(count, run).value, DropCount(h)))
  {
    DropClaimsDestructor(count, run, h);
    assert h in Apply(After(count, run).value, DropCount(h)).handles;
  }

  lemma FalseDropSeen(count: nat, run: seq<Step>, k: nat)
    requires After(count, run).Some? && k < |run| && !Careful(After(count, run[..k]), run[k])
    ensures !Tidy(count, run, k + 1)
  {
    PrefixRuns(count, run, k + 1);
    assert run[..k + 1][..k] == run[..k];
    FalseLastClaims(count, run[..k], run[k].h);
  }

  /** After `k` steps no destructor can meet a clone. */
  predicate Tidy(count: nat, run: seq<Step>, k: nat)
    requires k <= |run|
  {
    After(count, run[..k]).Some? && ClaimsAreLast(After(count, run[..k]).value)
  }

  /** Exactly the runs without a false last drop let no destructor meet a clone. */
  lemma DestructorIff(count: nat, run: seq<Step>)
    requires After(count, run).Some?
    ensures CarefulRun(count, run) <==> forall k | 0 <= k <= |run| :: Tidy(count, run, k)
  {
    if CarefulRun(count, run) {
      forall k | 0 <= k <= |run| ensures Tidy(count, run, k) {
        PrefixRuns(count, run, k);
        CarefulClaims(count, run, k);
      }
    } else {
      var k :| 0 <= k < |run| && !Careful(After(count, run[..k]), run[k]);
      FalseDropSeen(count, run, k);
    }
  }

  lemma CarefulClaims(count: nat, run: seq<Step>, k: nat)
    requires k <= |run| && After(count, run[..k]).Some? && CarefulRun(count, run)
    ensures ClaimsAreLast(After(count, run[..k]).value)
  {
    var before := run[..k];
    forall j | 0 <= j < |before| ensures Careful(After(count, before[..j]), before[j]) {
      assert before[..j] == run[..j];
      assert Careful(After(count, run[..j]), run[j]);
    }
    RunKeepsCounters(count, before);
    var s := After(count, before).value;
    forall h | h in s.handles && s.handles[h].phase == Leaving(true) ensures Clones(s, s.handles[h].slot) == 0 {
      assert HandleOk(s, h);
      DestructorSafety(count, before, h);
    }
  }

  /** Conservation in the same runs: every payload ever stored was destroyed exactly once,
      or sits in exactly one slot where a handle still answers for it. A run in which no
      handle is left has destroyed every payload. */
  lemma PayloadConservation(count: nat, run: seq<Step>, p: nat)
    requires After(count, run).Some? && CarefulRun(count, run)
    requires p < After(count, run).value.nextPayload
    ensures var s := After(count, run).value;
            && (p in s.destroyed <==> !Stored(s, p))
            && multiset(s.destroyed)[p] <= 1
            && (s.handles == map[] ==> multiset(s.destroyed)[p] == 1)
  {
    RunKeepsPayloads(count, run);
    var s := After(count, run).value;
    DistinctOnce(s.destroyed, p);
    if Stored(s, p) {
      var i :| 0 <= i < |s.slots| && s.slots[i].content == Some(p);
      assert ContentOk(s, i);
    }
  }

  lemma {:induction false} DistinctOnce(a: seq<nat>, p: nat)
    requires forall i, j | 0 <= i < j < |a| :: a[i] != a[j]
    ensures multiset(a)[p] == B(p in a)
  {
    if a != [] {
      var m := |a| - 1;
      assert a == a[..m] + [a[m]];
      DistinctOnce(a[..m], p);
    }
  }

  // ------------------------------------------------- the bound cannot be dropped

  /** Reserve slot 0, fill it, then clone its first handle `n` times. */
  function CloneRun(n: nat): seq<Step> {
    if n == 0 then [StartReserve, Probe, TakeStorage, StoreCount, Init(0)]
    else CloneRun(n - 1) + [CloneCount(0), CloneStorage(n)]
  }

  lemma AfterExtend(count: nat, run: seq<Step>, step: Step)
    requires After(count, run).Some? && Enabled(After(count, run).value, step)
    ensures After(count, run + [step]) == Some(Apply(After(count, run).value, step))
  {
    assert (run + [step])[..|run|] == run;
  }

  /** `n` live clones of the payload in the only slot. */
  predicate Cloned(s: State, n: nat) {
    && s.nextHandle == n && |s.slots| == 1 && s.destroyed == []
    && (forall h: nat | h < n :: h in s.handles)
    && (forall h | h in s.handles :: h < n && s.handles[h] == Handle(0, 0, Live))
  }

  lemma FirstSteps()
    ensures After(1, CloneRun(0)).Some? && Cloned(After(1, CloneRun(0)).value, 1)
  {
    var r0: seq<Step> := [];
    var s0 := Start(1);
    var s1 := s0.(slots := FreshSlots(1), scan := Scanning(0));
    AfterExtend(1, r0, StartReserve);
    var s2 := s1.(scan := Found(0));
    AfterExtend(1, r0 + [StartReserve], Probe);
    assert Apply(s1, Probe) == s2;
    AfterExtend(1, r0 + [StartReserve] + [Probe], TakeStorage);
    AfterExtend(1, r0 + [StartReserve] + [Probe] + [TakeStorage], StoreCount);
    AfterExtend(1, r0 + [StartReserve] + [Probe] + [TakeStorage] + [StoreCount], Init(0));
    assert r0 + [StartReserve] + [Probe] + [TakeStorage] + [StoreCount] + [Init(0)] == CloneRun(0);
    assert Fill(SetCount(TakeSlot(s2, 0), 0), 0).handles == map[0 := Handle(0, 0, Live)];
  }

  lemma CloneOnce(s: State, n: nat)
    requires Cloned(s, n) && n > 0
    ensures Enabled(s, CloneCount(0)) && Enabled(CountUp(s, 0), CloneStorage(n))
    ensures Cloned(ShareStorage(CountUp(s, 0), n), n + 1)
  {
    assert 0 in s.handles && n !in s.handles;
    assert ShareStorage(CountUp(s, 0), n).handles == s.handles[n := Handle(0, 0, Live)];
  }

  lemma {:induction false} CloneRunState(n: nat)
    ensures After(1, CloneRun(n)).Some? && Cloned(After(1, CloneRun(n)).value, n + 1)
  {
    if n == 0 {
      FirstSteps();
    } else {
      CloneRunState(n - 1);
      var r := CloneRun(n - 1);
      CloneOnce(After(1, r).value, n);
      AfterExtend(1, r, CloneCount(0));
      AfterExtend(1, r + [CloneCount(0)], CloneStorage(n));
      assert r + [CloneCount(0)] + [CloneStorage(n)] == CloneRun(n);
    }
  }

  lemma {:induction false} TallyAllLive(hs: map<nat, Handle>, n: nat)
    requires forall h: nat | h < n :: h in hs && hs[h] == Handle(0, 0, Live)
    ensures Tally(hs, n, 0, false) == n
  {
    if n > 0 { TallyAllLive(hs, n - 1); }
  }

  lemma EarlyDrop(n: nat)
    requires (n + 1) % WRAP == 1
    ensures After(1, CloneRun(n) + [DropCount(0)]).Some?
    ensures var s := After(1, CloneRun(n) + [DropCount(0)]).value;
            && Has(s, 0) && s.handles[0] == Handle(0, 0, Leaving(true)) && s.destroyed == []
            && forall h: nat | 1 <= h <= n :: h in s.handles && s.handles[h] == Handle(0, 0, Live)
  {
    CloneRunState(n);
    var r := CloneRun(n);
    var s := After(1, r).value;
    assert 0 in s.handles;
    assert Enabled(s, DropCount(0));
    TallyAllLive(s.handles, n + 1);
    DropClaimsDestructor(1, r, 0);
    AfterExtend(1, r, DropCount(0));
  }

  /** With 2^32 + 1 clones the first drop already runs the destructor, while 2^32 other
      clones are live and undropped. */
  lemma OverflowDestroysEarly()
    ensures var run := CloneRun(WRAP) + [DropCount(0)] + [Destroy(0)];
            && After(1, run).Some?
            && After(1, run).value.destroyed == [0]
            && forall h: nat | 1 <= h <= WRAP ::
                 h in After(1, run).value.handles && After(1, run).value.handles[h] == Handle(0, 0, Live)
  {
    EarlyDrop(WRAP);
    AfterExtend(1, CloneRun(WRAP) + [DropCount(0)], Destroy(0));
  }
}
