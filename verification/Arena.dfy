/**
 The slot arena of cubecl-common: a circular pool of buffers shared between an
 arena and the handles it gave out.

 A slot carries two counters. `strong` is the `Arc` count of its storage, which
 decides whether the arena may hand the slot out again. `refCount` is a separate
 32-bit counter that decides who runs the payload's destructor. Every atomic
 operation of `reserve`, `init`, `clone` and `drop` is one step below, so a run is
 an arbitrary interleaving of any number of threads under sequential consistency.
 */
module ArenaProtocol {
  import opened Options

  /** `AtomicU32` arithmetic wraps at this modulus. */
  const WRAP: nat := 0x1_0000_0000

  /** Where one handle stands. `Reserving`: inside `reserve`, storage taken, count
      not yet stored. `Cloning(src)`: counted, storage not yet shared; `src` is
      borrowed meanwhile. `Leaving(last)`: un-counted; `last` handles still owe the
      destructor call before they give their storage back. */
  datatype Phase = Reserving | Uninit | Live | Cloning(src: nat) | Leaving(last: bool)

  datatype Handle = Handle(slot: nat, payload: nat, phase: Phase)

  datatype Slot = Slot(strong: nat, refCount: nat, arenaHolds: bool, content: Option<nat>)

  /** Progress of the one `reserve` call that can be active (`&mut self`). */
  datatype Scan = Idle | Scanning(k: nat) | Found(slot: nat) | Storing(handle: nat)

  datatype State = State(
    count: nat,                 // MAX_ITEM_COUNT
    slots: seq<Slot>,
    alive: bool,
    scan: Scan,
    cursor: nat,
    handles: map<nat, Handle>,
    nextHandle: nat,
    nextPayload: nat,
    destroyed: seq<nat>)        // payloads in the order their destructors ran

  datatype Step =
    | StartReserve
    | Probe
    | TakeStorage
    | StoreCount
    | Init(h: nat)
    | Abandon(h: nat)
    | CloneCount(h: nat)
    | CloneStorage(h: nat)
    | DropCount(h: nat)
    | Destroy(h: nat)
    | Release(h: nat)
    | DropArena
    | DropArenaSlot(i: nat)

  predicate Holds(p: Phase) { !p.Cloning? }
  predicate Counts(p: Phase) { p.Uninit? || p.Live? || p.Cloning? }

  function B(b: bool): nat { if b then 1 else 0 }

  /** Whether a handle is one of those a counter of slot `i` stands for: the owners of
      its storage (`storage`), or the logical clones the 32-bit count tracks. */
  predicate For(x: Handle, i: nat, storage: bool) {
    x.slot == i && if storage then Holds(x.phase) else Counts(x.phase)
  }

  /** How many of the first `n` handles a counter of slot `i` stands for. */
  function Tally(hs: map<nat, Handle>, n: nat, i: nat, storage: bool): nat {
    if n == 0 then 0
    else Tally(hs, n - 1, i, storage) + B(n - 1 in hs && For(hs[n - 1], i, storage))
  }

  function Start(count: nat): State {
    State(count, [], true, Idle, 0, map[], 0, 0, [])
  }

  function FreshSlots(count: nat): (r: seq<Slot>)
    ensures |r| == count && forall i | 0 <= i < count :: r[i] == Slot(1, 0, true, None)
  {
    seq(count, i => Slot(1, 0, true, None))
  }

  /** What the type system and the control flow of the source allow next. A handle
      cannot be dropped while a clone call borrows it. */
  predicate Enabled(s: State, step: Step) {
    match step
    case StartReserve => s.alive && s.scan.Idle?
    case Probe => s.scan.Scanning? && s.scan.k <= s.count == |s.slots|
    case TakeStorage => s.scan.Found? && s.scan.slot < |s.slots|
    case StoreCount => s.scan.Storing? && s.scan.handle in s.handles && s.handles[s.scan.handle].slot < |s.slots|
    case Init(h) => Has(s, h) && s.handles[h].phase.Uninit?
    case Abandon(h) => Has(s, h) && s.handles[h].phase.Uninit?
    case CloneCount(h) => Has(s, h) && s.handles[h].phase.Live?
    case CloneStorage(h) => Has(s, h) && s.handles[h].phase.Cloning?
    case DropCount(h) => Has(s, h) && s.handles[h].phase.Live? && Unborrowed(s.handles, h)
    case Destroy(h) => Has(s, h) && s.handles[h].phase == Leaving(true)
    case Release(h) => Has(s, h) && s.handles[h].phase == Leaving(false)
    case DropArena => s.alive && s.scan.Idle?
    case DropArenaSlot(i) => !s.alive && i < |s.slots| && s.slots[i].arenaHolds
  }

  predicate Has(s: State, h: nat) {
    h in s.handles && s.handles[h].slot < |s.slots|
  }

  predicate Unborrowed(hs: map<nat, Handle>, h: nat) {
    forall c | c in hs :: hs[c].phase != Cloning(h)
  }

  /** `fetch_add(1)` and `fetch_sub(1)` on an `AtomicU32`. */
  function Inc32(r: nat): nat { if r == WRAP - 1 then 0 else r + 1 }
  function Dec32(r: nat): nat { if r == 0 then WRAP - 1 else r - 1 }

  function Less(n: nat): nat { if n == 0 then 0 else n - 1 }

  // The steps that act on one handle.

  function ReleaseStorage(s: State, h: nat): State
    requires Has(s, h)
  {
    var i := s.handles[h].slot;
    s.(handles := s.handles - {h}, slots := s.slots[i := s.slots[i].(strong := Less(s.slots[i].strong))])
  }

  function TakeSlot(s: State, i: nat): State
    requires i < |s.slots|
  {
    s.(slots := s.slots[i := s.slots[i].(strong := s.slots[i].strong + 1)],
       handles := s.handles[s.nextHandle := Handle(i, 0, Reserving)],
       nextHandle := s.nextHandle + 1,
       scan := Storing(s.nextHandle))
  }

  function SetCount(s: State, h: nat): State
    requires Has(s, h)
  {
    var i := s.handles[h].slot;
    s.(slots := s.slots[i := s.slots[i].(refCount := 1)],
       handles := s.handles[h := s.handles[h].(phase := Uninit)],
       scan := Idle)
  }

  function Fill(s: State, h: nat): State
    requires Has(s, h)
  {
    var i := s.handles[h].slot;
    s.(slots := s.slots[i := s.slots[i].(content := Some(s.nextPayload))],
       handles := s.handles[h := Handle(i, s.nextPayload, Live)],
       nextPayload := s.nextPayload + 1)
  }

  function CountUp(s: State, h: nat): State
    requires Has(s, h)
  {
    var i := s.handles[h].slot;
    s.(slots := s.slots[i := s.slots[i].(refCount := Inc32(s.slots[i].refCount))],
       handles := s.handles[s.nextHandle := s.handles[h].(phase := Cloning(h))],
       nextHandle := s.nextHandle + 1)
  }

  function ShareStorage(s: State, h: nat): State
    requires Has(s, h)
  {
    var i := s.handles[h].slot;
    s.(slots := s.slots[i := s.slots[i].(strong := s.slots[i].strong + 1)],
       handles := s.handles[h := s.handles[h].(phase := Live)])
  }

  function CountDown(s: State, h: nat): State
    requires Has(s, h)
  {
    var i := s.handles[h].slot;
    var previous := s.slots[i].refCount;
    s.(slots := s.slots[i := s.slots[i].(refCount := Dec32(previous))],
       handles := s.handles[h := s.handles[h].(phase := Leaving(previous == 1))])
  }

  function RunDestructor(s: State, h: nat): State
    requires Has(s, h)
  {
    var i := s.handles[h].slot;
    s.(slots := s.slots[i := s.slots[i].(content := None)],
       handles := s.handles[h := s.handles[h].(phase := Leaving(false))],
       destroyed := s.destroyed + [s.handles[h].payload])
  }

  function Apply(s: State, step: Step): State
    requires Enabled(s, step)
  {
    match step
    case StartReserve =>
      s.(slots := if s.slots == [] then FreshSlots(s.count) else s.slots, scan := Scanning(0))
    case Probe =>
      if s.scan.k == s.count then s.(scan := Idle)
      else
        var i := (s.scan.k + s.cursor) % s.count;
        if s.slots[i].strong == 1 then s.(cursor := (i + 1) % s.count, scan := Found(i))
        else s.(scan := Scanning(s.scan.k + 1))
    case TakeStorage => TakeSlot(s, s.scan.slot)
    case StoreCount => SetCount(s, s.scan.handle)
    case Init(h) =>
      // a failed assertion unwinds and drops the handle
      if s.slots[s.handles[h].slot].strong == 2 then Fill(s, h) else ReleaseStorage(s, h)
    case Abandon(h) => ReleaseStorage(s, h)
    case CloneCount(h) => CountUp(s, h)
    case CloneStorage(h) => ShareStorage(s, h)
    case DropCount(h) => CountDown(s, h)
    case Destroy(h) => RunDestructor(s, h)
    case Release(h) => ReleaseStorage(s, h)
    case DropArena => s.(alive := false)
    case DropArenaSlot(i) =>
      s.(slots := s.slots[i := s.slots[i].(strong := Less(s.slots[i].strong), arenaHolds := false)])
  }

  /** The state after the interleaving `run`, or `None` if one of its steps was not
      possible when it was taken. */
  function After(count: nat, run: seq<Step>): Option<State>
    decreases |run|
  {
    if run == [] then Some(Start(count))
    else
      var before := After(count, run[..|run| - 1]);
      var step := run[|run| - 1];
      if before.Some? && Enabled(before.value, step) then Some(Apply(before.value, step)) else None
  }

  // ---------------------------------------------------------------- counters

  /** Phases in which the handle knows a payload. */
  predicate Filled(p: Phase) { p.Live? || p.Cloning? || p.Leaving? }

  predicate SlotCounts(s: State, i: nat)
    requires i < |s.slots|
  {
    && s.slots[i].strong == Tally(s.handles, s.nextHandle, i, true) + B(s.slots[i].arenaHolds)
    && (s.alive ==> s.slots[i].arenaHolds)
  }

  /** The 32-bit counter shows `n` up to multiples of 2^32. */
  predicate Residue(r: nat, n: nat) {
    if n < WRAP then r == n else Residue(r, n - WRAP)
  }

  lemma {:induction false} ResidueStep(r: nat, n: nat)
    requires Residue(r, n)
    ensures r < WRAP && Residue(Inc32(r), n + 1)
    ensures n > 0 ==> Residue(Dec32(r), n - 1)
  {
    if n >= WRAP { ResidueStep(r, n - WRAP); }
  }

  /** No handle but `h` refers to the slot of `h`. */
  predicate Alone(hs: map<nat, Handle>, h: nat)
    requires h in hs
  {
    forall g | g in hs && hs[g].slot == hs[h].slot :: g == h
  }

  predicate HandleOk(s: State, h: nat)
    requires h in s.handles
  {
    var x := s.handles[h];
    && h < s.nextHandle
    && x.slot < |s.slots|
    && (x.phase.Reserving? <==> s.scan == Storing(h))
    && (x.phase.Reserving? || x.phase.Uninit? ==> Alone(s.handles, h))
    && (x.phase.Cloning? ==>
          && x.phase.src in s.handles
          && s.handles[x.phase.src] == Handle(x.slot, x.payload, Live))
    && (!x.phase.Reserving? ==>
          Residue(s.slots[x.slot].refCount, Tally(s.handles, s.nextHandle, x.slot, false)))
  }

  predicate ScanOk(s: State) {
    match s.scan
    case Idle => true
    case Scanning(k) => s.alive && k <= s.count == |s.slots|
    case Found(i) => s.alive && i < |s.slots| && forall g | g in s.handles :: s.handles[g].slot != i
    case Storing(h) => s.alive && h in s.handles
  }

  predicate SamePayload(hs: map<nat, Handle>) {
    forall h, g | h in hs && g in hs && hs[h].slot == hs[g].slot && Filled(hs[h].phase) && Filled(hs[g].phase)
      :: hs[h].payload == hs[g].payload
  }

  /** The two counters agree with the handles that exist, whatever the interleaving. */
  predicate Counters(s: State) {
    && (s.slots == [] || |s.slots| == s.count)
    && (forall i | 0 <= i < |s.slots| :: SlotCounts(s, i))
    && (forall h | h in s.handles :: HandleOk(s, h))
    && ScanOk(s)
    && SamePayload(s.handles)
  }

  // How one handle's change moves the tallies.

  lemma {:induction false} TallyUpdate(hs: map<nat, Handle>, n: nat, h: nat, x: Handle, i: nat, st: bool)
    ensures h < n ==>
      Tally(hs[h := x], n, i, st) == Tally(hs, n, i, st) - B(h in hs && For(hs[h], i, st)) + B(For(x, i, st))
    ensures h >= n ==> Tally(hs[h := x], n, i, st) == Tally(hs, n, i, st)
  {
    if n > 0 { TallyUpdate(hs, n - 1, h, x, i, st); }
  }

  lemma {:induction false} TallyRemove(hs: map<nat, Handle>, n: nat, h: nat, i: nat, st: bool)
    ensures h < n ==> Tally(hs - {h}, n, i, st) == Tally(hs, n, i, st) - B(h in hs && For(hs[h], i, st))
    ensures h >= n ==> Tally(hs - {h}, n, i, st) == Tally(hs, n, i, st)
  {
    if n > 0 { TallyRemove(hs, n - 1, h, i, st); }
  }

  lemma TallyMember(hs: map<nat, Handle>, n: nat, i: nat, st: bool, h: nat)
    requires h < n && h in hs && For(hs[h], i, st)
    ensures Tally(hs, n, i, st) >= 1
  {
  }

  lemma TallyNone(hs: map<nat, Handle>, n: nat, i: nat, st: bool)
    requires forall h | h in hs :: !For(hs[h], i, st)
    ensures Tally(hs, n, i, st) == 0
  {
  }

  lemma TallyPair(hs: map<nat, Handle>, n: nat, i: nat, st: bool, h: nat, g: nat)
    requires h < n && g < n && h != g && h in hs && g in hs && For(hs[h], i, st) && For(hs[g], i, st)
    ensures Tally(hs, n, i, st) >= 2
  {
    if h == n - 1 { TallyMember(hs, n - 1, i, st, g); }
    else if g == n - 1 { TallyMember(hs, n - 1, i, st, h); }
  }

  lemma CountersStart(s: State)
    requires Counters(s) && Enabled(s, StartReserve)
    ensures Counters(Apply(s, StartReserve))
  {
    var t := Apply(s, StartReserve);
    forall i | 0 <= i < |t.slots| ensures SlotCounts(t, i) {
      if s.slots == [] { TallyNone(s.handles, s.nextHandle, i, true); }
      else { assert SlotCounts(s, i); }
    }
    forall h | h in t.handles ensures HandleOk(t, h) { assert HandleOk(s, h); }
  }

  lemma CountersProbe(s: State)
    requires Counters(s) && Enabled(s, Probe)
    ensures Counters(Apply(s, Probe))
  {
    var t := Apply(s, Probe);
    forall i | 0 <= i < |t.slots| ensures SlotCounts(t, i) { assert SlotCounts(s, i); }
    forall h | h in t.handles ensures HandleOk(t, h) { assert HandleOk(s, h); }
    if t.scan.Found? {
      assert SlotCounts(s, t.scan.slot);
      forall g | g in s.handles ensures s.handles[g].slot != t.scan.slot { FreeSlot(s, t.scan.slot, g); }
    }
  }

  /** A storage count of 1 while the arena holds the slot leaves room for no handle. */
  lemma FreeSlot(s: State, i: nat, g: nat)
    requires Counters(s) && i < |s.slots| && s.slots[i].strong == 1 && s.slots[i].arenaHolds
    requires g in s.handles
    ensures s.handles[g].slot != i
  {
    assert SlotCounts(s, i) && HandleOk(s, g);
    if s.handles[g].slot == i {
      var owner := if s.handles[g].phase.Cloning? then s.handles[g].phase.src else g;
      assert HandleOk(s, owner);
      TallyMember(s.handles, s.nextHandle, i, true, owner);
    }
  }

  /** `t` differs from `s` by handle `h` becoming `x` (an old handle or the next new
      one), with the storage counts moved to match. */
  predicate Touched(s: State, t: State, h: nat, x: Handle) {
    && t.handles == s.handles[h := x]
    && (h in s.handles ==> t.nextHandle == s.nextHandle && h < s.nextHandle)
    && (h !in s.handles ==> h == s.nextHandle && t.nextHandle == h + 1)
    && |t.slots| == |s.slots| && t.alive == s.alive
    && forall j | 0 <= j < |s.slots| ::
         && t.slots[j].strong + B(h in s.handles && For(s.handles[h], j, true))
           == s.slots[j].strong + B(For(x, j, true))
         && t.slots[j].arenaHolds == s.slots[j].arenaHolds
  }

  lemma TouchedTally(s: State, t: State, h: nat, x: Handle, j: nat, st: bool)
    requires Touched(s, t, h, x)
    ensures Tally(t.handles, t.nextHandle, j, st) + B(h in s.handles && For(s.handles[h], j, st))
         == Tally(s.handles, s.nextHandle, j, st) + B(For(x, j, st))
  {
    TallyUpdate(s.handles, s.nextHandle, h, x, j, st);
  }

  lemma TouchedSlots(s: State, t: State, h: nat, x: Handle)
    requires Touched(s, t, h, x) && forall j | 0 <= j < |s.slots| :: SlotCounts(s, j)
    ensures forall j | 0 <= j < |t.slots| :: SlotCounts(t, j)
  {
    forall j | 0 <= j < |t.slots| ensures SlotCounts(t, j) {
      assert SlotCounts(s, j);
      TouchedTally(s, t, h, x, j, true);
    }
  }

  lemma NextFresh(s: State)
    requires Counters(s)
    ensures s.nextHandle !in s.handles
  {
  }

  lemma SamePayloadUpdate(hs: map<nat, Handle>, h: nat, x: Handle)
    requires SamePayload(hs)
    requires Filled(x.phase) ==>
      forall g | g in hs && g != h && hs[g].slot == x.slot && Filled(hs[g].phase) :: hs[g].payload == x.payload
    ensures SamePayload(hs[h := x])
  {
  }

  lemma CountersTakeHandle(s: State, i: nat, g: nat)
    requires Counters(s) && s.scan == Found(i) && i < |s.slots|
    requires g in TakeSlot(s, i).handles
    ensures HandleOk(TakeSlot(s, i), g)
  {
    var t := TakeSlot(s, i);
    var h', x := s.nextHandle, Handle(i, 0, Reserving);
    NextFresh(s);
    if g in s.handles { assert HandleOk(s, g); }
    TouchedTally(s, t, h', x, t.handles[g].slot, false);
  }

  lemma CountersTake(s: State, i: nat)
    requires Counters(s) && s.scan == Found(i) && i < |s.slots|
    ensures Counters(TakeSlot(s, i))
  {
    var t := TakeSlot(s, i);
    var h', x := s.nextHandle, Handle(i, 0, Reserving);
    NextFresh(s);
    TouchedSlots(s, t, h', x);
    SamePayloadUpdate(s.handles, h', x);
    forall g | g in t.handles ensures HandleOk(t, g) { CountersTakeHandle(s, i, g); }
  }

  lemma CountersStoreHandle(s: State, h: nat, g: nat)
    requires Counters(s) && s.scan == Storing(h) && Has(s, h)
    requires g in SetCount(s, h).handles
    ensures HandleOk(SetCount(s, h), g)
  {
    var t := SetCount(s, h);
    var h', x := h, s.handles[h].(phase := Uninit);
    NextFresh(s);
    assert HandleOk(s, h);
    TallyAlone(s.handles, s.nextHandle, h);
    if g in s.handles { assert HandleOk(s, g); }
    TouchedTally(s, t, h', x, t.handles[g].slot, false);
  }

  lemma CountersStore(s: State, h: nat)
    requires Counters(s) && s.scan == Storing(h) && Has(s, h)
    ensures Counters(SetCount(s, h))
  {
    var t := SetCount(s, h);
    var h', x := h, s.handles[h].(phase := Uninit);
    NextFresh(s);
    assert HandleOk(s, h);
    TouchedSlots(s, t, h', x);
    SamePayloadUpdate(s.handles, h', x);
    forall g | g in t.handles ensures HandleOk(t, g) { CountersStoreHandle(s, h, g); }
  }

  /** A handle alone on its slot is the whole tally of that slot. */
  lemma TallyAlone(hs: map<nat, Handle>, n: nat, h: nat)
    requires h < n && h in hs && Alone(hs, h)
    ensures Tally(hs, n, hs[h].slot, true) == B(Holds(hs[h].phase))
    ensures Tally(hs, n, hs[h].slot, false) == B(Counts(hs[h].phase))
  {
    var i := hs[h].slot;
    TallyNone(hs - {h}, n, i, true);
    TallyNone(hs - {h}, n, i, false);
    TallyRemove(hs, n, h, i, true);
    TallyRemove(hs, n, h, i, false);
  }

  lemma CountersRelease(s: State, h: nat)
    requires Counters(s) && Has(s, h) && !s.handles[h].phase.Reserving? && !s.handles[h].phase.Cloning?
    requires s.handles[h].phase.Leaving? || Alone(s.handles, h)
    ensures Counters(ReleaseStorage(s, h))
  {
    var t := ReleaseStorage(s, h);
    var n := s.nextHandle;
    assert HandleOk(s, h);
    forall i | 0 <= i < |t.slots| ensures SlotCounts(t, i) {
      assert SlotCounts(s, i);
      TallyRemove(s.handles, n, h, i, true);
      if i == s.handles[h].slot { TallyMember(s.handles, n, i, true, h); }
    }
    forall g | g in t.handles ensures HandleOk(t, g) {
      assert HandleOk(s, g);
      TallyRemove(s.handles, n, h, t.handles[g].slot, false);
    }
  }

  lemma CountersFillHandle(s: State, h: nat, g: nat)
    requires Counters(s) && Has(s, h) && s.handles[h].phase.Uninit?
    requires g in Fill(s, h).handles
    ensures HandleOk(Fill(s, h), g)
  {
    var t := Fill(s, h);
    var h', x := h, Handle(s.handles[h].slot, s.nextPayload, Live);
    NextFresh(s);
    assert HandleOk(s, h);
    if g in s.handles { assert HandleOk(s, g); }
    TouchedTally(s, t, h', x, t.handles[g].slot, false);
  }

  lemma CountersFill(s: State, h: nat)
    requires Counters(s) && Has(s, h) && s.handles[h].phase.Uninit?
    ensures Counters(Fill(s, h))
  {
    var t := Fill(s, h);
    var h', x := h, Handle(s.handles[h].slot, s.nextPayload, Live);
    NextFresh(s);
    assert HandleOk(s, h);
    TouchedSlots(s, t, h', x);
    SamePayloadUpdate(s.handles, h', x);
    forall g | g in t.handles ensures HandleOk(t, g) { CountersFillHandle(s, h, g); }
  }

  lemma CountersCloneCountHandle(s: State, h: nat, g: nat)
    requires Counters(s) && Has(s, h) && s.handles[h].phase.Live?
    requires g in CountUp(s, h).handles
    ensures HandleOk(CountUp(s, h), g)
  {
    var t := CountUp(s, h);
    var h', x := s.nextHandle, s.handles[h].(phase := Cloning(h));
    NextFresh(s);
    assert HandleOk(s, h);
    ResidueStep(s.slots[x.slot].refCount, Tally(s.handles, s.nextHandle, x.slot, false));
    if g in s.handles { assert HandleOk(s, g); }
    TouchedTally(s, t, h', x, t.handles[g].slot, false);
  }

  lemma CountersCloneCount(s: State, h: nat)
    requires Counters(s) && Has(s, h) && s.handles[h].phase.Live?
    ensures Counters(CountUp(s, h))
  {
    var t := CountUp(s, h);
    var h', x := s.nextHandle, s.handles[h].(phase := Cloning(h));
    NextFresh(s);
    assert HandleOk(s, h);
    TouchedSlots(s, t, h', x);
    SamePayloadUpdate(s.handles, h', x);
    forall g | g in t.handles ensures HandleOk(t, g) { CountersCloneCountHandle(s, h, g); }
  }

  lemma CountersCloneStorageHandle(s: State, h: nat, g: nat)
    requires Counters(s) && Has(s, h) && s.handles[h].phase.Cloning?
    requires g in ShareStorage(s, h).handles
    ensures HandleOk(ShareStorage(s, h), g)
  {
    var t := ShareStorage(s, h);
    var h', x := h, s.handles[h].(phase := Live);
    NextFresh(s);
    assert HandleOk(s, h);
    if g in s.handles { assert HandleOk(s, g); }
    TouchedTally(s, t, h', x, t.handles[g].slot, false);
  }

  lemma CountersCloneStorage(s: State, h: nat)
    requires Counters(s) && Has(s, h) && s.handles[h].phase.Cloning?
    ensures Counters(ShareStorage(s, h))
  {
    var t := ShareStorage(s, h);
    var h', x := h, s.handles[h].(phase := Live);
    NextFresh(s);
    assert HandleOk(s, h);
    TouchedSlots(s, t, h', x);
    SamePayloadUpdate(s.handles, h', x);
    forall g | g in t.handles ensures HandleOk(t, g) { CountersCloneStorageHandle(s, h, g); }
  }

  lemma CountersDropCountHandle(s: State, h: nat, g: nat)
    requires Counters(s) && Has(s, h) && s.handles[h].phase.Live? && Unborrowed(s.handles, h)
    requires g in CountDown(s, h).handles
    ensures HandleOk(CountDown(s, h), g)
  {
    var t := CountDown(s, h);
    var h', x := h, t.handles[h];
    NextFresh(s);
    assert HandleOk(s, h);
    TallyMember(s.handles, s.nextHandle, x.slot, false, h);
    ResidueStep(s.slots[x.slot].refCount, Tally(s.handles, s.nextHandle, x.slot, false));
    if g in s.handles { assert HandleOk(s, g); }
    TouchedTally(s, t, h', x, t.handles[g].slot, false);
  }

  lemma CountersDropCount(s: State, h: nat)
    requires Counters(s) && Has(s, h) && s.handles[h].phase.Live? && Unborrowed(s.handles, h)
    ensures Counters(CountDown(s, h))
  {
    var t := CountDown(s, h);
    var h', x := h, t.handles[h];
    NextFresh(s);
    assert HandleOk(s, h);
    TouchedSlots(s, t, h', x);
    SamePayloadUpdate(s.handles, h', x);
    forall g | g in t.handles ensures HandleOk(t, g) { CountersDropCountHandle(s, h, g); }
  }

  lemma CountersDestroyHandle(s: State, h: nat, g: nat)
    requires Counters(s) && Has(s, h) && s.handles[h].phase.Leaving?
    requires g in RunDestructor(s, h).handles
    ensures HandleOk(RunDestructor(s, h), g)
  {
    var t := RunDestructor(s, h);
    var h', x := h, s.handles[h].(phase := Leaving(false));
    NextFresh(s);
    assert HandleOk(s, h);
    if g in s.handles { assert HandleOk(s, g); }
    TouchedTally(s, t, h', x, t.handles[g].slot, false);
  }

  lemma CountersDestroy(s: State, h: nat)
    requires Counters(s) && Has(s, h) && s.handles[h].phase.Leaving?
    ensures Counters(RunDestructor(s, h))
  {
    var t := RunDestructor(s, h);
    var h', x := h, s.handles[h].(phase := Leaving(false));
    NextFresh(s);
    assert HandleOk(s, h);
    TouchedSlots(s, t, h', x);
    SamePayloadUpdate(s.handles, h', x);
    forall g | g in t.handles ensures HandleOk(t, g) { CountersDestroyHandle(s, h, g); }
  }

  lemma CountersDropArena(s: State, step: Step)
    requires Counters(s) && Enabled(s, step) && (step.DropArena? || step.DropArenaSlot?)
    ensures Counters(Apply(s, step))
  {
    var t := Apply(s, step);
    forall j | 0 <= j < |t.slots| ensures SlotCounts(t, j) { assert SlotCounts(s, j); }
    forall g | g in t.handles ensures HandleOk(t, g) { assert HandleOk(s, g); }
  }

  lemma StepKeepsCounters(s: State, step: Step)
    requires Counters(s) && Enabled(s, step)
    ensures Counters(Apply(s, step))
  {
    match step
    case StartReserve => CountersStart(s);
    case Probe => CountersProbe(s);
    case TakeStorage => CountersTake(s, s.scan.slot);
    case StoreCount => CountersStore(s, s.scan.handle);
    case Init(h) =>
      assert HandleOk(s, h);
      if s.slots[s.handles[h].slot].strong == 2 { CountersFill(s, h); } else { CountersRelease(s, h); }
    case Abandon(h) => assert HandleOk(s, h); CountersRelease(s, h);
    case CloneCount(h) => CountersCloneCount(s, h);
    case CloneStorage(h) => CountersCloneStorage(s, h);
    case DropCount(h) => CountersDropCount(s, h);
    case Destroy(h) => CountersDestroy(s, h);
    case Release(h) => CountersRelease(s, h);
    case DropArena => CountersDropArena(s, step);
    case DropArenaSlot(i) => CountersDropArena(s, step);
  }

  /** In every interleaving the counters are right. */
  lemma {:induction false} RunKeepsCounters(count: nat, run: seq<Step>)
    requires After(count, run).Some?
    ensures Counters(After(count, run).value)
    decreases |run|
  {
    if run != [] {
      RunKeepsCounters(count, run[..|run| - 1]);
      StepKeepsCounters(After(count, run[..|run| - 1]).value, run[|run| - 1]);
    }
  }
}
