/**
 Collections of launched kernels: a counter that launches read without the lock, and a
 locked map from open collections to what they saw. Every atomic operation of `new`,
 `close` and `note` is one step, so a run interleaves any number of threads.
 */
module Launched {
  import opened Options

  /** Where a call stands. Names ending in `Waiting` are before the lock, and a note before
      it loads the counter; `at` is the log position where the note call started. */
  datatype Phase =
    | NewWaiting
    | NewLocked
    | NewInserted(id: nat)
    | NewRaised(id: nat)
    | CloseWaiting(id: nat)
    | CloseLocked(id: nat)
    | CloseRemoved
    | CloseLowered
    | NoteCalled(hash: nat, at: nat)
    | NoteWaiting(hash: nat, at: nat)
    | NoteLooping(hash: nat, at: nat, noted: nat, todo: set<nat>)

  /** What happened, in order. `Opened`, `Closed` and `Noted` are the points at which a
      collection enters and leaves the map and a launch takes the lock to be inserted. */
  datatype Event =
    | Opened(id: nat)
    | NewReturned(id: nat)
    | FinishStarted(id: nat)
    | Closed(id: nat)
    | NoteStarted(call: nat, hash: nat)
    | Noted(call: nat, hash: nat)
    | NoteReturned(call: nat, hash: nat)

  datatype State = State(
    next: nat,
    open: map<nat, set<nat>>,
    collecting: nat,
    lock: Option<nat>,
    calls: map<nat, Phase>,
    nextCall: nat,
    handles: set<nat>,               // `LaunchedKernels` values not yet finished or dropped
    log: seq<Event>,
    openedAt: map<nat, nat>,
    closedAt: map<nat, nat>,
    owner: map<nat, nat>,            // the last call that opened or closed a collection
    finished: map<nat, set<nat>>)    // what `close` took out of the map

  datatype Step =
    | BeginNew | BeginClose(id: nat) | BeginNote(hash: nat)
    | LockNew(c: nat) | Insert(c: nat) | Raise(c: nat) | UnlockNew(c: nat)
    | LockClose(c: nat) | Remove(c: nat) | Lower(c: nat) | UnlockClose(c: nat)
    | LoadNone(c: nat) | LoadSome(c: nat) | LockNote(c: nat) | Collect(c: nat, id: nat) | UnlockNote(c: nat)

  function Start(): State {
    State(0, map[], 0, None, map[], 0, {}, [], map[], map[], map[], map[])
  }

  predicate Locked(p: Phase) {
    p.NewLocked? || p.NewInserted? || p.NewRaised? || p.CloseLocked? || p.CloseRemoved? || p.CloseLowered?
      || p.NoteLooping?
  }

  predicate Enabled(s: State, step: Step) {
    match step
    case BeginNew => true
    case BeginClose(id) => id in s.handles
    case BeginNote(_) => true
    case LockNew(c) => c in s.calls && s.calls[c].NewWaiting? && s.lock == None
    case Insert(c) => c in s.calls && s.calls[c].NewLocked?
    case Raise(c) => c in s.calls && s.calls[c].NewInserted?
    case UnlockNew(c) => c in s.calls && s.calls[c].NewRaised?
    case LockClose(c) => c in s.calls && s.calls[c].CloseWaiting? && s.lock == None
    case Remove(c) => c in s.calls && s.calls[c].CloseLocked?
    case Lower(c) => c in s.calls && s.calls[c].CloseRemoved?
    case UnlockClose(c) => c in s.calls && s.calls[c].CloseLowered?
    case LoadNone(c) => c in s.calls && s.calls[c].NoteCalled? && s.collecting == 0
    case LoadSome(c) => c in s.calls && s.calls[c].NoteCalled? && s.collecting != 0
    case LockNote(c) => c in s.calls && s.calls[c].NoteWaiting? && s.lock == None
    case Collect(c, id) => c in s.calls && s.calls[c].NoteLooping? && id in s.calls[c].todo && id in s.open
    case UnlockNote(c) => c in s.calls && s.calls[c].NoteLooping? && s.calls[c].todo == {}
  }

  function Begin(s: State, p: Phase): State {
    s.(calls := s.calls[s.nextCall := p], nextCall := s.nextCall + 1)
  }

  /** Call `c` goes on to phase `p`. */
  function Move(s: State, c: nat, p: Phase): State { s.(calls := s.calls[c := p]) }

  function Return(s: State, c: nat): State { s.(calls := s.calls - {c}) }

  function Log(s: State, e: Event): State { s.(log := s.log + [e]) }

  function InsertSet(s: State): State {
    s.(next := s.next + 1, open := s.open[s.next := {}], openedAt := s.openedAt[s.next := |s.log|])
  }

  /** `remove(&id).unwrap_or_default()`. */
  function RemoveSet(s: State, id: nat): State {
    s.(open := s.open - {id}, closedAt := s.closedAt[id := |s.log|],
       finished := s.finished[id := if id in s.open then s.open[id] else {}])
  }

  function CollectInto(s: State, id: nat, hash: nat): State
    requires id in s.open
  {
    s.(open := s.open[id := s.open[id] + {hash}])
  }

  function Apply(s: State, step: Step): State
    requires Enabled(s, step)
  {
    match step
    case BeginNew => Begin(s, NewWaiting)
    case LockNew(c) => Move(s, c, NewLocked).(lock := Some(c))
    case Insert(c) => Log(InsertSet(Move(s, c, NewInserted(s.next))), Opened(s.next)).(owner := s.owner[s.next := c])
    case Raise(c) => Move(s, c, NewRaised(s.calls[c].id)).(collecting := s.collecting + 1)
    case UnlockNew(c) => Log(Return(s, c), NewReturned(s.calls[c].id)).(lock := None,
        handles := s.handles + {s.calls[c].id})

    case BeginClose(id) => Log(Begin(s, CloseWaiting(id)), FinishStarted(id)).(handles := s.handles - {id},
        owner := s.owner[id := s.nextCall])
    case LockClose(c) => Move(s, c, CloseLocked(s.calls[c].id)).(lock := Some(c))
    case Remove(c) => Log(RemoveSet(Move(s, c, CloseRemoved), s.calls[c].id), Closed(s.calls[c].id))
    case Lower(c) => Move(s, c, CloseLowered).(collecting := if s.collecting == 0 then 0 else s.collecting - 1)
    case UnlockClose(c) => Return(s, c).(lock := None)

    case BeginNote(hash) => Log(Begin(s, NoteCalled(hash, |s.log|)), NoteStarted(s.nextCall, hash))
    case LoadNone(c) => Log(Return(s, c), NoteReturned(c, s.calls[c].hash))
    case LoadSome(c) => Move(s, c, NoteWaiting(s.calls[c].hash, s.calls[c].at))
    case LockNote(c) =>
      Log(Move(s, c, NoteLooping(s.calls[c].hash, s.calls[c].at, |s.log|, s.open.Keys)),
          Noted(c, s.calls[c].hash)).(lock := Some(c))
    case Collect(c, id) => CollectInto(Move(s, c, s.calls[c].(todo := s.calls[c].todo - {id})), id, s.calls[c].hash)
    case UnlockNote(c) => Log(Return(s, c), NoteReturned(c, s.calls[c].hash)).(lock := None)
  }

  /** The state after a run, or nothing when some step was not possible. */
  function After(run: seq<Step>): Option<State> {
    if run == [] then Some(Start())
    else
      var before := After(run[..|run| - 1]);
      var step := run[|run| - 1];
      if before.Some? && Enabled(before.value, step) then Some(Apply(before.value, step)) else None
  }

  predicate OfNew(step: Step) { step.BeginNew? || step.LockNew? || step.Insert? || step.Raise? || step.UnlockNew? }
  predicate OfClose(step: Step) {
    step.BeginClose? || step.LockClose? || step.Remove? || step.Lower? || step.UnlockClose?
  }
  predicate OfNote(step: Step) {
    step.BeginNote? || step.LoadNone? || step.LoadSome? || step.LockNote? || step.Collect? || step.UnlockNote?
  }
}
