/**
 What holds in every interleaving: the counter counts the open collections, a finished
 collection is exactly what was noted while it was open, and no launch made between the
 return of `new` and the call of `finish` is missed.
 */
module LaunchedProof {
  import opened Options
  import opened Launched

  // ---------------------------------------------------------------- ids and the lock

  predicate OwnsOpen(p: Phase) { p.NewInserted? || p.NewRaised? || p.CloseWaiting? || p.CloseLocked? }

  /** The lock excludes. */
  ghost predicate Mutex(s: State) {
    && (forall c | c in s.calls :: c < s.nextCall)
    && (forall c | c in s.calls && Locked(s.calls[c]) :: s.lock == Some(c))
    && (s.lock.Some? ==> s.lock.value in s.calls && Locked(s.calls[s.lock.value]))
  }

  /** A collection in the map belongs to one handle or one call. */
  ghost predicate Owned(s: State) {
    && (forall id | id in s.open :: id < s.next)
    && (forall id | id in s.handles :: id in s.open)
    && (forall id | id in s.closedAt :: id !in s.open && id < s.next)
    && (forall c | c in s.calls && OwnsOpen(s.calls[c]) ::
          s.calls[c].id in s.open && s.calls[c].id !in s.handles && s.calls[c].id in s.owner
            && s.owner[s.calls[c].id] == c)
    && (forall c | c in s.calls && s.calls[c].NoteLooping? :: s.calls[c].todo <= s.open.Keys)
  }

  lemma {:induction false} NewMutex(s: State, step: Step)
    requires Mutex(s) && OfNew(step) && Enabled(s, step)
    ensures Mutex(Apply(s, step))
  {
  }

  lemma {:induction false} CloseMutex(s: State, step: Step)
    requires Mutex(s) && OfClose(step) && Enabled(s, step)
    ensures Mutex(Apply(s, step))
  {
  }

  lemma {:induction false} NoteMutex(s: State, step: Step)
    requires Mutex(s) && OfNote(step) && Enabled(s, step)
    ensures Mutex(Apply(s, step))
  {
    if step.LockNote? || step.Collect? || step.UnlockNote? { LockedNoteMutex(s, step); }
  }

  lemma {:induction false} LockedNoteMutex(s: State, step: Step)
    requires Mutex(s) && (step.LockNote? || step.Collect? || step.UnlockNote?) && Enabled(s, step)
    ensures Mutex(Apply(s, step))
  {
  }

  lemma {:induction false} NewOwned(s: State, step: Step)
    requires Mutex(s) && Owned(s) && OfNew(step) && Enabled(s, step)
    ensures Owned(Apply(s, step))
  {
  }

  lemma {:induction false} CloseOwned(s: State, step: Step)
    requires Mutex(s) && Owned(s) && OfClose(step) && Enabled(s, step)
    ensures Owned(Apply(s, step))
  {
  }

  lemma {:induction false} NoteOwned(s: State, step: Step)
    requires Mutex(s) && Owned(s) && OfNote(step) && Enabled(s, step)
    ensures Owned(Apply(s, step))
  {
    if step.LockNote? || step.Collect? || step.UnlockNote? { LockedNoteOwned(s, step); }
  }

  lemma {:induction false} LockedNoteOwned(s: State, step: Step)
    requires Mutex(s) && Owned(s) && (step.LockNote? || step.Collect? || step.UnlockNote?) && Enabled(s, step)
    ensures Owned(Apply(s, step))
  {
  }

  lemma {:induction false} StepOwned(s: State, step: Step)
    requires Mutex(s) && Owned(s) && Enabled(s, step)
    ensures Mutex(Apply(s, step)) && Owned(Apply(s, step))
  {
    if OfNew(step) { NewMutex(s, step); NewOwned(s, step); }
    else if OfClose(step) { CloseMutex(s, step); CloseOwned(s, step); }
    else { NoteMutex(s, step); NoteOwned(s, step); }
  }

  // -------------------------------------------------------------------- the counter

  predicate JustInserted(s: State) { s.lock.Some? && s.lock.value in s.calls && s.calls[s.lock.value].NewInserted? }
  predicate JustRemoved(s: State) { s.lock.Some? && s.lock.value in s.calls && s.calls[s.lock.value].CloseRemoved? }

  /** The counter is the number of open collections, but for a collection just inserted or
      just removed by the call that holds the lock. */
  ghost predicate Counted(s: State) {
    |s.open| + (if JustRemoved(s) then 1 else 0)
    == s.collecting + (if JustInserted(s) then 1 else 0)
  }

  lemma MapSizes(m: map<nat, set<nat>>, k: nat, v: set<nat>)
    ensures |m[k := v]| == |m| + if k in m then 0 else 1
    ensures |m - {k}| == |m| - if k in m then 1 else 0
  {
    assert m[k := v].Keys == m.Keys + {k};
    assert (m - {k}).Keys == m.Keys - {k};
    assert |m| == |m.Keys|;
  }

  lemma {:induction false} NewCounted(s: State, step: Step)
    requires Mutex(s) && Owned(s) && Counted(s) && OfNew(step) && !step.Insert? && Enabled(s, step)
    ensures Counted(Apply(s, step))
  {
  }

  lemma {:induction false} InsertCounted(s: State, c: nat)
    requires Mutex(s) && Owned(s) && Counted(s) && Enabled(s, Insert(c))
    ensures Counted(Apply(s, Insert(c)))
  {
    MapSizes(s.open, s.next, {});
  }

  lemma {:induction false} CloseCounted(s: State, step: Step)
    requires Mutex(s) && Owned(s) && Counted(s) && OfClose(step) && !step.Remove? && Enabled(s, step)
    ensures Counted(Apply(s, step))
  {
  }

  lemma {:induction false} RemoveCounted(s: State, c: nat)
    requires Mutex(s) && Owned(s) && Counted(s) && Enabled(s, Remove(c))
    ensures Counted(Apply(s, Remove(c)))
  {
    MapSizes(s.open, s.calls[c].id, {});
  }

  lemma {:induction false} NoteCounted(s: State, step: Step)
    requires Mutex(s) && Owned(s) && Counted(s) && OfNote(step) && !step.Collect? && Enabled(s, step)
    ensures Counted(Apply(s, step))
  {
    assert JustInserted(Apply(s, step)) == JustInserted(s) && JustRemoved(Apply(s, step)) == JustRemoved(s);
  }

  lemma {:induction false} CollectCounted(s: State, c: nat, id: nat)
    requires Mutex(s) && Owned(s) && Counted(s) && Enabled(s, Collect(c, id))
    ensures Counted(Apply(s, Collect(c, id)))
  {
    MapSizes(s.open, id, s.open[id] + {s.calls[c].hash});
  }

  /** As long as a handle exists the counter is not zero. */
  lemma {:induction false} HandleRaisesCounter(s: State)
    requires Mutex(s) && Owned(s) && Counted(s) && s.handles != {}
    ensures s.collecting > 0
  {
    var id :| id in s.handles;
    MapSizes(s.open, id, {});
    if JustInserted(s) {
      var other := s.calls[s.lock.value].id;
      MapSizes(s.open - {id}, other, {});
    }
  }

  // ----------------------------------------------------------------------- contents

  ghost predicate NotedIn(log: seq<Event>, from: int, to: int, hash: nat) {
    exists p: int :: from < p < to && 0 <= p < |log| && log[p].Noted? && log[p].hash == hash
  }

  lemma NotedInAppend(log: seq<Event>, e: Event, from: nat, to: int, hash: nat)
    ensures to <= |log| ==> (NotedIn(log + [e], from, to, hash) <==> NotedIn(log, from, to, hash))
    ensures NotedIn(log + [e], from, |log| + 1, hash) <==>
      NotedIn(log, from, |log|, hash) || (from < |log| && e.Noted? && e.hash == hash)
  {
    var more := log + [e];
    assert forall p | 0 <= p < |log| :: more[p] == log[p];
    assert more[|log|] == e;
  }

  /** The lock holder is a note that has yet to reach this collection. */
  predicate Pending(s: State, id: nat, hash: nat) {
    && s.lock.Some? && s.lock.value in s.calls && s.calls[s.lock.value].NoteLooping?
    && id in s.calls[s.lock.value].todo && s.calls[s.lock.value].hash == hash
  }

  ghost predicate OpenExact(s: State, id: nat) {
    && id in s.open && id in s.openedAt && s.openedAt[id] < |s.log| && s.log[s.openedAt[id]] == Opened(id)
    && forall hash: nat :: hash in s.open[id] || Pending(s, id, hash) <==> NotedIn(s.log, s.openedAt[id], |s.log|, hash)
  }

  ghost predicate ClosedExact(s: State, id: nat) {
    && id in s.openedAt && id in s.closedAt && id in s.finished
    && s.openedAt[id] < s.closedAt[id] < |s.log|
    && s.log[s.openedAt[id]] == Opened(id) && s.log[s.closedAt[id]] == Closed(id)
    && forall hash: nat :: hash in s.finished[id] <==> NotedIn(s.log, s.openedAt[id], s.closedAt[id], hash)
  }

  ghost predicate Exact(s: State) {
    && (forall id | id in s.open :: OpenExact(s, id))
    && (forall id | id in s.closedAt :: ClosedExact(s, id))
    && s.finished.Keys == s.closedAt.Keys
  }

  /** More of the log changes nothing about closed collections. */
  lemma {:induction false} ClosedStays(s: State, t: State, id: nat, e: Event)
    requires ClosedExact(s, id)
    requires id in t.openedAt && t.openedAt[id] == s.openedAt[id] && id in t.closedAt
      && t.closedAt[id] == s.closedAt[id]
    requires id in t.finished && t.finished[id] == s.finished[id] && t.log == s.log + [e]
    ensures ClosedExact(t, id)
  {
    forall hash: nat ensures hash in t.finished[id] <==> NotedIn(t.log, t.openedAt[id], t.closedAt[id], hash) {
      NotedInAppend(s.log, e, s.openedAt[id], s.closedAt[id], hash);
    }
  }

  /** Nor does an event that is not a note change what an open collection should hold. */
  lemma {:induction false} OpenStays(s: State, t: State, id: nat, e: Event)
    requires OpenExact(s, id) && !e.Noted? && t.log == s.log + [e]
    requires id in t.openedAt && t.openedAt[id] == s.openedAt[id] && id in t.open && t.open[id] == s.open[id]
    requires forall hash :: Pending(s, id, hash) <==> Pending(t, id, hash)
    ensures OpenExact(t, id)
  {
    forall hash: nat
      ensures hash in t.open[id] || Pending(t, id, hash) <==> NotedIn(t.log, t.openedAt[id], |t.log|, hash) {
      NotedInAppend(s.log, e, s.openedAt[id], |s.log|, hash);
    }
  }

  predicate Quiet(step: Step) {
    step.BeginNew? || step.LockNew? || step.Raise? || step.LockClose? || step.Lower? || step.UnlockClose?
      || step.LoadSome?
  }

  predicate Logs(step: Step) {
    step.UnlockNew? || step.BeginClose? || step.BeginNote? || step.LoadNone? || step.UnlockNote?
  }

  lemma {:induction false} QuietExact(s: State, step: Step)
    requires Mutex(s) && Exact(s) && Quiet(step) && Enabled(s, step)
    ensures Exact(Apply(s, step))
  {
    var t := Apply(s, step);
    assert forall id, hash :: Pending(s, id, hash) <==> Pending(t, id, hash);
    forall id | id in t.open ensures OpenExact(t, id) { assert OpenExact(s, id); }
    forall id | id in t.closedAt ensures ClosedExact(t, id) { assert ClosedExact(s, id); }
  }

  lemma {:induction false} LogsExact(s: State, step: Step)
    requires Mutex(s) && Exact(s) && Logs(step) && Enabled(s, step)
    ensures Exact(Apply(s, step))
  {
    var t := Apply(s, step);
    var e := t.log[|s.log|];
    assert t.log == s.log + [e];
    assert forall id, hash :: Pending(s, id, hash) <==> Pending(t, id, hash);
    forall id | id in t.open ensures OpenExact(t, id) { OpenStays(s, t, id, e); }
    forall id | id in t.closedAt ensures ClosedExact(t, id) { ClosedStays(s, t, id, e); }
  }

  lemma {:induction false} InsertExact(s: State, c: nat)
    requires Mutex(s) && Owned(s) && Exact(s) && Enabled(s, Insert(c))
    ensures Exact(Apply(s, Insert(c)))
  {
    var t := Apply(s, Insert(c));
    var e := Opened(s.next);
    forall id | id in t.open ensures OpenExact(t, id) {
      if id in s.open { OpenStays(s, t, id, e); }
    }
    forall id | id in t.closedAt ensures ClosedExact(t, id) { ClosedStays(s, t, id, e); }
  }

  lemma {:induction false} RemoveExact(s: State, c: nat)
    requires Mutex(s) && Owned(s) && Exact(s) && Enabled(s, Remove(c))
    ensures Exact(Apply(s, Remove(c)))
  {
    var t := Apply(s, Remove(c));
    var gone := s.calls[c].id;
    var e := Closed(gone);
    forall id | id in t.open ensures OpenExact(t, id) { OpenStays(s, t, id, e); }
    forall id | id in t.closedAt ensures ClosedExact(t, id) {
      if id == gone { ClosesExact(s, t, id); } else { ClosedStays(s, t, id, e); }
    }
  }

  /** What a collection holds when it leaves the map is what it should. */
  lemma {:induction false} ClosesExact(s: State, t: State, id: nat)
    requires OpenExact(s, id) && forall hash :: !Pending(s, id, hash)
    requires t.log == s.log + [Closed(id)] && t.openedAt == s.openedAt
    requires id in t.closedAt && t.closedAt[id] == |s.log| && id in t.finished && t.finished[id] == s.open[id]
    ensures ClosedExact(t, id)
  {
    forall hash: nat ensures hash in t.finished[id] <==> NotedIn(t.log, t.openedAt[id], t.closedAt[id], hash) {
      NotedInAppend(s.log, Closed(id), s.openedAt[id], |s.log|, hash);
    }
  }

  lemma {:induction false} LockNoteExact(s: State, c: nat)
    requires Mutex(s) && Owned(s) && Exact(s) && Enabled(s, LockNote(c))
    ensures Exact(Apply(s, LockNote(c)))
  {
    var t := Apply(s, LockNote(c));
    var e := Noted(c, s.calls[c].hash);
    forall id | id in t.open ensures OpenExact(t, id) {
      assert OpenExact(s, id);
      forall hash: nat
        ensures hash in t.open[id] || Pending(t, id, hash) <==> NotedIn(t.log, t.openedAt[id], |t.log|, hash) {
        NotedInAppend(s.log, e, s.openedAt[id], |s.log|, hash);
      }
    }
    forall id | id in t.closedAt ensures ClosedExact(t, id) { ClosedStays(s, t, id, e); }
  }

  lemma {:induction false} CollectExact(s: State, c: nat, into: nat)
    requires Mutex(s) && Owned(s) && Exact(s) && Enabled(s, Collect(c, into))
    ensures Exact(Apply(s, Collect(c, into)))
  {
    var t := Apply(s, Collect(c, into));
    assert s.lock == Some(c);
    forall id | id in t.open ensures OpenExact(t, id) { assert OpenExact(s, id); }
    forall id | id in t.closedAt ensures ClosedExact(t, id) { assert ClosedExact(s, id); }
  }

  // ------------------------------------------------------------------ the whole log

  ghost predicate FinishedBy(log: seq<Event>, id: nat, to: int) {
    exists l: int :: 0 <= l < to && l < |log| && log[l] == FinishStarted(id)
  }

  lemma FinishedByAppend(log: seq<Event>, e: Event, id: nat)
    ensures FinishedBy(log + [e], id, |log| + 1) <==> FinishedBy(log, id, |log|) || e == FinishStarted(id)
    ensures forall to | to <= |log| :: FinishedBy(log + [e], id, to) <==> FinishedBy(log, id, to)
  {
    var more := log + [e];
    assert forall p | 0 <= p < |log| :: more[p] == log[p];
    assert more[|log|] == e;
  }

  /** `new` returns after its collection opened, and its handle lives until it is finished. */
  ghost predicate Returned(s: State) {
    forall i | 0 <= i < |s.log| && s.log[i].NewReturned? ::
      && s.log[i].id < s.next && s.log[i].id in s.openedAt && s.openedAt[s.log[i].id] < i
      && (s.log[i].id in s.handles || FinishedBy(s.log, s.log[i].id, |s.log|))
  }

  /** Finishing happens once, and before the collection closes. */
  ghost predicate FinishedOnce(s: State) {
    && (forall l | 0 <= l < |s.log| && s.log[l].FinishStarted? ::
          && s.log[l].id < s.next && s.log[l].id !in s.handles
          && (s.log[l].id in s.closedAt ==> l < s.closedAt[s.log[l].id])
          && forall m | l < m < |s.log| :: s.log[m] != s.log[l])
    && (forall c | c in s.calls && (s.calls[c].NewInserted? || s.calls[c].NewRaised?) ::
        !FinishedBy(s.log, s.calls[c].id, |s.log|))
  }

  lemma {:induction false} LogsReturned(s: State, step: Step)
    requires Mutex(s) && Owned(s) && Exact(s) && Returned(s) && Logs(step) && Enabled(s, step)
    ensures Returned(Apply(s, step))
  {
    var t := Apply(s, step);
    var e := t.log[|s.log|];
    assert t.log == s.log + [e];
    if step.UnlockNew? { assert OpenExact(s, s.calls[step.c].id); }
    forall id: nat
      ensures FinishedBy(t.log, id, |t.log|) <==> FinishedBy(s.log, id, |s.log|) || e == FinishStarted(id) {
      FinishedByAppend(s.log, e, id);
    }
  }

  lemma {:induction false} LocksReturned(s: State, step: Step)
    requires Mutex(s) && Owned(s) && Returned(s) && (step.Insert? || step.Remove? || step.LockNote?) && Enabled(s, step)
    ensures Returned(Apply(s, step))
  {
    var t := Apply(s, step);
    var e := t.log[|s.log|];
    assert t.log == s.log + [e];
    forall id: nat ensures FinishedBy(t.log, id, |t.log|) <==> FinishedBy(s.log, id, |s.log|) {
      FinishedByAppend(s.log, e, id);
    }
  }

  lemma {:induction false} QuietReturned(s: State, step: Step)
    requires Mutex(s) && Owned(s) && Returned(s) && (Quiet(step) || step.Collect?) && Enabled(s, step)
    ensures Returned(Apply(s, step))
  {
  }

  lemma {:induction false} NotesFinished(s: State, step: Step)
    requires Mutex(s) && Owned(s) && FinishedOnce(s) && Logs(step) && OfNote(step) && Enabled(s, step)
    ensures FinishedOnce(Apply(s, step))
  {
    var t := Apply(s, step);
    var e := t.log[|s.log|];
    assert t.log == s.log + [e];
    forall id: nat ensures FinishedBy(t.log, id, |t.log|) <==> FinishedBy(s.log, id, |s.log|) {
      FinishedByAppend(s.log, e, id);
    }
  }

  lemma {:induction false} LogsFinished(s: State, step: Step)
    requires Mutex(s) && Owned(s) && FinishedOnce(s) && Logs(step) && !OfNote(step) && Enabled(s, step)
    ensures FinishedOnce(Apply(s, step))
  {
    var t := Apply(s, step);
    var e := t.log[|s.log|];
    assert t.log == s.log + [e];
    forall id: nat
      ensures FinishedBy(t.log, id, |t.log|) <==> FinishedBy(s.log, id, |s.log|) || e == FinishStarted(id) {
      FinishedByAppend(s.log, e, id);
    }
  }

  lemma {:induction false} LocksFinished(s: State, step: Step)
    requires Mutex(s) && Owned(s) && FinishedOnce(s) && (step.Insert? || step.Remove? || step.LockNote?)
      && Enabled(s, step)
    ensures FinishedOnce(Apply(s, step))
  {
    var t := Apply(s, step);
    var e := t.log[|s.log|];
    assert t.log == s.log + [e];
    forall id: nat ensures FinishedBy(t.log, id, |t.log|) <==> FinishedBy(s.log, id, |s.log|) {
      FinishedByAppend(s.log, e, id);
    }
  }

  lemma {:induction false} QuietFinished(s: State, step: Step)
    requires Mutex(s) && Owned(s) && FinishedOnce(s) && (Quiet(step) || step.Collect?) && Enabled(s, step)
    ensures FinishedOnce(Apply(s, step))
  {
  }

  // ------------------------------------------------------------------------ launches

  predicate IsNote(p: Phase) { p.NoteCalled? || p.NoteWaiting? || p.NoteLooping? }

  /** A note call in progress remembers where it started and where it was noted. */
  ghost predicate Started(s: State) {
    && (forall c | c in s.calls && IsNote(s.calls[c]) ::
        s.calls[c].at < |s.log| && s.log[s.calls[c].at] == NoteStarted(c, s.calls[c].hash))
    && (forall c | c in s.calls && s.calls[c].NoteLooping? ::
          s.calls[c].at < s.calls[c].noted < |s.log| && s.log[s.calls[c].noted] == Noted(c, s.calls[c].hash))
    && (forall j | 0 <= j < |s.log| && s.log[j].NoteStarted? ::
          s.log[j].call < s.nextCall
          && (s.log[j].call in s.calls ==> IsNote(s.calls[s.log[j].call]) && s.calls[s.log[j].call].at == j))
  }

  ghost predicate NotedBetween(log: seq<Event>, j: int, k: int, call: nat, hash: nat) {
    exists p: int :: j < p < k && 0 <= p < |log| && log[p] == Noted(call, hash)
  }

  /** A note call that ran from `j` to `k` while some handle lived was noted meanwhile. */
  ghost predicate CoveredAt(log: seq<Event>, i: int, j: int, k: int)
    requires 0 <= i < j < k < |log|
  {
    log[i].NewReturned? && log[j].NoteStarted? && log[k].NoteReturned? && log[k].call == log[j].call
      && !FinishedBy(log, log[i].id, k)
    ==> NotedBetween(log, j, k, log[j].call, log[j].hash)
  }

  ghost predicate Covered(log: seq<Event>) {
    forall i, j, k | 0 <= i < j < k < |log| :: CoveredAt(log, i, j, k)
  }

  lemma {:induction false} CoveredAppend(log: seq<Event>, e: Event)
    requires Covered(log)
    requires forall i, j | 0 <= i < j < |log| :: CoveredAt(log + [e], i, j, |log|)
    ensures Covered(log + [e])
  {
    var more := log + [e];
    assert forall p | 0 <= p < |log| :: more[p] == log[p];
    forall i, j, k | 0 <= i < j < k < |more| ensures CoveredAt(more, i, j, k) {
      if k < |log| {
        assert CoveredAt(log, i, j, k);
        CoveredStays(log, e, i, j, k);
      }
    }
  }

  lemma CoveredStays(log: seq<Event>, e: Event, i: int, j: int, k: int)
    requires 0 <= i < j < k < |log| && CoveredAt(log, i, j, k)
    ensures CoveredAt(log + [e], i, j, k)
  {
    var more := log + [e];
    assert forall p | 0 <= p < |log| :: more[p] == log[p];
    if log[i].NewReturned? { FinishedByAppend(log, e, log[i].id); }
  }

  /** A call that comes back was noted, unless no handle lives. */
  lemma {:induction false} ReturnCovered(s: State, call: nat, i: int, j: int)
    requires Returned(s) && Started(s) && 0 <= i < j < |s.log| && call in s.calls && IsNote(s.calls[call])
    requires s.calls[call].NoteLooping? || s.handles == {}
    ensures CoveredAt(s.log + [NoteReturned(call, s.calls[call].hash)], i, j, |s.log|)
  {
    var e := NoteReturned(call, s.calls[call].hash);
    var more := s.log + [e];
    assert forall p | 0 <= p < |s.log| :: more[p] == s.log[p];
    if more[i].NewReturned? && more[j].NoteStarted? && more[j].call == call {
      FinishedByAppend(s.log, e, more[i].id);
      if s.calls[call].NoteLooping? {
        assert more[s.calls[call].noted] == Noted(call, s.calls[call].hash);
      }
    }
  }

  lemma {:induction false} StepCovered(s: State, step: Step)
    requires Mutex(s) && Owned(s) && Counted(s) && Returned(s) && Started(s) && Covered(s.log) && Enabled(s, step)
    ensures Covered(Apply(s, step).log)
  {
    var t := Apply(s, step);
    if t.log != s.log {
      var e := t.log[|s.log|];
      assert t.log == s.log + [e];
      if step.LoadNone? || step.UnlockNote? {
        if s.handles != {} { HandleRaisesCounter(s); }
        forall i, j | 0 <= i < j < |s.log| ensures CoveredAt(s.log + [e], i, j, |s.log|) {
          ReturnCovered(s, step.c, i, j);
        }
      }
      CoveredAppend(s.log, e);
    }
  }

  lemma {:induction false} LogsStarted(s: State, step: Step)
    requires Mutex(s) && Started(s) && Logs(step) && Enabled(s, step)
    ensures Started(Apply(s, step))
  {
    var t := Apply(s, step);
    var e := t.log[|s.log|];
    assert t.log == s.log + [e];
  }

  lemma {:induction false} LocksStarted(s: State, step: Step)
    requires Mutex(s) && Started(s) && (step.Insert? || step.Remove? || step.LockNote?) && Enabled(s, step)
    ensures Started(Apply(s, step))
  {
    var t := Apply(s, step);
    var e := t.log[|s.log|];
    assert t.log == s.log + [e];
  }

  lemma {:induction false} QuietStarted(s: State, step: Step)
    requires Mutex(s) && Started(s) && Quiet(step) && OfNew(step) && Enabled(s, step)
    ensures Started(Apply(s, step))
  {
  }

  lemma {:induction false} ClosesStarted(s: State, step: Step)
    requires Mutex(s) && Started(s) && Quiet(step) && OfClose(step) && Enabled(s, step)
    ensures Started(Apply(s, step))
  {
  }

  lemma {:induction false} NotesStarted(s: State, step: Step)
    requires Mutex(s) && Started(s) && (step.LoadSome? || step.Collect?) && Enabled(s, step)
    ensures Started(Apply(s, step))
  {
  }

  // ---------------------------------------------------------------------- every run

  ghost predicate Invariant(s: State) {
    Mutex(s) && Owned(s) && Counted(s) && Exact(s) && Returned(s) && FinishedOnce(s) && Started(s) && Covered(s.log)
  }

  lemma {:induction false} StepExact(s: State, step: Step)
    requires Mutex(s) && Owned(s) && Exact(s) && Enabled(s, step)
    ensures Exact(Apply(s, step))
  {
    if Quiet(step) { QuietExact(s, step); }
    else if Logs(step) { LogsExact(s, step); }
    else if step.Insert? { InsertExact(s, step.c); }
    else if step.Remove? { RemoveExact(s, step.c); }
    else if step.LockNote? { LockNoteExact(s, step.c); }
    else { CollectExact(s, step.c, step.id); }
  }

  lemma {:induction false} StepCounted(s: State, step: Step)
    requires Mutex(s) && Owned(s) && Counted(s) && Enabled(s, step)
    ensures Counted(Apply(s, step))
  {
    if step.Insert? { InsertCounted(s, step.c); }
    else if step.Remove? { RemoveCounted(s, step.c); }
    else if OfNew(step) { NewCounted(s, step); }
    else if OfClose(step) { CloseCounted(s, step); }
    else if step.Collect? { CollectCounted(s, step.c, step.id); }
    else { NoteCounted(s, step); }
  }

  lemma {:induction false} StepOrdered(s: State, step: Step)
    requires Mutex(s) && Owned(s) && Exact(s) && Returned(s) && FinishedOnce(s) && Started(s) && Enabled(s, step)
    ensures Returned(Apply(s, step)) && FinishedOnce(Apply(s, step)) && Started(Apply(s, step))
  {
    if Logs(step) {
      LogsReturned(s, step);
      if OfNote(step) { NotesFinished(s, step); } else { LogsFinished(s, step); }
      LogsStarted(s, step);
    }
    else if Quiet(step) || step.Collect? {
      QuietReturned(s, step);
      QuietFinished(s, step);
      if OfNote(step) {
        NotesStarted(s, step); } else if OfNew(step) { QuietStarted(s, step); } else { ClosesStarted(s, step);
      }
    }
    else { LocksReturned(s, step); LocksFinished(s, step); LocksStarted(s, step); }
  }

  lemma {:induction false} InvariantAlways(run: seq<Step>)
    requires After(run).Some?
    ensures Invariant(After(run).value)
  {
    if run != [] {
      var s, step := After(run[..|run| - 1]).value, run[|run| - 1];
      InvariantAlways(run[..|run| - 1]);
      StepOwned(s, step);
      StepCounted(s, step);
      StepExact(s, step);
      StepOrdered(s, step);
      StepCovered(s, step);
    }
  }

  /** The next step of a call, if it is the lock's holder or the lock is free. */
  ghost function NextStep(s: State, c: nat): Step
    requires c in s.calls
  {
    match s.calls[c]
    case NewWaiting => LockNew(c)
    case NewLocked => Insert(c)
    case NewInserted(_) => Raise(c)
    case NewRaised(_) => UnlockNew(c)
    case CloseWaiting(_) => LockClose(c)
    case CloseLocked(_) => Remove(c)
    case CloseRemoved => Lower(c)
    case CloseLowered => UnlockClose(c)
    case NoteCalled(_, _) => if s.collecting == 0 then LoadNone(c) else LoadSome(c)
    case NoteWaiting(_, _) => LockNote(c)
    case NoteLooping(_, _, _, todo) =>
      if todo == {} then UnlockNote(c) else var id :| id in todo; Collect(c, id)
  }

  lemma {:induction false} GoesOn(s: State, c: nat)
    requires Mutex(s) && Owned(s) && c in s.calls && (s.lock == None || Locked(s.calls[c]))
    ensures Enabled(s, NextStep(s, c))
  {
    if s.calls[c].NoteLooping? && s.calls[c].todo != {} { assert NextStep(s, c).id in s.open.Keys; }
  }

  /** No call is ever blocked but by the call that holds the lock, and that one can go on;
      a collection can always be opened, a launch noted and a handle closed. */
  lemma {:induction false} NothingBlocked(run: seq<Step>, c: nat, hash: nat, id: nat)
    requires After(run).Some?
    ensures var s := After(run).value;
            && Enabled(s, BeginNew) && Enabled(s, BeginNote(hash)) && (id in s.handles ==> Enabled(s, BeginClose(id)))
            && (c in s.calls && (s.lock == None || Locked(s.calls[c])) ==> Enabled(s, NextStep(s, c)))
            && (s.lock.Some? ==> s.lock.value in s.calls && Enabled(s, NextStep(s, s.lock.value)))
  {
    InvariantAlways(run);
    var s := After(run).value;
    if c in s.calls && (s.lock == None || Locked(s.calls[c])) { GoesOn(s, c); }
    if s.lock.Some? { GoesOn(s, s.lock.value); }
  }

  /** Whenever the lock is free, the counter is the number of open collections. */
  lemma {:induction false} CounterExact(run: seq<Step>)
    requires After(run).Some? && After(run).value.lock == None
    ensures After(run).value.collecting == |After(run).value.open|
  {
    InvariantAlways(run);
  }

  /** A finished collection holds exactly the launches noted between the moment it opened
      and the moment it closed; `close` always finds the collection it removes. */
  lemma {:induction false} FinishedExactly(run: seq<Step>, id: nat, hash: nat)
    requires After(run).Some? && id in After(run).value.finished
    ensures var s := After(run).value;
            && id in s.openedAt && id in s.closedAt && s.openedAt[id] < s.closedAt[id] < |s.log|
            && s.log[s.openedAt[id]] == Opened(id) && s.log[s.closedAt[id]] == Closed(id)
            && (hash in s.finished[id] <==>
                exists p: int :: s.openedAt[id] < p < s.closedAt[id] && s.log[p].Noted? && s.log[p].hash == hash)
  {
    InvariantAlways(run);
    assert ClosedExact(After(run).value, id);
  }

  /** A launch whose call to `note` started after `new` returned and came back before
      `finish` was called is in the result, whatever other threads do. */
  lemma {:induction false} NoLaunchMissed(run: seq<Step>, id: nat, call: nat, hash: nat, i: int, j: int, k: int, l: int)
    requires After(run).Some? && id in After(run).value.finished
    requires var log := After(run).value.log;
             && 0 <= i < j < k < l < |log|
             && log[i] == NewReturned(id) && log[j] == NoteStarted(call, hash)
             && log[k].NoteReturned? && log[k].call == call && log[l] == FinishStarted(id)
    ensures hash in After(run).value.finished[id]
  {
    InvariantAlways(run);
    var s := After(run).value;
    assert ClosedExact(s, id);
    assert !FinishedBy(s.log, id, k);
    assert CoveredAt(s.log, i, j, k);
    var p: int :| j < p < k && 0 <= p < |s.log| && s.log[p] == Noted(call, hash);
    assert NotedIn(s.log, s.openedAt[id], s.closedAt[id], hash);
  }
}
