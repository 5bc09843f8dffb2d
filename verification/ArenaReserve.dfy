/**
 `Arena::reserve` as the source writes it: lazy allocation on the first call, then a
 circular scan from the cursor for a slot only the arena owns. The interleaved model
 takes the same scan apart into its atomic reads.
 */
module ArenaReserve {
  import opened Options
  import opened ArenaProtocol
  import Arith
  import ArenaSafety

  /** The slot `k` places after the cursor, going round. */
  function At(cursor: nat, k: nat, count: nat): (i: nat)
    requires count > 0
    ensures i < count
  {
    (k + cursor) % count
  }

  /** The scan order visits every slot. */
  lemma ScanCovers(cursor: nat, i: nat, count: nat) returns (k: nat)
    requires i < count && cursor < count
    ensures k < count && At(cursor, k, count) == i
  {
    k := if i >= cursor then i - cursor else i + count - cursor;
    Arith.DivModUnique(k + cursor, count, if i >= cursor then 0 else 1, i);
  }

  function Times(n: nat, count: nat): (s: seq<nat>)
    ensures |s| == count && forall i | 0 <= i < count :: s[i] == n
  {
    seq(count, i => n)
  }

  // ------------------------------------------------- the same call as atomic steps

  /** The slots the scan of a call sees. */
  function Started(s: State): seq<Slot> { if s.slots == [] then FreshSlots(s.count) else s.slots }

  lemma ProbePast(s: State, k: nat)
    requires s.scan == Scanning(k) && k < s.count == |s.slots| && s.slots[At(s.cursor, k, s.count)].strong != 1
    ensures Enabled(s, Probe) && Apply(s, Probe) == s.(scan := Scanning(k + 1))
  {
  }

  lemma ProbeHit(s: State, k: nat)
    requires s.scan == Scanning(k) && k < s.count == |s.slots| && s.slots[At(s.cursor, k, s.count)].strong == 1
    ensures var i := At(s.cursor, k, s.count);
            Enabled(s, Probe) && Apply(s, Probe) == s.(scan := Found(i), cursor := At(i, 1, s.count))
  {
  }

  lemma Taken(s: State, i: nat)
    requires s.scan == Found(i) && i < |s.slots| && s.slots[i].strong == 1
    ensures Enabled(s, TakeStorage) && Enabled(Apply(s, TakeStorage), StoreCount)
    ensures Apply(Apply(s, TakeStorage), StoreCount)
         == s.(slots := s.slots[i := s.slots[i].(strong := 2, refCount := 1)], scan := Idle,
               handles := s.handles[s.nextHandle := Handle(i, 0, Uninit)], nextHandle := s.nextHandle + 1)
  {
    var t := TakeSlot(s, i);
    assert Apply(s, TakeStorage) == t;
    assert t.handles[s.nextHandle := Handle(i, 0, Uninit)] == s.handles[s.nextHandle := Handle(i, 0, Uninit)];
    var slots := t.slots[i := t.slots[i].(refCount := 1)];
    assert slots == s.slots[i := s.slots[i].(strong := 2, refCount := 1)];
  }

  /** A `reserve` nothing interrupts: the scan past `k` slots that are not free. */
  lemma {:induction false} ScanTo(count: nat, run: seq<Step>, k: nat) returns (more: seq<Step>)
    requires After(count, run).Some? && After(count, run).value.alive && After(count, run).value.scan.Idle?
    requires k <= count == After(count, run).value.count
    requires var s := After(count, run).value;
             |Started(s)| == count && forall j: nat | j < k :: Started(s)[At(s.cursor, j, count)].strong != 1
    ensures var s := After(count, run).value;
            After(count, more) == Some(s.(slots := Started(s), scan := Scanning(k)))
  {
    if k == 0 {
      more := run + [StartReserve];
      ArenaSafety.AfterExtend(count, run, StartReserve);
    } else {
      var before := ScanTo(count, run, k - 1);
      more := before + [Probe];
      ProbePast(After(count, before).value, k - 1);
      ArenaSafety.AfterExtend(count, before, Probe);
    }
  }

  /** It takes the slot the method below takes, and leaves the counts the method leaves. */
  lemma {:induction false} ReserveAlone(count: nat, run: seq<Step>, k: nat) returns (more: seq<Step>)
    requires After(count, run).Some? && After(count, run).value.alive && After(count, run).value.scan.Idle?
    requires k < count == After(count, run).value.count
    requires var s := After(count, run).value;
             && |Started(s)| == count && Started(s)[At(s.cursor, k, count)].strong == 1
             && forall j: nat | j < k :: Started(s)[At(s.cursor, j, count)].strong != 1
    ensures After(count, more).Some?
    ensures var s, t := After(count, run).value, After(count, more).value;
            var i := At(s.cursor, k, count);
            && t.scan.Idle? && t.cursor == At(i, 1, count)
            && t.slots == Started(s)[i := Started(s)[i].(strong := 2, refCount := 1)]
            && t.handles == s.handles[s.nextHandle := Handle(i, 0, Uninit)]
  {
    var before := ScanTo(count, run, k);
    var t := After(count, before).value;
    ProbeHit(t, k);
    ArenaSafety.AfterExtend(count, before, Probe);
    Taken(Apply(t, Probe), At(t.cursor, k, count));
    ArenaSafety.AfterExtend(count, before + [Probe], TakeStorage);
    more := before + [Probe] + [TakeStorage] + [StoreCount];
    ArenaSafety.AfterExtend(count, before + [Probe] + [TakeStorage], StoreCount);
  }

  /** And it refuses where the method refuses, changing nothing but the lazy allocation. */
  lemma {:induction false} RefuseAlone(count: nat, run: seq<Step>) returns (more: seq<Step>)
    requires After(count, run).Some? && After(count, run).value.alive && After(count, run).value.scan.Idle?
    requires count == After(count, run).value.count && |Started(After(count, run).value)| == count
    requires var s := After(count, run).value;
             forall i | 0 <= i < count :: Started(s)[i].strong != 1
    ensures var s := After(count, run).value; After(count, more) == Some(s.(slots := Started(s)))
  {
    var before := ScanTo(count, run, count);
    more := before + [Probe];
    ArenaSafety.AfterExtend(count, before, Probe);
  }

  class Arena {
    const count: nat               // MAX_ITEM_COUNT
    var strong: seq<nat>           // Arc count of each buffer
    var refCounts: seq<nat>        // logical counts
    var cursor: nat

    ghost predicate Valid()
      reads this
    {
      && |strong| == |refCounts|
      && (strong == [] || |strong| == count)
      && (cursor == 0 || cursor < count)
    }

    constructor (count: nat)
      ensures Valid() && this.count == count && strong == [] && cursor == 0
    {
      this.count := count;
      strong, refCounts, cursor := [], [], 0;
    }

    /** The buffers the scan will see: allocated on the first call. */
    ghost function Buffers(): (s: seq<nat>)
      reads this
      requires Valid()
      ensures |s| == count
    {
      if strong == [] then Times(1, count) else strong
    }

    method Reserve() returns (slot: Option<nat>)
      requires Valid()
      modifies this
      ensures Valid()
      // Refused exactly when no buffer is free.
      ensures slot.None? <==> forall i | 0 <= i < count :: old(Buffers())[i] != 1
      ensures slot.None? ==> strong == old(Buffers()) && cursor == old(cursor)
      // Otherwise the first free buffer in scan order is taken, and only it changes.
      ensures slot.Some? ==>
        && slot.value < count
        && old(Buffers())[slot.value] == 1
        && strong == old(Buffers())[slot.value := 2]
        && |refCounts| == count && refCounts[slot.value] == 1
        && (forall i | 0 <= i < count && i != slot.value && old(strong) != [] :: refCounts[i] == old(refCounts)[i])
        && cursor == At(slot.value, 1, count)
        && exists k: nat :: k < count && slot.value == At(old(cursor), k, count)
             && forall j: nat | j < k :: old(Buffers())[At(old(cursor), j, count)] != 1
    {
      if strong == [] {
        refCounts := Times(0, count);
        strong := Times(1, count);
      }
      ghost var start := cursor;
      var k := 0;
      while k < count
        invariant 0 <= k <= count
        invariant strong == old(Buffers()) && |refCounts| == count && cursor == start == old(cursor)
        invariant old(strong) != [] ==> refCounts == old(refCounts)
        invariant forall j: nat | j < k :: strong[At(cursor, j, count)] != 1
      {
        var i := At(cursor, k, count);
        if strong[i] == 1 {
          cursor := (i + 1) % count;
          strong := strong[i := 2];
          refCounts := refCounts[i := 1];
          slot := Some(i);
          return;
        }
        k := k + 1;
      }
      slot := None;
      forall i | 0 <= i < count ensures strong[i] != 1 {
        var j := ScanCovers(cursor, i, count);
      }
    }
  }
}
