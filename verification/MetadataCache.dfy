/**
 The cache of metadata info buffers: an LRU cache whose entries can be pinned by the
 graphs that recorded their device pointers.

 This file holds the cache operations: as functions on a value (`State`), and as a
 class that updates its fields in place and is proved to compute those functions.
 Two choices are the hash map's and not the program's: which of several equally old
 entries the eviction picks, and the order in which a drained set lists its keys.
 They are parameters of the functions.
 */
module MetadataCache {
  import opened Options

  type Key = seq<nat>        // the metadata words
  type Graph = nat

  datatype CacheMode = Normal | Capture

  datatype Policy = Policy(maxEntries: nat, maxCachedSize: nat, mode: CacheMode)

  predicate ShouldCache(p: Policy, size: nat) {
    p.mode.Capture? || (p.maxEntries > 0 && size <= p.maxCachedSize)
  }

  function Capacity(p: Policy): Option<nat> {
    if p.mode.Capture? then None else Some(p.maxEntries)
  }

  predicate PinsEntries(p: Policy) { p.mode.Capture? }

  /** `size_of_val` of a slice of 64-bit words. */
  function ByteSize(words: Key): nat { 8 * |words| }

  datatype Entry<V> = Entry(value: V, lastUsed: nat, locks: nat)

  type Entries<V> = map<Key, Entry<V>>

  datatype State<V> = State(
    entries: Entries<V>,
    policy: Policy,
    clock: nat,
    pending: set<Key>,
    graphs: map<Graph, seq<Key>>)

  datatype Lookup<V> = Hit(value: V) | Build(store: bool)

  // ------------------------------------------------------------------ operations

  function Get<V>(s: State<V>, key: Key): State<V> {
    var clock := s.clock + 1;
    if key !in s.entries then s.(clock := clock)
    else
      var pin := PinsEntries(s.policy) && key !in s.pending;
      var e := s.entries[key];
      s.(clock := clock,
         pending := if pin then s.pending + {key} else s.pending,
         entries := s.entries[key := e.(lastUsed := clock, locks := if pin then e.locks + 1 else e.locks)])
  }

  function Found<V>(s: State<V>, key: Key): Option<V> {
    if key in s.entries then Some(s.entries[key].value) else None
  }

  /** `victim` is an unpinned entry no other unpinned entry is older than, if there is one. */
  predicate LegalVictim<V>(entries: Entries<V>, victim: Option<Key>) {
    match victim
    case None => forall k | k in entries :: entries[k].locks > 0
    case Some(v) =>
      && v in entries && entries[v].locks == 0
      && forall k | k in entries && entries[k].locks == 0 :: entries[v].lastUsed <= entries[k].lastUsed
  }

  function Evict<V>(entries: Entries<V>, victim: Option<Key>): Entries<V> {
    if victim.Some? then entries - {victim.value} else entries
  }

  predicate MustEvict<V>(s: State<V>) {
    Capacity(s.policy).Some? && |s.entries| >= Capacity(s.policy).value
  }

  function Insert<V>(s: State<V>, key: Key, value: V, victim: Option<Key>): State<V> {
    if Capacity(s.policy) == Some(0) then s
    else
      var kept := if MustEvict(s) then Evict(s.entries, victim) else s.entries;
      var pin := PinsEntries(s.policy);
      s.(entries := kept[key := Entry(value, s.clock, if pin then 1 else 0)],
         pending := if pin then s.pending + {key} else s.pending)
  }

  /** `keys` lists the elements of `set`, each once. */
  ghost predicate Lists(keys: seq<Key>, elements: set<Key>) {
    && (forall k :: k in keys <==> k in elements)
    && (forall i, j | 0 <= i < j < |keys| :: keys[i] != keys[j])
  }

  function Commit<V>(s: State<V>, graph: Graph, keys: seq<Key>): State<V> {
    if s.pending == {} then s
    else s.(pending := {}, graphs := s.graphs[graph := keys])
  }

  function Unlock<V>(entries: Entries<V>, key: Key): Entries<V> {
    if key !in entries then entries
    else
      var e := entries[key];
      entries[key := e.(locks := if e.locks == 0 then 0 else e.locks - 1)]
  }

  function UnlockAll<V>(entries: Entries<V>, keys: seq<Key>): Entries<V> {
    if keys == [] then entries
    else Unlock(UnlockAll(entries, keys[..|keys| - 1]), keys[|keys| - 1])
  }

  function Discard<V>(s: State<V>, keys: seq<Key>): State<V> {
    s.(pending := {}, entries := UnlockAll(s.entries, keys))
  }

  /** One turn of the release loop: an entry whose last lock goes is dropped. */
  function Free<V>(entries: Entries<V>, key: Key): Entries<V> {
    if key !in entries then entries
    else if entries[key].locks <= 1 then entries - {key}
    else Unlock(entries, key)
  }

  function FreeAll<V>(entries: Entries<V>, keys: seq<Key>): Entries<V> {
    if keys == [] then entries
    else Free(FreeAll(entries, keys[..|keys| - 1]), keys[|keys| - 1])
  }

  function Release<V>(s: State<V>, graph: Graph): State<V> {
    if graph !in s.graphs then s
    else s.(graphs := s.graphs - {graph}, entries := FreeAll(s.entries, s.graphs[graph]))
  }

  function ClearUnpinned<V>(s: State<V>): State<V> {
    s.(entries := map k | k in s.entries && s.entries[k].locks > 0 :: s.entries[k])
  }

  // -------------------------------------------------------------- the loops, pointwise

  lemma {:induction false} UnlockAllPoint<V>(entries: Entries<V>, keys: seq<Key>, k: Key)
    requires forall i, j | 0 <= i < j < |keys| :: keys[i] != keys[j]
    ensures k in UnlockAll(entries, keys) <==> k in entries
    ensures k in entries ==>
      UnlockAll(entries, keys)[k] == if k in keys then Unlock(entries, k)[k] else entries[k]
  {
    if keys != [] {
      var m := |keys| - 1;
      UnlockAllPoint(entries, keys[..m], k);
      assert keys == keys[..m] + [keys[m]];
    }
  }

  lemma {:induction false} FreeAllPoint<V>(entries: Entries<V>, keys: seq<Key>, k: Key)
    requires forall i, j | 0 <= i < j < |keys| :: keys[i] != keys[j]
    ensures k !in keys ==> (k in FreeAll(entries, keys) <==> k in entries)
    ensures k in keys ==> (k in FreeAll(entries, keys) <==> k in entries && entries[k].locks > 1)
    ensures k in FreeAll(entries, keys) ==>
      FreeAll(entries, keys)[k] == if k in keys then entries[k].(locks := entries[k].locks - 1) else entries[k]
  {
    if keys != [] {
      var m := |keys| - 1;
      FreeAllPoint(entries, keys[..m], k);
      assert keys == keys[..m] + [keys[m]];
    }
  }

  // ------------------------------------------------------------------ the class

  class MetadataInfoCache<V(==)> {
    var entries: Entries<V>
    var policy: Policy
    var clock: nat
    var pending: set<Key>
    var graphLocks: map<Graph, seq<Key>>

    ghost function Value(): State<V>
      reads this
    {
      State(entries, policy, clock, pending, graphLocks)
    }

    constructor (policy: Policy)
      ensures Value() == State(map[], policy, 0, {}, map[])
    {
      this.policy := policy;
      entries, clock, pending, graphLocks := map[], 0, {}, map[];
    }

    method GetEntry(key: Key) returns (r: Option<V>)
      modifies this
      ensures r == Found(old(Value()), key)
      ensures Value() == Get(old(Value()), key)
    {
      clock := clock + 1;
      var pin := PinsEntries(policy) && key !in pending;
      if key !in entries { return None; }
      var e := entries[key].(lastUsed := clock);
      if pin {
        pending := pending + {key};
        e := e.(locks := e.locks + 1);
      }
      entries := entries[key := e];
      r := Some(e.value);
    }

    method LookupWords(mode: CacheMode, words: Key) returns (r: Lookup<V>)
      modifies this
      ensures var s := old(Value()).(policy := old(policy).(mode := mode));
              if !ShouldCache(s.policy, ByteSize(words)) then r == Build(false) && Value() == s
              else
                && Value() == Get(s, words)
                && r == (match Found(s, words) case Some(v) => Hit(v) case None => Build(true))
      ensures r == Build(false) <==> mode.Normal? && (policy.maxEntries == 0 || 8 * |words| > policy.maxCachedSize)
      ensures r == Build(false) || r == if words in old(entries) then Hit(old(entries)[words].value) else Build(true)
      ensures policy == Policy(old(policy).maxEntries, old(policy).maxCachedSize, mode)
    {
      policy := policy.(mode := mode);
      if !ShouldCache(policy, ByteSize(words)) { return Build(false); }
      var got := GetEntry(words);
      match got {
        case Some(v) => r := Hit(v);
        case None => r := Build(true);
      }
    }

    /** The scan behind the eviction; entries are visited in any order. */
    method LeastRecentlyUsed() returns (victim: Option<Key>)
      ensures LegalVictim(entries, victim)
    {
      victim := None;
      var rest := entries.Keys;
      while rest != {}
        invariant rest <= entries.Keys
        invariant victim.None? ==> forall k | k in entries && k !in rest :: entries[k].locks > 0
        invariant victim.Some? ==>
          && victim.value in entries && entries[victim.value].locks == 0
          && forall k | k in entries && k !in rest && entries[k].locks == 0 ::
               entries[victim.value].lastUsed <= entries[k].lastUsed
        decreases |rest|
      {
        var k :| k in rest;
        if entries[k].locks == 0 && (victim.None? || entries[k].lastUsed < entries[victim.value].lastUsed) {
          victim := Some(k);
        }
        rest := rest - {k};
      }
    }

    method InsertEntry(key: Key, value: V) returns (victim: Option<Key>)
      modifies this
      ensures MustEvict(old(Value())) && Capacity(policy) != Some(0) ==> LegalVictim(old(entries), victim)
      ensures Value() == Insert(old(Value()), key, value, victim)
    {
      victim := None;
      if !PinsEntries(policy) {
        if policy.maxEntries == 0 { return; }
        if |entries| >= policy.maxEntries {
          victim := LeastRecentlyUsed();
          if victim.Some? { entries := entries - {victim.value}; }
        }
      }
      var locks := 0;
      if PinsEntries(policy) {
        pending := pending + {key};
        locks := 1;
      }
      entries := entries[key := Entry(value, clock, locks)];
    }

    /** `HashSet::drain`: the elements in some order. */
    method DrainPending() returns (keys: seq<Key>)
      modifies this`pending
      ensures Lists(keys, old(pending)) && pending == {}
    {
      keys := [];
      while pending != {}
        invariant pending <= old(pending)
        invariant Lists(keys, old(pending) - pending)
        decreases |pending|
      {
        var k :| k in pending;
        pending := pending - {k};
        keys := keys + [k];
      }
    }

    method CaptureCommit(graph: Graph) returns (keys: seq<Key>)
      modifies this
      ensures Lists(keys, old(pending))
      ensures Value() == Commit(old(Value()), graph, keys)
    {
      keys := [];
      if pending != {} {
        keys := DrainPending();
        graphLocks := graphLocks[graph := keys];
      }
    }

    method CaptureDiscard() returns (keys: seq<Key>)
      modifies this
      ensures Lists(keys, old(pending))
      ensures Value() == Discard(old(Value()), keys)
    {
      keys := DrainPending();
      var i := 0;
      while i < |keys|
        invariant 0 <= i <= |keys|
        invariant Value() == old(Value()).(pending := {}, entries := UnlockAll(old(entries), keys[..i]))
      {
        var key := keys[i];
        if key in entries {
          var e := entries[key];
          entries := entries[key := e.(locks := if e.locks == 0 then 0 else e.locks - 1)];
        }
        i := i + 1;
        assert keys[..i][..i - 1] == keys[..i - 1];
      }
      assert keys[..i] == keys;
    }

    method GraphRelease(graph: Graph)
      modifies this
      ensures Value() == Release(old(Value()), graph)
    {
      if graph !in graphLocks { return; }
      var keys := graphLocks[graph];
      graphLocks := graphLocks - {graph};
      var i := 0;
      while i < |keys|
        invariant 0 <= i <= |keys|
        invariant Value() == old(Value()).(graphs := old(graphLocks) - {graph},
                                           entries := FreeAll(old(entries), keys[..i]))
      {
        var key := keys[i];
        var dropEntry := false;
        ghost var before := entries;
        if key in entries {
          var e := entries[key];
          entries := entries[key := e.(locks := if e.locks == 0 then 0 else e.locks - 1)];
          dropEntry := entries[key].locks == 0;
        }
        if dropEntry { entries := entries - {key}; }
        assert entries == Free(before, key);
        i := i + 1;
        assert keys[..i][..i - 1] == keys[..i - 1];
      }
      assert keys[..i] == keys;
    }

    method ClearUnpinnedEntries()
      modifies this
      ensures Value() == ClearUnpinned(old(Value()))
    {
      entries := map k | k in entries && entries[k].locks > 0 :: entries[k];
    }
  }
}
