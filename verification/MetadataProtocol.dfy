/**
 Runs of the metadata cache: launches, capture commits and discards, graph releases
 and cleanups in any order. A launch looks its info up and, on a miss it is told to
 store, hands the buffer it built back. Graph ids are fresh when committed.

 Beside the cache a run carries what an observer could write down: the keys looked
 up (`log`), the buffer last built for each key (`built`), the buffers handed out
 during the open capture (`seen`) and those each live graph recorded (`recorded`).
 */
module MetadataProtocol {
  import opened Options
  import opened MetadataCache

  datatype Sys<V> = Sys(
    cache: State<V>,
    log: seq<Key>,
    built: map<Key, V>,
    seen: map<Key, V>,
    recorded: map<Graph, map<Key, V>>)

  datatype Step<V> =
    | Launch(mode: CacheMode, words: Key, build: Option<V>, victim: Option<Key>)
    | CommitGraph(graph: Graph, keys: seq<Key>)
    | DiscardCapture(keys: seq<Key>)
    | ReleaseGraph(graph: Graph)
    | Cleanup

  function Begin<V>(maxEntries: nat, maxCachedSize: nat): Sys<V> {
    Sys(State(map[], Policy(maxEntries, maxCachedSize, Normal), 0, {}, map[]), [], map[], map[], map[])
  }

  function SetMode<V>(s: State<V>, mode: CacheMode): State<V> { s.(policy := s.policy.(mode := mode)) }

  /** The victim is a choice of the hash map, free only among the oldest unpinned entries. */
  ghost predicate Enabled<V>(x: Sys<V>, step: Step<V>) {
    match step
    case Launch(mode, words, _, victim) => LegalVictim(Get(SetMode(x.cache, mode), words).entries, victim)
    case CommitGraph(graph, keys) => graph !in x.cache.graphs && Lists(keys, x.cache.pending)
    case DiscardCapture(keys) => Lists(keys, x.cache.pending)
    case ReleaseGraph(_) => true
    case Cleanup => true
  }

  function HandOut<V>(x: Sys<V>, cache: State<V>, words: Key, value: V): Sys<V> {
    x.(cache := cache, log := x.log + [words],
       seen := if PinsEntries(cache.policy) then x.seen[words := value] else x.seen)
  }

  function AfterLaunch<V>(x: Sys<V>, mode: CacheMode, words: Key, build: Option<V>, victim: Option<Key>): Sys<V> {
    var s := SetMode(x.cache, mode);
    if !ShouldCache(s.policy, ByteSize(words)) then x.(cache := s)
    else
      var t := Get(s, words);
      match Found(s, words)
      case Some(v) => HandOut(x, t, words, v)
      case None =>
        match build
        case None => x.(cache := t, log := x.log + [words])      // the buffer could not be built
        case Some(v) => HandOut(x, Insert(t, words, v, victim), words, v).(built := x.built[words := v])
  }

  function Apply<V>(x: Sys<V>, step: Step<V>): Sys<V> {
    match step
    case Launch(mode, words, build, victim) => AfterLaunch(x, mode, words, build, victim)
    case CommitGraph(graph, keys) =>
      x.(cache := Commit(x.cache, graph, keys), seen := map[],
         recorded := if x.cache.pending == {} then x.recorded else x.recorded[graph := x.seen])
    case DiscardCapture(keys) => x.(cache := Discard(x.cache, keys), seen := map[])
    case ReleaseGraph(graph) => x.(cache := Release(x.cache, graph), recorded := x.recorded - {graph})
    case Cleanup => x.(cache := ClearUnpinned(x.cache))
  }

  ghost function After<V>(maxEntries: nat, maxCachedSize: nat, run: seq<Step<V>>): Option<Sys<V>>
    decreases |run|
  {
    if run == [] then Some(Begin(maxEntries, maxCachedSize))
    else
      var before := After(maxEntries, maxCachedSize, run[..|run| - 1]);
      var step := run[|run| - 1];
      if before.Some? && Enabled(before.value, step) then Some(Apply(before.value, step)) else None
  }

  // ------------------------------------------------------------------------ pins

  function B(b: bool): nat { if b then 1 else 0 }

  /** The live graphs that recorded `k`. */
  function Users(graphs: map<Graph, seq<Key>>, k: Key): set<Graph> { set g | g in graphs && k in graphs[g] }

  function Pins(graphs: map<Graph, seq<Key>>, k: Key): nat { |Users(graphs, k)| }

  lemma PinsAdd(graphs: map<Graph, seq<Key>>, g: Graph, keys: seq<Key>, k: Key)
    requires g !in graphs
    ensures Pins(graphs[g := keys], k) == Pins(graphs, k) + B(k in keys)
  {
    assert Users(graphs[g := keys], k) == Users(graphs, k) + if k in keys then {g} else {};
  }

  lemma PinsRemove(graphs: map<Graph, seq<Key>>, g: Graph, k: Key)
    requires g in graphs
    ensures Pins(graphs - {g}, k) == Pins(graphs, k) - B(k in graphs[g])
  {
    if k in graphs[g] {
      assert Users(graphs, k) == Users(graphs - {g}, k) + {g};
    } else {
      assert Users(graphs, k) == Users(graphs - {g}, k);
    }
  }

  lemma PinsMember(graphs: map<Graph, seq<Key>>, g: Graph, k: Key)
    requires g in graphs && k in graphs[g]
    ensures Pins(graphs, k) >= 1
  {
    assert g in Users(graphs, k);
  }

  lemma PinsPositive(graphs: map<Graph, seq<Key>>, k: Key) returns (g: Graph)
    requires Pins(graphs, k) >= 1
    ensures g in graphs && k in graphs[g]
  {
    assert Users(graphs, k) != {};
    g :| g in Users(graphs, k);
  }

  /** Locks count the graphs that recorded the entry, plus the open capture. */
  ghost predicate LocksExact<V>(s: State<V>) {
    && (forall k | k in s.entries :: s.entries[k].locks == Pins(s.graphs, k) + B(k in s.pending))
    && (forall k | k in s.pending :: k in s.entries)
    && (forall g, k | g in s.graphs && k in s.graphs[g] :: k in s.entries)
    && (forall g, i, j | g in s.graphs && 0 <= i < j < |s.graphs[g]| :: s.graphs[g][i] != s.graphs[g][j])
  }

  lemma GetLocks<V>(s: State<V>, key: Key)
    requires LocksExact(s)
    ensures LocksExact(Get(s, key))
  {
  }

  lemma NotPinned<V>(s: State<V>, v: Key)
    requires LocksExact(s) && v in s.entries && s.entries[v].locks == 0
    ensures v !in s.pending && forall g | g in s.graphs :: v !in s.graphs[g]
  {
    forall g | g in s.graphs ensures v !in s.graphs[g] {
      if v in s.graphs[g] { PinsMember(s.graphs, g, v); }
    }
  }

  lemma NotCached<V>(s: State<V>, v: Key)
    requires LocksExact(s) && v !in s.entries
    ensures v !in s.pending && Pins(s.graphs, v) == 0
  {
    if Pins(s.graphs, v) >= 1 { var g := PinsPositive(s.graphs, v); }
  }

  lemma InsertLocks<V>(s: State<V>, key: Key, value: V, victim: Option<Key>)
    requires LocksExact(s) && key !in s.entries && LegalVictim(s.entries, victim)
    ensures LocksExact(Insert(s, key, value, victim))
  {
    NotCached(s, key);
    if victim.Some? { NotPinned(s, victim.value); }
  }

  lemma CommitLocks<V>(s: State<V>, graph: Graph, keys: seq<Key>)
    requires LocksExact(s) && graph !in s.graphs && Lists(keys, s.pending)
    ensures LocksExact(Commit(s, graph, keys))
  {
    var t := Commit(s, graph, keys);
    forall k | k in t.entries ensures t.entries[k].locks == Pins(t.graphs, k) + B(k in t.pending) {
      PinsAdd(s.graphs, graph, keys, k);
    }
  }

  lemma DiscardLocks<V>(s: State<V>, keys: seq<Key>)
    requires LocksExact(s) && Lists(keys, s.pending)
    ensures LocksExact(Discard(s, keys))
  {
    var t := Discard(s, keys);
    forall k ensures k in t.entries <==> k in s.entries { UnlockAllPoint(s.entries, keys, k); }
    forall k | k in t.entries ensures t.entries[k].locks == Pins(t.graphs, k) + B(k in t.pending) {
      UnlockAllPoint(s.entries, keys, k);
    }
  }

  lemma ReleasePoint<V>(s: State<V>, graph: Graph, k: Key)
    requires LocksExact(s) && graph in s.graphs && k in s.entries
    ensures var t := Release(s, graph);
            && (k in t.entries <==> k !in s.graphs[graph] || Pins(t.graphs, k) + B(k in t.pending) > 0)
            && (k in t.entries ==>
                  && t.entries[k].value == s.entries[k].value
                  && t.entries[k].lastUsed == s.entries[k].lastUsed
                  && t.entries[k].locks == Pins(t.graphs, k) + B(k in t.pending))
  {
    FreeAllPoint(s.entries, s.graphs[graph], k);
    PinsRemove(s.graphs, graph, k);
  }

  lemma ReleaseLocks<V>(s: State<V>, graph: Graph)
    requires LocksExact(s)
    ensures LocksExact(Release(s, graph))
  {
    if graph in s.graphs {
      var t := Release(s, graph);
      forall k | k in t.entries ensures t.entries[k].locks == Pins(t.graphs, k) + B(k in t.pending) {
        FreeAllPoint(s.entries, s.graphs[graph], k);
        ReleasePoint(s, graph, k);
      }
      forall k | k in t.pending ensures k in t.entries { ReleasePoint(s, graph, k); }
      forall g, k | g in t.graphs && k in t.graphs[g] ensures k in t.entries {
        PinsMember(t.graphs, g, k);
        ReleasePoint(s, graph, k);
      }
    }
  }

  lemma CleanupLocks<V>(s: State<V>)
    requires LocksExact(s)
    ensures LocksExact(ClearUnpinned(s))
  {
    forall g, k | g in s.graphs && k in s.graphs[g] ensures k in ClearUnpinned(s).entries {
      PinsMember(s.graphs, g, k);
    }
  }

  lemma LaunchLocks<V>(x: Sys<V>, mode: CacheMode, words: Key, build: Option<V>, victim: Option<Key>)
    requires LocksExact(x.cache) && LegalVictim(Get(SetMode(x.cache, mode), words).entries, victim)
    ensures LocksExact(AfterLaunch(x, mode, words, build, victim).cache)
  {
    var s := SetMode(x.cache, mode);
    ModeLocks(x.cache, mode);
    GetLocks(s, words);
    if words !in s.entries && build.Some? { InsertLocks(Get(s, words), words, build.value, victim); }
  }

  lemma ModeLocks<V>(s: State<V>, mode: CacheMode)
    requires LocksExact(s)
    ensures LocksExact(SetMode(s, mode))
  {
  }

  lemma StepLocks<V>(x: Sys<V>, step: Step<V>)
    requires LocksExact(x.cache) && Enabled(x, step)
    ensures LocksExact(Apply(x, step).cache)
  {
    match step
    case Launch(mode, words, build, victim) => LaunchLocks(x, mode, words, build, victim);
    case CommitGraph(graph, keys) => CommitLocks(x.cache, graph, keys);
    case DiscardCapture(keys) => DiscardLocks(x.cache, keys);
    case ReleaseGraph(graph) => ReleaseLocks(x.cache, graph);
    case Cleanup => CleanupLocks(x.cache);
  }

  /** In every run each entry's lock count is the number of live graphs that recorded it,
      plus one while it belongs to the open capture. */
  lemma {:induction false} LocksExactAlways<V>(maxEntries: nat, maxCachedSize: nat, run: seq<Step<V>>)
    requires After(maxEntries, maxCachedSize, run).Some?
    ensures LocksExact(After(maxEntries, maxCachedSize, run).value.cache)
    decreases |run|
  {
    if run != [] {
      var before := run[..|run| - 1];
      LocksExactAlways(maxEntries, maxCachedSize, before);
      StepLocks(After(maxEntries, maxCachedSize, before).value, run[|run| - 1]);
    }
  }

  // ------------------------------------------------------- what graphs recorded stays

  /** The cached value is the one last built, and every buffer handed out during the open
      capture or recorded by a live graph is still the cached one. */
  ghost predicate Stable<V>(x: Sys<V>) {
    && (forall k | k in x.cache.entries :: k in x.built && x.cache.entries[k].value == x.built[k])
    && x.seen.Keys == x.cache.pending
    && (forall k | k in x.seen :: k in x.cache.entries && x.cache.entries[k].value == x.seen[k])
    && x.recorded.Keys == x.cache.graphs.Keys
    && (forall g, k | g in x.cache.graphs :: k in x.recorded[g] <==> k in x.cache.graphs[g])
    && (forall g, k | g in x.cache.graphs && k in x.cache.graphs[g] ::
          k in x.cache.entries && x.cache.entries[k].value == x.recorded[g][k])
  }

  lemma HitStable<V>(x: Sys<V>, mode: CacheMode, words: Key)
    requires LocksExact(x.cache) && Stable(x) && words in x.cache.entries
    ensures Stable(HandOut(x, Get(SetMode(x.cache, mode), words), words, x.cache.entries[words].value))
  {
  }

  lemma EvictStable<V>(x: Sys<V>, victim: Option<Key>)
    requires LocksExact(x.cache) && Stable(x) && LegalVictim(x.cache.entries, victim)
    ensures Stable(x.(cache := x.cache.(entries := Evict(x.cache.entries, victim))))
  {
    if victim.Some? { NotPinned(x.cache, victim.value); }
  }

  lemma AddStable<V>(x: Sys<V>, y: Sys<V>, words: Key, v: V)
    requires Stable(x) && words !in x.cache.entries
    requires y.cache.graphs == x.cache.graphs && y.recorded == x.recorded && y.built == x.built[words := v]
    requires words in y.cache.entries && y.cache.entries[words].value == v
    requires forall k | k != words :: k in y.cache.entries <==> k in x.cache.entries
    requires forall k | k != words && k in x.cache.entries :: y.cache.entries[k].value == x.cache.entries[k].value
    requires || (y.cache.pending == x.cache.pending && y.seen == x.seen)
             || (y.cache.pending == x.cache.pending + {words} && y.seen == x.seen[words := v])
    ensures Stable(y)
  {
  }

  lemma StoreStable<V>(x: Sys<V>, mode: CacheMode, words: Key, v: V, victim: Option<Key>)
    requires LocksExact(x.cache) && Stable(x) && words !in x.cache.entries && LegalVictim(x.cache.entries, victim)
    requires Capacity(SetMode(x.cache, mode).policy) != Some(0)
    ensures Stable(HandOut(x, Insert(Get(SetMode(x.cache, mode), words), words, v, victim), words,
                           v).(built := x.built[words := v]))
  {
    var t := Get(SetMode(x.cache, mode), words);
    if MustEvict(t) {
      EvictStable(x, victim);
      StoreIntoStable(x, mode, words, v, victim, Evict(x.cache.entries, victim));
    } else {
      StoreIntoStable(x, mode, words, v, victim, x.cache.entries);
    }
  }

  /** Storing next to the entries that were kept. */
  lemma StoreIntoStable<V>(x: Sys<V>, mode: CacheMode, words: Key, v: V, victim: Option<Key>, kept: Entries<V>)
    requires words !in kept && Stable(x.(cache := x.cache.(entries := kept)))
    requires Capacity(SetMode(x.cache, mode).policy) != Some(0) && words !in x.cache.entries
    requires var t := Get(SetMode(x.cache, mode), words);
             kept == if MustEvict(t) then Evict(t.entries, victim) else t.entries
    ensures Stable(HandOut(x, Insert(Get(SetMode(x.cache, mode), words), words, v, victim), words,
                           v).(built := x.built[words := v]))
  {
    var y := HandOut(x, Insert(Get(SetMode(x.cache, mode), words), words, v, victim), words,
                     v).(built := x.built[words := v]);
    AddStable(x.(cache := x.cache.(entries := kept)), y, words, v);
  }

  lemma LaunchStable<V>(x: Sys<V>, mode: CacheMode, words: Key, build: Option<V>, victim: Option<Key>)
    requires LocksExact(x.cache) && Stable(x)
    requires LegalVictim(Get(SetMode(x.cache, mode), words).entries, victim)
    ensures Stable(AfterLaunch(x, mode, words, build, victim))
  {
    var s := SetMode(x.cache, mode);
    if ShouldCache(s.policy, ByteSize(words)) {
      if words in s.entries { HitStable(x, mode, words); }
      else if build.Some? { StoreStable(x, mode, words, build.value, victim); }
    }
  }

  lemma CommitStable<V>(x: Sys<V>, graph: Graph, keys: seq<Key>)
    requires LocksExact(x.cache) && Stable(x) && Enabled(x, CommitGraph(graph, keys))
    ensures Stable(Apply(x, CommitGraph(graph, keys)))
  {
  }

  lemma DiscardStable<V>(x: Sys<V>, keys: seq<Key>)
    requires LocksExact(x.cache) && Stable(x) && Enabled(x, DiscardCapture(keys))
    ensures Stable(Apply(x, DiscardCapture(keys)))
  {
    forall k ensures k in Discard(x.cache, keys).entries <==> k in x.cache.entries
             ensures k in x.cache.entries ==> Discard(x.cache, keys).entries[k].value == x.cache.entries[k].value {
      UnlockAllPoint(x.cache.entries, keys, k);
    }
  }

  lemma ReleaseStable<V>(x: Sys<V>, graph: Graph)
    requires LocksExact(x.cache) && Stable(x)
    ensures Stable(Apply(x, ReleaseGraph(graph)))
  {
    var s, t := x.cache, Release(x.cache, graph);
    if graph in s.graphs {
      ReleaseLocks(s, graph);
      forall k | k in t.entries ensures k in s.entries && t.entries[k].value == s.entries[k].value {
        FreeAllPoint(s.entries, s.graphs[graph], k);
      }
    } else {
      assert x.recorded - {graph} == x.recorded;
    }
  }

  lemma StepStable<V>(x: Sys<V>, step: Step<V>)
    requires LocksExact(x.cache) && Stable(x) && Enabled(x, step)
    ensures Stable(Apply(x, step))
  {
    match step
    case Launch(mode, words, build, victim) => LaunchStable(x, mode, words, build, victim);
    case CommitGraph(graph, keys) => CommitStable(x, graph, keys);
    case DiscardCapture(keys) => DiscardStable(x, keys);
    case ReleaseGraph(graph) => ReleaseStable(x, graph);
    case Cleanup => CleanupLocks(x.cache);
  }

  lemma {:induction false} StableAlways<V>(maxEntries: nat, maxCachedSize: nat, run: seq<Step<V>>)
    requires After(maxEntries, maxCachedSize, run).Some?
    ensures Stable(After(maxEntries, maxCachedSize, run).value)
    decreases |run|
  {
    if run != [] {
      var before := run[..|run| - 1];
      StableAlways(maxEntries, maxCachedSize, before);
      LocksExactAlways(maxEntries, maxCachedSize, before);
      StepStable(After(maxEntries, maxCachedSize, before).value, run[|run| - 1]);
    }
  }

  /** In every run, a buffer a live graph recorded is cached, pinned, and still the very
      buffer that was handed out when the graph was captured. */
  lemma RecordedBufferStays<V>(maxEntries: nat, maxCachedSize: nat, run: seq<Step<V>>, g: Graph, k: Key)
    requires After(maxEntries, maxCachedSize, run).Some?
    requires var x := After(maxEntries, maxCachedSize, run).value; g in x.recorded && k in x.recorded[g]
    ensures var x := After(maxEntries, maxCachedSize, run).value;
            k in x.cache.entries && x.cache.entries[k].locks >= 1 && x.cache.entries[k].value == x.recorded[g][k]
  {
    StableAlways(maxEntries, maxCachedSize, run);
    LocksExactAlways(maxEntries, maxCachedSize, run);
    PinsMember(After(maxEntries, maxCachedSize, run).value.cache.graphs, g, k);
  }

  // --------------------------------------------------------------------- recency

  /** `k` was last looked up at tick `t`. */
  predicate LastUse(log: seq<Key>, k: Key, t: nat) {
    1 <= t <= |log| && log[t - 1] == k && forall j | t <= j < |log| :: log[j] != k
  }

  /** Stamps are the ticks of the last lookup of their key. */
  predicate Stamped<V>(x: Sys<V>) {
    && x.cache.clock == |x.log|
    && forall k | k in x.cache.entries :: LastUse(x.log, k, x.cache.entries[k].lastUsed)
  }

  /** A launch that counts: entries may go, the one looked up carries the new stamp. */
  lemma RelogStamped<V>(x: Sys<V>, y: Sys<V>, words: Key)
    requires Stamped(x) && y.log == x.log + [words] && y.cache.clock == x.cache.clock + 1
    requires forall k | k in y.cache.entries && k != words ::
      k in x.cache.entries && y.cache.entries[k].lastUsed == x.cache.entries[k].lastUsed
    requires words in y.cache.entries ==> y.cache.entries[words].lastUsed == y.cache.clock
    ensures Stamped(y)
  {
    forall k | k in y.cache.entries ensures LastUse(y.log, k, y.cache.entries[k].lastUsed) {
      if k != words { LaterLog(x.log, words, k, x.cache.entries[k].lastUsed); }
    }
  }

  lemma HitStamped<V>(x: Sys<V>, mode: CacheMode, words: Key)
    requires Stamped(x) && words in x.cache.entries
    ensures Stamped(HandOut(x, Get(SetMode(x.cache, mode), words), words, x.cache.entries[words].value))
  {
    RelogStamped(x, HandOut(x, Get(SetMode(x.cache, mode), words), words, x.cache.entries[words].value), words);
  }

  lemma StoreStamped<V>(x: Sys<V>, mode: CacheMode, words: Key, v: V, victim: Option<Key>)
    requires Stamped(x) && words !in x.cache.entries
    ensures Stamped(HandOut(x, Insert(Get(SetMode(x.cache, mode), words), words, v, victim), words,
                            v).(built := x.built[words := v]))
  {
    RelogStamped(x, HandOut(x, Insert(Get(SetMode(x.cache, mode), words), words, v, victim), words,
                            v).(built := x.built[words := v]), words);
  }

  lemma LaunchStamped<V>(x: Sys<V>, mode: CacheMode, words: Key, build: Option<V>, victim: Option<Key>)
    requires Stamped(x)
    ensures Stamped(AfterLaunch(x, mode, words, build, victim))
  {
    var s := SetMode(x.cache, mode);
    if ShouldCache(s.policy, ByteSize(words)) {
      if words in s.entries { HitStamped(x, mode, words); }
      else if build.Some? { StoreStamped(x, mode, words, build.value, victim); }
      else { RelogStamped(x, x.(cache := Get(s, words), log := x.log + [words]), words); }
    }
  }

  lemma LaterLog(log: seq<Key>, words: Key, k: Key, t: nat)
    requires LastUse(log, k, t) && k != words
    ensures LastUse(log + [words], k, t)
  {
  }

  lemma StepStamped<V>(x: Sys<V>, step: Step<V>)
    requires LocksExact(x.cache) && Stamped(x) && Enabled(x, step)
    ensures Stamped(Apply(x, step))
  {
    match step
    case Launch(mode, words, build, victim) => LaunchStamped(x, mode, words, build, victim);
    case CommitGraph(graph, keys) =>
    case DiscardCapture(keys) =>
      var y := Apply(x, step);
      forall k | k in y.cache.entries ensures LastUse(y.log, k, y.cache.entries[k].lastUsed) {
        UnlockAllPoint(x.cache.entries, keys, k);
      }
    case ReleaseGraph(graph) =>
      var y := Apply(x, step);
      if graph in x.cache.graphs {
        forall k | k in y.cache.entries ensures LastUse(y.log, k, y.cache.entries[k].lastUsed) {
          FreeAllPoint(x.cache.entries, x.cache.graphs[graph], k);
        }
      }
    case Cleanup =>
  }

  lemma {:induction false} StampedAlways<V>(maxEntries: nat, maxCachedSize: nat, run: seq<Step<V>>)
    requires After(maxEntries, maxCachedSize, run).Some?
    ensures Stamped(After(maxEntries, maxCachedSize, run).value)
    decreases |run|
  {
    if run != [] {
      var before := run[..|run| - 1];
      StampedAlways(maxEntries, maxCachedSize, before);
      LocksExactAlways(maxEntries, maxCachedSize, before);
      StepStamped(After(maxEntries, maxCachedSize, before).value, run[|run| - 1]);
    }
  }

  /** In every run no two entries carry the same stamp. */
  lemma StampsDistinct<V>(maxEntries: nat, maxCachedSize: nat, run: seq<Step<V>>, k: Key, l: Key)
    requires After(maxEntries, maxCachedSize, run).Some?
    requires var s := After(maxEntries, maxCachedSize, run).value.cache; k in s.entries && l in s.entries && k != l
    ensures var s := After(maxEntries, maxCachedSize, run).value.cache;
            s.entries[k].lastUsed != s.entries[l].lastUsed
  {
    StampedAlways(maxEntries, maxCachedSize, run);
  }

  /** In every run, the entry an eviction would pick is determined: it is the unpinned entry
      whose last lookup lies strictly before that of every other unpinned entry. */
  lemma EvictsLeastRecentlyUsed<V>(maxEntries: nat, maxCachedSize: nat, run: seq<Step<V>>, v: Key, k: Key)
    requires After(maxEntries, maxCachedSize, run).Some?
    requires var s := After(maxEntries, maxCachedSize, run).value.cache;
             LegalVictim(s.entries, Some(v)) && k in s.entries && s.entries[k].locks == 0 && k != v
    ensures var x := After(maxEntries, maxCachedSize, run).value;
            exists t, u :: LastUse(x.log, v, t) && LastUse(x.log, k, u) && t < u
    ensures !LegalVictim(After(maxEntries, maxCachedSize, run).value.cache.entries, Some(k))
  {
    StampedAlways(maxEntries, maxCachedSize, run);
    StampsDistinct(maxEntries, maxCachedSize, run, v, k);
    var x := After(maxEntries, maxCachedSize, run).value;
    assert LastUse(x.log, v, x.cache.entries[v].lastUsed) && LastUse(x.log, k, x.cache.entries[k].lastUsed);
  }

  // ----------------------------------------------------------------------- bound

  /** The entries no graph and no capture holds on to. */
  function Loose<V>(entries: Entries<V>): set<Key> { set k | k in entries && entries[k].locks == 0 }

  lemma SubsetCard(a: set<Key>, b: set<Key>)
    requires a <= b
    ensures |a| <= |b|
  {
    assert b == a + (b - a);
  }

  lemma LooseAdd<V>(entries: Entries<V>, key: Key, e: Entry<V>)
    requires key !in entries
    ensures Loose(entries[key := e]) == if e.locks == 0 then Loose(entries) + {key} else Loose(entries)
  {
  }

  lemma LooseEvict<V>(entries: Entries<V>, victim: Option<Key>)
    requires LegalVictim(entries, victim)
    ensures |Loose(Evict(entries, victim))| == if victim.Some? then |Loose(entries)| - 1 else 0
  {
    if victim.Some? {
      assert Loose(Evict(entries, victim)) == Loose(entries) - {victim.value};
    } else {
      assert Loose(entries) == {};
    }
  }

  lemma AddCard(a: set<Key>, k: Key)
    ensures |a + {k}| <= |a| + 1
  {
  }

  lemma InsertLoose<V>(s: State<V>, key: Key, value: V, victim: Option<Key>)
    requires key !in s.entries && LegalVictim(s.entries, victim)
    ensures var t := Insert(s, key, value, victim);
            |Loose(t.entries)| <= |Loose(s.entries)| || |Loose(t.entries)| <= s.policy.maxEntries
  {
    if PinsEntries(s.policy) {
      LooseAdd(s.entries, key, Entry(value, s.clock, 1));
    } else if s.policy.maxEntries > 0 {
      StoreLoose(s.entries, s.policy.maxEntries, key, Entry(value, s.clock, 0), victim);
    }
  }

  lemma StoreLoose<V>(entries: Entries<V>, max: nat, key: Key, e: Entry<V>, victim: Option<Key>)
    requires key !in entries && LegalVictim(entries, victim) && e.locks == 0 && max > 0
    ensures var kept := if |entries| >= max then Evict(entries, victim) else entries;
            |Loose(kept[key := e])| <= |Loose(entries)| || |Loose(kept[key := e])| <= max
  {
    var kept := if |entries| >= max then Evict(entries, victim) else entries;
    LooseAdd(kept, key, e);
    AddCard(Loose(kept), key);
    if |entries| >= max { LooseEvict(entries, victim); } else { SubsetCard(Loose(entries), entries.Keys); }
  }

  /** Only discarding a capture can push the unpinned entries past the configured bound. */
  lemma StepLoose<V>(x: Sys<V>, step: Step<V>)
    requires LocksExact(x.cache) && Enabled(x, step) && !step.DiscardCapture?
    ensures Apply(x, step).cache.policy.maxEntries == x.cache.policy.maxEntries
    ensures var y := Apply(x, step).cache;
            |Loose(y.entries)| <= |Loose(x.cache.entries)| || |Loose(y.entries)| <= x.cache.policy.maxEntries
  {
    var y := Apply(x, step).cache;
    match step
    case Launch(mode, words, build, victim) =>
      var s := SetMode(x.cache, mode);
      var t := Get(s, words);
      assert Loose(t.entries) <= Loose(x.cache.entries);
      SubsetCard(Loose(t.entries), Loose(x.cache.entries));
      if words !in s.entries && build.Some? { InsertLoose(t, words, build.value, victim); }
    case CommitGraph(graph, keys) =>
    case ReleaseGraph(graph) =>
      if graph in x.cache.graphs {
        forall k | k in Loose(y.entries) ensures k in Loose(x.cache.entries) {
          FreeAllPoint(x.cache.entries, x.cache.graphs[graph], k);
        }
        SubsetCard(Loose(y.entries), Loose(x.cache.entries));
      }
    case Cleanup => assert Loose(y.entries) == {};
  }

  /** The entries only the open capture holds on to: a discard lets them go. */
  function CaptureOnly<V>(s: State<V>): set<Key> { set k | k in s.pending && k in s.entries && s.entries[k].locks == 1 }

  /** A discard frees exactly the entries only the capture held. */
  lemma {:induction false} DiscardLoose<V>(s: State<V>, keys: seq<Key>)
    requires LocksExact(s) && Lists(keys, s.pending)
    ensures Loose(Discard(s, keys).entries) == Loose(s.entries) + CaptureOnly(s)
    ensures |Loose(Discard(s, keys).entries)| == |Loose(s.entries)| + |CaptureOnly(s)|
  {
    forall k ensures k in Loose(Discard(s, keys).entries) <==> k in Loose(s.entries) + CaptureOnly(s) {
      UnlockAllPoint(s.entries, keys, k);
    }
    assert Loose(s.entries) !! CaptureOnly(s);
  }

  /** What can be checked before a discard. */
  predicate DiscardFits<V>(s: State<V>, bound: nat) { |Loose(s.entries)| + |CaptureOnly(s)| <= bound }

  /** One step keeps the bound, unless it is a discard that does not fit: then it breaks it. */
  lemma {:induction false} StepBound<V>(x: Sys<V>, step: Step<V>)
    requires LocksExact(x.cache) && Enabled(x, step) && |Loose(x.cache.entries)| <= x.cache.policy.maxEntries
    ensures var y := Apply(x, step).cache;
            && y.policy.maxEntries == x.cache.policy.maxEntries
            && (|Loose(y.entries)| <= y.policy.maxEntries <==>
                  step.DiscardCapture? ==> DiscardFits(x.cache, x.cache.policy.maxEntries))
  {
    if step.DiscardCapture? { DiscardLoose(x.cache, step.keys); } else { StepLoose(x, step); }
  }

  /** Every state along the run keeps the bound. */
  ghost predicate BoundKept<V>(maxEntries: nat, maxCachedSize: nat, run: seq<Step<V>>) {
    forall n | 0 <= n <= |run| ::
      var x := After(maxEntries, maxCachedSize, run[..n]);
      x.Some? ==> |Loose(x.value.cache.entries)| <= maxEntries
  }

  /** Every discard along the run fits. */
  ghost predicate DiscardsFit<V>(maxEntries: nat, maxCachedSize: nat, run: seq<Step<V>>) {
    forall n | 0 <= n < |run| && run[n].DiscardCapture? ::
      var x := After(maxEntries, maxCachedSize, run[..n]);
      x.Some? ==> DiscardFits(x.value.cache, maxEntries)
  }

  lemma {:induction false} BoundSplit<V>(maxEntries: nat, maxCachedSize: nat, run: seq<Step<V>>)
    requires run != [] && After(maxEntries, maxCachedSize, run).Some?
    ensures var init := run[..|run| - 1];
            BoundKept(maxEntries, maxCachedSize, run) <==>
            && BoundKept(maxEntries, maxCachedSize, init)
            && |Loose(After(maxEntries, maxCachedSize, run).value.cache.entries)| <= maxEntries
  {
    var init := run[..|run| - 1];
    assert forall n | 0 <= n <= |init| :: init[..n] == run[..n];
    assert run[..|run|] == run;
  }

  lemma {:induction false} DiscardsSplit<V>(maxEntries: nat, maxCachedSize: nat, run: seq<Step<V>>)
    requires run != [] && After(maxEntries, maxCachedSize, run).Some?
    ensures var init := run[..|run| - 1];
            && After(maxEntries, maxCachedSize, init).Some?
            && (DiscardsFit(maxEntries, maxCachedSize, run) <==>
                  && DiscardsFit(maxEntries, maxCachedSize, init)
                  && (run[|run| - 1].DiscardCapture? ==>
                        DiscardFits(After(maxEntries, maxCachedSize, init).value.cache, maxEntries)))
  {
    var init := run[..|run| - 1];
    assert forall n | 0 <= n <= |init| :: init[..n] == run[..n];
    assert init[..|init|] == init;
  }

  /** In every run: the unpinned entries never exceed the configured number if and only if,
      at each discard, those there are and those only the capture holds fit it. */
  lemma {:induction false} UnpinnedBoundedIff<V>(maxEntries: nat, maxCachedSize: nat, run: seq<Step<V>>)
    requires After(maxEntries, maxCachedSize, run).Some?
    ensures After(maxEntries, maxCachedSize, run).value.cache.policy.maxEntries == maxEntries
    ensures BoundKept(maxEntries, maxCachedSize, run) <==> DiscardsFit(maxEntries, maxCachedSize, run)
    decreases |run|
  {
    if run == [] {
      assert run[..0] == [];
      assert Loose(Begin<V>(maxEntries, maxCachedSize).cache.entries) == {};
    } else {
      var init := run[..|run| - 1];
      BoundSplit(maxEntries, maxCachedSize, run);
      DiscardsSplit(maxEntries, maxCachedSize, run);
      UnpinnedBoundedIff(maxEntries, maxCachedSize, init);
      LocksExactAlways(maxEntries, maxCachedSize, init);
      var x := After(maxEntries, maxCachedSize, init).value;
      ModeKeepsBound(x, run[|run| - 1]);
      assert init[..|init|] == init;
      if |Loose(x.cache.entries)| <= maxEntries { StepBound(x, run[|run| - 1]); }
    }
  }

  lemma ModeKeepsBound<V>(x: Sys<V>, step: Step<V>)
    ensures Apply(x, step).cache.policy.maxEntries == x.cache.policy.maxEntries
  {
  }

  /** In particular, runs without a discard keep the bound. */
  lemma {:induction false} UnpinnedBounded<V>(maxEntries: nat, maxCachedSize: nat, run: seq<Step<V>>)
    requires After(maxEntries, maxCachedSize, run).Some?
    requires forall i | 0 <= i < |run| :: !run[i].DiscardCapture?
    ensures |Loose(After(maxEntries, maxCachedSize, run).value.cache.entries)| <= maxEntries
  {
    UnpinnedBoundedIff(maxEntries, maxCachedSize, run);
    assert run[..|run|] == run;
  }

  lemma AfterExtend<V>(maxEntries: nat, maxCachedSize: nat, run: seq<Step<V>>, step: Step<V>)
    requires After(maxEntries, maxCachedSize, run).Some? && Enabled(After(maxEntries, maxCachedSize, run).value, step)
    ensures After(maxEntries, maxCachedSize, run + [step])
      == Some(Apply(After(maxEntries, maxCachedSize, run).value, step))
  {
    assert (run + [step])[..|run|] == run;
  }

  lemma CaptureMiss(x: Sys<nat>, words: Key, v: nat)
    requires words !in x.cache.entries && forall k | k in x.cache.entries :: x.cache.entries[k].locks > 0
    ensures var step := Launch(Capture, words, Some(v), None);
            && Enabled(x, step)
            && Apply(x, step).cache.entries == x.cache.entries[words := Entry(v, x.cache.clock + 1, 1)]
            && Apply(x, step).cache.pending == x.cache.pending + {words}
            && Apply(x, step).cache.clock == x.cache.clock + 1
  {
  }

  /** With a discard the bound does fail: two buffers captured and discarded in a cache
      that may keep one. */
  lemma DiscardExceedsBound()
    ensures var run := [Launch(Capture, [0], Some(0), None)] + [Launch(Capture, [1], Some(1), None)]
      + [DiscardCapture([[0], [1]])];
            After<nat>(1, 64, run).Some? && |Loose(After<nat>(1, 64, run).value.cache.entries)| == 2
  {
    var r0: seq<Step<nat>> := [];
    CaptureMiss(Begin(1, 64), [0], 0);
    var r1 := [Launch(Capture, [0], Some(0), None)];
    AfterExtend(1, 64, r0, r1[0]);
    assert r0 + [r1[0]] == r1;
    var x1 := After(1, 64, r1).value;
    CaptureMiss(x1, [1], 1);
    AfterExtend(1, 64, r1, Launch(Capture, [1], Some(1), None));
    var r2 := r1 + [Launch(Capture, [1], Some(1), None)];
    var x2 := After(1, 64, r2).value;
    var keys := [[0], [1]];
    assert Lists(keys, x2.cache.pending);
    AfterExtend(1, 64, r2, DiscardCapture(keys));
    TwoLoose(x2.cache.entries, keys);
  }

  lemma TwoLoose(entries: Entries<nat>, keys: seq<Key>)
    requires keys == [[0], [1]] && entries.Keys == {[0], [1]} && entries[[0]].locks == 1 && entries[[1]].locks == 1
    ensures |Loose(UnlockAll(entries, keys))| == 2
  {
    forall k ensures k in UnlockAll(entries, keys) <==> k in entries
             ensures k in entries ==> UnlockAll(entries, keys)[k].locks == 0 {
      UnlockAllPoint(entries, keys, k);
    }
    assert Loose(UnlockAll(entries, keys)) == {[0], [1]};
  }

  // ------------------------------------------------------------- what gets cached

  /** The limits are those the cache was made with. */
  lemma {:induction false} LimitsFixed<V>(maxEntries: nat, maxCachedSize: nat, run: seq<Step<V>>)
    requires After(maxEntries, maxCachedSize, run).Some?
    ensures var p := After(maxEntries, maxCachedSize, run).value.cache.policy;
            p.maxEntries == maxEntries && p.maxCachedSize == maxCachedSize
    decreases |run|
  {
    if run != [] { LimitsFixed(maxEntries, maxCachedSize, run[..|run| - 1]); }
  }

  /** A buffer launched with, in a capture or within the limits, is there for the next launch of
      the same info: it builds nothing and is handed the same buffer. */
  lemma LaunchThenHit<V>(maxEntries: nat, maxCachedSize: nat, run: seq<Step<V>>, mode: CacheMode, words: Key, v: V,
                         victim: Option<Key>, mode': CacheMode, v': V, victim': Option<Key>)
    requires After(maxEntries, maxCachedSize, run).Some?
    requires Enabled(After(maxEntries, maxCachedSize, run).value, Launch(mode, words, Some(v), victim))
    requires mode.Capture? || (maxEntries > 0 && 8 * |words| <= maxCachedSize)
    requires mode'.Capture? || (maxEntries > 0 && 8 * |words| <= maxCachedSize)
    ensures var x := After(maxEntries, maxCachedSize, run).value;
            var y := Apply(x, Launch(mode, words, Some(v), victim));
            var z := Apply(y, Launch(mode', words, Some(v'), victim'));
            var w := if words in x.cache.entries then x.cache.entries[words].value else v;
            && words in y.cache.entries && y.cache.entries[words].value == w
            && words in z.cache.entries && z.cache.entries[words].value == w
            && z.built == y.built && z.log == x.log + [words] + [words]
            && (mode'.Capture? ==> words in z.seen && z.seen[words] == w)
  {
    LimitsFixed(maxEntries, maxCachedSize, run);
  }

  /** Info beyond the limits gets into the cache only by a launch in a capture. */
  lemma {:induction false} LargeOnlyInCapture<V>(maxEntries: nat, maxCachedSize: nat, run: seq<Step<V>>, k: Key)
    requires After(maxEntries, maxCachedSize, run).Some?
    requires k in After(maxEntries, maxCachedSize, run).value.cache.entries
    requires maxEntries == 0 || 8 * |k| > maxCachedSize
    ensures exists i :: 0 <= i < |run| && run[i].Launch? && run[i].mode.Capture? && run[i].words == k
    decreases |run|
  {
    var m := |run| - 1;
    var before := After(maxEntries, maxCachedSize, run[..m]).value;
    LimitsFixed(maxEntries, maxCachedSize, run[..m]);
    if k in before.cache.entries {
      LargeOnlyInCapture(maxEntries, maxCachedSize, run[..m], k);
      var i :| 0 <= i < m && run[..m][i].Launch? && run[..m][i].mode.Capture? && run[..m][i].words == k;
      assert run[i] == run[..m][i];
    } else {
      NewEntry(before, run[m], k);
    }
  }

  /** Only a launch adds an entry: its own, in a capture or within the limits. */
  lemma NewEntry<V>(x: Sys<V>, step: Step<V>, k: Key)
    requires Enabled(x, step) && k in Apply(x, step).cache.entries && k !in x.cache.entries
    ensures step.Launch? && step.words == k && step.build.Some?
    ensures step.mode.Capture? || (x.cache.policy.maxEntries > 0 && 8 * |k| <= x.cache.policy.maxCachedSize)
  {
    match step
    case Launch(mode, words, build, victim) => LaunchedEntry(x, mode, words, build, victim, k);
    case DiscardCapture(keys) => UnlockAllKeys(x.cache.entries, keys);
    case ReleaseGraph(g) => if g in x.cache.graphs { FreeAllKeys(x.cache.entries, x.cache.graphs[g]); }
    case _ =>
  }

  lemma LaunchedEntry<V>(x: Sys<V>, mode: CacheMode, words: Key, build: Option<V>, victim: Option<Key>, k: Key)
    requires k in AfterLaunch(x, mode, words, build, victim).cache.entries && k !in x.cache.entries
    ensures words == k && build.Some?
    ensures mode.Capture? || (x.cache.policy.maxEntries > 0 && 8 * |k| <= x.cache.policy.maxCachedSize)
  {
  }

  lemma {:induction false} UnlockAllKeys<V>(entries: Entries<V>, keys: seq<Key>)
    ensures UnlockAll(entries, keys).Keys == entries.Keys
  {
    if keys != [] { UnlockAllKeys(entries, keys[..|keys| - 1]); }
  }

  lemma {:induction false} FreeAllKeys<V>(entries: Entries<V>, keys: seq<Key>)
    ensures FreeAll(entries, keys).Keys <= entries.Keys
  {
    if keys != [] { FreeAllKeys(entries, keys[..|keys| - 1]); }
  }

  /** A launch loses an entry only in normal mode, at capacity, and only an unpinned one no
      other unpinned one is older than. */
  lemma LostEntry<V>(x: Sys<V>, step: Step<V>, k: Key)
    requires Enabled(x, step) && step.Launch? && k in x.cache.entries && k !in Apply(x, step).cache.entries
    ensures step.mode.Normal? && step.words !in x.cache.entries && |x.cache.entries| >= x.cache.policy.maxEntries
    ensures x.cache.entries[k].locks == 0
    ensures forall l | l in x.cache.entries && x.cache.entries[l].locks == 0 ::
      x.cache.entries[k].lastUsed <= x.cache.entries[l].lastUsed
  {
    var s := Get(SetMode(x.cache, step.mode), step.words);
    if step.build.Some? && step.words !in x.cache.entries {
      InsertLoses(s, step.words, step.build.value, step.victim, k);
    }
  }

  lemma InsertLoses<V>(s: State<V>, key: Key, value: V, victim: Option<Key>, k: Key)
    requires LegalVictim(s.entries, victim) && k in s.entries && k !in Insert(s, key, value, victim).entries
    ensures s.policy.mode.Normal? && |s.entries| >= s.policy.maxEntries && victim == Some(k)
  {
  }

  // ---------------------------------------------------------------- nothing is blocked

  /** An eviction always has a legal outcome. */
  lemma {:induction false} VictimExists<V>(entries: Entries<V>, among: set<Key>) returns (victim: Option<Key>)
    requires among <= entries.Keys
    ensures victim.None? ==> forall k | k in among :: entries[k].locks > 0
    ensures victim.Some? ==>
      && victim.value in among && entries[victim.value].locks == 0
      && forall k | k in among && entries[k].locks == 0 :: entries[victim.value].lastUsed <= entries[k].lastUsed
    decreases |among|
  {
    victim := None;
    if among != {} {
      var k :| k in among;
      victim := VictimExists(entries, among - {k});
      if entries[k].locks == 0 && (victim.None? || entries[k].lastUsed < entries[victim.value].lastUsed) {
        victim := Some(k);
      }
    }
  }

  lemma {:induction false} SomeListing(elements: set<Key>) returns (keys: seq<Key>)
    ensures Lists(keys, elements)
  {
    keys := [];
    if elements != {} {
      var k :| k in elements;
      var others := SomeListing(elements - {k});
      keys := others + [k];
    }
  }

  /** After every run each operation can be the next: a launch in either mode with any info, a
      commit to a fresh graph, a discard, a release and a cleanup. */
  lemma {:induction false} StepsPossible<V>(x: Sys<V>, mode: CacheMode, words: Key, build: Option<V>, graph: Graph)
    returns (victim: Option<Key>, keys: seq<Key>)
    ensures Enabled(x, Launch(mode, words, build, victim))
    ensures graph !in x.cache.graphs ==> Enabled(x, CommitGraph(graph, keys))
    ensures Enabled(x, DiscardCapture(keys)) && Enabled(x, ReleaseGraph(graph)) && Enabled(x, Cleanup)
  {
    var entries := Get(SetMode(x.cache, mode), words).entries;
    victim := VictimExists(entries, entries.Keys);
    keys := SomeListing(x.cache.pending);
  }
}
