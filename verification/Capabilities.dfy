/**
 Collecting the capabilities and extensions of a SPIR-V module: requirements are lists of
 any-of sets, capabilities have requirements themselves, and the pass inserts until nothing
 changes. See section 3.31 (Capability) of the SPIR-V specification.
 */
module Capabilities {
  import opened Options

  type Cap = nat
  type Ext = nat

  datatype Version = Version(major: nat, minor: nat)

  predicate AtMost(a: Version, b: Version) { a.major < b.major || (a.major == b.major && a.minor <= b.minor) }

  /** What an operation, a type or a capability asks for: one member of each set. */
  datatype Requirement = Requirement(minVersion: Option<Version>, extensions: seq<seq<Ext>>, caps: seq<seq<Cap>>)

  /** The target and the tables: `all` is every capability there is. */
  datatype Target = Target(
    maxVersion: Version,
    excluded: set<Cap>,
    preferredCaps: set<Cap>,
    preferredExts: set<Ext>,
    all: set<Cap>,
    needs: map<Cap, Requirement>)

  ghost predicate Closed(t: Target, r: Requirement) {
    forall i, j | 0 <= i < |r.caps| && 0 <= j < |r.caps[i]| :: r.caps[i][j] in t.all
  }

  ghost predicate TargetOk(t: Target) {
    t.needs.Keys == t.all && forall c | c in t.all :: Closed(t, t.needs[c])
  }

  /** What the walk over the module visits. Types without requirements are absent. */
  datatype Node =
    | Block(args: seq<Requirement>)
    | Op(custom: seq<Cap>, own: Option<Requirement>, results: seq<Requirement>)
    | Other

  ghost predicate NodeOk(t: Target, n: Node) {
    match n
    case Block(args) => forall r | r in args :: Closed(t, r)
    case Op(custom, own, results) =>
      (forall c | c in custom :: c in t.all) && (own.Some? ==> Closed(t, own.value))
        && forall r | r in results :: Closed(t, r)
    case Other => true
  }

  /** The members that are not excluded, in order. */
  function Retain(cs: seq<Cap>, excluded: set<Cap>): (r: seq<Cap>)
    ensures forall c :: c in r <==> c in cs && c !in excluded
  {
    if cs == [] then [] else (if cs[0] in excluded then [] else [cs[0]]) + Retain(cs[1..], excluded)
  }

  /** The first preferred member. */
  function Preferred(cs: seq<nat>, preferred: set<nat>): (r: Option<nat>)
    ensures r.Some? ==> exists i :: 0 <= i < |cs| && cs[i] == r.value && r.value in preferred
                                     && forall j | 0 <= j < i :: cs[j] !in preferred
    ensures r.None? ==> forall c | c in cs :: c !in preferred
  {
    if cs == [] then None
    else if cs[0] in preferred then Some(cs[0])
    else
      var r := Preferred(cs[1..], preferred);
      assert r.Some? ==> exists i :: 1 <= i < |cs| && cs[i] == r.value && r.value in preferred
                                      && forall j | 0 <= j < i :: cs[j] !in preferred by {
        if r.Some? {
          var i :| 0 <= i < |cs[1..]| && cs[1..][i] == r.value && forall j | 0 <= j < i :: cs[1..][j] !in preferred;
          assert cs[i + 1] == r.value;
          forall j | 0 <= j < i + 1 ensures cs[j] !in preferred { if j > 0 { assert cs[j] == cs[1..][j - 1]; } }
        }
      }
      r
  }

  /** An any-of set, already without excluded members, has one present. */
  predicate Met(cs: seq<nat>, have: set<nat>) { exists i :: 0 <= i < |cs| && cs[i] in have }

  predicate CapSetMet(t: Target, cs: seq<Cap>, have: set<Cap>) { cs != [] ==> Met(Retain(cs, t.excluded), have) }

  predicate ExtSetMet(es: seq<Ext>, have: set<Ext>) { es != [] ==> Met(es, have) }

  /** Extensions are waived when the target's version already includes the feature. */
  predicate Waived(t: Target, r: Requirement) { r.minVersion.Some? && AtMost(r.minVersion.value, t.maxVersion) }

  /** The feature came with a version after the target's, or with none. */
  predicate Lacks(t: Target, r: Requirement) {
    match r.minVersion
    case None => true
    case Some(Version(major, minor)) =>
      t.maxVersion.major < major || (t.maxVersion.major == major && t.maxVersion.minor < minor)
  }

  /** One extension of every set that is not empty. */
  predicate ExtsPresent(r: Requirement, exts: set<Ext>) {
    forall i | 0 <= i < |r.extensions| && r.extensions[i] != [] ::
      exists j :: 0 <= j < |r.extensions[i]| && r.extensions[i][j] in exts
  }

  predicate Satisfied(t: Target, r: Requirement, caps: set<Cap>, exts: set<Ext>) {
    && (forall i | 0 <= i < |r.caps| :: CapSetMet(t, r.caps[i], caps))
    && (!Waived(t, r) ==> forall i | 0 <= i < |r.extensions| :: ExtSetMet(r.extensions[i], exts))
  }

  /** No rule says which member to take: the case in which the pass panics. */
  predicate Undecided(cs: seq<nat>, have: set<nat>, preferred: set<nat>) {
    |cs| != 1 && !Met(cs, have) && Preferred(cs, preferred).None?
  }

  ghost predicate Stuck(t: Target, r: Requirement, caps: set<Cap>, exts: set<Ext>) {
    || (exists i ::
          && 0 <= i < |r.caps| && r.caps[i] != []
          && Undecided(Retain(r.caps[i], t.excluded), caps, t.preferredCaps))
    || (!Waived(t, r)
        && exists i ::
             && 0 <= i < |r.extensions| && r.extensions[i] != []
             && Undecided(r.extensions[i], exts, t.preferredExts))
  }

  /** More capabilities keep what is satisfied satisfied. */
  lemma Monotone(t: Target, r: Requirement, caps: set<Cap>, exts: set<Ext>, moreCaps: set<Cap>, moreExts: set<Ext>)
    requires Satisfied(t, r, caps, exts) && caps <= moreCaps && exts <= moreExts
    ensures Satisfied(t, r, moreCaps, moreExts)
  {
    forall i | 0 <= i < |r.caps| ensures CapSetMet(t, r.caps[i], moreCaps) { assert CapSetMet(t, r.caps[i], caps); }
    if !Waived(t, r) {
      forall i | 0 <= i < |r.extensions| ensures ExtSetMet(r.extensions[i], moreExts) {
        assert ExtSetMet(r.extensions[i], exts);
      }
    }
  }

  /** A requirement is never both satisfied and stuck. */
  lemma SatisfiedNotStuck(t: Target, r: Requirement, caps: set<Cap>, exts: set<Ext>)
    requires Satisfied(t, r, caps, exts)
    ensures !Stuck(t, r, caps, exts)
  {
    forall i | 0 <= i < |r.caps| && r.caps[i] != [] ensures Met(Retain(r.caps[i], t.excluded), caps) {
      assert CapSetMet(t, r.caps[i], caps);
    }
    if !Waived(t, r) {
      forall i | 0 <= i < |r.extensions| && r.extensions[i] != [] ensures Met(r.extensions[i], exts) {
        assert ExtSetMet(r.extensions[i], exts);
      }
    }
  }

  ghost predicate NodeSatisfied(t: Target, n: Node, caps: set<Cap>, exts: set<Ext>) {
    match n
    case Block(args) => forall r | r in args :: Satisfied(t, r, caps, exts)
    case Op(custom, own, results) =>
      && (forall c | c in custom :: c in caps)
      && (own.Some? ==> Satisfied(t, own.value, caps, exts))
      && forall r | r in results :: Satisfied(t, r, caps, exts)
    case Other => true
  }

  ghost predicate NodeStuck(t: Target, n: Node, caps: set<Cap>, exts: set<Ext>) {
    match n
    case Block(args) => exists r :: r in args && Stuck(t, r, caps, exts)
    case Op(_, own, results) =>
      (own.Some? && Stuck(t, own.value, caps, exts)) || exists r :: r in results && Stuck(t, r, caps, exts)
    case Other => false
  }

  /** The requirement names this capability, and it is not excluded. */
  predicate Names(t: Target, r: Requirement, c: Cap) {
    exists i :: 0 <= i < |r.caps| && c in Retain(r.caps[i], t.excluded)
  }

  predicate NamesExt(r: Requirement, e: Ext) { exists i :: 0 <= i < |r.extensions| && e in r.extensions[i] }

  /** The requirement asks for the extension on this target. */
  predicate AsksExt(t: Target, r: Requirement, e: Ext) { Lacks(t, r) && NamesExt(r, e) }

  predicate NodeAsksExt(t: Target, n: Node, e: Ext) {
    match n
    case Block(args) => exists i :: 0 <= i < |args| && AsksExt(t, args[i], e)
    case Op(_, own, results) =>
      (own.Some? && AsksExt(t, own.value, e)) || exists i :: 0 <= i < |results| && AsksExt(t, results[i], e)
    case Other => false
  }

  /** The node or one of the capabilities asks for all this. */
  predicate Asked(t: Target, nodes: seq<Node>, caps: set<Cap>, r: Requirement) {
    || (exists i :: 0 <= i < |nodes| && NodeAsks(nodes[i], r))
    || (exists c :: c in caps && c in t.needs && t.needs[c] == r)
  }

  /** A node or a capability asks for the extension on this target. */
  predicate ExtNeeded(t: Target, nodes: seq<Node>, caps: set<Cap>, e: Ext) {
    || (exists i :: 0 <= i < |nodes| && NodeAsksExt(t, nodes[i], e))
    || (exists c :: c in caps && c in t.needs && AsksExt(t, t.needs[c], e))
  }

  predicate ExtsNeeded(t: Target, nodes: seq<Node>, caps: set<Cap>, first: set<Ext>, exts: set<Ext>) {
    forall e | e in exts && e !in first :: ExtNeeded(t, nodes, caps, e)
  }

  lemma RoundExts(t: Target, nodes: seq<Node>, before: set<Cap>, caps: set<Cap>, first: set<Ext>, had: set<Ext>,
                  exts: set<Ext>)
    requires before <= caps && ExtsNeeded(t, nodes, before, first, had)
    requires forall e | e in exts && e !in had :: exists d :: d in before && d in t.needs && AsksExt(t, t.needs[d], e)
    ensures ExtsNeeded(t, nodes, caps, first, exts)
  {
    forall e | e in exts && e !in first ensures ExtNeeded(t, nodes, caps, e) {
      if e in had { assert ExtNeeded(t, nodes, before, e); }
    }
  }

  predicate NodeAsks(n: Node, r: Requirement) {
    match n
    case Block(args) => r in args
    case Op(_, own, results) => own == Some(r) || r in results
    case Other => false
  }

  /** What satisfied means for extensions, told by version numbers. */
  lemma SatisfiedExts(t: Target, r: Requirement, caps: set<Cap>, exts: set<Ext>)
    requires Satisfied(t, r, caps, exts) && Lacks(t, r)
    ensures ExtsPresent(r, exts)
  {
    forall i | 0 <= i < |r.extensions| && r.extensions[i] != []
      ensures exists j :: 0 <= j < |r.extensions[i]| && r.extensions[i][j] in exts
    {
      assert ExtSetMet(r.extensions[i], exts);
    }
  }

  lemma AskedSatisfied(t: Target, nodes: seq<Node>, caps: set<Cap>, exts: set<Ext>, r: Requirement)
    requires Asked(t, nodes, caps, r) && Lacks(t, r)
    requires forall n | n in nodes :: NodeSatisfied(t, n, caps, exts)
    requires forall c | c in caps && c in t.needs :: Satisfied(t, t.needs[c], caps, exts)
    ensures ExtsPresent(r, exts)
  {
    if i :| 0 <= i < |nodes| && NodeAsks(nodes[i], r) { assert NodeSatisfied(t, nodes[i], caps, exts); }
    SatisfiedExts(t, r, caps, exts);
  }

  /** A later target asks for no more extensions, and needs no more. */
  lemma LaterNeedsLess(t: Target, later: Version, r: Requirement, caps: set<Cap>, exts: set<Ext>, e: Ext)
    requires t.maxVersion.major < later.major
      || (t.maxVersion.major == later.major && t.maxVersion.minor <= later.minor)
    ensures AsksExt(t.(maxVersion := later), r, e) ==> AsksExt(t, r, e)
    ensures Satisfied(t, r, caps, exts) ==> Satisfied(t.(maxVersion := later), r, caps, exts)
  {
    var t' := t.(maxVersion := later);
    if Satisfied(t, r, caps, exts) {
      forall i | 0 <= i < |r.caps| ensures CapSetMet(t', r.caps[i], caps) { assert CapSetMet(t, r.caps[i], caps); }
    }
  }

  predicate NodeNames(t: Target, n: Node, c: Cap) {
    match n
    case Block(args) => exists i :: 0 <= i < |args| && Names(t, args[i], c)
    case Op(custom, own, results) =>
      c in custom || (own.Some? && Names(t, own.value, c)) || exists i :: 0 <= i < |results| && Names(t, results[i], c)
    case Other => false
  }

  /** Why a capability is in the module: it was there or a node asked for it, or, in `rank`
      steps, a capability that is there for such a reason asked for it. Nothing supports
      itself. */
  ghost predicate Derived(t: Target, nodes: seq<Node>, first: set<Cap>, rank: nat, c: Cap) {
    || c in first
    || (exists i :: 0 <= i < |nodes| && NodeNames(t, nodes[i], c))
    || (rank > 0 && exists d :: d in t.needs && Derived(t, nodes, first, rank - 1, d) && Names(t, t.needs[d], c))
  }

  lemma {:induction false} DerivedMore(t: Target, nodes: seq<Node>, first: set<Cap>, rank: nat, c: Cap)
    requires Derived(t, nodes, first, rank, c)
    ensures Derived(t, nodes, first, rank + 1, c)
  {
    if c !in first && !(exists i :: 0 <= i < |nodes| && NodeNames(t, nodes[i], c)) {
      var d :| d in t.needs && Derived(t, nodes, first, rank - 1, d) && Names(t, t.needs[d], c);
      DerivedMore(t, nodes, first, rank - 1, d);
    }
  }

  ghost predicate AllDerived(t: Target, nodes: seq<Node>, first: set<Cap>, rank: nat, caps: set<Cap>) {
    forall c | c in caps :: Derived(t, nodes, first, rank, c)
  }

  /** A round adds capabilities one step further away. */
  lemma {:induction false} RoundDerived(t: Target, nodes: seq<Node>, first: set<Cap>, rank: nat, before: set<Cap>,
                                        after: set<Cap>)
    requires AllDerived(t, nodes, first, rank, before)
    requires forall c | c in after && c !in before :: exists d :: d in before && d in t.needs && Names(t, t.needs[d], c)
    ensures AllDerived(t, nodes, first, rank + 1, after)
  {
    forall c | c in after ensures Derived(t, nodes, first, rank + 1, c) {
      if c in before {
        DerivedMore(t, nodes, first, rank, c);
      } else {
        var d :| d in before && d in t.needs && Names(t, t.needs[d], c);
        assert Derived(t, nodes, first, rank, d);
      }
    }
  }

  lemma NodeMonotone(t: Target, n: Node, caps: set<Cap>, exts: set<Ext>, moreCaps: set<Cap>, moreExts: set<Ext>)
    requires NodeSatisfied(t, n, caps, exts) && caps <= moreCaps && exts <= moreExts
    ensures NodeSatisfied(t, n, moreCaps, moreExts)
  {
    forall r | Satisfied(t, r, caps, exts) ensures Satisfied(t, r, moreCaps, moreExts) {
      Monotone(t, r, caps, exts, moreCaps, moreExts);
    }
  }

  /** The member to take: the only one, or the first preferred. */
  predicate Rule(cs: seq<nat>, preferred: set<nat>, i: nat)
    requires i < |cs|
  {
    |cs| == 1 || (cs[i] in preferred && forall j | 0 <= j < i :: cs[j] !in preferred)
  }

  /** One step of either loop: which member to insert, if any; no result is the panic. */
  function Choose(cs: seq<nat>, have: set<nat>, preferred: set<nat>): (r: Option<set<nat>>)
    ensures r.None? <==> Undecided(cs, have, preferred)
    ensures r.Some? ==> have <= r.value && Met(cs, r.value)
    ensures r.Some? ==> forall c | c in r.value && c !in have :: c in cs
    ensures Met(cs, have) ==> r == Some(have)
    ensures r.Some? && !Met(cs, have) ==>
      exists i :: 0 <= i < |cs| && r.value == have + {cs[i]} && Rule(cs, preferred, i)
  {
    if |cs| == 1 then
      assert cs[0] in have ==> have + {cs[0]} == have;
      Some(have + {cs[0]})
    else if Met(cs, have) then Some(have)
    else
      var p := Preferred(cs, preferred);
      if p.Some? then
        assert exists i :: 0 <= i < |cs| && cs[i] == p.value;
        Some(have + {p.value})
      else None
  }

  class Module {
    var caps: set<Cap>
    var exts: set<Ext>

    /** Insert what one requirement asks for. Not `ok` is the panic: then, and only then, some
        set of the requirement has no rule in the state reached. */
    method Update(t: Target, r: Requirement) returns (ok: bool)
      modifies this
      ensures old(caps) <= caps && old(exts) <= exts
      ensures Closed(t, r) && old(caps) <= t.all ==> caps <= t.all
      ensures forall c | c in caps && c !in old(caps) :: Names(t, r, c)
      ensures forall e | e in exts && e !in old(exts) :: AsksExt(t, r, e)
      ensures ok ==> Satisfied(t, r, caps, exts)
      ensures ok && Lacks(t, r) ==> ExtsPresent(r, exts)
      ensures !Lacks(t, r) ==> exts == old(exts)
      ensures !ok ==> Stuck(t, r, caps, exts)
    {
      ok := UpdateCaps(t, r);
      if ok && !Waived(t, r) { ok := UpdateExts(t, r); }
      if ok && Lacks(t, r) { SatisfiedExts(t, r, caps, exts); }
    }

    method UpdateCaps(t: Target, r: Requirement) returns (ok: bool)
      modifies this
      ensures old(caps) <= caps && exts == old(exts)
      ensures Closed(t, r) && old(caps) <= t.all ==> caps <= t.all
      ensures forall c | c in caps && c !in old(caps) :: Names(t, r, c)
      ensures ok ==> forall i | 0 <= i < |r.caps| :: CapSetMet(t, r.caps[i], caps)
      ensures !ok ==> Stuck(t, r, caps, exts)
    {
      var i := 0;
      while i < |r.caps|
        invariant 0 <= i <= |r.caps| && old(caps) <= caps && exts == old(exts)
        invariant Closed(t, r) && old(caps) <= t.all ==> caps <= t.all
        invariant forall c | c in caps && c !in old(caps) :: Names(t, r, c)
        invariant forall k | 0 <= k < i :: CapSetMet(t, r.caps[k], caps)
      {
        if r.caps[i] != [] {
          var made := Choose(Retain(r.caps[i], t.excluded), caps, t.preferredCaps);
          if made.None? { return false; }
          ghost var before := caps;
          caps := made.value;
          assert forall k | 0 <= k < i :: CapSetMet(t, r.caps[k], before);
        }
        i := i + 1;
      }
      ok := true;
    }

    method UpdateExts(t: Target, r: Requirement) returns (ok: bool)
      requires !Waived(t, r)
      modifies this
      ensures old(exts) <= exts && caps == old(caps)
      ensures forall e | e in exts && e !in old(exts) :: NamesExt(r, e)
      ensures ok ==> forall i | 0 <= i < |r.extensions| :: ExtSetMet(r.extensions[i], exts)
      ensures !ok ==> Stuck(t, r, caps, exts)
    {
      var i := 0;
      while i < |r.extensions|
        invariant 0 <= i <= |r.extensions| && old(exts) <= exts && caps == old(caps)
        invariant forall e | e in exts && e !in old(exts) :: NamesExt(r, e)
        invariant forall k | 0 <= k < i :: ExtSetMet(r.extensions[k], exts)
      {
        if r.extensions[i] != [] {
          var made := Choose(r.extensions[i], exts, t.preferredExts);
          if made.None? { return false; }
          ghost var before := exts;
          exts := made.value;
          assert forall k | 0 <= k < i :: ExtSetMet(r.extensions[k], before);
        }
        i := i + 1;
      }
      ok := true;
    }

    method UpdateAll(t: Target, rs: seq<Requirement>) returns (ok: bool)
      modifies this
      ensures old(caps) <= caps && old(exts) <= exts
      ensures (forall r | r in rs :: Closed(t, r)) && old(caps) <= t.all ==> caps <= t.all
      ensures forall c | c in caps && c !in old(caps) :: exists k :: 0 <= k < |rs| && Names(t, rs[k], c)
      ensures forall e | e in exts && e !in old(exts) :: exists k :: 0 <= k < |rs| && AsksExt(t, rs[k], e)
      ensures ok ==> forall r | r in rs :: Satisfied(t, r, caps, exts)
      ensures !ok ==> exists r :: r in rs && Stuck(t, r, caps, exts)
    {
      var i := 0;
      while i < |rs|
        invariant 0 <= i <= |rs| && old(caps) <= caps && old(exts) <= exts
        invariant (forall r | r in rs :: Closed(t, r)) && old(caps) <= t.all ==> caps <= t.all
        invariant forall c | c in caps && c !in old(caps) :: exists k :: 0 <= k < |rs| && Names(t, rs[k], c)
        invariant forall e | e in exts && e !in old(exts) :: exists k :: 0 <= k < |rs| && AsksExt(t, rs[k], e)
        invariant forall k | 0 <= k < i :: Satisfied(t, rs[k], caps, exts)
      {
        ghost var c, e := caps, exts;
        ok := Update(t, rs[i]);
        if !ok { return; }
        forall k | 0 <= k < i ensures Satisfied(t, rs[k], caps, exts) { Monotone(t, rs[k], c, e, caps, exts); }
        i := i + 1;
      }
      ok := true;
    }

    /** One node of the walk. */
    method Visit(t: Target, n: Node) returns (ok: bool)
      modifies this
      ensures old(caps) <= caps && old(exts) <= exts
      ensures NodeOk(t, n) && old(caps) <= t.all ==> caps <= t.all
      ensures forall c | c in caps && c !in old(caps) :: NodeNames(t, n, c)
      ensures forall e | e in exts && e !in old(exts) :: NodeAsksExt(t, n, e)
      ensures ok ==> NodeSatisfied(t, n, caps, exts)
      ensures !ok ==> NodeStuck(t, n, caps, exts)
    {
      match n {
        case Block(args) => ok := UpdateAll(t, args);
        case Other => ok := true;
        case Op(custom, own, results) =>
          var i := 0;
          while i < |custom|
            invariant 0 <= i <= |custom| && old(caps) <= caps && exts == old(exts)
            invariant NodeOk(t, n) && old(caps) <= t.all ==> caps <= t.all
            invariant forall c | c in caps && c !in old(caps) :: c in custom
            invariant forall k | 0 <= k < i :: custom[k] in caps
          {
            caps := caps + {custom[i]};
            i := i + 1;
          }
          if own.Some? {
            ok := Update(t, own.value);
            if !ok { return; }
          }
          ghost var c, e := caps, exts;
          ok := UpdateAll(t, results);
          if own.Some? && ok { Monotone(t, own.value, c, e, caps, exts); }
      }
    }

    /** One round over the capabilities present at its start: whether it added any. If it did
        not, every capability has what it needs. */
    method Round(t: Target) returns (ok: bool, changed: bool)
      requires TargetOk(t) && caps <= t.all
      modifies this
      ensures old(caps) <= caps <= t.all && old(exts) <= exts
      ensures ok ==> (changed <==> caps != old(caps))
      ensures forall c | c in caps && c !in old(caps) ::
        exists d :: d in old(caps) && d in t.needs && Names(t, t.needs[d], c)
      ensures forall e | e in exts && e !in old(exts) ::
        exists d :: d in old(caps) && d in t.needs && AsksExt(t, t.needs[d], e)
      ensures ok && !changed ==> forall c | c in caps :: Satisfied(t, t.needs[c], caps, exts)
      ensures !ok ==> exists c :: c in caps && Stuck(t, t.needs[c], caps, exts)
    {
      var start := caps;
      var todo := start;
      while todo != {}
        invariant todo <= start <= caps <= t.all && old(exts) <= exts
        invariant forall c | c in caps && c !in start ::
          exists d :: d in start && d in t.needs && Names(t, t.needs[d], c)
        invariant forall e | e in exts && e !in old(exts) ::
          exists d :: d in start && d in t.needs && AsksExt(t, t.needs[d], e)
        invariant forall c | c in start && c !in todo :: Satisfied(t, t.needs[c], caps, exts)
        decreases |todo|
      {
        var c :| c in todo;
        ghost var had, e := caps, exts;
        ok := Update(t, t.needs[c]);
        if !ok { return false, false; }
        forall d | d in start && d !in todo ensures Satisfied(t, t.needs[d], caps, exts) {
          Monotone(t, t.needs[d], had, e, caps, exts);
        }
        todo := todo - {c};
      }
      ok, changed := true, caps != start;
    }

    /** The pass. It ends, and unless it panics every node of the module and every capability
        it declares has a member of each any-of set, none of them excluded. */
    method Run(t: Target, nodes: seq<Node>) returns (ok: bool)
      requires TargetOk(t) && caps <= t.all && forall n | n in nodes :: NodeOk(t, n)
      modifies this
      ensures old(caps) <= caps <= t.all && old(exts) <= exts
      ensures ok ==> forall n | n in nodes :: NodeSatisfied(t, n, caps, exts)
      ensures ok ==> forall c | c in caps :: Satisfied(t, t.needs[c], caps, exts)
      ensures !ok ==>
        || (exists n :: n in nodes && NodeStuck(t, n, caps, exts))
        || (exists c :: c in caps && Stuck(t, t.needs[c], caps, exts))
      ensures exists rank: nat :: AllDerived(t, nodes, old(caps), rank, caps)
      ensures ok ==> forall r | Asked(t, nodes, caps, r) && Lacks(t, r) :: ExtsPresent(r, exts)
      ensures ExtsNeeded(t, nodes, caps, old(exts), exts)
    {
      ok := Walk(t, nodes);
      ghost var rank: nat := 0;
      assert AllDerived(t, nodes, old(caps), rank, caps);
      if !ok { return; }
      ghost var walkedCaps, walkedExts := caps, exts;
      var changed := true;
      while changed
        invariant walkedCaps <= caps <= t.all && walkedExts <= exts
        invariant !changed ==> forall c | c in caps :: Satisfied(t, t.needs[c], caps, exts)
        invariant AllDerived(t, nodes, old(caps), rank, caps)
        invariant ExtsNeeded(t, nodes, caps, old(exts), exts)
        decreases |t.all - caps|, changed
      {
        ghost var before, had := caps, exts;
        ok, changed := Round(t);
        RoundExts(t, nodes, before, caps, old(exts), had, exts);
        RoundDerived(t, nodes, old(caps), rank, before, caps);
        rank := rank + 1;
        if !ok { return; }
        if changed { Smaller(t.all, before, caps); }
      }
      forall n | n in nodes ensures NodeSatisfied(t, n, caps, exts) {
        NodeMonotone(t, n, walkedCaps, walkedExts, caps, exts);
      }
      forall r | Asked(t, nodes, caps, r) && Lacks(t, r) ensures ExtsPresent(r, exts) {
        AskedSatisfied(t, nodes, caps, exts, r);
      }
    }

    method Walk(t: Target, nodes: seq<Node>) returns (ok: bool)
      requires caps <= t.all && forall n | n in nodes :: NodeOk(t, n)
      modifies this
      ensures old(caps) <= caps <= t.all && old(exts) <= exts
      ensures ok ==> forall n | n in nodes :: NodeSatisfied(t, n, caps, exts)
      ensures !ok ==> exists n :: n in nodes && NodeStuck(t, n, caps, exts)
      ensures forall c | c in caps && c !in old(caps) :: exists i :: 0 <= i < |nodes| && NodeNames(t, nodes[i], c)
      ensures forall e | e in exts && e !in old(exts) :: exists i :: 0 <= i < |nodes| && NodeAsksExt(t, nodes[i], e)
    {
      var i := 0;
      while i < |nodes|
        invariant 0 <= i <= |nodes| && old(caps) <= caps <= t.all && old(exts) <= exts
        invariant forall c | c in caps && c !in old(caps) :: exists i :: 0 <= i < |nodes| && NodeNames(t, nodes[i], c)
        invariant forall e | e in exts && e !in old(exts) :: exists i :: 0 <= i < |nodes| && NodeAsksExt(t, nodes[i], e)
        invariant forall k | 0 <= k < i :: NodeSatisfied(t, nodes[k], caps, exts)
      {
        ghost var c, e := caps, exts;
        assert NodeOk(t, nodes[i]);
        ok := Visit(t, nodes[i]);
        if !ok { return; }
        forall k | 0 <= k < i ensures NodeSatisfied(t, nodes[k], caps, exts) {
          NodeMonotone(t, nodes[k], c, e, caps, exts);
        }
        i := i + 1;
      }
      ok := true;
    }
  }

  lemma Smaller(all: set<Cap>, before: set<Cap>, after: set<Cap>)
    requires before < after <= all
    ensures |all - after| < |all - before|
  {
    var c :| c in after && c !in before;
    assert all - after <= (all - before) - {c};
    SubsetSize(all - after, (all - before) - {c});
  }

  lemma {:induction false} SubsetSize(a: set<Cap>, b: set<Cap>)
    requires a <= b
    ensures |a| <= |b|
  {
    if a != {} {
      var x :| x in a;
      SubsetSize(a - {x}, b - {x});
    }
  }
}
