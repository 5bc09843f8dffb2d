/**
 Blocks of operations under construction: insertion points, terminators, and what the
 blocks mean with a hole at the insertion point.
 */
module ScopeBlocks {
  import opened Options
  import opened Lowering

  /** Operations; regions are blocks, named by position. Block names are identities only. */
  datatype Node =
    | NOp(a: nat)
    | NDeclare(f: nat)
    | NClear(f: nat)
    | NBump(cell: nat)
    | NGuard(f: nat, thn: nat, els: nat)
    | NIf(c: Cond, thn: nat, els: nat)
    | NWhile(c: Cond, onBreak: Option<nat>, onReturn: bool, body: nat)
    | NRange(r: Span, body: nat)
    | NRangeWhile(r: Span, cell: nat, onBreak: Option<nat>, onReturn: bool, body: nat)
    | NYield

  type Blocks = seq<seq<Node>>

  /** Regions of a node in block `b` come after it and exist. */
  predicate Inside(n: Node, b: nat, size: nat) {
    match n
    case NGuard(_, t, e) => b < t < size && b < e < size
    case NIf(_, t, e) => b < t < size && b < e < size
    case NWhile(_, _, _, body) => b < body < size
    case NRange(_, body) => b < body < size
    case NRangeWhile(_, _, _, _, body) => b < body < size
    case _ => true
  }

  /** A terminator can only be last, so there is at most one. */
  predicate OneEnd(nodes: seq<Node>) { forall i | 0 <= i < |nodes| - 1 :: nodes[i] != NYield }

  predicate Ends(nodes: seq<Node>) { nodes != [] && nodes[|nodes| - 1] == NYield }

  ghost predicate WF(bs: Blocks) {
    && (forall b | 0 <= b < |bs| :: OneEnd(bs[b]))
    && (forall b, i | 0 <= b < |bs| && 0 <= i < |bs[b]| :: Inside(bs[b][i], b, |bs|))
  }

  /** An insertion point: at the end of an open block, or just before the terminator. */
  predicate Cursor(bs: Blocks, b: nat, pos: nat) {
    && b < |bs| && pos <= |bs[b]|
    && (pos == |bs[b]| || (pos == |bs[b]| - 1 && bs[b][pos] == NYield))
    && (forall i | 0 <= i < pos :: bs[b][i] != NYield)
  }

  /** What a block means from `pos` on, with `k` in the hole at `(hb, hp)`. */
  ghost function Decode(bs: Blocks, b: nat, pos: nat, hb: nat, hp: nat, k: IrBlock): IrBlock
    requires WF(bs) && b < |bs| && pos <= |bs[b]|
    decreases |bs| - b, |bs[b]| - pos
  {
    if b == hb && pos == hp then k
    else if pos == |bs[b]| || bs[b][pos] == NYield then INil
    else ICons(DecodeNode(bs, b, bs[b][pos], hb, hp, k), Decode(bs, b, pos + 1, hb, hp, k))
  }

  ghost function DecodeNode(bs: Blocks, b: nat, n: Node, hb: nat, hp: nat, k: IrBlock): Ir
    requires WF(bs) && b < |bs| && Inside(n, b, |bs|) && n != NYield
    decreases |bs| - b, 0
  {
    match n
    case NOp(a) => Op(a)
    case NDeclare(f) => Declare(f)
    case NClear(f) => Clear(f)
    case NBump(c) => Bump(c)
    case NGuard(f, t, _) => Guard(f, Decode(bs, t, 0, hb, hp, k))
    case NIf(c, t, e) => IfOp(c, Decode(bs, t, 0, hb, hp, k), Decode(bs, e, 0, hb, hp, k))
    case NWhile(c, ob, or, body) => WhileOp(c, ob, or, Decode(bs, body, 0, hb, hp, k))
    case NRange(r, body) => RangeOp(r, Decode(bs, body, 0, hb, hp, k))
    case NRangeWhile(r, cell, ob, or, body) => RangeWhile(r, cell, ob, or, Decode(bs, body, 0, hb, hp, k))
  }

  // ---------------------------------------------------------------- building on

  /** `cs` was made from `bs` by adding blocks and by inserting at or after `(b, pos)`. */
  ghost predicate Extends(bs: Blocks, b: nat, pos: nat, cs: Blocks) {
    && b < |bs| <= |cs| && pos <= |bs[b]| && pos <= |cs[b]|
    && (forall x | 0 <= x < |bs| && x != b :: cs[x] == bs[x])
    && (forall i | 0 <= i < pos :: cs[b][i] == bs[b][i])
  }

  /** From insertion point `(b, pos)` to `(b', pos')`: every block left behind is complete. */
  ghost predicate Reached(bs: Blocks, b: nat, pos: nat, cs: Blocks, b': nat, pos': nat) {
    && WF(cs) && Extends(bs, b, pos, cs) && Cursor(cs, b', pos')
    && ((b' == b && pos' >= pos) || b' >= |bs|)
    && (forall x | |bs| <= x < |cs| && x != b' :: Ends(cs[x]))
    && (b' != b ==> Ends(cs[b]) && Ends(cs[b']))
    && (b' == b ==> (Ends(cs[b]) <==> Ends(bs[b])))
  }

  lemma {:induction false} ReachTrans(bs: Blocks, b: nat, p: nat, cs: Blocks, c: nat, q: nat, ds: Blocks, d: nat,
                                      r: nat)
    requires Reached(bs, b, p, cs, c, q) && Reached(cs, c, q, ds, d, r)
    ensures Reached(bs, b, p, ds, d, r)
  {
  }

  /** The part of the blocks from `lo` to `hi` does not change and does not look outside, so
      its meaning does not change. */
  lemma {:induction false} Frame(bs: Blocks, cs: Blocks, hi: nat, b: nat, pos: nat, hb: nat, hp: nat, k: IrBlock,
                                 gb: nat, gp: nat, j: IrBlock)
    requires WF(bs) && WF(cs) && b < hi <= |bs| && hi <= |cs| && pos <= |bs[b]|
    requires !(b <= hb < hi) && !(b <= gb < hi) && forall x | b <= x < hi :: cs[x] == bs[x]
    requires forall x, i | b <= x < hi && 0 <= i < |bs[x]| :: Inside(bs[x][i], x, hi)
    ensures Decode(bs, b, pos, hb, hp, k) == Decode(cs, b, pos, gb, gp, j)
    decreases hi - b, |bs[b]| - pos
  {
    if pos < |bs[b]| && bs[b][pos] != NYield {
      assert Inside(bs[b][pos], b, hi);
      match bs[b][pos] {
        case NGuard(_, t, _) => Frame(bs, cs, hi, t, 0, hb, hp, k, gb, gp, j);
        case NIf(_, t, e) =>
          Frame(bs, cs, hi, t, 0, hb, hp, k, gb, gp, j);
          Frame(bs, cs, hi, e, 0, hb, hp, k, gb, gp, j);
        case NWhile(_, _, _, body) => Frame(bs, cs, hi, body, 0, hb, hp, k, gb, gp, j);
        case NRange(_, body) => Frame(bs, cs, hi, body, 0, hb, hp, k, gb, gp, j);
        case NRangeWhile(_, _, _, _, body) => Frame(bs, cs, hi, body, 0, hb, hp, k, gb, gp, j);
        case _ =>
      }
      Frame(bs, cs, hi, b, pos + 1, hb, hp, k, gb, gp, j);
    }
  }

  /** The hole moved on: what was built since fills the old hole. */
  lemma {:induction false} Plug(bs: Blocks, cs: Blocks, b: nat, pos: nat, hb: nat, hp: nat, gb: nat, gp: nat,
                                k: IrBlock)
    requires WF(bs) && WF(cs) && Cursor(bs, hb, hp) && Extends(bs, hb, hp, cs)
    requires b < |bs| && pos <= |bs[b]| && (b == hb ==> pos <= hp)
    requires (gb == hb && gp >= hp) || gb >= |bs|
    ensures Decode(cs, b, pos, gb, gp, k) == Decode(bs, b, pos, hb, hp, Decode(cs, hb, hp, gb, gp, k))
    decreases |bs| - b, |bs[b]| - pos
  {
    if b == hb && pos == hp {
    } else if pos < |bs[b]| && bs[b][pos] != NYield {
      assert cs[b][pos] == bs[b][pos];
      match bs[b][pos] {
        case NGuard(_, t, _) => Plug(bs, cs, t, 0, hb, hp, gb, gp, k);
        case NIf(_, t, e) =>
          Plug(bs, cs, t, 0, hb, hp, gb, gp, k);
          Plug(bs, cs, e, 0, hb, hp, gb, gp, k);
        case NWhile(_, _, _, body) => Plug(bs, cs, body, 0, hb, hp, gb, gp, k);
        case NRange(_, body) => Plug(bs, cs, body, 0, hb, hp, gb, gp, k);
        case NRangeWhile(_, _, _, _, body) => Plug(bs, cs, body, 0, hb, hp, gb, gp, k);
        case _ =>
      }
      Plug(bs, cs, b, pos + 1, hb, hp, gb, gp, k);
    }
  }

  // -------------------------------------------------------------- single operations

  function Insert(bs: Blocks, b: nat, pos: nat, n: Node): Blocks
    requires b < |bs| && pos <= |bs[b]|
  {
    bs[b := bs[b][..pos] + [n] + bs[b][pos..]]
  }

  /** Inserting an operation is inserting its meaning. */
  lemma {:induction false} Inserts(bs: Blocks, b: nat, pos: nat, n: Node, k: IrBlock)
    requires WF(bs) && Cursor(bs, b, pos) && Inside(n, b, |bs|) && n != NYield
    ensures Reached(bs, b, pos, Insert(bs, b, pos, n), b, pos + 1)
    ensures Decode(Insert(bs, b, pos, n), b, pos, b, pos + 1, k)
      == ICons(DecodeNode(Insert(bs, b, pos, n), b, n, b, pos + 1, k), k)
  {
    var cs := Insert(bs, b, pos, n);
    var nodes := cs[b];
    assert nodes[pos] == n;
    assert forall i | 0 <= i < |nodes| ::
      nodes[i] == if i < pos then bs[b][i] else if i == pos then n else bs[b][i - 1];
    assert forall x | 0 <= x < |bs| && x != b :: cs[x] == bs[x];
  }

  /** A fresh block; a guard's blocks already hold their terminator. */
  lemma {:induction false} Adds(bs: Blocks, b: nat, pos: nat, nodes: seq<Node>)
    requires WF(bs) && Cursor(bs, b, pos) && nodes == [NYield]
    ensures Reached(bs, b, pos, bs + [nodes], b, pos)
  {
  }

  function Terminated(bs: Blocks, b: nat, pos: nat): Blocks
    requires b < |bs| && pos <= |bs[b]|
  {
    if Ends(bs[b]) then bs else Insert(bs, b, pos, NYield)
  }

  /** Terminating at an insertion point changes no meaning: it closes the hole. */
  lemma {:induction false} Terminates(bs: Blocks, b: nat, pos: nat)
    requires WF(bs) && Cursor(bs, b, pos)
    ensures var cs := Terminated(bs, b, pos);
            WF(cs) && Extends(bs, b, pos, cs) && Ends(cs[b]) && |cs| == |bs|
    ensures forall gb: nat, gp, k | gb != b :: Decode(Terminated(bs, b, pos), b, pos, gb, gp, k) == INil
  {
    var cs := Terminated(bs, b, pos);
    if !Ends(bs[b]) {
      assert bs[b][pos..] == [];
      assert cs[b] == bs[b] + [NYield];
    }
  }

  /** A child block and all that was built in it are complete and mean `ir`. */
  ghost predicate Complete(bs: Blocks, t: nat, ir: IrBlock) {
    WF(bs) && t < |bs| && Decode(bs, t, 0, |bs|, 0, INil) == ir && forall x | t <= x < |bs| :: Ends(bs[x])
  }

  /** Terminating a child scope completes its block. */
  lemma {:induction false} Completes(bs: Blocks, t: nat, cs: Blocks, c: nat, q: nat, ir: IrBlock)
    requires |bs| == t + 1 && bs[t] == [] && WF(cs) && Reached(bs, t, 0, cs, c, q) && Decode(cs, t, 0, c, q, INil) == ir
    ensures Complete(Terminated(cs, c, q), t, ir)
  {
    var ds := Terminated(cs, c, q);
    Terminates(cs, c, q);
    Plug(cs, ds, t, 0, c, q, |ds|, 0, INil);
    assert Decode(ds, c, q, |ds|, 0, INil) == INil;
  }

  /** Later work elsewhere leaves a complete child as it is. */
  lemma {:induction false} StaysComplete(bs: Blocks, t: nat, ir: IrBlock, cs: Blocks, hb: nat, hp: nat, k: IrBlock)
    requires Complete(bs, t, ir) && WF(cs) && |bs| <= |cs| && (hb < t || hb >= |bs|)
    requires forall x | t <= x < |bs| :: cs[x] == bs[x]
    ensures Decode(cs, t, 0, hb, hp, k) == ir
  {
    Frame(bs, cs, |bs|, t, 0, |bs|, 0, INil, hb, hp, k);
  }

  /** For the scope around it, building a child adds complete blocks and nothing else. */
  lemma {:induction false} ChildBuilt(bs: Blocks, b: nat, pos: nat, cs: Blocks, c: nat, q: nat, ir: IrBlock)
    requires WF(bs) && Cursor(bs, b, pos) && Reached(bs + [[]], |bs|, 0, cs, c, q)
    requires Complete(Terminated(cs, c, q), |bs|, ir)
    ensures Reached(bs, b, pos, Terminated(cs, c, q), b, pos)
  {
    var ds := Terminated(cs, c, q);
    Terminates(cs, c, q);
    assert forall x | 0 <= x < |bs| :: (bs + [[]])[x] == bs[x];
    assert forall x | 0 <= x < |bs| :: ds[x] == bs[x];
  }

  // -------------------------------------------------------------------- predication

  function Predicated(bs: Blocks, b: nat, pos: nat, f: nat): Blocks
    requires b < |bs| && pos <= |bs[b]|
  {
    Terminated(Insert(bs + [[NYield]] + [[NYield]], b, pos, NGuard(f, |bs|, |bs| + 1)), b, pos + 1)
  }

  /** `predicate_on_flag`: everything inserted from now on goes under the guard, and no block
      gets a second terminator. */
  lemma {:induction false} Predicates(bs: Blocks, b: nat, pos: nat, f: nat)
    requires WF(bs) && Cursor(bs, b, pos)
    ensures Reached(bs, b, pos, Predicated(bs, b, pos, f), |bs|, 0)
    ensures forall k :: Decode(Predicated(bs, b, pos, f), b, pos, |bs|, 0, k) == ICons(Guard(f, k), INil)
  {
    var one, two := bs + [[NYield]], bs + [[NYield]] + [[NYield]];
    Adds(bs, b, pos, [NYield]);
    Adds(one, b, pos, [NYield]);
    ReachTrans(bs, b, pos, one, b, pos, two, b, pos);
    var n := NGuard(f, |bs|, |bs| + 1);
    Inserts(two, b, pos, n, INil);
    var cs := Insert(two, b, pos, n);
    ReachTrans(bs, b, pos, two, b, pos, cs, b, pos + 1);
    Enters(bs, b, pos, cs, f);
  }

  /** Terminating behind the guard and going on in its block. */
  lemma {:induction false} Enters(bs: Blocks, b: nat, pos: nat, cs: Blocks, f: nat)
    requires WF(bs) && Cursor(bs, b, pos) && Reached(bs, b, pos, cs, b, pos + 1) && |cs| == |bs| + 2
    requires cs[|bs|] == [NYield] && cs[|bs| + 1] == [NYield] && cs[b][pos] == NGuard(f, |bs|, |bs| + 1)
    ensures Reached(bs, b, pos, Terminated(cs, b, pos + 1), |bs|, 0)
    ensures var ds := Terminated(cs, b, pos + 1); forall k :: Decode(ds, b, pos, |bs|, 0, k) == ICons(Guard(f, k), INil)
  {
    Terminates(cs, b, pos + 1);
    var ds := Terminated(cs, b, pos + 1);
    assert ds[|bs|] == [NYield];
    GuardMeans(ds, b, pos, f, |bs|);
  }

  lemma {:induction false} GuardMeans(ds: Blocks, b: nat, pos: nat, f: nat, t: nat)
    requires WF(ds) && b < t && t + 1 < |ds| && pos + 2 == |ds[b]|
    requires ds[b][pos] == NGuard(f, t, t + 1) && ds[b][pos + 1] == NYield
    ensures forall k :: Decode(ds, b, pos, t, 0, k) == ICons(Guard(f, k), INil)
  {
    forall k ensures Decode(ds, b, pos, t, 0, k) == ICons(Guard(f, k), INil) {
      assert Decode(ds, b, pos + 1, t, 0, k) == INil;
      assert Decode(ds, t, 0, t, 0, k) == k;
    }
  }

  // --------------------------------------------------------------- early termination

  /** Terminate, then append one more operation and terminate again: what happens to the
      body of a plain range that may exit. */
  function EarlyStep(bs: Blocks, b: nat, pos: nat, f: nat): Blocks
    requires Cursor(bs, b, pos)
  {
    var cs := Terminated(bs, b, pos);
    var p := if Ends(bs[b]) then pos else pos + 1;
    Terminated(Insert(cs, b, p, NBump(f)), b, p + 1)
  }

  /** The block keeps a single terminator exactly when it already had one, with the insertion
      point in front of it. */
  lemma {:induction false} EarlyStepIff(bs: Blocks, b: nat, pos: nat, f: nat)
    requires Cursor(bs, b, pos)
    ensures OneEnd(EarlyStep(bs, b, pos, f)[b]) <==> Ends(bs[b])
  {
    var nodes := bs[b];
    var out := EarlyStep(bs, b, pos, f)[b];
    if Ends(nodes) {
      assert out == nodes[..pos] + [NBump(f)] + [NYield];
    } else {
      assert out == nodes + [NYield] + [NBump(f)] + [NYield];
      assert out[|nodes|] == NYield;
    }
  }
}
