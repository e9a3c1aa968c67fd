/**
 The straight chain control-flow linearization produces, block by block.

 Action block number `i` is guarded by `Predicate(i)`, which compares the mask cell with
 the id of its action and either runs it or falls through to `Predicate(i + 1)`; every
 action falls through to the next predicate after storing the id of its branch target.
 */
module LinearForm {
  import opened Common
  import opened IR
  import opened PathAnalysis
  import opened ExitUnification

  /** What the pass needs: one entry that branches two ways, no cycle, no dead block, no code
      of the pass itself, one return block and at most one unreachable block, and for every
      other block a way on that is not the unreachable block. */
  ghost predicate Linearizable(f: Function) {
    && Dag(f) && Divides(f)
    && (forall b | b in f.code :: b.Orig? && f.code[b].mask == NoStore && !f.code[b].term.MaskBr?)
    && |Returns(f.code, f.layout)| == 1
    && |Unreachables(f.code, f.layout)| <= 1
    && (forall b {:trigger Continues(f.code, b)} | b in f.code && Succs(f.code[b]) != [] :: Continues(f.code, b))
    && forall b {:trigger TwoWayPhi(f.code, b)} | b in f.code :: TwoWayPhi(f.code, b)
  }

  /** Some way on from `b` is not the unreachable block. */
  ghost predicate Continues(g: Code, b: BlockId) {
    b in g && exists s :: s in Succs(g[b]) && !IsUnreachable(g, s)
  }

  /** A phi, where there is one, picks between two different predecessors; its values come from blocks of
      the program. */
  ghost predicate TwoWayPhi(g: Code, v: BlockId)
    requires v in g
  {
    var phi := g[v].phi;
    phi != [] ==>
      && |phi| == 2
      && phi[0].from != phi[1].from
      && phi[0].src.Orig? && phi[1].src.Orig?
      && forall u :: IsEdge(g, u, v) <==> u == phi[0].from || u == phi[1].from
  }

  // ----- the action blocks -----

  function Without(g: Code, order: seq<BlockId>): (r: seq<BlockId>)
    ensures forall b :: b in r <==> b in order && !IsUnreachable(g, b)
  {
    if order == [] then []
    else if IsUnreachable(g, order[0]) then Without(g, order[1..])
    else [order[0]] + Without(g, order[1..])
  }

  /** Blocks to guard, in execution order: all but the entry and the unreachable block. */
  ghost function Actions(f: Function): (r: seq<BlockId>)
    requires Dag(f)
  {
    Without(f.code, OrderOf(f)[1..])
  }

  /** Leaving blocks out keeps the order of the rest. */
  lemma {:induction false} WithoutKeepsOrder(g: Code, s: seq<BlockId>, a: nat, b: nat) returns (p: nat, q: nat)
    requires a < b < |Without(g, s)|
    ensures p < q < |s| && s[p] == Without(g, s)[a] && s[q] == Without(g, s)[b]
  {
    if IsUnreachable(g, s[0]) {
      p, q := WithoutKeepsOrder(g, s[1..], a, b);
      p, q := p + 1, q + 1;
    } else if a == 0 {
      assert Without(g, s)[b] in Without(g, s[1..]);
      q :| 0 <= q < |s[1..]| && s[1..][q] == Without(g, s)[b];
      p, q := 0, q + 1;
    } else {
      p, q := WithoutKeepsOrder(g, s[1..], a - 1, b - 1);
      p, q := p + 1, q + 1;
    }
  }

  /** Where an action sits in the whole order. */
  ghost function PositionOf(f: Function, b: BlockId): (p: nat)
    requires Dag(f) && b in f.code
    ensures p < |OrderOf(f)| && OrderOf(f)[p] == b
  {
    assert b in OrderOf(f);
    var p :| 0 <= p < |OrderOf(f)| && OrderOf(f)[p] == b;
    p
  }

  lemma ActionsInOrder(f: Function, a: nat, b: nat)
    requires Dag(f) && a < b < |Actions(f)|
    ensures Actions(f)[a] in f.code && Actions(f)[b] in f.code
    ensures 0 < PositionOf(f, Actions(f)[a]) < PositionOf(f, Actions(f)[b])
  {
    var order := OrderOf(f);
    var p, q := WithoutKeepsOrder(f.code, order[1..], a, b);
    assert order[1 + p] == Actions(f)[a] && order[1 + q] == Actions(f)[b];
  }

  lemma ActionsCover(f: Function, b: BlockId) returns (i: nat)
    requires Dag(f) && b in f.code && b != f.layout[0] && !IsUnreachable(f.code, b)
    ensures i < |Actions(f)| && Actions(f)[i] == b
  {
    var order := OrderOf(f);
    assert b in order;
    var k :| 0 <= k < |order| && order[k] == b;
    assert order[1..][k - 1] == b;
    assert b in Actions(f);
    i :| 0 <= i < |Actions(f)| && Actions(f)[i] == b;
  }

  lemma ActionsDistinct(f: Function)
    requires Dag(f)
    ensures Distinct(Actions(f)) && f.layout[0] !in Actions(f)
    ensures forall b | b in Actions(f) :: b in f.code && !IsUnreachable(f.code, b)
  {
    forall i, j | 0 <= i < j < |Actions(f)|
      ensures Actions(f)[i] != Actions(f)[j]
    {
      ActionsInOrder(f, i, j);
    }
    assert OrderOf(f) == [f.layout[0]] + OrderOf(f)[1..];
  }

  ghost predicate NoClash(ids: map<BlockId, int>, x: BlockId, v: BlockId) {
    x in ids && v in ids && ids[x] != ids[v]
  }

  lemma NoClashBetween(f: Function, u: BlockId, x: BlockId, v: BlockId)
    requires Dag(f) && Divides(f) && IsEdge(f.code, u, v) && x in f.code && v in f.code
    requires PositionOf(f, u) < PositionOf(f, x) < PositionOf(f, v)
    ensures NoClash(FinalIds(f).of, x, v)
  {
    IdsDoNotMisfire(f, PositionOf(f, u), PositionOf(f, x), PositionOf(f, v));
  }

  /** An action is placed after all the blocks that branch to it. */
  lemma ActionEdgeForward(f: Function, i: nat, k: nat)
    requires Dag(f) && i < |Actions(f)| && k < |Actions(f)|
    requires Actions(f)[i] in f.code && IsEdge(f.code, Actions(f)[i], Actions(f)[k])
    ensures i < k
  {
    if k < i {
      ActionsInOrder(f, k, i);
    }
  }

  /** Everything later proofs use about the chain. */
  ghost predicate Chain(g: Code, entry: BlockId, acts: seq<BlockId>, ids: map<BlockId, int>) {
    && ProgramCode(g)
    && ChainBlocks(g, entry, acts)
    && ChainExits(g, acts)
    && (forall b | b in acts :: b in ids && TwoWayPhi(g, b))
    && EdgesForward(g, acts)
    && ClearEdges(g, entry, acts, ids)
  }

  /** Code the pass has not touched: no store to the mask cell and no branch on it. */
  ghost predicate ProgramCode(g: Code) {
    forall b | b in g :: b.Orig? && g[b].mask == NoStore && !g[b].term.MaskBr?
  }

  ghost predicate ChainBlocks(g: Code, entry: BlockId, acts: seq<BlockId>) {
    && entry in g && entry !in acts && g[entry].phi == [] && g[entry].term.CondBr?
    && acts != [] && Distinct(acts)
    && (forall b | b in acts :: b in g)
    && (forall b | b in g && b != entry && b !in acts :: IsUnreachable(g, b))
    && (forall u, v | IsEdge(g, u, v) :: v in acts || IsUnreachable(g, v))
  }

  /** The last action returns and every other action branches. */
  ghost predicate ChainExits(g: Code, acts: seq<BlockId>)
    requires acts != [] && forall b | b in acts :: b in g
  {
    && IsReturn(g, acts[|acts| - 1])
    && forall i | 0 <= i < |acts| - 1 :: Branches(g, acts[i])
  }

  predicate Branches(g: Code, b: BlockId) {
    b in g && (g[b].term.Br? || g[b].term.CondBr?)
  }

  ghost predicate ClearEdges(g: Code, entry: BlockId, acts: seq<BlockId>, ids: map<BlockId, int>) {
    && (forall k | 0 <= k < |acts| && IsEdge(g, entry, acts[k]) :: ClearPath(acts, ids, 0, k))
    && (forall i, k | 0 <= i < |acts| && 0 <= k < |acts| && IsEdge(g, acts[i], acts[k]) :: ClearPath(acts, ids, i + 1, k))
  }

  ghost predicate EdgesForward(g: Code, acts: seq<BlockId>) {
    forall i, k | 0 <= i < |acts| && 0 <= k < |acts| && IsEdge(g, acts[i], acts[k]) :: i < k
  }

  /** No action from `j` up to `k` answers to the id of action `k`. */
  ghost predicate ClearPath(acts: seq<BlockId>, ids: map<BlockId, int>, j: int, k: nat)
    requires k < |acts|
  {
    forall m | 0 <= j <= m < k :: NoClash(ids, acts[m], acts[k])
  }

  lemma ClearFromEntry(f: Function, k: nat)
    requires Dag(f) && Divides(f) && k < |Actions(f)| && IsEdge(f.code, f.layout[0], Actions(f)[k])
    ensures ClearPath(Actions(f), FinalIds(f).of, 0, k)
  {
    var acts := Actions(f);
    forall m | 0 <= m < k
      ensures NoClash(FinalIds(f).of, acts[m], acts[k])
    {
      ActionsInOrder(f, m, k);
      NoClashBetween(f, f.layout[0], acts[m], acts[k]);
    }
  }

  lemma ClearFromAction(f: Function, i: nat, k: nat)
    requires Dag(f) && Divides(f) && i < |Actions(f)| && k < |Actions(f)|
    requires Actions(f)[i] in f.code && IsEdge(f.code, Actions(f)[i], Actions(f)[k])
    ensures ClearPath(Actions(f), FinalIds(f).of, i + 1, k)
  {
    var acts := Actions(f);
    forall m | i + 1 <= m < k
      ensures NoClash(FinalIds(f).of, acts[m], acts[k])
    {
      ActionsInOrder(f, i, m);
      ActionsInOrder(f, m, k);
      NoClashBetween(f, acts[i], acts[m], acts[k]);
    }
  }

  /** A block with somewhere to go is not the last action. */
  lemma NotLast(f: Function, i: nat)
    requires Linearizable(f) && i < |Actions(f)|
    requires Actions(f)[i] in f.code && Succs(f.code[Actions(f)[i]]) != []
    ensures i < |Actions(f)| - 1
  {
    var g, acts := f.code, Actions(f);
    assert Continues(g, acts[i]);
    var s :| s in Succs(g[acts[i]]) && !IsUnreachable(g, s);
    assert IsEdge(g, acts[i], s);
    var k := ActionsCover(f, s);
    ActionEdgeForward(f, i, k);
  }

  lemma OneReturn(f: Function, a: BlockId, b: BlockId)
    requires Shaped(f) && |Returns(f.code, f.layout)| == 1 && IsReturn(f.code, a) && IsReturn(f.code, b)
    ensures a == b
  {
    InReturns(f.code, f.layout);
    assert a in Returns(f.code, f.layout) && b in Returns(f.code, f.layout);
  }

  lemma ReturnInActions(f: Function)
    requires Linearizable(f)
    ensures Actions(f) != []
  {
    var ret := Returns(f.code, f.layout)[0];
    InReturns(f.code, f.layout);
    assert ret in Returns(f.code, f.layout);
    EntryDivides(f);
    var r := ActionsCover(f, ret);
  }

  /** An action with nowhere to go returns. */
  lemma DeadEndReturns(f: Function, b: BlockId)
    requires ProgramCode(f.code) && b in f.code && !IsUnreachable(f.code, b) && Succs(f.code[b]) == []
    ensures IsReturn(f.code, b)
  {
  }

  /** The chain ends at the return block. */
  lemma LastReturns(f: Function)
    requires Linearizable(f)
    ensures Actions(f) != [] && IsReturn(f.code, Actions(f)[|Actions(f)| - 1])
  {
    ReturnInActions(f);
    ActionsDistinct(f);
    var last := Actions(f)[|Actions(f)| - 1];
    assert last in Actions(f);
    if Succs(f.code[last]) != [] {
      NotLast(f, |Actions(f)| - 1);
    }
    DeadEndReturns(f, last);
  }

  lemma EntryDivides(f: Function)
    requires Linearizable(f)
    ensures f.layout[0] in f.code && f.code[f.layout[0]].term.CondBr?
  {
    assert f.layout[0] in f.layout;
  }

  lemma OneReturnAction(f: Function, i: nat)
    requires Linearizable(f) && i < |Actions(f)| && IsReturn(f.code, Actions(f)[i])
    ensures i == |Actions(f)| - 1
  {
    LastReturns(f);
    OneReturn(f, Actions(f)[i], Actions(f)[|Actions(f)| - 1]);
    ActionsDistinct(f);
  }

  lemma OthersBranch(f: Function, i: nat)
    requires Linearizable(f) && i < |Actions(f)| - 1
    ensures Branches(f.code, Actions(f)[i])
  {
    ActionsDistinct(f);
    assert Actions(f)[i] in Actions(f);
    if Succs(f.code[Actions(f)[i]]) == [] {
      DeadEndReturns(f, Actions(f)[i]);
      OneReturnAction(f, i);
    }
  }

  lemma PhiHasPred(g: Code, v: BlockId)
    requires v in g && TwoWayPhi(g, v) && g[v].phi != []
    ensures IsEdge(g, g[v].phi[0].from, v)
  {
  }

  lemma EntryHasNoPhi(f: Function)
    requires Linearizable(f)
    ensures f.code[f.layout[0]].phi == []
  {
    var g, entry := f.code, f.layout[0];
    EntryDivides(f);
    assert TwoWayPhi(g, entry);
    if g[entry].phi != [] {
      PhiHasPred(g, entry);
    }
  }

  lemma BlocksOf(f: Function)
    requires Linearizable(f)
    ensures ChainBlocks(f.code, f.layout[0], Actions(f))
  {
    var g, acts, entry := f.code, Actions(f), f.layout[0];
    ActionsDistinct(f);
    LastReturns(f);
    EntryDivides(f);
    EntryHasNoPhi(f);
    forall b | b in g && b != entry && b !in acts
      ensures IsUnreachable(g, b)
    {
      if !IsUnreachable(g, b) {
        var k := ActionsCover(f, b);
      }
    }
    forall u, v | IsEdge(g, u, v)
      ensures v in acts || IsUnreachable(g, v)
    {
      assert v in g && v != entry;
    }
  }

  lemma EdgesOf(f: Function)
    requires Linearizable(f) && forall b | b in Actions(f) :: b in f.code
    ensures EdgesForward(f.code, Actions(f)) && ClearEdges(f.code, f.layout[0], Actions(f), FinalIds(f).of)
  {
    var g, acts, entry := f.code, Actions(f), f.layout[0];
    forall i, k | 0 <= i < |acts| && 0 <= k < |acts| && IsEdge(g, acts[i], acts[k])
      ensures i < k && ClearPath(acts, FinalIds(f).of, i + 1, k)
    {
      ActionEdgeForward(f, i, k);
      ClearFromAction(f, i, k);
    }
    forall k | 0 <= k < |acts| && IsEdge(g, entry, acts[k])
      ensures ClearPath(acts, FinalIds(f).of, 0, k)
    {
      ClearFromEntry(f, k);
    }
  }

  lemma ChainOf(f: Function)
    requires Linearizable(f)
    ensures Chain(f.code, f.layout[0], Actions(f), FinalIds(f).of)
  {
    BlocksOf(f);
    EdgesOf(f);
    AllHaveIdsIff(f);
    LastReturns(f);
    forall i | 0 <= i < |Actions(f)| - 1
      ensures Branches(f.code, Actions(f)[i])
    {
      OthersBranch(f, i);
    }
    forall b | b in Actions(f)
      ensures TwoWayPhi(f.code, b)
    {
    }
  }

  // ----- the generated code -----

  /** The id the map holds for `b`; numbering starts at 1. */
  function IdOf(ids: map<BlockId, int>, b: BlockId): int {
    if b in ids then ids[b] else 0
  }

  function IndexIn(s: seq<BlockId>, b: BlockId): (i: int)
    ensures b in s ==> 0 <= i < |s| && s[i] == b
    ensures b !in s ==> i == -1
  {
    if s == [] then -1
    else if s[0] == b then 0
    else
      var i := IndexIn(s[1..], b);
      if i < 0 then -1 else i + 1
  }

  /** A branch first stores the id of the block it goes to. */
  function WithStore(b: Block, ids: map<BlockId, int>): Block {
    match b.term
    case Br(t) => b.(mask := StoreId(IdOf(ids, t)))
    case CondBr(c, t, f) => b.(mask := SelectId(c, IdOf(ids, t), IdOf(ids, f)))
    case _ => b
  }

  /** The phi of an action moves to its predicate: the first incoming value on the edge from
      the predicate before, the second on the edge from the action before. */
  function PredicatePhi(phi: seq<Incoming>, acts: seq<BlockId>, i: nat): seq<Incoming>
    requires i < |acts|
  {
    if |phi| != 2 || i == 0 then []
    else [Incoming(phi[0].val, phi[0].src, Predicate(i - 1)), Incoming(phi[1].val, phi[1].src, acts[i - 1])]
  }

  /** What is left in the action reads the register of the phi in its predicate. */
  function ActionPhi(phi: seq<Incoming>, i: nat): seq<Incoming> {
    if phi == [] then [] else [Incoming(PHI_REGISTER, Predicate(i), Predicate(i))]
  }

  function PredicateBlock(g: Code, acts: seq<BlockId>, ids: map<BlockId, int>, i: nat): Block
    requires i < |acts| && acts[i] in g
  {
    Block(PredicatePhi(g[acts[i]].phi, acts, i), KEEP_MEMORY, NoStore,
          if i == |acts| - 1 then Br(acts[i]) else MaskBr(IdOf(ids, acts[i]), acts[i], Predicate(i + 1)))
  }

  function ActionBlock(b: Block, ids: map<BlockId, int>, n: nat, i: nat): Block {
    var c := WithStore(b, ids).(phi := ActionPhi(b.phi, i));
    if i + 1 < n then c.(term := Br(Predicate(i + 1))) else c
  }

  function LinearBlock(g: Code, entry: BlockId, acts: seq<BlockId>, ids: map<BlockId, int>, b: BlockId): Block
    requires b in g || (b.Predicate? && 0 <= b.i < |acts|)
    requires forall a | a in acts :: a in g
  {
    if b !in g then assert acts[b.i] in acts; PredicateBlock(g, acts, ids, b.i)
    else if b == entry then WithStore(g[b], ids).(term := Br(Predicate(0)))
    else if b in acts then ActionBlock(g[b], ids, |acts|, IndexIn(acts, b))
    else WithStore(g[b], ids)
  }

  function LinearCode(g: Code, entry: BlockId, acts: seq<BlockId>, ids: map<BlockId, int>): Code
    requires forall a | a in acts :: a in g
  {
    map b | b in g.Keys + (set i | 0 <= i < |acts| :: Predicate(i)) :: LinearBlock(g, entry, acts, ids, b)
  }

  /** The generated code block by block, which is how later proofs read it. */
  ghost predicate Generated(l: Code, g: Code, entry: BlockId, acts: seq<BlockId>, ids: map<BlockId, int>)
    requires entry in g && forall b | b in acts :: b in g
  {
    && entry in l && l[entry] == WithStore(g[entry], ids).(term := Br(Predicate(0)))
    && (forall i | 0 <= i < |acts| :: GeneratedAt(l, g, acts, ids, i))
  }

  ghost predicate GeneratedAt(l: Code, g: Code, acts: seq<BlockId>, ids: map<BlockId, int>, i: nat)
    requires i < |acts| && acts[i] in g
  {
    && acts[i] in l && l[acts[i]] == ActionBlock(g[acts[i]], ids, |acts|, i)
    && Predicate(i) in l && l[Predicate(i)] == PredicateBlock(g, acts, ids, i)
  }

  lemma LinearIsGenerated(g: Code, entry: BlockId, acts: seq<BlockId>, ids: map<BlockId, int>)
    requires ProgramCode(g) && ChainBlocks(g, entry, acts)
    ensures Generated(LinearCode(g, entry, acts, ids), g, entry, acts, ids)
  {
    forall i | 0 <= i < |acts|
      ensures GeneratedAt(LinearCode(g, entry, acts, ids), g, acts, ids, i)
    {
      assert acts[i] in acts;
      assert IndexIn(acts, acts[i]) == i;
      assert Predicate(i) !in g;
    }
  }
}
