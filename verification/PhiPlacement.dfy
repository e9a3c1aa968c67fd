/**
 Where moving a phi is right.

 A moved phi takes its first value on the edge from the predicate before and its second on
 the edge from the action just before.  That is right if the action just before is the
 second incoming block of the phi, which depends on the order of the blocks.
 */
module PhiPlacement {
  import opened Common
  import opened IR
  import opened DepthFirst
  import opened PathAnalysis
  import opened ExitUnification
  import opened LinearForm
  import opened Preservation

  // ----- the condition on phis is exact -----

  /** The edge on which control enters `Predicate(i)` after the block at `Before(j)` ran. */
  function Arrival(entry: BlockId, acts: seq<BlockId>, j: nat, i: nat): BlockId
    requires j <= i <= |acts|
  {
    if j == i then Before(entry, acts, i) else Predicate(i - 1)
  }

  /** Which incoming pair a phi picks on an edge. */
  function PickIndex(phi: seq<Incoming>, prev: BlockId): nat {
    if phi == [] || phi[0].from == prev then 0 else 1 + PickIndex(phi[1..], prev)
  }

  lemma {:induction false} PickIsIndex(phi: seq<Incoming>, prev: BlockId, mem: Memory, regs: map<BlockId, int>)
    requires PickIndex(phi, prev) < |phi|
    ensures var k := PickIndex(phi, prev); Pick(phi, prev, mem, regs) == phi[k].val(mem, Reg(regs, phi[k].src))
  {
    if phi[0].from != prev {
      PickIsIndex(phi[1..], prev, mem, regs);
    }
  }

  /** The moved phi agrees with the original on the edge from `Before(j)`. */
  ghost predicate PicksAlike(phi: seq<Incoming>, entry: BlockId, acts: seq<BlockId>, j: nat, i: nat)
    requires j <= i < |acts|
  {
    PickIndex(PredicatePhi(phi, acts, i), Arrival(entry, acts, j, i)) == PickIndex(phi, Before(entry, acts, j))
  }

  lemma PicksAlikeIff(phi: seq<Incoming>, entry: BlockId, acts: seq<BlockId>, j: nat, i: nat, k: nat)
    requires |phi| == 2 && phi[0].from != phi[1].from && j <= i < |acts| && i > 0 && acts[i - 1].Orig?
    requires k < 2 && Before(entry, acts, j) == phi[k].from
    ensures PicksAlike(phi, entry, acts, j, i) <==> (j == i) == (k == 1)
  {
    MovedPickIndex(phi, acts, i);
    TwoPickIndex(phi);
  }

  /** The moved phi of action `i` picks the pair the original picks, on every edge of the program into
      its block. */
  ghost predicate MovesRight(g: Code, entry: BlockId, acts: seq<BlockId>, i: nat)
    requires i < |acts| && acts[i] in g
  {
    forall j | 0 <= j <= i && IsEdge(g, Before(entry, acts, j), acts[i]) :: PicksAlike(g[acts[i]].phi, entry, acts, j, i)
  }

  /** A moved phi picks right exactly when its second incoming block is the action just before in the
      chain. */
  lemma MovedPhiRightIff(f: Function, i: nat)
    requires Linearizable(f) && i < |Actions(f)| && Actions(f)[i] in f.code && f.code[Actions(f)[i]].phi != []
    ensures var phi := f.code[Actions(f)[i]].phi;
            && |phi| == 2 && i > 0
            && (MovesRight(f.code, f.layout[0], Actions(f), i) <==> phi[1].from == Actions(f)[i - 1])
  {
    ChainOf(f);
    hide Linearizable, Actions, FinalIds, MovesRight;
    PhiNotFirst(f.code, f.layout[0], Actions(f), FinalIds(f).of, i);
    MovedPhiRight(f.code, f.layout[0], Actions(f), FinalIds(f).of, i);
  }

  /** A function's phis are placed exactly when each of them moves right. */
  lemma PhisPlacedIff(f: Function)
    requires Linearizable(f)
    ensures PhisPlaced(f.code, Actions(f)) <==>
            forall i | 0 <= i < |Actions(f)| && Actions(f)[i] in f.code && f.code[Actions(f)[i]].phi != [] ::
              MovesRight(f.code, f.layout[0], Actions(f), i)
  {
    DagOf(f);
    hide *;
    forall i | 0 <= i < |Actions(f)| && Actions(f)[i] in f.code && f.code[Actions(f)[i]].phi != []
      ensures RightIffPlaced(f.code, f.layout[0], Actions(f), i)
    {
      RightIff(f, i);
    }
    PlacedFromRight(f.code, f.layout[0], Actions(f));
  }

  ghost predicate RightIffPlaced(g: Code, entry: BlockId, acts: seq<BlockId>, i: nat)
    requires i < |acts| && acts[i] in g
  {
    var phi := g[acts[i]].phi;
    |phi| == 2 && i > 0 && (MovesRight(g, entry, acts, i) <==> phi[1].from == acts[i - 1])
  }

  lemma RightIff(f: Function, i: nat)
    requires Linearizable(f) && i < |Actions(f)| && Actions(f)[i] in f.code && f.code[Actions(f)[i]].phi != []
    ensures RightIffPlaced(f.code, f.layout[0], Actions(f), i)
  {
    MovedPhiRightIff(f, i);
  }

  lemma PlacedFromRight(g: Code, entry: BlockId, acts: seq<BlockId>)
    requires forall i | 0 <= i < |acts| && acts[i] in g && g[acts[i]].phi != [] :: RightIffPlaced(g, entry, acts, i)
    ensures PhisPlaced(g, acts) <==>
            forall i | 0 <= i < |acts| && acts[i] in g && g[acts[i]].phi != [] :: MovesRight(g, entry, acts, i)
  {
    hide MovesRight;
    forall i | 0 <= i < |acts| && acts[i] in g && |g[acts[i]].phi| == 2
      ensures RightIffPlaced(g, entry, acts, i)
    {
    }
  }

  lemma MovedPhiRight(g: Code, entry: BlockId, acts: seq<BlockId>, ids: map<BlockId, int>, i: nat)
    requires Chain(g, entry, acts, ids) && 0 < i < |acts| && acts[i] in g && g[acts[i]].phi != []
    ensures var phi := g[acts[i]].phi;
            |phi| == 2 && (MovesRight(g, entry, acts, i) <==> phi[1].from == acts[i - 1])
  {
    var phi := g[acts[i]].phi;
    assert acts[i] in acts && acts[i - 1] in acts && TwoWayPhi(g, acts[i]);
    assert IsEdge(g, phi[0].from, acts[i]) && IsEdge(g, phi[1].from, acts[i]);
    var k0 := SourceIndex(g, entry, acts, ids, phi[0].from, i);
    var k1 := SourceIndex(g, entry, acts, ids, phi[1].from, i);
    hide TwoWayPhi, PicksAlike;
    PicksAlikeIff(phi, entry, acts, k0, i, 0);
    PicksAlikeIff(phi, entry, acts, k1, i, 1);
    BeforeInjective(entry, acts, k1, i);
    forall j | 0 <= j <= i && IsEdge(g, Before(entry, acts, j), acts[i])
      ensures j == k0 || j == k1
    {
      assert Before(entry, acts, j) == phi[0].from || Before(entry, acts, j) == phi[1].from;
      BeforeInjective(entry, acts, j, k0);
      BeforeInjective(entry, acts, j, k1);
    }
  }

  lemma MovedPickIndex(phi: seq<Incoming>, acts: seq<BlockId>, i: nat)
    requires |phi| == 2 && 0 < i < |acts| && acts[i - 1].Orig?
    ensures PickIndex(PredicatePhi(phi, acts, i), Predicate(i - 1)) == 0
    ensures PickIndex(PredicatePhi(phi, acts, i), acts[i - 1]) == 1
  {
    assert PredicatePhi(phi, acts, i)[1..][0].from == acts[i - 1];
  }

  lemma TwoPickIndex(phi: seq<Incoming>)
    requires |phi| == 2 && phi[0].from != phi[1].from
    ensures PickIndex(phi, phi[0].from) == 0 && PickIndex(phi, phi[1].from) == 1
  {
    assert phi[1..][0] == phi[1];
  }

  lemma BeforeInjective(entry: BlockId, acts: seq<BlockId>, j: nat, k: nat)
    requires Distinct(acts) && entry !in acts && j <= |acts| && k <= |acts|
    ensures Before(entry, acts, j) == Before(entry, acts, k) ==> j == k
  {
    if j > 0 {
      assert acts[j - 1] in acts;
    }
    if k > 0 {
      assert acts[k - 1] in acts;
    }
  }

  // ----- the order of conditional expressions -----

  lemma OrderIndex(f: Function, b: BlockId, k: nat)
    requires Dag(f) && b in f.code && k < |OrderOf(f)| && OrderOf(f)[k] == b
    ensures PositionOf(f, b) == k
  {
  }

  lemma EdgeInOrder(f: Function, u: BlockId, v: BlockId)
    requires Dag(f) && IsEdge(f.code, u, v)
    ensures v in f.code && PositionOf(f, u) < PositionOf(f, v)
  {
    var order := OrderOf(f);
    assert order[PositionOf(f, v)] in Succs(f.code[order[PositionOf(f, u)]]);
  }

  lemma PredInOrder(f: Function, v: BlockId) returns (p: BlockId)
    requires Dag(f) && OrderOf(f) == Order(f.code, f.layout[0]) && v in f.code && PositionOf(f, v) > 0
    requires TriedLast(f.code, v)
    ensures IsEdge(f.code, p, v) && p in f.code && PositionOf(f, p) + 1 == PositionOf(f, v)
  {
    hide Order, TriedLast, PositionOf;
    var k := PositionOf(f, v);
    JoinFollowsPred(f.code, f.layout[0], k);
    p := OrderOf(f)[k - 1];
    OrderIndex(f, p, k - 1);
  }

  /** The action before a join is the block before it in the order, if that is a predecessor. */
  lemma ActionBefore(f: Function, i: nat)
    requires Linearizable(f) && 0 < i < |Actions(f)| && Actions(f)[i] in f.code && TriedLast(f.code, Actions(f)[i])
    ensures IsEdge(f.code, Actions(f)[i - 1], Actions(f)[i])
  {
    DagOf(f);
    hide *;
    ActionsInOrder(f, i - 1, i);
    var p := PredInOrder(f, Actions(f)[i]);
    BeforeIs(f, p, i);
  }

  lemma BeforeIs(f: Function, p: BlockId, i: nat)
    requires Dag(f) && 0 < i < |Actions(f)| && Actions(f)[i] in f.code && p in f.code
    requires IsEdge(f.code, p, Actions(f)[i]) && PositionOf(f, p) + 1 == PositionOf(f, Actions(f)[i])
    ensures Actions(f)[i - 1] == p
  {
    hide Dag, Actions, PositionOf, IsEdge;
    ActionsInOrder(f, i - 1, i);
    NotFirstInOrder(f, Actions(f)[i - 1], p, Actions(f)[i]);
    var m := PredIsEarlierAction(f, p, i);
    OneBefore(f, m, i);
  }

  /** Where there is an action between, the block before is not the entry. */
  lemma NotFirstInOrder(f: Function, a: BlockId, p: BlockId, v: BlockId)
    requires Dag(f) && a in f.code && p in f.code && v in f.code
    requires 0 < PositionOf(f, a) < PositionOf(f, v) && PositionOf(f, p) + 1 == PositionOf(f, v)
    ensures p != f.layout[0]
  {
    hide PositionOf;
    OrderIndex(f, f.layout[0], 0);
  }

  lemma DagOf(f: Function)
    requires Linearizable(f)
    ensures Dag(f) && Closed(f.code) && OrderOf(f) == Order(f.code, f.layout[0])
  {
  }

  lemma NotTheEntry(f: Function, a: BlockId, b: BlockId)
    requires Dag(f) && a in f.code && b in f.code && PositionOf(f, a) < PositionOf(f, b)
    ensures b != f.layout[0]
  {
    hide PositionOf, Order;
    OrderIndex(f, f.layout[0], 0);
  }

  /** Actions stand in the chain as in the order. */
  lemma ActionsByPosition(f: Function, a: nat, b: nat)
    requires Dag(f) && a < |Actions(f)| && b < |Actions(f)|
    requires Actions(f)[a] in f.code && Actions(f)[b] in f.code
    requires PositionOf(f, Actions(f)[a]) < PositionOf(f, Actions(f)[b])
    ensures a < b
  {
    hide Actions, PositionOf;
    if b < a {
      ActionsInOrder(f, b, a);
    }
  }

  lemma OneBefore(f: Function, m: nat, i: nat)
    requires Dag(f) && m < |Actions(f)| && 0 < i < |Actions(f)|
    requires Actions(f)[m] in f.code && Actions(f)[i] in f.code
    requires PositionOf(f, Actions(f)[m]) + 1 == PositionOf(f, Actions(f)[i])
    ensures m == i - 1
  {
    hide Actions, PositionOf;
    ActionsByPosition(f, m, i);
    if m < i - 1 {
      ActionsInOrder(f, m, i - 1);
      ActionsInOrder(f, i - 1, i);
    }
  }

  /** A block that leads to an action, other than the entry, is an action before it. */
  lemma PredIsEarlierAction(f: Function, p: BlockId, i: nat) returns (m: nat)
    requires Dag(f) && i < |Actions(f)| && IsEdge(f.code, p, Actions(f)[i]) && p != f.layout[0]
    ensures m < i && Actions(f)[m] == p
  {
    hide Actions, PositionOf;
    m := ActionsCover(f, p);
    ActionEdgeForward(f, m, i);
  }

  /** Of the two predecessors of a join the later one is the action just before it. */
  lemma LaterPredIsBefore(f: Function, i: nat, p: BlockId, q: BlockId)
    requires Dag(f) && 0 < i < |Actions(f)| && p != f.layout[0]
    requires IsEdge(f.code, p, Actions(f)[i]) && q in f.code && PositionOf(f, q) < PositionOf(f, p)
    requires Actions(f)[i - 1] == p || Actions(f)[i - 1] == q
    ensures Actions(f)[i - 1] == p
  {
    hide Actions, PositionOf, Dag;
    var m := PredIsEarlierAction(f, p, i);
    if Actions(f)[i - 1] == q {
      ActionsByPosition(f, i - 1, m);
    }
  }

  /** The block `j` with a phi has exactly the predecessors `p` and `q`. */
  ghost predicate Joins(g: Code, p: BlockId, q: BlockId, j: BlockId) {
    && j in g && g[j].phi != [] && p != q && IsEdge(g, p, j) && IsEdge(g, q, j)
  }

  lemma JoinPreds(f: Function, p: BlockId, q: BlockId, i: nat)
    requires Linearizable(f) && i < |Actions(f)| && Joins(f.code, p, q, Actions(f)[i])
    ensures i > 0
    ensures forall u | IsEdge(f.code, u, Actions(f)[i]) :: u == p || u == q
    ensures var phi := f.code[Actions(f)[i]].phi;
            |phi| == 2 && ((phi[0].from == p && phi[1].from == q) || (phi[0].from == q && phi[1].from == p))
  {
    ChainOf(f);
    hide Linearizable, Actions, Chain;
    PhiNotFirst(f.code, f.layout[0], Actions(f), FinalIds(f).of, i);
    ActionHasTwoWayPhi(f, i);
    PairsOfJoin(f.code, p, q, Actions(f)[i]);
  }

  lemma ActionHasTwoWayPhi(f: Function, i: nat)
    requires Linearizable(f) && i < |Actions(f)| && Actions(f)[i] in f.code
    ensures TwoWayPhi(f.code, Actions(f)[i])
  {
    hide Actions;
  }

  lemma PairsOfJoin(g: Code, p: BlockId, q: BlockId, j: BlockId)
    requires Joins(g, p, q, j) && TwoWayPhi(g, j)
    ensures forall u | IsEdge(g, u, j) :: u == p || u == q
    ensures var phi := g[j].phi;
            |phi| == 2 && ((phi[0].from == p && phi[1].from == q) || (phi[0].from == q && phi[1].from == p))
  {
  }

  /** `u` decides by way of `t` or at once, as `&&` and `||` do: the right operand is evaluated by `t` and the
      blocks it leads through, and its last block `p` goes on to the join.  If the join is tried
      first, as for `||`, the right operand is a single block. */
  ghost predicate ShortCircuit(g: Code, u: BlockId, t: BlockId, side: set<BlockId>, p: BlockId, j: BlockId) {
    && u in g && Side(g, u, t, side) && p in side && p in g && Succs(g[p]) == [j]
    && (Succs(g[u]) == [t, j] || (Succs(g[u]) == [j, t] && t == p))
  }

  lemma {:induction false} SideAfterBranch(f: Function, rank: Rank, u: BlockId, t: BlockId, side: set<BlockId>, x: BlockId)
    requires Dag(f) && Ranks(f.code, rank) && Side(f.code, u, t, side) && f.layout[0] !in side && x in side && u in f.code
    ensures PositionOf(f, u) < PositionOf(f, x)
    decreases rank(x)
  {
    hide PositionOf;
    assert Entered(f.code, x);
    var y :| IsEdge(f.code, y, x);
    EdgeInOrder(f, y, x);
    if y in side {
      SideAfterBranch(f, rank, u, t, side, y);
    }
  }

  lemma ShortCircuitTriedLast(g: Code, u: BlockId, t: BlockId, side: set<BlockId>, p: BlockId, j: BlockId)
    requires Closed(g) && ShortCircuit(g, u, t, side, p, j) && t != j
    requires forall x | IsEdge(g, x, j) :: x == p || x == u
    ensures TriedLast(g, j)
  {
    forall x | x in g
      ensures JoinLast(g, Succs(g[x]), j)
    {
      if j in Succs(g[x]) {
        assert IsEdge(g, x, j);
      }
    }
  }

  /** The phi of a short-circuit expression moves right exactly if its second pair is that of the right
      operand. */
  lemma ShortCircuitPhi(f: Function, u: BlockId, t: BlockId, side: set<BlockId>, p: BlockId, i: nat)
    requires Linearizable(f) && i < |Actions(f)|
    requires var j := Actions(f)[i]; Joins(f.code, p, u, j) && j !in side && ShortCircuit(f.code, u, t, side, p, j)
    requires f.layout[0] !in side
    ensures i > 0 && Actions(f)[i - 1] == p
    ensures var phi := f.code[Actions(f)[i]].phi;
            |phi| == 2 && (MovesRight(f.code, f.layout[0], Actions(f), i) <==> phi[1].from == p)
  {
    hide Linearizable, Actions, MovesRight, TriedLast, PositionOf, Ranks;
    DagOf(f);
    JoinPreds(f, p, u, i);
    ShortCircuitTriedLast(f.code, u, t, side, p, Actions(f)[i]);
    ActionBefore(f, i);
    var rank: Rank :| Ranks(f.code, rank);
    SideAfterBranch(f, rank, u, t, side, p);
    NotTheEntry(f, u, p);
    LaterPredIsBefore(f, i, p, u);
    MovedPhiRightIff(f, i);
  }

  /** `u` decides between two sides, as `?:` does: `p` ends the true side, `q` the false one, and both go on to
      the join. */
  ghost predicate Conditional(g: Code, u: BlockId, t: BlockId, onTrue: set<BlockId>, p: BlockId,
                              e: BlockId, onFalse: set<BlockId>, q: BlockId, j: BlockId) {
    && TwoSides(g, u, t, onTrue, e, onFalse)
    && p in onTrue && q in onFalse && p in g && q in g && Succs(g[p]) == [j] && Succs(g[q]) == [j]
  }

  lemma ConditionalTriedLast(g: Code, p: BlockId, q: BlockId, j: BlockId)
    requires Closed(g) && p in g && q in g && Succs(g[p]) == [j] && Succs(g[q]) == [j]
    requires forall x | IsEdge(g, x, j) :: x == p || x == q
    ensures TriedLast(g, j)
  {
    forall x | x in g
      ensures JoinLast(g, Succs(g[x]), j)
    {
      if j in Succs(g[x]) {
        assert IsEdge(g, x, j);
      }
    }
  }

  /** A phi with its two values exchanged. */
  function Exchanged(phi: seq<Incoming>): seq<Incoming>
    requires |phi| == 2
  {
    [Incoming(phi[1].val, phi[1].src, phi[0].from), Incoming(phi[0].val, phi[0].src, phi[1].from)]
  }

  /** The phi of a conditional expression moves right exactly if its second pair is that of the true
      side.  In the order in which compilers write it, true side first, it picks the other value on either
      side. */
  lemma ConditionalPhi(f: Function, u: BlockId, t: BlockId, onTrue: set<BlockId>, p: BlockId,
                       e: BlockId, onFalse: set<BlockId>, q: BlockId, i: nat)
    requires Linearizable(f) && i < |Actions(f)|
    requires Conditional(f.code, u, t, onTrue, p, e, onFalse, q, Actions(f)[i]) && Joins(f.code, p, q, Actions(f)[i])
    requires f.layout[0] !in onTrue && f.layout[0] !in onFalse
    ensures i > 0 && Actions(f)[i - 1] == p
    ensures var phi := f.code[Actions(f)[i]].phi;
            && |phi| == 2 && (MovesRight(f.code, f.layout[0], Actions(f), i) <==> phi[1].from == p)
            && (phi[0].from == p ==> MovedPhi(phi, Actions(f), i) == Exchanged(phi))
  {
    hide Linearizable, Actions, MovesRight, TriedLast, PositionOf, TwoSides, NoDeadBlock;
    DagOf(f);
    JoinPreds(f, p, q, i);
    ConditionalTriedLast(f.code, p, q, Actions(f)[i]);
    ActionBefore(f, i);
    TrueSideLater(f, u, t, onTrue, p, e, onFalse, q);
    NotTheEntry(f, q, p);
    LaterPredIsBefore(f, i, p, q);
    MovedPhiRightIff(f, i);
  }

  lemma TrueSideLater(f: Function, u: BlockId, t: BlockId, onTrue: set<BlockId>, p: BlockId,
                      e: BlockId, onFalse: set<BlockId>, q: BlockId)
    requires Dag(f) && TwoSides(f.code, u, t, onTrue, e, onFalse)
    requires f.layout[0] !in onTrue && f.layout[0] !in onFalse
    requires p in onTrue && q in onFalse && p in f.code && q in f.code
    ensures PositionOf(f, q) < PositionOf(f, p)
  {
    hide TwoSides, Visit;
    FalseSideFirst(f.code, f.layout[0], u, t, onTrue, e, onFalse, PositionOf(f, q), PositionOf(f, p));
  }

  // ----- a conditional expression and what linearization makes of it -----

  const START := Orig(0)
  const THEN := Orig(1)
  const ELSE := Orig(2)
  const JOIN := Orig(3)

  predicate Asked(m: Memory) {
    0 in m && m[0] != 0
  }

  /** The function that returns `asked ? yes : no`. */
  function Choice(yes: int, no: int): Function {
    Function([START, THEN, ELSE, JOIN],
             map[START := Block([], KEEP_MEMORY, NoStore, CondBr((m, p) => Asked(m), THEN, ELSE)),
                 THEN := Block([], KEEP_MEMORY, NoStore, Br(JOIN)),
                 ELSE := Block([], KEEP_MEMORY, NoStore, Br(JOIN)),
                 JOIN := Block([Incoming((m, p) => yes, THEN, THEN), Incoming((m, p) => no, ELSE, ELSE)],
                               KEEP_MEMORY, NoStore, Ret(PHI_REGISTER))])
  }

  lemma ChoiceReturns(yes: int, no: int, mem: Memory, mask: int)
    ensures var o := Run(Choice(yes, no).code, Start(START, mem, mask), 5);
            o.Returned? && o.value == (if Asked(mem) then yes else no) && o.mem == mem
  {
    hide Run;
    var g := Choice(yes, no).code;
    var s := Start(START, mem, mask).s;
    var s1 := Step(g, s).s;
    assert Step(g, s) == Running(s1) && s1.at == (if Asked(mem) then THEN else ELSE) && s1.mem == mem;
    var s2 := Step(g, s1).s;
    assert Step(g, s1) == Running(s2) && s2.at == JOIN && s2.prev == s1.at && s2.mem == mem;
    PickTwo(g[JOIN].phi, s2.prev, mem, s2.regs);
    RunStep(g, s, 5);
    RunStep(g, s1, 4);
    FinishesAtOnce(g, s2, 3);
  }

  lemma ChoiceEdges(yes: int, no: int)
    ensures var g := Choice(yes, no).code;
            && g.Keys == {START, THEN, ELSE, JOIN}
            && Succs(g[START]) == [THEN, ELSE] && Succs(g[THEN]) == [JOIN] && Succs(g[ELSE]) == [JOIN]
            && Succs(g[JOIN]) == []
  {
  }

  lemma ChoiceIsDag(yes: int, no: int)
    ensures Dag(Choice(yes, no)) && Divides(Choice(yes, no))
  {
    var f := Choice(yes, no);
    assert f.layout == [START, THEN, ELSE, JOIN];
    ChoiceEdges(yes, no);
    hide Choice;
    EdgesOfDiamond(f.code);
  }

  predicate IsDiamond(g: Code) {
    && g.Keys == {START, THEN, ELSE, JOIN}
    && Succs(g[START]) == [THEN, ELSE] && Succs(g[THEN]) == [JOIN] && Succs(g[ELSE]) == [JOIN] && Succs(g[JOIN]) == []
  }

  lemma DiamondEdge(g: Code, u: BlockId, v: BlockId)
    requires IsDiamond(g) && IsEdge(g, u, v)
    ensures (u == START && (v == THEN || v == ELSE)) || ((u == THEN || u == ELSE) && v == JOIN)
  {
    assert u in {START, THEN, ELSE, JOIN};
  }

  lemma EdgesOfDiamond(g: Code)
    requires IsDiamond(g)
    ensures Closed(g) && Acyclic(g) && NoDeadBlock(g, START)
  {
    assert IsEdge(g, START, THEN) && IsEdge(g, START, ELSE) && IsEdge(g, THEN, JOIN);
    assert forall v | v in g :: v == START || v == THEN || v == ELSE || v == JOIN;
    assert START in g && THEN in g && ELSE in g && JOIN in g;
    hide IsDiamond;
    var rank: Rank := b => if b == START then 0 else if b == JOIN then 2 else 1;
    forall u, v | IsEdge(g, u, v)
      ensures rank(u) < rank(v) && v in g && v != START
    {
      DiamondEdge(g, u, v);
    }
    assert Ranks(g, rank);
    forall v | v in g && v != START
      ensures Entered(g, v)
    {
    }
  }

  lemma ExitsOfFour(g: Code, a: BlockId, b: BlockId, c: BlockId, d: BlockId)
    requires !IsReturn(g, a) && !IsReturn(g, b) && !IsReturn(g, c) && IsReturn(g, d)
    requires !IsUnreachable(g, a) && !IsUnreachable(g, b) && !IsUnreachable(g, c)
    ensures Returns(g, [a, b, c, d]) == [d] && Unreachables(g, [a, b, c, d]) == []
  {
    assert [a, b, c, d][1..] == [b, c, d] && [b, c, d][1..] == [c, d] && [c, d][1..] == [d];
    assert Returns(g, [d]) == [d] && Unreachables(g, [d]) == [];
    assert Returns(g, [c, d]) == [d] && Unreachables(g, [c, d]) == [];
    assert Returns(g, [b, c, d]) == [d] && Unreachables(g, [b, c, d]) == [];
  }

  lemma ChoiceIsLinearizable(yes: int, no: int)
    ensures Linearizable(Choice(yes, no)) && |Unreachables(Choice(yes, no).code, Choice(yes, no).layout)| == 0
  {
    var f := Choice(yes, no);
    var g := f.code;
    ChoiceIsDag(yes, no);
    ChoiceEdges(yes, no);
    hide Dag, Returns, Unreachables;
    ExitsOfFour(g, START, THEN, ELSE, JOIN);
    forall b | b in g && Succs(g[b]) != []
      ensures Continues(g, b)
    {
      assert THEN in Succs(g[START]) && JOIN in Succs(g[THEN]) && JOIN in Succs(g[ELSE]);
      assert !IsUnreachable(g, THEN) && !IsUnreachable(g, JOIN);
    }
    forall b | b in g
      ensures TwoWayPhi(g, b)
    {
      if b == JOIN {
        assert |g[b].phi| == 2;
      }
    }
  }

  lemma ChoiceIsConditional(yes: int, no: int)
    ensures var g := Choice(yes, no).code;
            Conditional(g, START, THEN, {THEN}, THEN, ELSE, {ELSE}, ELSE, JOIN) && Joins(g, THEN, ELSE, JOIN)
  {
    ChoiceEdges(yes, no);
  }

  lemma ChoicePhiMoves(yes: int, no: int) returns (i: nat)
    requires Linearizable(Choice(yes, no))
    ensures i < |Actions(Choice(yes, no))| && IndexIn(Actions(Choice(yes, no)), JOIN) == i
    ensures var phi := Choice(yes, no).code[JOIN].phi;
            MovedPhi(phi, Actions(Choice(yes, no)), i) == Exchanged(phi)
  {
    var f := Choice(yes, no);
    hide Linearizable, Actions, Conditional, Joins, MovesRight, Dag, MovedPhi;
    DagOf(f);
    ChoiceIsConditional(yes, no);
    i := ActionsCover(f, JOIN);
    ConditionalPhi(f, START, THEN, {THEN}, THEN, ELSE, {ELSE}, ELSE, i);
    ActionsDistinct(f);
    IndexOfDistinct(Actions(f), i);
  }

  /** Moving the phi of the choice exchanges its two values. */
  lemma ChoiceAsMoved(yes: int, no: int)
    requires Linearizable(Choice(yes, no))
    ensures AsMoved(Choice(yes, no).code, Actions(Choice(yes, no))) == SwappedCode(yes, no)
  {
    var f := Choice(yes, no);
    hide Linearizable, Actions, MovedPhi, IndexIn, Exchanged;
    DagOf(f);
    var i := ChoicePhiMoves(yes, no);
    OnlyJoinMoves(f.code, Actions(f), i);
  }

  lemma OnlyJoinMoves(g: Code, acts: seq<BlockId>, i: nat)
    requires JOIN in g && |g[JOIN].phi| == 2 && i < |acts| && IndexIn(acts, JOIN) == i
    requires MovedPhi(g[JOIN].phi, acts, i) == Exchanged(g[JOIN].phi)
    requires forall b | b in g && b != JOIN :: g[b].phi == []
    ensures AsMoved(g, acts) == g[JOIN := g[JOIN].(phi := Exchanged(g[JOIN].phi))]
  {
    hide MovedPhi, Exchanged;
    forall b | b in g && b != JOIN
      ensures AsMoved(g, acts)[b] == g[b]
    {
      MovedNone(acts, IndexIn(acts, b));
    }
  }

  lemma MovedNone(acts: seq<BlockId>, i: int)
    requires i < |acts|
    ensures MovedPhi([], acts, i) == []
  {
  }

  /** The code of `Choice` with the values of its phi exchanged. */
  function SwappedCode(yes: int, no: int): Code {
    var g := Choice(yes, no).code;
    g[JOIN := g[JOIN].(phi := Exchanged(g[JOIN].phi))]
  }

  lemma SwappedReturns(yes: int, no: int, mem: Memory, mask: int)
    ensures var o := Run(SwappedCode(yes, no), Start(START, mem, mask), 5);
            o.Returned? && o.value == (if Asked(mem) then no else yes) && o.mem == mem
  {
    hide Run;
    var g := SwappedCode(yes, no);
    var s := Start(START, mem, mask).s;
    var s1 := Step(g, s).s;
    assert Step(g, s) == Running(s1) && s1.at == (if Asked(mem) then THEN else ELSE) && s1.mem == mem;
    var s2 := Step(g, s1).s;
    assert Step(g, s1) == Running(s2) && s2.at == JOIN && s2.prev == s1.at && s2.mem == mem;
    PickTwo(g[JOIN].phi, s2.prev, mem, s2.regs);
    RunStep(g, s, 5);
    RunStep(g, s1, 4);
    FinishesAtOnce(g, s2, 3);
  }

  /** `asked ? yes : no` is linearized to `asked ? no : yes`, for every memory. */
  lemma ChoiceIsSwapped(yes: int, no: int, mem: Memory, mask: int)
    ensures Linearizable(Choice(yes, no))
    ensures var o, p := Run(Choice(yes, no).code, Start(START, mem, mask), 5),
                        Run(Linearized(Choice(yes, no)), Start(START, mem, mask), 7);
            && o.Returned? && o.value == (if Asked(mem) then yes else no) && o.mem == mem
            && p.Returned? && p.value == (if Asked(mem) then no else yes) && p.mem == mem
  {
    var f := Choice(yes, no);
    ChoiceIsLinearizable(yes, no);
    hide Linearizable, Run, Actions, AsMoved, Linearized, SwappedCode, Program;
    ChoiceReturns(yes, no, mem, mask);
    LinearizationComputesAsMoved(f, mem, mask);
    ChoiceAsMoved(yes, no);
    SwappedReturns(yes, no, mem, mask);
  }
}
