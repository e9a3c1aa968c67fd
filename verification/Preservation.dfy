/**
 Linearization preserves meaning: run from the same memory, the chain visits the blocks of
 the program in the same order and returns the same value with the same memory.

 A relocated phi may pick the wrong one of its two values.  So what is proved first holds of
 every program: the chain computes what the program computes with its phis as moved.  It
 computes what the program computes if the two agree, and certainly if every phi is placed
 so that it moves without change.
 */
module Preservation {
  import opened Common
  import opened IR
  import opened DepthFirst
  import opened PathAnalysis
  import opened ExitUnification
  import opened LinearForm

  /** The second incoming block of every phi is the action just before in the chain. */
  ghost predicate PhisPlaced(g: Code, acts: seq<BlockId>) {
    forall i | 0 <= i < |acts| && acts[i] in g && |g[acts[i]].phi| == 2 ::
      i > 0 && g[acts[i]].phi[1].from == acts[i - 1]
  }

  /** The pair a moved phi picks when control comes from the block of the program's pair `k`: its second
      on the edge from the action just before, and else its first. */
  function Taken(phi: seq<Incoming>, before: BlockId, k: nat): Incoming
    requires |phi| == 2 && k < 2
  {
    var t := if phi[k].from == before then phi[1] else phi[0];
    Incoming(t.val, t.src, phi[k].from)
  }

  function MovedPhi(phi: seq<Incoming>, acts: seq<BlockId>, i: int): seq<Incoming>
    requires i < |acts|
  {
    if |phi| != 2 || i <= 0 then phi else [Taken(phi, acts[i - 1], 0), Taken(phi, acts[i - 1], 1)]
  }

  /** The program with every phi picking as it does once moved. */
  function AsMoved(g: Code, acts: seq<BlockId>): Code {
    map b | b in g :: g[b].(phi := MovedPhi(g[b].phi, acts, IndexIn(acts, b)))
  }

  lemma PlacedIsAsMoved(g: Code, acts: seq<BlockId>)
    requires PhisPlaced(g, acts)
    requires forall b | b in acts :: b in g && TwoWayPhi(g, b)
    ensures AsMoved(g, acts) == g
  {
    hide TwoWayPhi, MovedPhi;
    forall b | b in g
      ensures MovedPhi(g[b].phi, acts, IndexIn(acts, b)) == g[b].phi
    {
      MovesUnchanged(g, acts, b);
    }
    hide IndexIn;
  }

  lemma MovesUnchanged(g: Code, acts: seq<BlockId>, b: BlockId)
    requires PhisPlaced(g, acts) && b in g
    requires forall b | b in acts :: b in g && TwoWayPhi(g, b)
    ensures MovedPhi(g[b].phi, acts, IndexIn(acts, b)) == g[b].phi
  {
    var i := IndexIn(acts, b);
    if |g[b].phi| == 2 && i > 0 {
      assert b in acts && TwoWayPhi(g, acts[i]);
    }
  }

  lemma AsMovedEdges(g: Code, acts: seq<BlockId>)
    ensures SameEdges(g, AsMoved(g, acts)) && forall u, v :: IsEdge(AsMoved(g, acts), u, v) <==> IsEdge(g, u, v)
  {
  }

  lemma AsMovedPhiIsTwoWay(g: Code, acts: seq<BlockId>, v: BlockId)
    requires v in g && TwoWayPhi(g, v)
    ensures v in AsMoved(g, acts) && TwoWayPhi(AsMoved(g, acts), v)
  {
    AsMovedEdges(g, acts);
    var phi := AsMoved(g, acts)[v].phi;
    assert |phi| == |g[v].phi|;
  }

  lemma AsMovedIsChain(g: Code, entry: BlockId, acts: seq<BlockId>, ids: map<BlockId, int>)
    requires Chain(g, entry, acts, ids)
    ensures Chain(AsMoved(g, acts), entry, acts, ids)
  {
    hide TwoWayPhi, ClearPath, MovedPhi;
    var h := AsMoved(g, acts);
    AsMovedEdges(g, acts);
    AsMovedKeeps(g, entry, acts);
    AsMovedStaysClear(g, entry, acts, ids);
    hide AsMoved, ChainExits, ChainBlocks, EdgesForward, ClearEdges;
    forall b | b in acts
      ensures b in h && TwoWayPhi(h, b)
    {
      AsMovedPhiIsTwoWay(g, acts, b);
    }
  }

  lemma AsMovedStaysClear(g: Code, entry: BlockId, acts: seq<BlockId>, ids: map<BlockId, int>)
    requires EdgesForward(g, acts) && ClearEdges(g, entry, acts, ids)
    ensures EdgesForward(AsMoved(g, acts), acts) && ClearEdges(AsMoved(g, acts), entry, acts, ids)
  {
    hide AsMoved, IsEdge, ClearPath;
    AsMovedEdges(g, acts);
  }

  lemma AsMovedKeeps(g: Code, entry: BlockId, acts: seq<BlockId>)
    requires ProgramCode(g) && ChainBlocks(g, entry, acts) && ChainExits(g, acts)
    ensures var h := AsMoved(g, acts); ProgramCode(h) && ChainBlocks(h, entry, acts) && ChainExits(h, acts)
  {
    hide IsEdge, Succs;
    AsMovedEdges(g, acts);
    assert forall b :: IsUnreachable(AsMoved(g, acts), b) <==> IsUnreachable(g, b);
  }

  // ----- states that differ only in the pass's own registers and log entries -----

  ghost predicate SameRegs(a: map<BlockId, int>, b: map<BlockId, int>) {
    forall n :: Reg(a, Orig(n)) == Reg(b, Orig(n))
  }

  ghost predicate SameProgramState(a: State, b: State) {
    a.mem == b.mem && SameRegs(a.regs, b.regs) && Program(a.log) == Program(b.log)
  }

  lemma SameTransitive(a: State, b: State, c: State)
    requires SameProgramState(a, b) && SameProgramState(b, c)
    ensures SameProgramState(a, c)
  {
  }

  lemma SameSymmetric(a: State, b: State)
    requires SameProgramState(a, b)
    ensures SameProgramState(b, a)
  {
  }

  lemma LogStep(log: seq<BlockId>, b: BlockId)
    ensures Program(log + [b]) == if b.Orig? then Program(log) + [b] else Program(log)
  {
    assert (log + [b])[..|log|] == log;
  }

  // ----- one predicate -----

  /** A linearization: the program, the program with its phis as moved, the chain of actions, the ids, and
      the generated code. */
  datatype Job = Job(src: Code, g: Code, entry: BlockId, acts: seq<BlockId>, ids: map<BlockId, int>, l: Code)

  ghost predicate Sound(c: Job) {
    && Chain(c.src, c.entry, c.acts, c.ids)
    && Chain(c.g, c.entry, c.acts, c.ids)
    && c.g == AsMoved(c.src, c.acts)
    && Generated(c.l, c.src, c.entry, c.acts, c.ids)
  }

  /** A predicate passes control on and changes nothing but its own register and the log. */
  lemma PredicateStep(l: Code, phi: seq<Incoming>, term: Terminator, t: State)
    requires t.at.Predicate? && t.at in l && l[t.at] == Block(phi, KEEP_MEMORY, NoStore, term)
    requires term.Br? || term.MaskBr?
    ensures var o := Step(l, t);
            && o.Running? && o.s.prev == t.at && o.s.mask == t.mask && SameProgramState(o.s, t)
            && o.s.at == (if term.Br? then term.target else if t.mask == term.id then term.onTrue else term.onFalse)
            && Reg(o.s.regs, t.at) == Pick(phi, t.prev, t.mem, t.regs)
  {
    hide Pick, Program;
    LogStep(t.log, t.at);
  }

  lemma PredicateAt(c: Job, i: nat)
    requires Sound(c) && i < |c.acts|
    ensures c.acts[i] in c.src && Predicate(i) in c.l
    ensures c.l[Predicate(i)]
         == Block(PredicatePhi(c.src[c.acts[i]].phi, c.acts, i), KEEP_MEMORY, NoStore,
                  if i == |c.acts| - 1 then Br(c.acts[i]) else MaskBr(IdOf(c.ids, c.acts[i]), c.acts[i], Predicate(i + 1)))
  {
    assert GeneratedAt(c.l, c.src, c.acts, c.ids, i);
  }

  /** A predicate whose id is not in the mask cell passes control on and changes nothing. */
  lemma PredicateFalls(c: Job, t: State, i: nat)
    requires Sound(c) && i < |c.acts| - 1
    requires t.at == Predicate(i) && t.mask != IdOf(c.ids, c.acts[i])
    ensures var o := Step(c.l, t);
            && o.Running? && o.s.at == Predicate(i + 1) && o.s.prev == Predicate(i)
            && o.s.mask == t.mask && SameProgramState(o.s, t)
  {
    hide Sound, Step, IdOf, SameProgramState, PredicatePhi, Pick;
    PredicateAt(c, i);
    PredicateStep(c.l, c.l[Predicate(i)].phi, c.l[Predicate(i)].term, t);
  }

  /** A predicate whose id is in the mask cell runs its action; the last one always does. */
  lemma PredicateFires(c: Job, t: State, i: nat)
    requires Sound(c) && i < |c.acts|
    requires t.at == Predicate(i) && (i == |c.acts| - 1 || t.mask == IdOf(c.ids, c.acts[i]))
    ensures var o := Step(c.l, t);
            && o.Running? && o.s.at == c.acts[i] && o.s.prev == Predicate(i)
            && SameProgramState(o.s, t)
            && c.acts[i] in c.src
            && Reg(o.s.regs, Predicate(i)) == Pick(PredicatePhi(c.src[c.acts[i]].phi, c.acts, i), t.prev, t.mem, t.regs)
  {
    hide Sound, Step, IdOf, SameProgramState, PredicatePhi, Pick;
    PredicateAt(c, i);
    PredicateStep(c.l, c.l[Predicate(i)].phi, c.l[Predicate(i)].term, t);
  }

  lemma RunNone(l: Code, t: State)
    ensures Run(l, Running(t), 0) == Running(t) && SameProgramState(t, t)
  {
  }

  /** Fall through from one predicate to a later one. */
  lemma {:induction false} FallTo(c: Job, t: State, j: nat, i: nat) returns (t': State)
    requires Sound(c) && j <= i < |c.acts|
    requires t.at == Predicate(j) && t.mask == IdOf(c.ids, c.acts[i]) && ClearPath(c.acts, c.ids, j, i)
    ensures Run(c.l, Running(t), i - j) == Running(t')
    ensures t'.at == Predicate(i) && t'.prev == (if i == j then t.prev else Predicate(i - 1))
    ensures t'.mask == t.mask && SameProgramState(t', t)
    decreases i - j
  {
    hide Step, Generated, Chain, SameProgramState;
    if j == i {
      t' := t;
      RunNone(c.l, t);
    } else {
      assert NoClash(c.ids, c.acts[j], c.acts[i]);
      PredicateFalls(c, t, j);
      t' := FallTo(c, Step(c.l, t).s, j + 1, i);
      SameTransitive(t', Step(c.l, t).s, t);
    }
  }

  // ----- phis -----

  /** The block control comes from just before `Predicate(j)`, when an action or the entry runs there. */
  function Before(entry: BlockId, acts: seq<BlockId>, j: nat): BlockId
    requires j <= |acts|
  {
    if j == 0 then entry else acts[j - 1]
  }

  /** Two incoming pairs from different blocks: the pick is decided by the edge. */
  lemma PickTwo(phi: seq<Incoming>, prev: BlockId, mem: Memory, regs: map<BlockId, int>)
    requires |phi| == 2 && phi[0].from != phi[1].from
    ensures prev == phi[0].from ==> Pick(phi, prev, mem, regs) == phi[0].val(mem, Reg(regs, phi[0].src))
    ensures prev == phi[1].from ==> Pick(phi, prev, mem, regs) == phi[1].val(mem, Reg(regs, phi[1].src))
  {
  }

  lemma PickNone(prev: BlockId, mem: Memory, regs: map<BlockId, int>)
    ensures Pick([], prev, mem, regs) == 0
  {
  }

  lemma MovedPhiReads(phi: seq<Incoming>, acts: seq<BlockId>, i: nat, prev: BlockId, k: nat, mem: Memory, regs: map<BlockId, int>)
    requires |phi| == 2 && phi[0].from != phi[1].from && 0 < i < |acts| && k < 2 && prev == phi[k].from
    ensures var t := if prev == acts[i - 1] then phi[1] else phi[0];
            Pick(MovedPhi(phi, acts, i), prev, mem, regs) == t.val(mem, Reg(regs, t.src))
  {
    PickTwo(MovedPhi(phi, acts, i), prev, mem, regs);
  }

  lemma PredicatePhiReads(phi: seq<Incoming>, acts: seq<BlockId>, i: nat, prev: BlockId, mem: Memory, regs: map<BlockId, int>)
    requires |phi| == 2 && 0 < i < |acts| && acts[i - 1].Orig? && prev in {Predicate(i - 1), acts[i - 1]}
    ensures var t := if prev == acts[i - 1] then phi[1] else phi[0];
            Pick(PredicatePhi(phi, acts, i), prev, mem, regs) == t.val(mem, Reg(regs, t.src))
  {
    PickTwo(PredicatePhi(phi, acts, i), prev, mem, regs);
  }

  /** The first action has one predecessor, the entry, and so no phi. */
  lemma PhiNotFirst(g: Code, entry: BlockId, acts: seq<BlockId>, ids: map<BlockId, int>, i: nat)
    requires Chain(g, entry, acts, ids) && i < |acts| && g[acts[i]].phi != []
    ensures i > 0
  {
    var phi := g[acts[i]].phi;
    assert acts[i] in acts && TwoWayPhi(g, acts[i]);
    assert IsEdge(g, phi[0].from, acts[i]) && IsEdge(g, phi[1].from, acts[i]);
    forall u | IsEdge(g, u, acts[i]) && u != entry
      ensures i > 0
    {
      assert u in acts && acts[IndexIn(acts, u)] == u;
    }
  }

  lemma SourceIndex(g: Code, entry: BlockId, acts: seq<BlockId>, ids: map<BlockId, int>, u: BlockId, i: nat) returns (j: nat)
    requires Chain(g, entry, acts, ids) && i < |acts| && IsEdge(g, u, acts[i])
    ensures j <= i && Before(entry, acts, j) == u
  {
    if u == entry {
      j := 0;
    } else {
      assert u in acts;
      j := IndexIn(acts, u) + 1;
    }
  }

  /** The moved phi takes the value the phi of the program as moved takes. */
  lemma MovedPhiAgrees(c: Job, s: State, t: State, j: nat, i: nat)
    requires Sound(c) && j <= i < |c.acts| && c.acts[i] in c.src && c.acts[i] in c.g
    requires s.prev == Before(c.entry, c.acts, j) && IsEdge(c.g, s.prev, c.acts[i])
    requires SameProgramState(s, t) && t.prev == (if i == j then s.prev else Predicate(i - 1))
    ensures Pick(PredicatePhi(c.src[c.acts[i]].phi, c.acts, i), t.prev, t.mem, t.regs)
         == Pick(c.g[c.acts[i]].phi, s.prev, s.mem, s.regs)
  {
    hide Sound, Pick, PredicatePhi, MovedPhi;
    var phi := c.src[c.acts[i]].phi;
    AsMovedPhiAt(c, i);
    if phi != [] {
      PhiAfterFirst(c, i);
      var k := EdgePair(c, s.prev, i);
      MovedPhiReads(phi, c.acts, i, s.prev, k, s.mem, s.regs);
      BeforeIsLast(c, j, i);
      PredicatePhiReads(phi, c.acts, i, t.prev, t.mem, t.regs);
    } else {
      PickNone(s.prev, s.mem, s.regs);
      PickNone(t.prev, t.mem, t.regs);
    }
  }

  lemma PhiAfterFirst(c: Job, i: nat)
    requires Sound(c) && i < |c.acts| && c.acts[i] in c.src && c.src[c.acts[i]].phi != []
    ensures i > 0
  {
    PhiNotFirst(c.src, c.entry, c.acts, c.ids, i);
  }

  lemma AsMovedPhiAt(c: Job, i: nat)
    requires Sound(c) && i < |c.acts|
    ensures c.acts[i] in c.src && c.acts[i] in c.g
    ensures c.g[c.acts[i]].phi == MovedPhi(c.src[c.acts[i]].phi, c.acts, i)
    ensures c.src[c.acts[i]].phi == [] ==> c.g[c.acts[i]].phi == [] && PredicatePhi(c.src[c.acts[i]].phi, c.acts, i) == []
  {
    assert c.acts[i] in c.acts;
    IndexOfDistinct(c.acts, i);
  }

  /** The pair of the program's phi for an edge; its values do not come from the pass's own registers. */
  lemma EdgePair(c: Job, u: BlockId, i: nat) returns (k: nat)
    requires Sound(c) && i < |c.acts| && c.acts[i] in c.src && IsEdge(c.g, u, c.acts[i]) && c.src[c.acts[i]].phi != []
    ensures var phi := c.src[c.acts[i]].phi;
            && k < 2 == |phi| && phi[0].from != phi[1].from && u == phi[k].from
            && phi[0].src.Orig? && phi[1].src.Orig?
  {
    AsMovedEdges(c.src, c.acts);
    assert c.acts[i] in c.acts && TwoWayPhi(c.src, c.acts[i]);
    k := if u == c.src[c.acts[i]].phi[0].from then 0 else 1;
  }

  lemma BeforeIsLast(c: Job, j: nat, i: nat)
    requires Sound(c) && j <= i < |c.acts| && i > 0
    ensures c.acts[i - 1].Orig? && (Before(c.entry, c.acts, j) == c.acts[i - 1] <==> j == i)
  {
    assert c.acts[i - 1] in c.acts && (j > 0 ==> c.acts[j - 1] in c.acts);
  }

  // ----- one block of the program -----

  lemma StepOfBranch(g: Code, s: State) returns (m: Memory, v: BlockId)
    requires Branches(g, s.at)
    ensures var b, p := g[s.at], Pick(g[s.at].phi, s.prev, s.mem, s.regs);
            && m == b.eff(s.mem, p) && v in Succs(b)
            && (b.term.Br? ==> v == b.term.target)
            && (b.term.CondBr? ==> v == if b.term.cond(m, p) then b.term.onTrue else b.term.onFalse)
            && Step(g, s) == Running(State(v, s.at, m, StoreMask(b.mask, m, p, s.mask), s.regs[s.at := p], s.log + [s.at]))
  {
    var b, p := g[s.at], Pick(g[s.at].phi, s.prev, s.mem, s.regs);
    m := b.eff(s.mem, p);
    v := if b.term.Br? then b.term.target else if b.term.cond(m, p) then b.term.onTrue else b.term.onFalse;
  }

  /** A branching block and its chained form: same effect, and the chained form leaves the id
      of the real target in the mask cell. */
  lemma BranchStep(g: Code, l: Code, ids: map<BlockId, int>, phi: seq<Incoming>, next: BlockId, s: State, t: State)
    requires Branches(g, s.at) && t.at == s.at && s.at in l && s.at.Orig? && SameProgramState(s, t)
    requires l[s.at] == WithStore(g[s.at], ids).(phi := phi).(term := Br(next))
    requires Pick(phi, t.prev, t.mem, t.regs) == Pick(g[s.at].phi, s.prev, s.mem, s.regs)
    ensures var o, p := Step(g, s), Step(l, t);
            && o.Running? && p.Running? && IsEdge(g, s.at, o.s.at) && o.s.prev == s.at
            && p.s.at == next && p.s.prev == s.at
            && p.s.mask == IdOf(ids, o.s.at) && SameProgramState(o.s, p.s)
  {
    hide Step, Pick, IdOf, Program;
    var m, v := StepOfBranch(g, s);
    var m', v' := StepOfBranch(l, t);
    LogStep(s.log, s.at);
    LogStep(t.log, s.at);
  }

  /** A returning block and its chained form return the same. */
  lemma ReturnStep(g: Code, l: Code, phi: seq<Incoming>, s: State, t: State)
    requires IsReturn(g, s.at) && t.at == s.at && s.at in l && SameProgramState(s, t)
    requires l[s.at] == g[s.at].(phi := phi)
    requires Pick(phi, t.prev, t.mem, t.regs) == Pick(g[s.at].phi, s.prev, s.mem, s.regs)
    ensures SameResult(Step(g, s), Step(l, t))
  {
    LogStep(s.log, s.at);
    LogStep(t.log, s.at);
  }

  ghost predicate SameResult(a: Outcome, b: Outcome) {
    a.Returned? && b.Returned? && a.value == b.value && a.mem == b.mem && Program(a.log) == Program(b.log)
  }

  // ----- whole runs -----

  /** The program is about to run action `i`, the chain to test predicate `j` for it. */
  ghost predicate Matches(c: Job, s: State, t: State, i: nat, j: nat) {
    && j <= i < |c.acts|
    && s.at == c.acts[i] && t.at == Predicate(j)
    && s.prev == t.prev == Before(c.entry, c.acts, j) && IsEdge(c.g, s.prev, c.acts[i])
    && t.mask == IdOf(c.ids, c.acts[i]) && ClearPath(c.acts, c.ids, j, i)
    && SameProgramState(s, t)
  }

  lemma ActionPhiReads(phi: seq<Incoming>, i: nat, s: State, t: State)
    requires t.prev == Predicate(i)
    requires Reg(t.regs, Predicate(i)) == Pick(phi, s.prev, s.mem, s.regs)
    ensures Pick(ActionPhi(phi, i), t.prev, t.mem, t.regs) == Pick(phi, s.prev, s.mem, s.regs)
  {
  }

  /** From matching states the chain tests its way to action `i` and reads the same phi value. */
  lemma ReachAction(c: Job, s: State, t: State, i: nat, j: nat) returns (t': State)
    requires Sound(c) && Matches(c, s, t, i, j)
    ensures Run(c.l, Running(t), i - j + 1) == Running(t')
    ensures i < |c.acts| && j <= i && t'.at == s.at == c.acts[i] && s.at in c.g && SameProgramState(s, t')
    ensures Pick(ActionPhi(c.g[c.acts[i]].phi, i), t'.prev, t'.mem, t'.regs)
         == Pick(c.g[c.acts[i]].phi, s.prev, s.mem, s.regs)
  {
    hide Step, Sound, SameProgramState, Pick, PredicatePhi, ActionPhi, IdOf, ClearPath;
    AsMovedPhiAt(c, i);
    var t1 := FallTo(c, t, j, i);
    SameSymmetric(t1, t);
    SameTransitive(s, t, t1);
    PredicateFires(c, t1, i);
    MovedPhiAgrees(c, s, t1, j, i);
    t' := Step(c.l, t1).s;
    SameSymmetric(t', t1);
    SameTransitive(s, t1, t');
    ActionPhiReads(c.g[c.acts[i]].phi, i, s, t');
    OneMoreStep(c.l, t, i - j, t1);
  }

  lemma OneMoreStep(l: Code, t: State, n: nat, t1: State)
    requires Run(l, Running(t), n) == Running(t1)
    ensures Run(l, Running(t), n + 1) == Step(l, t1)
  {
    RunAdd(l, Running(t), n, 1);
    assert Run(l, Running(t1), 1) == Run(l, Step(l, t1), 0);
  }

  /** Join the run up to a later state with the run from there. */
  lemma RunVia(l: Code, t: State, a: nat, t': State, b: nat, n: nat)
    requires Run(l, Running(t), a) == Running(t') && !Run(l, Running(t'), b).Running? && a + b <= n
    ensures Run(l, Running(t), n) == Run(l, Running(t'), b)
  {
    RunAdd(l, Running(t), a, b);
    RunMore(l, Running(t), a + b, n);
  }

  lemma UnreachableStops(g: Code, s: State, n: nat)
    requires IsUnreachable(g, s.at) && n > 0
    ensures Run(g, Running(s), n) == Undefined
  {
    assert Step(g, s) == Undefined;
  }

  lemma FinishesAtOnce(g: Code, s: State, n: nat)
    requires n > 0 && !Step(g, s).Running?
    ensures Run(g, Running(s), n) == Step(g, s)
  {
  }

  /** Both runs end the same way if the program's run returns. */
  ghost predicate SameRun(c: Job, s: State, n: nat, t: State, m: nat) {
    var o := Run(c.g, Running(s), n);
    && !o.Running?
    && (o.Returned? ==> SameResult(o, Run(c.l, Running(t), m)))
  }

  lemma LastReturnsBoth(c: Job)
    requires Sound(c)
    ensures c.acts != []
    ensures var i := |c.acts| - 1;
            var b := c.acts[i];
            IsReturn(c.g, b) && b in c.l && c.l[b] == c.g[b].(phi := ActionPhi(c.g[b].phi, i))
  {
    ActionAt(c, |c.acts| - 1);
    hide Chain, Generated, ActionPhi, AsMoved;
    LastIsReturn(c);
  }

  lemma LastIsReturn(c: Job)
    requires Sound(c)
    ensures c.acts != [] && IsReturn(c.g, c.acts[|c.acts| - 1])
  {
  }

  /** An action in the generated code, read off the program with moved phis. */
  lemma ActionAt(c: Job, i: nat)
    requires Sound(c) && i < |c.acts|
    ensures var b := c.acts[i]; b in c.g && b.Orig? && b in c.l && c.l[b] == ActionBlock(c.g[b], c.ids, |c.acts|, i)
  {
    hide WithStore, EdgesForward, ClearEdges, ChainExits;
    assert GeneratedAt(c.l, c.src, c.acts, c.ids, i) && c.acts[i] in c.acts;
    SamePhiHere(c.src[c.acts[i]].phi, c.acts, i);
    AsMovedPhiAt(c, i);
    SameButPhi(c.src[c.acts[i]], c.g[c.acts[i]], c.ids, |c.acts|, i);
  }

  lemma SamePhiHere(phi: seq<Incoming>, acts: seq<BlockId>, i: nat)
    requires i < |acts|
    ensures MovedPhi(phi, acts, i) == [] <==> phi == []
  {
  }

  lemma SameButPhi(b: Block, b': Block, ids: map<BlockId, int>, n: nat, i: nat)
    requires b' == b.(phi := b'.phi) && (b.phi == [] <==> b'.phi == [])
    ensures ActionBlock(b, ids, n, i) == ActionBlock(b', ids, n, i)
  {
  }

  /** At the return block both runs end. */
  lemma ReturnAction(c: Job, s: State, t: State, i: nat, j: nat)
    requires Sound(c) && Matches(c, s, t, i, j) && i == |c.acts| - 1
    ensures SameRun(c, s, |c.acts| - i + 1, t, 2 * (|c.acts| - j))
  {
    hide Step, Run, Sound, SameResult, SameProgramState, ClearPath, IdOf, Pick;
    var t1 := ReachAction(c, s, t, i, j);
    LastReturnsBoth(c);
    ReturnStep(c.g, c.l, ActionPhi(c.g[c.acts[i]].phi, i), s, t1);
    FinishesAtOnce(c.g, s, |c.acts| - i + 1);
    FinishesAtOnce(c.l, t1, 1);
    RunVia(c.l, t, i - j + 1, t1, 1, 2 * (|c.acts| - j));
  }

  lemma ActionIsChained(c: Job, i: nat)
    requires Sound(c) && i < |c.acts| - 1
    ensures var b := c.acts[i];
            && Branches(c.g, b) && b.Orig? && b in c.l
            && c.l[b] == WithStore(c.g[b], c.ids).(phi := ActionPhi(c.g[b].phi, i)).(term := Br(Predicate(i + 1)))
  {
    ActionAt(c, i);
    hide Generated, ActionPhi, WithStore, AsMoved;
  }

  /** Past any other action both sides stand at the next predicate with the id of the real target. */
  lemma BranchAction(c: Job, s: State, t: State, i: nat, j: nat) returns (t2: State)
    requires Sound(c) && Matches(c, s, t, i, j) && i < |c.acts| - 1
    ensures j <= i && Run(c.l, Running(t), i - j + 2) == Running(t2)
    ensures var o := Step(c.g, s);
            && o.Running? && IsEdge(c.g, c.acts[i], o.s.at) && o.s.prev == t2.prev == c.acts[i]
            && t2.at == Predicate(i + 1) && t2.mask == IdOf(c.ids, o.s.at) && SameProgramState(o.s, t2)
  {
    hide *;
    var t1 := ReachAction(c, s, t, i, j);
    ActionIsChained(c, i);
    BranchStep(c.g, c.l, c.ids, ActionPhi(c.g[c.acts[i]].phi, i), Predicate(i + 1), s, t1);
    OneMoreStep(c.l, t, i - j + 1, t1);
    t2 := Step(c.l, t1).s;
  }

  lemma {:induction false} Simulate(c: Job, s: State, t: State, i: nat, j: nat)
    requires Sound(c) && Matches(c, s, t, i, j)
    ensures SameRun(c, s, |c.acts| - i + 1, t, 2 * (|c.acts| - j))
    decreases |c.acts| - i, 0
  {
    hide Step, Run, Sound, SameProgramState, IdOf, ClearPath, IsEdge;
    var n := |c.acts|;
    if i == n - 1 {
      ReturnAction(c, s, t, i, j);
    } else {
      var t2 := BranchAction(c, s, t, i, j);
      var s2 := Step(c.g, s).s;
      Continue(c, s2, t2, i + 1);
      RunStep(c.g, s, n - i + 1);
      if Run(c.g, Running(s2), n - i).Returned? {
        RunVia(c.l, t, i - j + 2, t2, 2 * (n - i - 1), 2 * (n - j));
      }
    }
  }

  /** After an action (or the entry) both sides go on from `Predicate(j)`. */
  lemma {:induction false} Continue(c: Job, s: State, t: State, j: nat)
    requires Sound(c) && j < |c.acts|
    requires s.prev == t.prev == Before(c.entry, c.acts, j) && IsEdge(c.g, s.prev, s.at)
    requires t.at == Predicate(j) && t.mask == IdOf(c.ids, s.at) && SameProgramState(s, t)
    ensures SameRun(c, s, |c.acts| - j + 1, t, 2 * (|c.acts| - j))
    decreases |c.acts| - j, 1
  {
    hide Run, Sound, SameProgramState, SameResult, IdOf, ClearPath, Step;
    if IsUnreachable(c.g, s.at) {
      UnreachableStops(c.g, s, |c.acts| - j + 1);
    } else {
      var k: nat := TargetAhead(c, s.prev, s.at, j);
      Simulate(c, s, t, k, j);
      RunMore(c.g, Running(s), |c.acts| - k + 1, |c.acts| - j + 1);
    }
  }

  lemma TargetAhead(c: Job, u: BlockId, v: BlockId, j: nat) returns (k: nat)
    requires Sound(c) && j < |c.acts| && u == Before(c.entry, c.acts, j)
    requires IsEdge(c.g, u, v) && !IsUnreachable(c.g, v)
    ensures j <= k < |c.acts| && c.acts[k] == v && ClearPath(c.acts, c.ids, j, k)
  {
    assert v in c.acts;
    k := IndexIn(c.acts, v);
    if j > 0 {
      assert IsEdge(c.g, c.acts[j - 1], c.acts[k]);
    }
  }

  lemma EntryAt(c: Job)
    requires Sound(c)
    ensures c.acts != [] && c.entry.Orig? && Branches(c.g, c.entry) && c.g[c.entry].phi == [] && c.entry in c.l
    ensures c.l[c.entry] == WithStore(c.g[c.entry], c.ids).(phi := []).(term := Br(Predicate(0)))
  {
    AsMovedEdges(c.src, c.acts);
  }

  /** After the entry both sides stand at the first predicate. */
  lemma EntryAction(c: Job, s: State)
    requires Sound(c) && s.at == s.prev == c.entry
    ensures var o, p := Step(c.g, s), Step(c.l, s);
            && o.Running? && p.Running? && IsEdge(c.g, c.entry, o.s.at)
            && o.s.prev == p.s.prev == c.entry && p.s.at == Predicate(0)
            && p.s.mask == IdOf(c.ids, o.s.at) && SameProgramState(o.s, p.s) && c.acts != []
  {
    EntryAt(c);
    hide *;
    BranchStep(c.g, c.l, c.ids, [], Predicate(0), s, s);
  }

  lemma FromEntry(c: Job, mem: Memory, mask: int)
    requires Sound(c)
    ensures SameRun(c, Start(c.entry, mem, mask).s, |c.acts| + 2, Start(c.entry, mem, mask).s, 2 * |c.acts| + 1)
  {
    hide Step, Run, Sound, IdOf, SameProgramState, IsEdge;
    var s := Start(c.entry, mem, mask).s;
    EntryAction(c, s);
    Continue(c, Step(c.g, s).s, Step(c.l, s).s, 0);
    RunStep(c.g, s, |c.acts| + 2);
    RunStep(c.l, s, 2 * |c.acts| + 1);
  }

  // ----- main results -----

  ghost function Linearized(f: Function): (l: Code)
    requires Linearizable(f)
  {
    ChainOf(f);
    LinearCode(f.code, f.layout[0], Actions(f), FinalIds(f).of)
  }

  /** What a branch stores: the id of its target, or of the one it takes. */
  ghost predicate StoresTarget(b: Block, ids: map<BlockId, int>, store: MaskStore) {
    match b.term
    case Br(t) => t in ids && store == StoreId(ids[t])
    case CondBr(c, t, e) => t in ids && e in ids && store == SelectId(c, ids[t], ids[e])
    case _ => store == NoStore
  }

  /** The generated code block by block: what each branch stores, what each predicate compares, where each goes,
      and how the phis are split between predicate and action. */
  lemma LinearizedBlocks(f: Function)
    requires Linearizable(f)
    ensures var g, l, acts, ids, entry := f.code, Linearized(f), Actions(f), FinalIds(f).of, f.layout[0];
            && l.Keys == g.Keys + (set i | 0 <= i < |acts| :: Predicate(i))
            && EntryAsGenerated(g, l, entry, ids)
            && (forall b | b in g && b != entry && b !in acts :: b in l && l[b] == g[b])
            && forall i: nat | i < |acts| :: ActionAsGenerated(g, l, acts, ids, i) && PredicateAsGenerated(g, l, acts, ids, i)
  {
    var g, entry, acts, ids := f.code, f.layout[0], Actions(f), FinalIds(f).of;
    ChainOf(f);
    LinearIsGenerated(g, entry, acts, ids);
    TargetsHaveIds(f);
    KeysOfLinear(g, entry, acts, ids);
    OthersAsTheyWere(g, entry, acts, ids);
    assert Linearized(f) == LinearCode(g, entry, acts, ids);
    hide *;
    EntryBlockAsGenerated(g, Linearized(f), entry, acts, ids);
    forall i: nat | i < |acts|
      ensures ActionAsGenerated(g, Linearized(f), acts, ids, i) && PredicateAsGenerated(g, Linearized(f), acts, ids, i)
    {
      BlocksAsGenerated(g, Linearized(f), entry, acts, ids, i);
    }
  }

  lemma TargetsHaveIds(f: Function)
    requires Linearizable(f)
    ensures forall u, v | IsEdge(f.code, u, v) :: v in FinalIds(f).of
  {
    hide FinalIds;
    AllHaveIdsIff(f);
  }

  ghost predicate EntryAsGenerated(g: Code, l: Code, entry: BlockId, ids: map<BlockId, int>) {
    && entry in g && entry in l && l[entry] == g[entry].(mask := l[entry].mask, term := Br(Predicate(0)))
    && StoresTarget(g[entry], ids, l[entry].mask)
  }

  lemma EntryBlockAsGenerated(g: Code, l: Code, entry: BlockId, acts: seq<BlockId>, ids: map<BlockId, int>)
    requires Chain(g, entry, acts, ids) && Generated(l, g, entry, acts, ids)
    requires forall u, v | IsEdge(g, u, v) :: v in ids
    ensures EntryAsGenerated(g, l, entry, ids)
  {
    hide EdgesForward, ClearEdges, ChainExits, GeneratedAt;
    assert forall v | v in Succs(g[entry]) :: IsEdge(g, entry, v);
    StoreOfBranch(g, entry, ids);
  }

  lemma OthersAsTheyWere(g: Code, entry: BlockId, acts: seq<BlockId>, ids: map<BlockId, int>)
    requires Chain(g, entry, acts, ids)
    ensures forall b | b in g && b != entry && b !in acts ::
              b in LinearCode(g, entry, acts, ids) && LinearCode(g, entry, acts, ids)[b] == g[b]
  {
    hide EdgesForward, ClearEdges, ChainExits, ActionBlock, PredicateBlock;
    forall b | b in g && b != entry && b !in acts
      ensures LinearBlock(g, entry, acts, ids, b) == g[b]
    {
      assert IsUnreachable(g, b);
    }
  }

  lemma KeysOfLinear(g: Code, entry: BlockId, acts: seq<BlockId>, ids: map<BlockId, int>)
    requires forall a | a in acts :: a in g
    ensures LinearCode(g, entry, acts, ids).Keys == g.Keys + (set i | 0 <= i < |acts| :: Predicate(i))
  {
  }

  ghost predicate ActionAsGenerated(g: Code, l: Code, acts: seq<BlockId>, ids: map<BlockId, int>, i: nat)
    requires i < |acts|
  {
    var a := acts[i];
    && a in g && a in l
    && l[a] == g[a].(phi := l[a].phi, mask := l[a].mask, term := if i + 1 < |acts| then Br(Predicate(i + 1)) else g[a].term)
    && StoresTarget(g[a], ids, l[a].mask)
    && l[a].phi == (if g[a].phi == [] then [] else [Incoming(PHI_REGISTER, Predicate(i), Predicate(i))])
  }

  ghost predicate PredicateAsGenerated(g: Code, l: Code, acts: seq<BlockId>, ids: map<BlockId, int>, i: nat)
    requires i < |acts|
  {
    var a := acts[i];
    && a in g && Predicate(i) in l && a in ids
    && l[Predicate(i)] == Block(l[Predicate(i)].phi, KEEP_MEMORY, NoStore,
                                if i + 1 == |acts| then Br(a) else MaskBr(ids[a], a, Predicate(i + 1)))
    && (g[a].phi == [] ==> l[Predicate(i)].phi == [])
    && (g[a].phi != [] ==>
          && |g[a].phi| == 2 && i > 0
          && l[Predicate(i)].phi == [Incoming(g[a].phi[0].val, g[a].phi[0].src, Predicate(i - 1)),
                                     Incoming(g[a].phi[1].val, g[a].phi[1].src, acts[i - 1])])
  }

  lemma BlocksAsGenerated(g: Code, l: Code, entry: BlockId, acts: seq<BlockId>, ids: map<BlockId, int>, i: nat)
    requires Chain(g, entry, acts, ids) && Generated(l, g, entry, acts, ids) && i < |acts|
    requires forall u, v | IsEdge(g, u, v) :: v in ids
    ensures ActionAsGenerated(g, l, acts, ids, i) && PredicateAsGenerated(g, l, acts, ids, i)
  {
    hide EdgesForward, ClearEdges;
    var a := acts[i];
    assert GeneratedAt(l, g, acts, ids, i) && a in acts;
    assert TwoWayPhi(g, a);
    hide TwoWayPhi;
    if g[a].phi != [] {
      PhiNotFirst(g, entry, acts, ids, i);
    }
    assert forall v | v in Succs(g[a]) :: IsEdge(g, a, v);
    StoreOfBranch(g, a, ids);
  }

  lemma StoreOfBranch(g: Code, a: BlockId, ids: map<BlockId, int>)
    requires a in g && g[a].mask == NoStore && forall v | v in Succs(g[a]) :: v in ids
    requires !g[a].term.MaskBr?
    ensures StoresTarget(g[a], ids, WithStore(g[a], ids).mask)
  {
    match g[a].term
    case Br(t) => assert t in Succs(g[a]);
    case CondBr(_, t, e) => assert t in Succs(g[a]) && e in Succs(g[a]);
    case _ =>
  }

  lemma {:induction false} WithoutShrinks(g: Code, s: seq<BlockId>)
    ensures |Without(g, s)| <= |s|
  {
    if s != [] {
      WithoutShrinks(g, s[1..]);
    }
  }

  lemma {:induction false} DistinctFits(s: seq<BlockId>, t: seq<BlockId>)
    requires Distinct(s) && forall b | b in s :: b in t
    ensures |s| <= |t|
  {
    if s != [] {
      assert s[0] in t;
      var i :| 0 <= i < |t| && t[i] == s[0];
      var rest := t[..i] + t[i + 1..];
      forall b | b in s[1..]
        ensures b in rest
      {
        var k :| 0 < k < |s| && s[k] == b;
        assert b in t && b != t[i];
      }
      DistinctFits(s[1..], rest);
    }
  }

  /** There are fewer actions than blocks. */
  lemma FewActions(f: Function)
    requires Dag(f)
    ensures |Actions(f)| < |f.layout|
  {
    WithoutShrinks(f.code, OrderOf(f)[1..]);
    DistinctFits(OrderOf(f), f.layout);
  }

  ghost function JobOf(f: Function): (c: Job)
    requires Linearizable(f)
    ensures Sound(c)
  {
    SoundJob(f);
    Job(f.code, AsMoved(f.code, Actions(f)), f.layout[0], Actions(f), FinalIds(f).of, Linearized(f))
  }

  lemma SoundJob(f: Function)
    requires Linearizable(f)
    ensures Sound(Job(f.code, AsMoved(f.code, Actions(f)), f.layout[0], Actions(f), FinalIds(f).of, Linearized(f)))
  {
    ChainOf(f);
    AsMovedIsChain(f.code, f.layout[0], Actions(f), FinalIds(f).of);
    LinearIsGenerated(f.code, f.layout[0], Actions(f), FinalIds(f).of);
  }

  /** Run from the same memory, with the same unknown content of the mask cell, `g` stops within
      `n + 1` block visits; if it returns, `l` visits the same program blocks in the same order
      and returns the same value with the same memory, within `2 * n - 1` visits. */
  ghost predicate Preserves(g: Code, l: Code, entry: BlockId, mem: Memory, mask: int, n: nat)
    requires n > 0
  {
    var o := Run(g, Start(entry, mem, mask), n + 1);
    var p := Run(l, Start(entry, mem, mask), 2 * n - 1);
    && !o.Running?
    && (o.Returned? ==> p.Returned? && p.value == o.value && p.mem == o.mem && Program(p.log) == Program(o.log))
  }

  lemma JobPreservesMeaning(c: Job, mem: Memory, mask: int, n: nat)
    requires Sound(c) && |c.acts| < n
    ensures Preserves(c.g, c.l, c.entry, mem, mask, n)
  {
    hide Step, Run, Sound;
    var s := Start(c.entry, mem, mask);
    FromEntry(c, mem, mask);
    RunMore(c.g, s, |c.acts| + 2, n + 1);
    if Run(c.g, s, |c.acts| + 2).Returned? {
      RunMore(c.l, s, 2 * |c.acts| + 1, 2 * n - 1);
    }
  }

  /** Linearization computes the program with its phis as moved, for a program of `n` blocks within two
      visits per block. */
  lemma LinearizationComputesAsMoved(f: Function, mem: Memory, mask: int)
    requires Linearizable(f)
    ensures Preserves(AsMoved(f.code, Actions(f)), Linearized(f), f.layout[0], mem, mask, |f.layout|)
  {
    var c := JobOf(f);
    FewActions(f);
    hide *;
    JobPreservesMeaning(c, mem, mask, |f.layout|);
  }

  /** Linearization preserves meaning if every phi is placed to move without change. */
  lemma LinearizationPreservesMeaning(f: Function, mem: Memory, mask: int)
    requires Linearizable(f) && PhisPlaced(f.code, Actions(f))
    ensures Preserves(f.code, Linearized(f), f.layout[0], mem, mask, |f.layout|)
  {
    hide Run, Program;
    ChainOf(f);
    PlacedIsAsMoved(f.code, Actions(f));
    LinearizationComputesAsMoved(f, mem, mask);
  }

  // ----- runs on graphs without cycles -----

  /** Blocks visited so far rank below the current one. */
  ghost predicate LogBelow(g: Code, rank: Rank, s: State) {
    Distinct(s.log) && forall b | b in s.log :: b in g && rank(b) < rank(s.at)
  }

  lemma StepLogs(g: Code, s: State)
    ensures var o := Step(g, s);
            && (o.Running? ==> s.at in g && o.s.log == s.log + [s.at])
            && (o.Returned? ==> s.at in g && o.log == s.log + [s.at])
  {
  }

  lemma StepGoesForward(g: Code, rank: Rank, s: State)
    requires Ranks(g, rank) && LogBelow(g, rank, s)
    ensures var o := Step(g, s);
            && (o.Running? ==> LogBelow(g, rank, o.s) && |o.s.log| == |s.log| + 1)
            && (o.Returned? ==> Distinct(o.log))
  {
    StepLogs(g, s);
    if Step(g, s).Running? {
      assert IsEdge(g, s.at, Step(g, s).s.at);
    }
  }

  /** No run visits a block twice, if a rank grows along every edge. */
  lemma {:induction false} RunGoesForward(g: Code, rank: Rank, s: State, n: nat)
    requires Ranks(g, rank) && LogBelow(g, rank, s)
    ensures var o := Run(g, Running(s), n);
            && (o.Running? ==> LogBelow(g, rank, o.s) && |o.s.log| == |s.log| + n)
            && (o.Returned? ==> Distinct(o.log))
    decreases n
  {
    hide Step, Ranks, LogBelow;
    if n > 0 {
      StepGoesForward(g, rank, s);
      if Step(g, s).Running? {
        RunGoesForward(g, rank, Step(g, s).s, n - 1);
      }
    }
  }

  /** A run of a program without cycles stops after at most as many visits as it has blocks. */
  lemma ProgramStops(f: Function, mem: Memory, mask: int)
    requires Dag(f)
    ensures !Run(f.code, Start(f.layout[0], mem, mask), |f.layout| + 1).Running?
  {
    hide Run;
    var rank: Rank :| Ranks(f.code, rank);
    var s := Start(f.layout[0], mem, mask).s;
    RunGoesForward(f.code, rank, s, |f.layout| + 1);
    var o := Run(f.code, Running(s), |f.layout| + 1);
    if o.Running? {
      DistinctFits(o.s.log, f.layout);
    }
  }

  /** If `g` returns from `mem`, so does `h`: the same value and memory, along the same blocks. */
  ghost predicate EndsAs(g: Code, h: Code, entry: BlockId, mem: Memory, mask: int, n: nat) {
    var o := Run(g, Start(entry, mem, mask), n);
    o.Returned? ==> SameResult(o, Run(h, Start(entry, mem, mask), n))
  }

  lemma {:induction false} NeverUndefined(g: Code, s: State, n: nat)
    requires Closed(g) && s.at in g && forall b | b in g :: !IsUnreachable(g, b)
    ensures !Run(g, Running(s), n).Undefined?
    decreases n
  {
    hide Pick;
    if n > 0 {
      var o := Step(g, s);
      assert !IsUnreachable(g, s.at);
      if o.Running? {
        assert o.s.at in Succs(g[s.at]);
        NeverUndefined(g, o.s, n - 1);
      }
    }
  }

  /** A program without unreachable block returns, as it is and with its phis moved. */
  lemma AsMovedReturns(f: Function, mem: Memory, mask: int)
    requires Linearizable(f) && |Unreachables(f.code, f.layout)| == 0
    ensures Run(AsMoved(f.code, Actions(f)), Start(f.layout[0], mem, mask), |f.layout| + 1).Returned?
  {
    hide Run, Step;
    var h := AsMoved(f.code, Actions(f));
    LinearizationComputesAsMoved(f, mem, mask);
    InUnreachables(f.code, f.layout);
    AsMovedEdges(f.code, Actions(f));
    EntryDivides(f);
    forall b | b in h
      ensures !IsUnreachable(h, b)
    {
      assert b in f.layout && (IsUnreachable(f.code, b) ==> b in Unreachables(f.code, f.layout));
    }
    NeverUndefined(h, Start(f.layout[0], mem, mask).s, |f.layout| + 1);
  }

  /** Linearization preserves the meaning of a run exactly if moving the phis does, in a program without
      unreachable block, or where the program with its phis moved returns. */
  lemma LinearizationRightIff(f: Function, mem: Memory, mask: int)
    requires Linearizable(f)
    ensures var (g, h, entry, n) := (f.code, AsMoved(f.code, Actions(f)), f.layout[0], |f.layout|);
            && n > 0
            && (EndsAs(g, h, entry, mem, mask, n + 1) ==> Preserves(g, Linearized(f), entry, mem, mask, n))
            && (|Unreachables(g, f.layout)| == 0 || Run(h, Start(entry, mem, mask), n + 1).Returned? ==>
                  (Preserves(g, Linearized(f), entry, mem, mask, n) <==> EndsAs(g, h, entry, mem, mask, n + 1)))
  {
    LinearizationComputesAsMoved(f, mem, mask);
    ProgramStops(f, mem, mask);
    if |Unreachables(f.code, f.layout)| == 0 {
      AsMovedReturns(f, mem, mask);
    }
    hide Run, Program, AsMoved, Linearized, Actions, Linearizable, Unreachables;
  }

  /** The log of a program's run lists program blocks only, so the log comparison above is exact. */
  lemma {:induction false} ProgramLogIsWhole(g: Code, s: State, n: nat)
    requires ProgramCode(g) && Program(s.log) == s.log
    ensures var o := Run(g, Running(s), n);
            && (o.Running? ==> Program(o.s.log) == o.s.log)
            && (o.Returned? ==> Program(o.log) == o.log)
    decreases n
  {
    hide Step, Program;
    if n > 0 {
      StepLogs(g, s);
      LogStep(s.log, s.at);
      if Step(g, s).Running? {
        ProgramLogIsWhole(g, Step(g, s).s, n - 1);
      }
    }
  }

  /** Where a block stands in the generated chain. */
  ghost function ChainRank(entry: BlockId, acts: seq<BlockId>, b: BlockId): nat {
    if b.Predicate? && 0 <= b.i then 2 * b.i + 1
    else if b == entry then 0
    else if b in acts then 2 * IndexIn(acts, b) + 2
    else 0
  }

  ghost function RankIn(f: Function): Rank
    requires Dag(f)
  {
    b => ChainRank(f.layout[0], Actions(f), b)
  }

  /** The generated code only goes forward. */
  lemma LinearGoesForward(f: Function)
    requires Linearizable(f)
    ensures Ranks(Linearized(f), RankIn(f))
  {
    var g, entry, acts, ids := f.code, f.layout[0], Actions(f), FinalIds(f).of;
    ChainOf(f);
    LinearIsGenerated(g, entry, acts, ids);
    var l := Linearized(f);
    forall u, v | IsEdge(l, u, v)
      ensures ChainRank(entry, acts, u) < ChainRank(entry, acts, v)
    {
      ForwardEdge(g, entry, acts, ids, u, v);
    }
  }

  /** No block of the generated code runs twice, in any run, finished or not. */
  lemma NoBlockRunsTwice(f: Function, mem: Memory, mask: int, n: nat)
    requires Linearizable(f)
    ensures var o := Run(Linearized(f), Start(f.layout[0], mem, mask), n);
            (o.Running? ==> Distinct(o.s.log)) && (o.Returned? ==> Distinct(o.log))
  {
    LinearGoesForward(f);
    hide Run, Linearized, Linearizable, Ranks;
    RunGoesForward(Linearized(f), RankIn(f), Start(f.layout[0], mem, mask).s, n);
  }

  lemma ForwardEdge(g: Code, entry: BlockId, acts: seq<BlockId>, ids: map<BlockId, int>, u: BlockId, v: BlockId)
    requires Chain(g, entry, acts, ids) && Generated(LinearCode(g, entry, acts, ids), g, entry, acts, ids)
    requires IsEdge(LinearCode(g, entry, acts, ids), u, v)
    ensures ChainRank(entry, acts, u) < ChainRank(entry, acts, v)
  {
    hide EdgesForward, ClearEdges, ChainExits, PredicatePhi, ActionPhi, LinearBlock;
    var l := LinearCode(g, entry, acts, ids);
    if u == entry {
    } else if u.Predicate? && u !in g {
      assert 0 <= u.i < |acts|;
      assert GeneratedAt(l, g, acts, ids, u.i) && acts[u.i] in acts;
      IndexOfDistinct(acts, u.i);
      assert acts[u.i] != entry;
    } else if u in acts {
      assert GeneratedAt(l, g, acts, ids, IndexIn(acts, u));
      ActionSuccs(g, acts, ids, IndexIn(acts, u));
    } else {
      OthersStop(g, entry, acts, ids, u);
    }
  }

  lemma OthersStop(g: Code, entry: BlockId, acts: seq<BlockId>, ids: map<BlockId, int>, u: BlockId)
    requires Chain(g, entry, acts, ids) && u in g && u != entry && u !in acts
    ensures Succs(LinearCode(g, entry, acts, ids)[u]) == []
  {
    assert IsUnreachable(g, u);
  }

  lemma IndexOfDistinct(acts: seq<BlockId>, i: nat)
    requires Distinct(acts) && i < |acts|
    ensures IndexIn(acts, acts[i]) == i
  {
    assert acts[i] in acts;
  }

  lemma ActionSuccs(g: Code, acts: seq<BlockId>, ids: map<BlockId, int>, i: nat)
    requires acts != [] && (forall b | b in acts :: b in g) && ChainExits(g, acts) && i < |acts| && acts[i] in g
    ensures Succs(ActionBlock(g[acts[i]], ids, |acts|, i)) == if i + 1 < |acts| then [Predicate(i + 1)] else []
  {
  }
}
