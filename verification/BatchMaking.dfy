/**
 Batching as it runs: the function is rewritten in place, block by block, and the part after
 the batch marker is wrapped in a loop.
 */
module BatchMaking {
  import opened Common
  import opened LoopLang
  import opened Expansion
  import opened LoopGraph
  import opened Batching

  /** A function under construction. */
  class LoopFunction {
    var code: Graph

    constructor (code: Graph)
      ensures this.code == code
    {
      this.code := code;
    }

    /** Successor 0 is the only or the true target, successor 1 the false one. */
    method SetSuccessor(b: BlockId, target: BlockId, index: nat)
      requires HasSuccessor(code, b, index)
      modifies this
      ensures code == old(code)[b := old(code)[b].(term := Retargeted(old(code)[b].term, target, index))]
    {
      match code[b].term
      case Br(_) => code := code[b := code[b].(term := Br(target))];
      case IfLess(t, f) =>
        if index == 0 {
          code := code[b := code[b].(term := IfLess(target, f))];
        } else {
          code := code[b := code[b].(term := IfLess(t, target))];
        }
    }
  }

  predicate HasSuccessor(g: Graph, b: BlockId, index: nat) {
    b in g && ((g[b].term.Br? && index == 0) || (g[b].term.IfLess? && index <= 1))
  }

  function Retargeted(t: Terminator, target: BlockId, index: nat): Terminator {
    match t
    case Br(_) => Br(target)
    case IfLess(a, b) => if index == 0 then IfLess(target, b) else IfLess(a, target)
    case _ => t
  }

  /** Blocks of the program only. */
  predicate ProgramBlocks(chain: seq<BlockId>) {
    forall b | b in chain :: b.Block?
  }

  lemma {:induction false} SameBodies(g: Graph, h: Graph, chain: seq<BlockId>)
    requires forall b | b in chain :: b in g && b in h && g[b].body == h[b].body
    ensures Bodies(g, chain) == Bodies(h, chain)
  {
    if chain != [] {
      SameBodies(g, h, chain[1..]);
    }
  }

  // ----- the loop skeleton -----

  /** The loop added around the part of a function after the batch marker. */
  class TASForLoop {
    const F: LoopFunction
    const k: nat

    /** An empty loop between `prev` and `next`: header, latch, and back.  A conditional `prev`
        enters the loop on its false side. */
    constructor (F: LoopFunction, prev: BlockId, next: BlockId, k: nat)
      requires prev in F.code && (F.code[prev].term.Br? || F.code[prev].term.IfLess?)
      requires PreHeader(k) !in F.code && Header(k) !in F.code && Latch(k) !in F.code
      modifies F
      ensures this.F == F && this.k == k
      ensures F.code == WithLoop(old(F.code), prev, next, k)
      ensures F.code.Keys == old(F.code).Keys + {PreHeader(k), Header(k), Latch(k)}
      ensures F.code[prev].term == match old(F.code)[prev].term
                                   case IfLess(t, _) => IfLess(t, PreHeader(k))
                                   case _ => Br(PreHeader(k))
    {
      this.F := F;
      this.k := k;
      new;
      F.code := F.code[PreHeader(k) := LoopBlock(Skip, ResetIndex, Br(Header(k)))];
      F.code := F.code[Latch(k) := LoopBlock(Skip, IncrementIndex, Br(Header(k)))];
      if F.code[prev].term.IfLess? {
        F.SetSuccessor(prev, PreHeader(k), 1);
      } else {
        F.SetSuccessor(prev, PreHeader(k), 0);
      }
      F.code := F.code[Header(k) := LoopBlock(Skip, KeepIndex, IfLess(Latch(k), next))];
    }

    method SetLoopBody(entry: BlockId, exiting: BlockId)
      requires Header(k) in F.code && F.code[Header(k)].term.IfLess?
      requires exiting in F.code && F.code[exiting].term.Br? && exiting != Header(k)
      modifies F
      ensures var h, e := old(F.code)[Header(k)], old(F.code)[exiting];
              F.code == old(F.code)[Header(k) := h.(term := IfLess(entry, h.term.onFalse))]
                                   [exiting := e.(term := Br(Latch(k)))]
    {
      F.SetSuccessor(Header(k), entry, 0);
      F.SetSuccessor(exiting, Latch(k), 0);
    }
  }

  function WithLoop(g: Graph, prev: BlockId, next: BlockId, k: nat): Graph
    requires prev in g
  {
    g[PreHeader(k) := LoopBlock(Skip, ResetIndex, Br(Header(k)))]
     [Latch(k) := LoopBlock(Skip, IncrementIndex, Br(Header(k)))]
     [prev := g[prev].(term := Retargeted(g[prev].term, PreHeader(k), if g[prev].term.IfLess? then 1 else 0))]
     [Header(k) := LoopBlock(Skip, KeepIndex, IfLess(Latch(k), next))]
  }

  // ----- batching -----

  function SubTerm(t: Terminator, vars: set<nat>, k: Kind): Terminator {
    match t
    case RetVal(srcs, op) => RetVal(SubPlaces(srcs, vars, k), op)
    case _ => t
  }

  function SubBlock(b: LoopBlock, vars: set<nat>, k: Kind): LoopBlock {
    LoopBlock(Sub(b.body, vars, k), b.op, SubTerm(b.term, vars, k))
  }

  /** Every use of the variables in the function becomes an element access, except in `keep`. */
  function SubGraph(g: Graph, keep: set<BlockId>, vars: set<nat>, k: Kind): Graph {
    map b | b in g :: if b in keep then g[b] else SubBlock(g[b], vars, k)
  }

  function Elements(xs: seq<nat>): (r: set<nat>) {
    set x | x in xs
  }

  lemma {:induction false} SubPlaceTwice(p: Place, a: set<nat>, b: set<nat>, k: Kind)
    ensures SubPlace(SubPlace(p, a, k), b, k) == SubPlace(p, a + b, k)
  {
    match p
    case Elem(_, q) => SubPlaceTwice(q, a, b, k);
    case _ =>
  }

  lemma {:induction false} SubPlacesTwice(ps: seq<Place>, a: set<nat>, b: set<nat>, k: Kind)
    ensures SubPlaces(SubPlaces(ps, a, k), b, k) == SubPlaces(ps, a + b, k)
  {
    if ps != [] {
      SubPlaceTwice(ps[0], a, b, k);
      SubPlacesTwice(ps[1..], a, b, k);
    }
  }

  /** Replacing variables one after the other replaces them all. */
  lemma {:induction false} SubTwice(s: Stmt, a: set<nat>, b: set<nat>, k: Kind)
    ensures Sub(Sub(s, a, k), b, k) == Sub(s, a + b, k)
  {
    match s
    case Skip =>
    case Assign(d, srcs, _) =>
      SubPlaceTwice(d, a, b, k);
      SubPlacesTwice(srcs, a, b, k);
    case Seq(s1, s2) =>
      SubTwice(s1, a, b, k);
      SubTwice(s2, a, b, k);
    case If(srcs, _, thn, els) =>
      SubPlacesTwice(srcs, a, b, k);
      SubTwice(thn, a, b, k);
      SubTwice(els, a, b, k);
  }

  lemma {:induction false} SubPlacesNone(ps: seq<Place>, k: Kind)
    ensures SubPlaces(ps, {}, k) == ps
  {
    if ps != [] {
      SubPlaceNone(ps[0], k);
      SubPlacesNone(ps[1..], k);
    }
  }

  lemma {:induction false} SubPlaceNone(p: Place, k: Kind)
    ensures SubPlace(p, {}, k) == p
  {
    match p
    case Elem(_, q) => SubPlaceNone(q, k);
    case _ =>
  }

  lemma {:induction false} SubNone(s: Stmt, k: Kind)
    ensures Sub(s, {}, k) == s
  {
    match s
    case Skip =>
    case Assign(d, srcs, _) =>
      SubPlaceNone(d, k);
      SubPlacesNone(srcs, k);
    case Seq(s1, s2) =>
      SubNone(s1, k);
      SubNone(s2, k);
    case If(srcs, _, thn, els) =>
      SubPlacesNone(srcs, k);
      SubNone(thn, k);
      SubNone(els, k);
  }

  lemma SubGraphTwice(g: Graph, keep: set<BlockId>, a: set<nat>, b: set<nat>, k: Kind)
    ensures SubGraph(SubGraph(g, keep, a, k), keep, b, k) == SubGraph(g, keep, a + b, k)
  {
    forall x | x in g
      ensures SubBlock(SubBlock(g[x], a, k), b, k) == SubBlock(g[x], a + b, k)
    {
      SubTwice(g[x].body, a, b, k);
      if g[x].term.RetVal? {
        SubPlacesTwice(g[x].term.srcs, a, b, k);
      }
    }
  }

  lemma SubGraphNone(g: Graph, keep: set<BlockId>, k: Kind)
    ensures SubGraph(g, keep, {}, k) == g
  {
    forall x | x in g
      ensures SubBlock(g[x], {}, k) == g[x]
    {
      SubNone(g[x].body, k);
      if g[x].term.RetVal? {
        SubPlacesNone(g[x].term.srcs, k);
      }
    }
  }

  /** Replace the uses of one variable after the other. */
  method ReplaceUses(F: LoopFunction, keep: set<BlockId>, vars: seq<nat>, kind: Kind)
    modifies F
    ensures F.code == SubGraph(old(F.code), keep, Elements(vars), kind)
  {
    ghost var g := F.code;
    SubGraphNone(g, keep, kind);
    assert Elements(vars[..0]) == {};
    hide SubGraph;
    for i := 0 to |vars|
      invariant F.code == SubGraph(g, keep, Elements(vars[..i]), kind)
    {
      F.code := SubGraph(F.code, keep, {vars[i]}, kind);
      SubGraphTwice(g, keep, Elements(vars[..i]), {vars[i]}, kind);
      assert Elements(vars[..i + 1]) == Elements(vars[..i]) + {vars[i]};
    }
    assert vars[..|vars|] == vars;
  }

  /** The part of the function after the marker: blocks in a row, the last one returning. */
  ghost predicate Batchable(g: Graph, parent: BlockId, chain: seq<BlockId>) {
    && chain != [] && ProgramBlocks(chain) && Distinct(chain) && parent.Block? && parent !in chain
    && GoesTo(g, parent, chain[0])
    && (forall j | 0 <= j < |chain| - 1 :: GoesTo(g, chain[j], chain[j + 1]))
    && Returning(g, chain[|chain| - 1])
    && forall b | b in g :: b.Block?
  }

  predicate Returning(g: Graph, b: BlockId) {
    b in g && g[b].op == KeepIndex && g[b].term.RetVal?
  }

  /** That part as a function of its batched parameters. */
  ghost function FunctionOf(g: Graph, chain: seq<BlockId>, params: set<nat>, locals: set<nat>): Function
    requires chain != [] && Returning(g, chain[|chain| - 1])
  {
    var ret := g[chain[|chain| - 1]].term;
    Function(params, locals, Bodies(g, chain), ret.srcs, ret.op)
  }

  /** The original function with its result stored before it leaves. */
  function Stored(g: Graph, chain: seq<BlockId>, exit: BlockId): Graph
    requires chain != [] && Returning(g, chain[|chain| - 1])
  {
    WithStore(g, chain[|chain| - 1], exit)
  }

  /** In the blocks of `chain` every use of a parameter has become an element access. */
  ghost predicate BatchedFrom(g: Graph, h: Graph, chain: seq<BlockId>, params: set<nat>) {
    forall b | b in chain :: b in g && b in h && h[b].body == Sub(g[b].body, params, ByBatch)
  }

  /** Batching of one function. */
  class BatchMaker {
    const F: LoopFunction
    const argsToBatch: seq<nat>

    constructor (F: LoopFunction, argsToBatch: seq<nat>)
      ensures this.F == F && this.argsToBatch == argsToBatch
    {
      this.F := F;
      this.argsToBatch := argsToBatch;
    }

    /** Parameters become array elements, the result is stored, and the part after the marker
        becomes the body of a loop.  The body is the batched body `Batching` speaks of. */
    method DoBatchTransform(parent: BlockId, chain: seq<BlockId>, exit: BlockId, ghost locals: set<nat>)
      requires Batchable(F.code, parent, chain) && exit.Block? && exit !in F.code
      modifies F
      ensures IsLoop(F.code, 0, chain, exit) && GoesTo(F.code, parent, PreHeader(0))
      ensures exit in F.code && F.code[exit] == LoopBlock(Skip, KeepIndex, Ret)
      ensures parent in old(F.code) && F.code[parent].body == Sub(old(F.code)[parent].body, Elements(argsToBatch), ByBatch)
      ensures BatchedFrom(Stored(old(F.code), chain, exit), F.code, chain, Elements(argsToBatch))
      ensures Bodies(F.code, chain) == BatchSegments(FunctionOf(old(F.code), chain, Elements(argsToBatch), locals))
      ensures F.code.Keys == old(F.code).Keys + {exit, PreHeader(0), Header(0), Latch(0)}
      ensures forall b | b in old(F.code) && b !in chain && b != parent ::
                F.code[b] == SubBlock(old(F.code)[b], Elements(argsToBatch), ByBatch)
      ensures forall b | b in F.code && !b.Block? :: b in {PreHeader(0), Header(0), Latch(0)}
    {
      ghost var g, params := F.code, Elements(argsToBatch);
      ReplaceUses(F, {}, argsToBatch, ByBatch);
      ghost var h := F.code;
      SubKeepsShape(g, params, parent, chain);
      StoreRetValInPtrArg(chain[|chain| - 1], exit);
      StoreMakesChain(g, params, locals, parent, chain, exit);
      ghost var stored := F.code;
      StoreThenSub(g, params, parent, chain, exit);
      OthersRewritten(g, params, chain[|chain| - 1], exit);
      hide SubGraph, Sub, SubBlock, WithStore, BatchSegments, Bodies;
      AddBatchLoop(parent, chain, exit);
    }

    /** The return instruction becomes a store to the result array; what follows it, nothing,
        is split off into the exit block. */
    method StoreRetValInPtrArg(ret: BlockId, exit: BlockId)
      requires Returning(F.code, ret) && exit !in F.code
      modifies F
      ensures F.code == WithStore(old(F.code), ret, exit)
    {
      var b := F.code[ret];
      var store := Assign(At(Results), b.term.srcs, b.term.op);
      F.code := F.code[exit := LoopBlock(Skip, KeepIndex, Ret)];
      F.code := F.code[ret := b.(body := Seq(b.body, store), term := Br(exit))];
    }

    /** Wrap the chain between the marker's block and the return block in a loop. */
    method AddBatchLoop(parent: BlockId, chain: seq<BlockId>, ret: BlockId)
      requires chain != [] && ProgramBlocks(chain) && Distinct(chain) && parent.Block? && parent !in chain
      requires IsChain(F.code, chain, ret) && GoesTo(F.code, parent, chain[0])
      requires forall b | b in F.code :: b.Block?
      modifies F
      ensures IsLoop(F.code, 0, chain, ret) && GoesTo(F.code, parent, PreHeader(0))
      ensures Bodies(F.code, chain) == Bodies(old(F.code), chain)
      ensures forall b | b in old(F.code) :: b in F.code && F.code[b].body == old(F.code)[b].body
      ensures F.code.Keys == old(F.code).Keys + {PreHeader(0), Header(0), Latch(0)}
      ensures forall b | b in old(F.code) && b !in chain && b != parent :: F.code[b] == old(F.code)[b]
    {
      ghost var was := F.code;
      var last := chain[|chain| - 1];
      LastBranches(F.code, chain, ret);
      hide IsChain, Bodies, BodyOf;
      assert PreHeader(0) !in F.code && Header(0) !in F.code && Latch(0) !in F.code;
      var TL0 := new TASForLoop(F, parent, ret, 0);
      TL0.SetLoopBody(chain[0], last);
      WrappedIsLoop(was, F.code, parent, chain, ret);
    }
  }

  lemma LastBranches(g: Graph, chain: seq<BlockId>, next: BlockId)
    requires chain != [] && IsChain(g, chain, next)
    ensures GoesTo(g, chain[|chain| - 1], next) && chain[|chain| - 1] in chain
  {
    assert GoesTo(g, chain[|chain| - 1], NextIn(chain, |chain| - 1, next));
  }

  /** The chain with a skeleton around it. */
  function Wrapped(g: Graph, parent: BlockId, chain: seq<BlockId>, ret: BlockId): Graph
    requires chain != [] && parent in g && chain[|chain| - 1] in g
  {
    var last := chain[|chain| - 1];
    WithLoop(g, parent, ret, 0)[Header(0) := LoopBlock(Skip, KeepIndex, IfLess(chain[0], ret))]
                               [last := g[last].(term := Br(Latch(0)))]
  }

  /** The wrapped code block by block. */
  ghost predicate WrappedAs(g: Graph, h: Graph, parent: BlockId, chain: seq<BlockId>, ret: BlockId)
    requires chain != [] && parent in g && chain[|chain| - 1] in g
  {
    var last := chain[|chain| - 1];
    && PreHeader(0) in h && h[PreHeader(0)] == LoopBlock(Skip, ResetIndex, Br(Header(0)))
    && Header(0) in h && h[Header(0)] == LoopBlock(Skip, KeepIndex, IfLess(chain[0], ret))
    && Latch(0) in h && h[Latch(0)] == LoopBlock(Skip, IncrementIndex, Br(Header(0)))
    && parent in h && h[parent] == g[parent].(term := Br(PreHeader(0)))
    && last in h && h[last] == g[last].(term := Br(Latch(0)))
    && forall b | b in g && b.Block? && b != parent && b != last :: b in h && h[b] == g[b]
  }

  lemma WrappedBlocks(g: Graph, parent: BlockId, chain: seq<BlockId>, ret: BlockId)
    requires chain != [] && parent in g && chain[|chain| - 1] in g && g[parent].term.Br?
    requires parent.Block? && chain[|chain| - 1].Block? && parent != chain[|chain| - 1]
    ensures WrappedAs(g, Wrapped(g, parent, chain, ret), parent, chain, ret)
  {
  }

  lemma WrappedChain(g: Graph, h: Graph, parent: BlockId, chain: seq<BlockId>, ret: BlockId, j: nat)
    requires j < |chain| && ProgramBlocks(chain) && Distinct(chain) && parent !in chain && parent in g
    requires IsChain(g, chain, ret) && chain[|chain| - 1] in g && WrappedAs(g, h, parent, chain, ret)
    ensures chain[j] in g && chain[j] in h && g[chain[j]].body == h[chain[j]].body
    ensures GoesTo(h, chain[j], NextIn(chain, j, Latch(0)))
  {
    hide IsChain;
    assert GoesTo(g, chain[j], NextIn(chain, j, ret)) by { ChainAt(g, chain, ret, j); }
    assert chain[j] in chain;
  }

  lemma ChainAt(g: Graph, chain: seq<BlockId>, next: BlockId, j: nat)
    requires IsChain(g, chain, next) && j < |chain|
    ensures GoesTo(g, chain[j], NextIn(chain, j, next))
  {
  }

  lemma WrappedIsLoop(g: Graph, h: Graph, parent: BlockId, chain: seq<BlockId>, ret: BlockId)
    requires chain != [] && ProgramBlocks(chain) && Distinct(chain) && parent.Block? && parent !in chain
    requires IsChain(g, chain, ret) && GoesTo(g, parent, chain[0]) && chain[|chain| - 1] in g
    requires h == Wrapped(g, parent, chain, ret)
    ensures IsLoop(h, 0, chain, ret) && GoesTo(h, parent, PreHeader(0))
    ensures Bodies(h, chain) == Bodies(g, chain)
  {
    hide Wrapped, Distinct, Bodies;
    assert chain[|chain| - 1] in chain;
    WrappedBlocks(g, parent, chain, ret);
    forall j | 0 <= j < |chain|
      ensures chain[j] in g && chain[j] in h && g[chain[j]].body == h[chain[j]].body
      ensures GoesTo(h, chain[j], NextIn(chain, j, Latch(0)))
    {
      WrappedChain(g, h, parent, chain, ret, j);
    }
    SameBodies(g, h, chain);
  }

  function WithStore(g: Graph, ret: BlockId, exit: BlockId): Graph
    requires Returning(g, ret)
  {
    g[exit := LoopBlock(Skip, KeepIndex, Ret)]
     [ret := LoopBlock(Seq(g[ret].body, Assign(At(Results), g[ret].term.srcs, g[ret].term.op)), KeepIndex, Br(exit))]
  }

  lemma SubKeepsShape(g: Graph, params: set<nat>, parent: BlockId, chain: seq<BlockId>)
    requires Batchable(g, parent, chain)
    ensures Batchable(SubGraph(g, {}, params, ByBatch), parent, chain)
  {
    forall j | 0 <= j < |chain| - 1
      ensures GoesTo(SubGraph(g, {}, params, ByBatch), chain[j], chain[j + 1])
    {
      assert GoesTo(g, chain[j], chain[j + 1]);
    }
  }

  lemma {:induction false} SubBodies(g: Graph, chain: seq<BlockId>, vars: set<nat>, k: Kind)
    requires forall b | b in chain :: b in g
    ensures Bodies(SubGraph(g, {}, vars, k), chain) == SubAll(Bodies(g, chain), vars, k)
  {
    if chain != [] {
      SubBodies(g, chain[1..], vars, k);
    }
  }

  lemma {:induction false} BodiesWithStore(h: Graph, l: Graph, chain: seq<BlockId>, store: Stmt)
    requires chain != [] && Distinct(chain) && forall b | b in chain :: b in h && b in l
    requires forall b | b in chain && b != chain[|chain| - 1] :: l[b].body == h[b].body
    requires l[chain[|chain| - 1]].body == Seq(h[chain[|chain| - 1]].body, store)
    ensures Bodies(l, chain) == WithResult(Bodies(h, chain), store)
  {
    if |chain| == 1 {
      assert Bodies(l, chain[1..]) == [] && Bodies(h, chain[1..]) == [];
    } else {
      assert chain[0] != chain[|chain| - 1];
      BodiesWithStore(h, l, chain[1..], store);
      assert Bodies(h, chain)[1..] == Bodies(h, chain[1..]);
      assert |Bodies(h, chain[1..])| > 0;
    }
  }

  lemma StoreMakesChain(g: Graph, params: set<nat>, locals: set<nat>, parent: BlockId, chain: seq<BlockId>, exit: BlockId)
    requires Batchable(g, parent, chain) && exit.Block? && exit !in g
    requires Batchable(SubGraph(g, {}, params, ByBatch), parent, chain)
    ensures var l := WithStore(SubGraph(g, {}, params, ByBatch), chain[|chain| - 1], exit);
            && IsChain(l, chain, exit) && GoesTo(l, parent, chain[0])
            && Bodies(l, chain) == BatchSegments(FunctionOf(g, chain, params, locals))
  {
    StoredIsChain(SubGraph(g, {}, params, ByBatch), parent, chain, exit);
    StoredBodies(g, params, locals, parent, chain, exit);
  }

  lemma BatchableChain(g: Graph, parent: BlockId, chain: seq<BlockId>)
    requires Batchable(g, parent, chain)
    ensures forall b | b in chain :: b in g
  {
    forall b | b in chain
      ensures b in g
    {
      var j :| 0 <= j < |chain| && chain[j] == b;
      if j < |chain| - 1 {
        assert GoesTo(g, chain[j], chain[j + 1]);
      }
    }
  }

  lemma StoredBodies(g: Graph, params: set<nat>, locals: set<nat>, parent: BlockId, chain: seq<BlockId>, exit: BlockId)
    requires Batchable(g, parent, chain) && exit !in g
    requires Batchable(SubGraph(g, {}, params, ByBatch), parent, chain)
    ensures Bodies(WithStore(SubGraph(g, {}, params, ByBatch), chain[|chain| - 1], exit), chain)
         == BatchSegments(FunctionOf(g, chain, params, locals))
  {
    var last := chain[|chain| - 1];
    var h := SubGraph(g, {}, params, ByBatch);
    BatchableChain(g, parent, chain);
    assert h[last].term == RetVal(SubPlaces(g[last].term.srcs, params, ByBatch), g[last].term.op);
    SubBodies(g, chain, params, ByBatch);
    hide Bodies, Sub, SubAll, SubPlaces, WithResult;
    assert forall b | b in chain :: b in h;
    hide SubGraph;
    BodiesWithStore(h, WithStore(h, last, exit), chain, StoreResult(FunctionOf(g, chain, params, locals)));
  }

  /** Storing the result and replacing parameters may be exchanged. */
  lemma StoreThenSub(g: Graph, params: set<nat>, parent: BlockId, chain: seq<BlockId>, exit: BlockId)
    requires Batchable(g, parent, chain) && exit !in g
    requires Batchable(SubGraph(g, {}, params, ByBatch), parent, chain)
    ensures BatchedFrom(Stored(g, chain, exit), WithStore(SubGraph(g, {}, params, ByBatch), chain[|chain| - 1], exit), chain, params)
  {
    var last := chain[|chain| - 1];
    var h := SubGraph(g, {}, params, ByBatch);
    var store := Assign(At(Results), g[last].term.srcs, g[last].term.op);
    BatchableChain(g, parent, chain);
    assert h[last].term == RetVal(SubPlaces(g[last].term.srcs, params, ByBatch), g[last].term.op);
    assert Sub(Seq(g[last].body, store), params, ByBatch)
        == Seq(h[last].body, Assign(At(Results), h[last].term.srcs, h[last].term.op));
    assert exit !in chain;
  }

  /** Blocks other than the return block are rewritten and nothing else. */
  lemma OthersRewritten(g: Graph, params: set<nat>, ret: BlockId, exit: BlockId)
    requires Returning(g, ret) && exit !in g && Returning(SubGraph(g, {}, params, ByBatch), ret)
    ensures var l := WithStore(SubGraph(g, {}, params, ByBatch), ret, exit);
            && l.Keys == g.Keys + {exit}
            && l[exit] == LoopBlock(Skip, KeepIndex, Ret)
            && forall b | b in g && b != ret :: l[b] == SubBlock(g[b], params, ByBatch)
  {
    hide Sub, SubTerm;
  }

  lemma StoredIsChain(h: Graph, parent: BlockId, chain: seq<BlockId>, exit: BlockId)
    requires Batchable(h, parent, chain) && exit.Block? && exit !in h
    ensures var l := WithStore(h, chain[|chain| - 1], exit);
            && IsChain(l, chain, exit) && GoesTo(l, parent, chain[0]) && forall b | b in chain :: b in l
  {
    var l := WithStore(h, chain[|chain| - 1], exit);
    assert chain[|chain| - 1] in chain;
    forall j | 0 <= j < |chain|
      ensures GoesTo(l, chain[j], NextIn(chain, j, exit))
    {
      if j < |chain| - 1 {
        assert GoesTo(h, chain[j], chain[j + 1]);
      }
    }
  }
}
