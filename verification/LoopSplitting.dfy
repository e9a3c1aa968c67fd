/**
 Loop splitting as it runs: variables that live across a split become arrays, new loop
 skeletons are built and stitched in front of the original one, and the blocks of the
 body are dealt out to them.
 */
module LoopSplitting {
  import opened Common
  import opened LoopLang
  import opened Expansion
  import opened LoopFission
  import opened LoopGraph
  import opened Batching
  import opened OriginalCalls
  import opened BatchMaking

  // ----- one loop -----

  /** Preheader, header and latch of loop `k` are there; the header's targets are open. */
  predicate IsSkeleton(g: Graph, k: nat) {
    && PreHeader(k) in g && g[PreHeader(k)] == LoopBlock(Skip, ResetIndex, Br(Header(k)))
    && Latch(k) in g && g[Latch(k)] == LoopBlock(Skip, IncrementIndex, Br(Header(k)))
    && Header(k) in g && g[Header(k)].body == Skip && g[Header(k)].op == KeepIndex && g[Header(k)].term.IfLess?
  }

  function WithEmptyLoop(g: Graph, k: nat): Graph {
    g[PreHeader(k) := LoopBlock(Skip, ResetIndex, Br(Header(k)))]
     [Latch(k) := LoopBlock(Skip, IncrementIndex, Br(Header(k)))]
     [EmptyBody(k) := LoopBlock(Skip, KeepIndex, Br(Latch(k)))]
     [Header(k) := LoopBlock(Skip, KeepIndex, IfLess(EmptyBody(k), EmptyBody(k)))]
  }

  function WithExit(g: Graph, k: nat, exit: BlockId): Graph
    requires IsSkeleton(g, k)
  {
    g[Header(k) := LoopBlock(Skip, KeepIndex, IfLess(g[Header(k)].term.onTrue, exit))]
  }

  function WithBlocks(g: Graph, k: nat, blocks: seq<BlockId>): Graph
    requires IsSkeleton(g, k) && blocks != [] && blocks[|blocks| - 1] in g
  {
    var last := blocks[|blocks| - 1];
    g[Header(k) := LoopBlock(Skip, KeepIndex, IfLess(blocks[0], g[Header(k)].term.onFalse))]
     [last := g[last].(term := Br(Latch(k)))]
  }

  /** A loop skeleton: enough to rewire it. */
  class IRLoop {
    const F: LoopFunction
    const k: nat

    constructor (F: LoopFunction, k: nat)
      ensures this.F == F && this.k == k
    {
      this.F := F;
      this.k := k;
    }

    /** A new skeleton around an empty block; both header targets are that block for now. */
    method ConstructEmptyLoop()
      requires NoLoop(F.code, k)
      modifies F
      ensures F.code == WithEmptyLoop(old(F.code), k)
      ensures IsSkeleton(F.code, k) && F.code[Header(k)].term == IfLess(EmptyBody(k), EmptyBody(k))
      ensures EmptyBody(k) in F.code && F.code[EmptyBody(k)] == LoopBlock(Skip, KeepIndex, Br(Latch(k)))
      ensures forall b | b in old(F.code) :: b in F.code && F.code[b] == old(F.code)[b]
    {
      F.code := F.code[Latch(k) := LoopBlock(Skip, IncrementIndex, Br(Header(k)))];
      F.code := F.code[PreHeader(k) := LoopBlock(Skip, ResetIndex, Br(Header(k)))];
      F.code := F.code[EmptyBody(k) := LoopBlock(Skip, KeepIndex, Br(Latch(k)))];
      F.code := F.code[Header(k) := LoopBlock(Skip, KeepIndex, IfLess(EmptyBody(k), EmptyBody(k)))];
    }

    method SetExitBlock(exit: BlockId)
      requires IsSkeleton(F.code, k)
      modifies F
      ensures F.code == WithExit(old(F.code), k, exit)
      ensures F.code[Header(k)].term == IfLess(old(F.code)[Header(k)].term.onTrue, exit)
    {
      F.SetSuccessor(Header(k), exit, 1);
    }

    method SetLoopBlocks(blocks: seq<BlockId>)
      requires IsSkeleton(F.code, k) && blocks != []
      requires blocks[|blocks| - 1] in F.code && F.code[blocks[|blocks| - 1]].term.Br? && blocks[|blocks| - 1] != Header(k)
      modifies F
      ensures F.code == WithBlocks(old(F.code), k, blocks)
      ensures F.code[Header(k)].term == IfLess(blocks[0], old(F.code)[Header(k)].term.onFalse)
      ensures F.code[blocks[|blocks| - 1]] == old(F.code)[blocks[|blocks| - 1]].(term := Br(Latch(k)))
    {
      F.SetSuccessor(Header(k), blocks[0], 0);
      F.SetSuccessor(blocks[|blocks| - 1], Latch(k), 0);
    }
  }

  predicate NoLoop(g: Graph, k: nat) {
    PreHeader(k) !in g && Header(k) !in g && Latch(k) !in g && EmptyBody(k) !in g
  }

  // ----- the parts of a body -----

  /** Loop numbers in running order: the new loops, then the original one. */
  function LoopOrder(count: nat): (r: seq<nat>)
    ensures |r| == count + 1
    ensures forall i | 0 <= i <= count :: r[i] == if i < count then i + 1 else 0
  {
    seq(count + 1, (i: nat) => if i < count then i + 1 else 0)
  }

  /** Blocks in a row, wherever the last one goes. */
  ghost predicate Linked(g: Graph, part: seq<BlockId>) {
    && part != []
    && (forall j | 0 <= j < |part| - 1 :: GoesTo(g, part[j], part[j + 1]))
    && Onward(g, part[|part| - 1])
  }

  predicate Onward(g: Graph, b: BlockId) {
    b in g && g[b].op == KeepIndex && g[b].term.Br?
  }

  /** The front of a chain, when it is not empty, is linked, and the back is a chain. */
  lemma ChainSplits(g: Graph, a: seq<BlockId>, b: seq<BlockId>, next: BlockId)
    requires a != [] && IsChain(g, a + b, next)
    ensures Linked(g, a) && IsChain(g, b, next)
  {
    hide IsChain;
    var all := a + b;
    forall j | 0 <= j < |a| - 1
      ensures GoesTo(g, a[j], a[j + 1])
    {
      ChainAt(g, all, next, j);
      assert all[j] == a[j] && all[j + 1] == a[j + 1];
    }
    ChainAt(g, all, next, |a| - 1);
    assert Onward(g, a[|a| - 1]);
    BackIsChain(g, a, b, next);
  }

  lemma BackIsChain(g: Graph, a: seq<BlockId>, b: seq<BlockId>, next: BlockId)
    requires IsChain(g, a + b, next)
    ensures IsChain(g, b, next)
  {
    var all := a + b;
    forall j | 0 <= j < |b|
      ensures GoesTo(g, b[j], NextIn(b, j, next))
    {
      ChainAt(g, all, next, |a| + j);
      assert all[|a| + j] == b[j];
    }
  }

  lemma {:induction false} PartsLinked(g: Graph, cur: seq<BlockId>, chain: seq<BlockId>, ends: set<BlockId>, next: BlockId)
    requires IsChain(g, cur + chain, next)
    ensures forall p | p in Parts(cur, chain, ends) :: Linked(g, p)
    decreases |chain|
  {
    hide IsChain, Linked;
    if chain != [] {
      var more := cur + [chain[0]];
      assert more + chain[1..] == cur + chain;
      if chain[0] in ends {
        ChainSplits(g, more, chain[1..], next);
        assert [] + chain[1..] == chain[1..];
        PartsLinked(g, [], chain[1..], ends, next);
      } else {
        PartsLinked(g, more, chain[1..], ends, next);
      }
    }
  }

  lemma {:induction false} InFlatten(parts: seq<seq<BlockId>>, i: nat, a: nat)
    requires i < |parts| && a < |parts[i]|
    ensures parts[i][a] in Flatten(parts)
  {
    if i > 0 {
      InFlatten(parts[1..], i - 1, a);
    }
  }

  /** No block is in two parts. */
  ghost predicate Separate(parts: seq<seq<BlockId>>) {
    forall i, j | 0 <= i < j < |parts| :: forall b | b in parts[i] :: b !in parts[j]
  }

  lemma {:induction false} PartsSeparate(parts: seq<seq<BlockId>>)
    requires Distinct(Flatten(parts))
    ensures Separate(parts) && forall i | 0 <= i < |parts| :: Distinct(parts[i])
  {
    if parts != [] {
      var all, rest := Flatten(parts), Flatten(parts[1..]);
      assert forall i | 0 <= i < |rest| :: rest[i] == all[|parts[0]| + i];
      assert forall i | 0 <= i < |parts[0]| :: parts[0][i] == all[i];
      PartsSeparate(parts[1..]);
      forall i, j | 0 <= i < j < |parts|
        ensures forall b | b in parts[i] :: b !in parts[j]
      {
        if i == 0 {
          forall b | b in parts[j]
            ensures b !in parts[0]
          {
            var a :| 0 <= a < |parts[j]| && parts[j][a] == b;
            InFlatten(parts[1..], j - 1, a);
            var x :| 0 <= x < |rest| && rest[x] == b;
            assert all[|parts[0]| + x] == b;
          }
        } else {
          assert parts[1..][i - 1] == parts[i] && parts[1..][j - 1] == parts[j];
        }
      }
      forall i | 0 <= i < |parts|
        ensures Distinct(parts[i])
      {
        if i > 0 {
          assert parts[1..][i - 1] == parts[i];
        }
      }
    }
  }

  lemma {:induction false} PartsInChain(cur: seq<BlockId>, chain: seq<BlockId>, ends: set<BlockId>)
    ensures forall p, b | p in Parts(cur, chain, ends) && b in p :: b in cur || b in chain
    decreases |chain|
  {
    if chain != [] {
      PartsInChain([], chain[1..], ends);
      PartsInChain(cur + [chain[0]], chain[1..], ends);
    }
  }

  lemma {:induction false} FlattenSnoc(parts: seq<seq<BlockId>>, p: seq<BlockId>)
    ensures Flatten(parts + [p]) == Flatten(parts) + p
  {
    if parts == [] {
      assert [p][1..] == [] && parts + [p] == [p];
    } else {
      assert (parts + [p])[1..] == parts[1..] + [p];
      FlattenSnoc(parts[1..], p);
    }
  }

  /** On a body that is a chain every set is needed: taking off the last one, as the pass does before
      it deals them out, leaves one loop without blocks and loses the end of the body. */
  lemma DroppedSetIsNeeded(chain: seq<BlockId>, ends: set<BlockId>)
    requires chain != [] && chain[|chain| - 1] in ends
    ensures var parts := Parts([], chain, ends);
            && |parts| == EndsIn(chain, ends) > 0
            && Flatten(parts[..|parts| - 1]) < chain
  {
    hide Parts, EndsIn;
    var parts := Parts([], chain, ends);
    PartsPartition([], chain, ends);
    var init, last := parts[..|parts| - 1], parts[|parts| - 1];
    assert parts == init + [last] && last != [];
    FlattenSnoc(init, last);
    assert Flatten(init) + last == [] + chain == chain;
  }

  // ----- dealing the parts out -----

  /** What is known while the parts are dealt out: loops before `i` are complete, the others
      have their exits, and no part has been touched but by its own loop. */
  ghost predicate Dealt(g: Graph, ks: seq<nat>, parts: seq<seq<BlockId>>, exit: BlockId, i: nat) {
    && |ks| == |parts|
    && (forall j | 0 <= j < |ks| :: IsSkeleton(g, ks[j]) && g[Header(ks[j])].term.onFalse == ExitOf(ks, j, exit))
    && (forall j | 0 <= j < i && j < |ks| :: IsLoop(g, ks[j], parts[j], ExitOf(ks, j, exit)))
    && (forall j | i <= j < |ks| :: Linked(g, parts[j]))
  }

  ghost predicate PartsOk(ks: seq<nat>, parts: seq<seq<BlockId>>) {
    && |ks| == |parts| && Separate(parts)
    && (forall j | 0 <= j < |parts| :: Distinct(parts[j]) && ProgramBlocks(parts[j]))
    && (forall i, j | 0 <= i < j < |ks| :: ks[i] != ks[j])
  }

  lemma OwnPart(g: Graph, k: nat, part: seq<BlockId>, exit: BlockId)
    requires IsSkeleton(g, k) && g[Header(k)].term.onFalse == exit && Linked(g, part)
    requires Distinct(part) && ProgramBlocks(part)
    ensures IsLoop(WithBlocks(g, k, part), k, part, exit)
  {
    var h := WithBlocks(g, k, part);
    var last := part[|part| - 1];
    assert last in part;
    forall j | 0 <= j < |part|
      ensures GoesTo(h, part[j], NextIn(part, j, Latch(k)))
    {
      assert part[j] in part;
      if j < |part| - 1 {
        assert GoesTo(g, part[j], part[j + 1]) && part[j] != last;
      }
    }
  }

  lemma OtherLoop(g: Graph, k: nat, part: seq<BlockId>, j: nat, other: seq<BlockId>, exit: BlockId)
    requires IsSkeleton(g, k) && Linked(g, part) && ProgramBlocks(part) && ProgramBlocks(other)
    requires j != k && IsLoop(g, j, other, exit) && part[|part| - 1] !in other
    ensures IsLoop(WithBlocks(g, k, part), j, other, exit)
  {
    var h := WithBlocks(g, k, part);
    assert part[|part| - 1] in part;
    forall x | 0 <= x < |other|
      ensures GoesTo(h, other[x], NextIn(other, x, Latch(j)))
    {
      assert GoesTo(g, other[x], NextIn(other, x, Latch(j))) && other[x] in other;
    }
  }

  lemma OtherPart(g: Graph, k: nat, part: seq<BlockId>, other: seq<BlockId>)
    requires IsSkeleton(g, k) && Linked(g, part) && ProgramBlocks(part) && ProgramBlocks(other)
    requires Linked(g, other) && part[|part| - 1] !in other
    ensures Linked(WithBlocks(g, k, part), other)
  {
    var h := WithBlocks(g, k, part);
    assert other[|other| - 1] in other;
    forall x | 0 <= x < |other| - 1
      ensures GoesTo(h, other[x], other[x + 1])
    {
      assert GoesTo(g, other[x], other[x + 1]) && other[x] in other;
    }
  }

  lemma OtherSkeleton(g: Graph, k: nat, part: seq<BlockId>, j: nat)
    requires IsSkeleton(g, k) && Linked(g, part) && ProgramBlocks(part) && IsSkeleton(g, j)
    ensures var h := WithBlocks(g, k, part);
            IsSkeleton(h, j) && h[Header(j)].term.onFalse == g[Header(j)].term.onFalse
  {
    assert part[|part| - 1] in part;
  }

  /** Dealing out one more part completes one more loop. */
  lemma DealOne(g: Graph, ks: seq<nat>, parts: seq<seq<BlockId>>, exit: BlockId, i: nat)
    requires PartsOk(ks, parts) && Dealt(g, ks, parts, exit, i) && i < |ks|
    ensures IsSkeleton(g, ks[i]) && Linked(g, parts[i])
    ensures Dealt(WithBlocks(g, ks[i], parts[i]), ks, parts, exit, i + 1)
  {
    var part := parts[i];
    hide WithBlocks, IsLoop, IsSkeleton, Linked, Distinct, ProgramBlocks, Separate;
    assert IsSkeleton(g, ks[i]) && Linked(g, part);
    var h := WithBlocks(g, ks[i], part);
    forall j | 0 <= j < |ks|
      ensures IsSkeleton(h, ks[j]) && h[Header(ks[j])].term.onFalse == ExitOf(ks, j, exit)
      ensures j < i + 1 ==> IsLoop(h, ks[j], parts[j], ExitOf(ks, j, exit))
      ensures j >= i + 1 ==> Linked(h, parts[j])
    {
      OtherSkeleton(g, ks[i], part, ks[j]);
      if j == i {
        OwnPart(g, ks[i], part, ExitOf(ks, i, exit));
      } else {
        LastIsOwn(g, ks, parts, i, j);
        if j < i {
          OtherLoop(g, ks[i], part, ks[j], parts[j], ExitOf(ks, j, exit));
        } else {
          OtherPart(g, ks[i], part, parts[j]);
        }
      }
    }
  }

  lemma LastIsOwn(g: Graph, ks: seq<nat>, parts: seq<seq<BlockId>>, i: nat, j: nat)
    requires PartsOk(ks, parts) && i < |ks| && j < |ks| && i != j && parts[i] != []
    ensures parts[i][|parts[i]| - 1] !in parts[j]
  {
    assert parts[i][|parts[i]| - 1] in parts[i];
  }

  // ----- the pass -----

  /** A loop over program blocks, in a function where loops 1 to `count` are still to be made.  The
      function's entry block goes to one other block, to the loop or not. */
  ghost predicate Splittable(g: Graph, entry: BlockId, chain: seq<BlockId>, exit: BlockId, count: nat) {
    && IsLoop(g, 0, chain, exit) && ProgramBlocks(chain) && Distinct(chain)
    && entry.Block? && entry !in chain && Onward(g, entry)
    && forall k | 1 <= k <= count :: NoLoop(g, k)
  }

  /** Every skeleton leaves for the next loop, the last one for the exit. */
  ghost predicate Stitching(g: Graph, ks: seq<nat>, exit: BlockId, i: nat) {
    && (forall j | 0 <= j < |ks| :: IsSkeleton(g, ks[j]))
    && (forall j | 0 <= j < i && j < |ks| :: IsSkeleton(g, ks[j]) && g[Header(ks[j])].term.onFalse == ExitOf(ks, j, exit))
  }

  ghost predicate SameStatements(g: Graph, h: Graph) {
    forall b | b in g :: b in h && h[b].body == g[b].body
  }

  /** Program blocks outside all parts are as before. */
  ghost predicate SameOutside(g: Graph, h: Graph, parts: seq<seq<BlockId>>) {
    forall b | b in g && b.Block? && (forall j | 0 <= j < |parts| :: b !in parts[j]) :: b in h && h[b] == g[b]
  }

  lemma DealStart(g: Graph, ks: seq<nat>, parts: seq<seq<BlockId>>, exit: BlockId)
    requires PartsOk(ks, parts) && Stitching(g, ks, exit, |ks|) && forall j | 0 <= j < |parts| :: Linked(g, parts[j])
    ensures Dealt(g, ks, parts, exit, 0) && |ks| == |parts|
    ensures SameStatements(g, g) && SameOutside(g, g, parts)
  {
  }

  lemma DealKeeps(was: Graph, g: Graph, ks: seq<nat>, parts: seq<seq<BlockId>>, i: nat)
    requires PartsOk(ks, parts) && i < |ks| && IsSkeleton(g, ks[i]) && Linked(g, parts[i])
    requires SameStatements(was, g) && SameOutside(was, g, parts)
    ensures parts[i] != [] && var last := parts[i][|parts[i]| - 1]; last.Block? && last in g && g[last].term.Br?
    ensures SameStatements(was, WithBlocks(g, ks[i], parts[i])) && SameOutside(was, WithBlocks(g, ks[i], parts[i]), parts)
  {
    assert parts[i][|parts[i]| - 1] in parts[i];
  }

  lemma AllDealt(g: Graph, ks: seq<nat>, parts: seq<seq<BlockId>>, exit: BlockId)
    requires Dealt(g, ks, parts, exit, |ks|) && |ks| > 0
    ensures Stitched(g, ks, parts, exit)
  {
  }

  lemma ExpandedIsSplittable(g: Graph, entry: BlockId, chain: seq<BlockId>, exit: BlockId, count: nat, vars: set<nat>)
    requires Splittable(g, entry, chain, exit, count)
    ensures Splittable(SubGraph(g, {entry}, vars, ByExpansion), entry, chain, exit, count)
  {
    var h := SubGraph(g, {entry}, vars, ByExpansion);
    forall j | 0 <= j < |chain|
      ensures GoesTo(h, chain[j], NextIn(chain, j, Latch(0)))
    {
      assert GoesTo(g, chain[j], NextIn(chain, j, Latch(0))) && chain[j] in chain;
    }
    forall k | 1 <= k <= count
      ensures NoLoop(h, k)
    {
      assert NoLoop(g, k);
    }
  }

  /** The blocks of `g` are as before. */
  ghost predicate Extends(g: Graph, h: Graph) {
    forall b | b in g :: b in h && h[b] == g[b]
  }

  /** Building loop `i + 1` leaves the loops there are and the room for the others. */
  lemma MoreLoops(g: Graph, i: nat, count: nat)
    requires (forall k: nat | k <= i :: IsSkeleton(g, k)) && (forall k | i < k <= count :: NoLoop(g, k)) && i < count
    ensures var h := WithEmptyLoop(g, i + 1);
            (forall k: nat | k <= i + 1 :: IsSkeleton(h, k)) && (forall k | i + 1 < k <= count :: NoLoop(h, k)) && Extends(g, h)
  {
    var h := WithEmptyLoop(g, i + 1);
    assert NoLoop(g, i + 1);
    forall k: nat | k <= i + 1
      ensures IsSkeleton(h, k)
    {
      assert k <= i ==> IsSkeleton(g, k);
    }
    forall k | i + 1 < k <= count
      ensures NoLoop(h, k)
    {
      assert NoLoop(g, k);
    }
  }

  /** As before but for `entry` and the pass's own blocks. */
  ghost predicate SameBut(g: Graph, h: Graph, entry: BlockId) {
    forall b | b in g && b.Block? && b != entry :: b in h && h[b] == g[b]
  }

  lemma ChainKept(g: Graph, h: Graph, entry: BlockId, chain: seq<BlockId>, next: BlockId)
    requires IsChain(g, chain, next) && ProgramBlocks(chain) && entry !in chain && SameBut(g, h, entry)
    ensures IsChain(h, chain, next)
  {
    forall j | 0 <= j < |chain|
      ensures GoesTo(h, chain[j], NextIn(chain, j, next))
    {
      assert GoesTo(g, chain[j], NextIn(chain, j, next)) && chain[j] in chain;
    }
  }

  lemma EntryStitched(g: Graph, entry: BlockId, ks: seq<nat>, exit: BlockId)
    requires entry.Block? && Onward(g, entry) && ks != [] && ks == LoopOrder(|ks| - 1)
    requires forall k: nat | k < |ks| :: IsSkeleton(g, k)
    ensures var h := g[entry := g[entry].(term := Br(PreHeader(ks[0])))];
            Stitching(h, ks, exit, 0) && GoesTo(h, entry, PreHeader(ks[0])) && SameBut(g, h, entry) && SameStatements(g, h)
  {
    var h := g[entry := g[entry].(term := Br(PreHeader(ks[0])))];
    forall j | 0 <= j < |ks|
      ensures IsSkeleton(h, ks[j])
    {
      assert IsSkeleton(g, ks[j]);
    }
  }

  /** One more loop leaves for the next. */
  lemma StitchOne(was: Graph, g: Graph, entry: BlockId, ks: seq<nat>, exit: BlockId, i: nat)
    requires i < |ks| && ks == LoopOrder(|ks| - 1) && Stitching(g, ks, exit, i) && entry.Block?
    requires GoesTo(g, entry, PreHeader(ks[0])) && SameBut(was, g, entry) && SameStatements(was, g)
    ensures IsSkeleton(g, ks[i])
    ensures var h := WithExit(g, ks[i], ExitOf(ks, i, exit));
            && Stitching(h, ks, exit, i + 1) && GoesTo(h, entry, PreHeader(ks[0]))
            && SameBut(was, h, entry) && SameStatements(was, h)
  {
    assert IsSkeleton(g, ks[i]);
    var h := WithExit(g, ks[i], ExitOf(ks, i, exit));
    forall j | 0 <= j < |ks|
      ensures IsSkeleton(h, ks[j])
      ensures j < i + 1 ==> h[Header(ks[j])].term.onFalse == ExitOf(ks, j, exit)
    {
      assert IsSkeleton(g, ks[j]);
    }
  }

  lemma PartsOfProgram(chain: seq<BlockId>, ends: set<BlockId>, entry: BlockId)
    requires ProgramBlocks(chain) && entry !in chain
    ensures forall p | p in Parts([], chain, ends) :: ProgramBlocks(p) && entry !in p
  {
    PartsInChain([], chain, ends);
  }

  /** The parts of a body are ready to be dealt out, one per loop. */
  lemma BodyParts(g: Graph, chain: seq<BlockId>, ends: set<BlockId>, next: BlockId, count: nat, entry: BlockId)
    requires chain != [] && chain[|chain| - 1] in ends && IsChain(g, chain, next)
    requires Distinct(chain) && ProgramBlocks(chain) && EndsIn(chain, ends) == count + 1 && entry !in chain
    ensures var parts := Parts([], chain, ends);
            && PartsOk(LoopOrder(count), parts)
            && forall j | 0 <= j < |parts| :: Linked(g, parts[j]) && entry !in parts[j]
  {
    hide Parts, EndsIn, IsChain, Linked, Distinct, ProgramBlocks, Flatten, PartsOk, Separate;
    var parts := Parts([], chain, ends);
    assert [] + chain == chain;
    PartsPartition([], chain, ends);
    PartsLinked(g, [], chain, ends, next);
    PartsOfProgram(chain, ends, entry);
    PartsSeparate(parts);
    PartsAreOk(LoopOrder(count), parts);
  }

  lemma PartsAreOk(ks: seq<nat>, parts: seq<seq<BlockId>>)
    requires |ks| == |parts| > 0 && Separate(parts) && ks == LoopOrder(|ks| - 1)
    requires forall j | 0 <= j < |parts| :: Distinct(parts[j])
    requires forall p | p in parts :: ProgramBlocks(p)
    ensures PartsOk(ks, parts)
  {
    hide Distinct, Separate, ProgramBlocks;
    forall j | 0 <= j < |parts|
      ensures ProgramBlocks(parts[j])
    {
      assert parts[j] in parts;
    }
  }

  /** Program blocks other than the entry and the body are as before. */
  ghost predicate SameAround(g: Graph, h: Graph, entry: BlockId, chain: seq<BlockId>) {
    forall b | b in g && b.Block? && b != entry && b !in chain :: b in h && h[b] == g[b]
  }

  lemma AroundKept(g: Graph, g1: Graph, g2: Graph, l: Graph, entry: BlockId, chain: seq<BlockId>, ends: set<BlockId>)
    requires Extends(g, g1) && SameBut(g1, g2, entry) && SameOutside(g2, l, Parts([], chain, ends))
    ensures SameAround(g, l, entry, chain)
  {
    hide Parts;
    var parts := Parts([], chain, ends);
    PartsInChain([], chain, ends);
    forall b | b in g && b.Block? && b != entry && b !in chain
      ensures b in l && l[b] == g[b]
    {
      assert forall j | 0 <= j < |parts| :: parts[j] in parts;
      assert b in g1 && b in g2;
    }
  }

  lemma SplitStatements(g: Graph, h: Graph, l: Graph, entry: BlockId, chain: seq<BlockId>, exit: BlockId, vars: set<nat>,
                        ends: set<BlockId>)
    requires EndsIn(chain, ends) > 0
    requires chain != [] && chain[|chain| - 1] in ends && IsChain(g, chain, Latch(0)) && entry !in chain
    requires h == SubGraph(g, {entry}, vars, ByExpansion) && SameStatements(h, l) && SameAround(h, l, entry, chain)
    requires entry in g
    requires Stitched(l, LoopOrder(EndsIn(chain, ends) - 1), Parts([], chain, ends), exit)
    requires GoesTo(l, entry, PreHeader(LoopOrder(EndsIn(chain, ends) - 1)[0]))
    ensures IsSplit(g, l, entry, chain, exit, vars, Parts([], chain, ends))
  {
    hide Parts, EndsIn, Stitched, IsChain, Sub, Flatten;
    assert [] + chain == chain;
    PartsPartition([], chain, ends);
    forall b | b in chain
      ensures b in g && b in l && l[b].body == Sub(g[b].body, vars, ByExpansion)
    {
      var j :| 0 <= j < |chain| && chain[j] == b;
      ChainAt(g, chain, Latch(0), j);
      assert b in h;
    }
  }

  class LoopSplitter {
    const F: LoopFunction
    const annotatedVars: seq<nat>
    var endBlocks: set<BlockId>
    var bodyEnd: BlockId
    var loopBlocks: seq<seq<BlockId>>

    /** `splitEnds` are the blocks that end in a prefetch. */
    constructor (F: LoopFunction, annotatedVars: seq<nat>, splitEnds: set<BlockId>)
      ensures this.F == F && this.annotatedVars == annotatedVars && endBlocks == splitEnds && loopBlocks == []
    {
      this.F := F;
      this.annotatedVars := annotatedVars;
      endBlocks, bodyEnd, loopBlocks := splitEnds, Latch(0), [];
    }

    predicate AreLoops(loops: seq<IRLoop>) {
      && |loops| == |annotatedVars| + 1
      && forall i | 0 <= i < |loops| :: loops[i].F == F && loops[i].k == LoopOrder(|annotatedVars|)[i]
    }

    /** Nothing happens without a split point.  Otherwise the loop is now several, one over each
        part of the body, stitched between the entry and the old exit, and annotated variables
        are array elements; there must be one annotated variable per split. */
    method Run(entry: BlockId, latchPred: BlockId, ghost chain: seq<BlockId>, ghost exit: BlockId) returns (changed: bool)
      requires Splittable(F.code, entry, chain, exit, |annotatedVars|) && loopBlocks == []
      requires latchPred == chain[|chain| - 1]
      requires endBlocks != {} ==> EndsIn(chain, endBlocks + {latchPred}) == |annotatedVars| + 1
      modifies this, F
      ensures changed <==> old(endBlocks) != {}
      ensures !changed ==> F.code == old(F.code)
      ensures changed ==>
                && CutAtEnds(loopBlocks, chain, old(endBlocks) + {latchPred})
                && IsSplit(old(F.code), F.code, entry, chain, exit, Elements(annotatedVars), loopBlocks)
                && loopBlocks == Parts([], chain, old(endBlocks) + {latchPred})
    {
      if endBlocks == {} {
        return false;
      }
      changed := true;
      ghost var g := F.code;
      ReplaceUses(F, {entry}, annotatedVars, ByExpansion);
      ghost var h := F.code;
      ExpandedIsSplittable(g, entry, chain, exit, |annotatedVars|, Elements(annotatedVars));
      ghost var ends := endBlocks + {latchPred};
      hide SubGraph, Stitched, IsSplit, Parts, EndsIn, Flatten, CutAtEnds;
      PartsPartition([], chain, ends);
      PartsCutAtEnds(chain, ends);
      SplitExpanded(entry, latchPred, chain, exit);
      SplitStatements(g, h, F.code, entry, chain, exit, Elements(annotatedVars), ends);
    }

    /** The split proper, once variables are expanded. */
    method SplitExpanded(entry: BlockId, latchPred: BlockId, ghost chain: seq<BlockId>, ghost exit: BlockId)
      requires Splittable(F.code, entry, chain, exit, |annotatedVars|) && loopBlocks == []
      requires latchPred == chain[|chain| - 1]
      requires EndsIn(chain, endBlocks + {latchPred}) == |annotatedVars| + 1
      modifies this, F
      ensures endBlocks == old(endBlocks) + {latchPred} && loopBlocks == Parts([], chain, endBlocks)
      ensures Stitched(F.code, LoopOrder(|annotatedVars|), loopBlocks, exit)
      ensures GoesTo(F.code, entry, PreHeader(LoopOrder(|annotatedVars|)[0])) && SameStatements(old(F.code), F.code)
      ensures SameAround(old(F.code), F.code, entry, chain)
    {
      hide Parts, Linked, PartsOk, Stitched, IsChain, EndsIn;
      ghost var g := F.code;
      var bodyBegin, exitBlock := F.code[Header(0)].term.onTrue, F.code[Header(0)].term.onFalse;
      bodyEnd := latchPred;
      endBlocks := endBlocks + {bodyEnd};
      assert bodyEnd in chain;

      var loops := BuildLoops();
      ghost var g1 := F.code;
      ChainKept(g, g1, entry, chain, Latch(0));
      Stitch(entry, loops, exitBlock);
      ghost var g2 := F.code;
      ChainKept(g1, g2, entry, chain, Latch(0));
      TraverseLoopBody([], bodyBegin, chain, Latch(0));
      BodyParts(g2, chain, endBlocks, Latch(0), |annotatedVars|, entry);
      assert loopBlocks == Parts([], chain, endBlocks);
      DealOut(loops, exitBlock);
      AroundKept(g, g1, g2, F.code, entry, chain, endBlocks);
    }

    method BuildLoops() returns (loops: seq<IRLoop>)
      requires IsSkeleton(F.code, 0) && forall k | 1 <= k <= |annotatedVars| :: NoLoop(F.code, k)
      modifies F
      ensures AreLoops(loops) && forall k: nat | k <= |annotatedVars| :: IsSkeleton(F.code, k)
      ensures Extends(old(F.code), F.code)
    {
      loops := [];
      for i := 0 to |annotatedVars|
        invariant |loops| == i && forall j | 0 <= j < i :: loops[j].F == F && loops[j].k == j + 1
        invariant forall k: nat | k <= i :: IsSkeleton(F.code, k)
        invariant forall k | i < k <= |annotatedVars| :: NoLoop(F.code, k)
        invariant Extends(old(F.code), F.code)
      {
        assert NoLoop(F.code, i + 1);
        MoreLoops(F.code, i, |annotatedVars|);
        var loop := new IRLoop(F, i + 1);
        loop.ConstructEmptyLoop();
        loops := loops + [loop];
      }
      var parent := new IRLoop(F, 0);
      loops := loops + [parent];
    }

    method Stitch(entry: BlockId, loops: seq<IRLoop>, exit: BlockId)
      requires AreLoops(loops) && entry.Block? && Onward(F.code, entry)
      requires forall k: nat | k <= |annotatedVars| :: IsSkeleton(F.code, k)
      modifies F
      ensures Stitching(F.code, LoopOrder(|annotatedVars|), exit, |loops|)
      ensures GoesTo(F.code, entry, PreHeader(LoopOrder(|annotatedVars|)[0]))
      ensures SameBut(old(F.code), F.code, entry)
      ensures SameStatements(old(F.code), F.code)
    {
      ghost var ks := LoopOrder(|annotatedVars|);
      EntryStitched(F.code, entry, ks, exit);
      hide Stitching, SameBut, SameStatements, WithExit;
      F.SetSuccessor(entry, PreHeader(loops[0].k), 0);
      for i := 0 to |loops| - 1
        invariant Stitching(F.code, ks, exit, i)
        invariant GoesTo(F.code, entry, PreHeader(ks[0]))
        invariant SameBut(old(F.code), F.code, entry) && SameStatements(old(F.code), F.code)
      {
        StitchOne(old(F.code), F.code, entry, ks, exit, i);
        loops[i].SetExitBlock(PreHeader(loops[i + 1].k));
      }
      StitchOne(old(F.code), F.code, entry, ks, exit, |ks| - 1);
      loops[|loops| - 1].SetExitBlock(exit);
    }

    /** Walk the body from `start`, cutting after each end block; `rest` is what lies ahead. */
    method TraverseLoopBody(blocks: seq<BlockId>, start: BlockId, ghost rest: seq<BlockId>, ghost next: BlockId)
      requires rest != [] && rest[0] == start && IsChain(F.code, rest, next) && Distinct(rest)
      requires rest[|rest| - 1] == bodyEnd && bodyEnd in endBlocks
      modifies this`loopBlocks
      ensures loopBlocks == old(loopBlocks) + Parts(blocks, rest, endBlocks)
      ensures blocks == [] ==> CutAtEnds(loopBlocks[|old(loopBlocks)|..], rest, endBlocks)
      decreases |rest|
    {
      PartsCutAtEnds(rest, endBlocks);
      hide CutAtEnds;
      var more := blocks + [start];
      if start in endBlocks {
        loopBlocks := loopBlocks + [more];
        more := [];
        if start == bodyEnd {
          assert |rest| == 1;
          assert Parts([], rest[1..], endBlocks) == [];
          return;
        }
      }
      assert GoesTo(F.code, start, NextIn(rest, 0, next));
      assert |rest| > 1;
      ChainTail(F.code, rest, next);
      match F.code[start].term
      case Br(bb) => TraverseLoopBody(more, bb, rest[1..], next);
    }

    method DealOut(loops: seq<IRLoop>, exit: BlockId)
      requires AreLoops(loops) && PartsOk(LoopOrder(|annotatedVars|), loopBlocks)
      requires Stitching(F.code, LoopOrder(|annotatedVars|), exit, |loops|)
      requires forall j | 0 <= j < |loopBlocks| :: Linked(F.code, loopBlocks[j])
      modifies F
      ensures Stitched(F.code, LoopOrder(|annotatedVars|), loopBlocks, exit)
      ensures SameStatements(old(F.code), F.code)
      ensures SameOutside(old(F.code), F.code, loopBlocks)
    {
      hide Dealt, Stitching, Linked, SameStatements, SameOutside, WithBlocks, IsSkeleton, PartsOk, Stitched;
      ghost var ks := LoopOrder(|annotatedVars|);
      ghost var was := F.code;
      DealStart(was, ks, loopBlocks, exit);
      for i := 0 to |loops|
        invariant Dealt(F.code, ks, loopBlocks, exit, i)
        invariant SameStatements(was, F.code)
        invariant SameOutside(was, F.code, loopBlocks)
      {
        DealOne(F.code, ks, loopBlocks, exit, i);
        DealKeeps(was, F.code, ks, loopBlocks, i);
        loops[i].SetLoopBlocks(loopBlocks[i]);
      }
      AllDealt(F.code, ks, loopBlocks, exit);
    }
  }

  /** The split function: one loop per part, entered from the function's entry, and everything else as
      before but for the expanded variables. */
  ghost predicate IsSplit(g: Graph, h: Graph, entry: BlockId, chain: seq<BlockId>, exit: BlockId, vars: set<nat>,
                          parts: seq<seq<BlockId>>) {
    && |parts| > 0 && Flatten(parts) == chain
    && Stitched(h, LoopOrder(|parts| - 1), parts, exit)
    && GoesTo(h, entry, PreHeader(LoopOrder(|parts| - 1)[0]))
    && entry in g && h[entry].body == g[entry].body
    && (forall b | b in chain :: b in g && b in h && h[b].body == Sub(g[b].body, vars, ByExpansion))
    && (forall b | b in g && b.Block? && b != entry && b !in chain :: b in h && h[b] == SubBlock(g[b], vars, ByExpansion))
  }

  // ----- what the split function computes -----

  lemma {:induction false} RewrittenBodies(g: Graph, h: Graph, chain: seq<BlockId>, vars: set<nat>, k: Kind)
    requires forall b | b in chain :: b in g && b in h && h[b].body == Sub(g[b].body, vars, k)
    ensures Bodies(h, chain) == SubAll(Bodies(g, chain), vars, k)
  {
    if chain != [] {
      RewrittenBodies(g, h, chain[1..], vars, k);
    }
  }

  /** Part by part, the rewritten bodies are the bodies rewritten. */
  lemma {:induction false} RewrittenParts(g: Graph, h: Graph, parts: seq<seq<BlockId>>, vars: set<nat>, k: Kind)
    requires forall b | b in Flatten(parts) :: b in g && b in h && h[b].body == Sub(g[b].body, vars, k)
    ensures PartBodies(h, parts) == SubAll(PartBodies(g, parts), vars, k)
  {
    if parts != [] {
      RewrittenBodies(g, h, parts[0], vars, k);
      SubSeqAll(Bodies(g, parts[0]), vars, k);
      RewrittenParts(g, h, parts[1..], vars, k);
    }
  }

  /** The split loops do what the original loop does, expanded. */
  lemma SplitBodies(g: Graph, h: Graph, entry: BlockId, chain: seq<BlockId>, exit: BlockId, vars: set<nat>,
                    parts: seq<seq<BlockId>>, n: int, mem: Memory)
    requires IsSplit(g, h, entry, chain, exit, vars, parts) && AllApart(PartBodies(h, parts))
    ensures SplitLoops(PartBodies(h, parts), n, mem) == Loop(Sub(BodyOf(g, chain), vars, ByExpansion), 0, n, mem)
  {
    RewrittenBodies(g, h, chain, vars, ByExpansion);
    SubSeqAll(Bodies(g, chain), vars, ByExpansion);
    SplitAll(PartBodies(h, parts), n, mem);
    forall j, m
      ensures Exec(SeqAll(PartBodies(h, parts)), j, m) == Exec(BodyOf(h, chain), j, m)
    {
      PartsRunAsWhole(h, parts, j, m);
    }
    LoopSameBody(SeqAll(PartBodies(h, parts)), BodyOf(h, chain), 0, n, mem);
  }

  /** What the split loops do with arrays that end. */
  lemma SplitPartsServe(g: Graph, h: Graph, entry: BlockId, chain: seq<BlockId>, exit: BlockId, vars: set<nat>,
                        parts: seq<seq<BlockId>>, n: int, mem: Memory)
    requires IsSplit(g, h, entry, chain, exit, vars, parts) && Plain(Arrays(BodyOf(g, chain)), ByExpansion)
    ensures var r := TrySplit(PartBodies(h, parts), n, mem);
            && (n <= EXPANDED_SIZE ==> r == Some(SplitLoops(PartBodies(h, parts), n, mem)))
            && (SomeAlwaysUses(PartBodies(g, parts), vars) && n > EXPANDED_SIZE ==> r == None)
  {
    hide TrySplit, SplitLoops, PartBodies, BodyOf, Stitched, SomeAlwaysUses, Sub;
    PartsNameSameArrays(g, parts);
    RewrittenParts(g, h, parts, vars, ByExpansion);
    SplitServes(PartBodies(g, parts), vars, n, mem);
  }

  /** The original and the split graph are entered with the same memory.  The original arrives at the
      exit.  For trip counts up to the 32 elements of an expansion array the split graph arrives
      there too, with a memory that differs only in the expanded variables and their arrays; beyond,
      it makes an access that does not exist if every iteration uses an expanded variable. */
  lemma SplitGraphIsSound(g: Graph, h: Graph, entry: BlockId, chain: seq<BlockId>, exit: BlockId, vars: set<nat>,
                          parts: seq<seq<BlockId>>, n: int, mem: Memory, index: int)
    requires IsLoop(g, 0, chain, exit) && IsSplit(g, h, entry, chain, exit, vars, parts)
    requires Plain(Arrays(BodyOf(g, chain)), ByExpansion) && Safe(BodyOf(g, chain), vars, {})
    requires AllApart(PartBodies(h, parts))
    ensures var a, r := Loop(BodyOf(g, chain), 0, n, mem), TrySplit(PartBodies(h, parts), n, mem);
            && Reaches(g, n, State(PreHeader(0), mem, index), State(exit, a, EndIndex(n)))
            && Reaches(h, n, State(PreHeader(LoopOrder(|parts| - 1)[0]), mem, index), Arrive(r, exit, EndIndex(n)))
            && (n <= EXPANDED_SIZE ==> r.Some? && Alike(a, r.value, vars, {}, KindArrays(ByExpansion)))
            && (SomeAlwaysUses(PartBodies(g, parts), vars) && n > EXPANDED_SIZE ==> r.None?)
  {
    hide Reaches, IsLoop, Stitched, BodyOf, Sub, Safe, Plain, SplitLoops, TrySplit, Loop, TryLoop, SomeAlwaysUses;
    LoopRuns(g, n, 0, chain, exit, mem, index);
    PlainLoopServes(BodyOf(g, chain), n, mem);
    StitchedRuns(h, n, LoopOrder(|parts| - 1), parts, exit, mem, index);
    SplitPartsServe(g, h, entry, chain, exit, vars, parts, n, mem);
    SplitBodies(g, h, entry, chain, exit, vars, parts, n, mem);
    ExpandLoop(BodyOf(g, chain), vars, ByExpansion, 0, n, mem, mem);
  }

  // ----- the whole pipeline -----

  /** Entered at `from`, the graph arrives at the exit with what calling the function once per element
      leaves. */
  ghost predicate RunIsCalls(h: Graph, from: BlockId, exit: BlockId, f: Function, n: int, mem: Memory, index: int,
                             garbage: int -> nat -> int) {
    exists b: Memory ::
      Reaches(h, n, State(from, mem, index), State(exit, b, EndIndex(n))) && LeftByCalls(f, n, mem, garbage, b)
  }

  lemma BatchedRunIsCalls(g: Graph, chain: seq<BlockId>, exit: BlockId, f: Function, n: int, mem: Memory, index: int,
                          garbage: int -> nat -> int)
    requires IsLoop(g, 0, chain, exit) && Bodies(g, chain) == BatchSegments(f) && WellFormed(f)
    ensures RunIsCalls(g, PreHeader(0), exit, f, n, mem, index, garbage)
  {
    hide Reaches, IsLoop, WellFormed, Loop, TryLoop, LeftByCalls, BatchSegments, SeqAll;
    LoopRuns(g, n, 0, chain, exit, mem, index);
    BatchBodyIsSplittable(f, {});
    PlainLoopServes(BatchBody(f), n, mem);
    BatchIsLeftByCalls(f, n, mem, garbage);
  }

  /** For batches up to the 32 elements of an expansion array, the split graph of a batched function
      computes one call per element; for larger ones it faults if every iteration uses an expanded
      variable. */
  lemma SplitRunIsCalls(g: Graph, h: Graph, entry: BlockId, chain: seq<BlockId>, exit: BlockId, f: Function,
                        vars: set<nat>, parts: seq<seq<BlockId>>, n: int, mem: Memory, index: int,
                        garbage: int -> nat -> int)
    requires IsLoop(g, 0, chain, exit) && Bodies(g, chain) == BatchSegments(f) && WellFormed(f)
    requires IsSplit(g, h, entry, chain, exit, vars, parts) && vars <= f.locals && AllApart(PartBodies(h, parts))
    ensures var first := PreHeader(LoopOrder(|parts| - 1)[0]);
            && (n <= EXPANDED_SIZE ==> RunIsCalls(h, first, exit, f, n, mem, index, garbage))
            && (SomeAlwaysUses(PartBodies(g, parts), vars) && n > EXPANDED_SIZE ==>
                  Reaches(h, n, State(first, mem, index), Fault))
  {
    hide Reaches, IsLoop, Loop, TrySplit, LeftByCalls, BatchSegments, WellFormed, IsSplit, PartBodies, AllApart,
         SomeAlwaysUses, SeqAll;
    BatchBodyIsSplittable(f, vars);
    assert BodyOf(g, chain) == BatchBody(f);
    SplitIsSome(g, h, entry, chain, exit, vars, parts);
    SplitGraphIsSound(g, h, entry, chain, exit, vars, parts, n, mem, index);
    if n <= EXPANDED_SIZE {
      BatchIsLeftByCalls(f, n, mem, garbage);
      LeftDespiteExpansion(f, vars, n, mem, garbage, Loop(BatchBody(f), 0, n, mem),
                           TrySplit(PartBodies(h, parts), n, mem).value);
    }
  }

  lemma SplitIsSome(g: Graph, h: Graph, entry: BlockId, chain: seq<BlockId>, exit: BlockId, vars: set<nat>,
                    parts: seq<seq<BlockId>>)
    requires IsSplit(g, h, entry, chain, exit, vars, parts)
    ensures |parts| > 0
  {
  }

  /** Entered at the function's entry, the graph runs the entry block once, at index 0, and then
      computes one call per element. */
  ghost predicate EntryRunIsCalls(h: Graph, entry: BlockId, exit: BlockId, f: Function, n: int, mem: Memory,
                                  garbage: int -> nat -> int) {
    && entry in h
    && var mem1 := Exec(h[entry].body, 0, mem);
       exists b: Memory ::
         && Reaches(h, n, State(entry, mem, 0), State(exit, b, EndIndex(n)))
         && LeftByCalls(f, n, mem1, garbage, b)
  }

  lemma EntryStep(h: Graph, entry: BlockId, first: BlockId, n: int, mem: Memory, t: State)
    requires GoesTo(h, entry, first) && InRange(h[entry].body, 0, mem)
    requires Reaches(h, n, State(first, Exec(h[entry].body, 0, mem), 0), t)
    ensures Reaches(h, n, State(entry, mem, 0), t)
  {
    StepReaches(h, n, State(entry, mem, 0));
    ReachesVia(h, n, State(entry, mem, 0), State(first, Exec(h[entry].body, 0, mem), 0), t);
  }

  lemma EntryThenCalls(h: Graph, entry: BlockId, first: BlockId, exit: BlockId, f: Function, n: int, mem: Memory,
                       garbage: int -> nat -> int)
    requires GoesTo(h, entry, first) && InRange(h[entry].body, 0, mem)
    requires RunIsCalls(h, first, exit, f, n, Exec(h[entry].body, 0, mem), 0, garbage)
    ensures EntryRunIsCalls(h, entry, exit, f, n, mem, garbage)
  {
    hide Reaches, LeftByCalls, InRange, Exec;
    var mem1 := Exec(h[entry].body, 0, mem);
    var b: Memory :| Reaches(h, n, State(first, mem1, 0), State(exit, b, EndIndex(n))) && LeftByCalls(f, n, mem1, garbage, b);
    EntryStep(h, entry, first, n, mem, State(exit, b, EndIndex(n)));
  }

  /** The run makes an access that does not exist and never arrives at the exit. */
  ghost predicate RunFails(h: Graph, entry: BlockId, exit: BlockId, n: int, mem: Memory) {
    && Reaches(h, n, State(entry, mem, 0), Fault)
    && forall b: Memory :: !Reaches(h, n, State(entry, mem, 0), State(exit, b, EndIndex(n)))
  }

  lemma FaultFails(h: Graph, entry: BlockId, first: BlockId, exit: BlockId, n: int, mem: Memory)
    requires GoesTo(h, entry, first) && InRange(h[entry].body, 0, mem)
    requires Reaches(h, n, State(first, Exec(h[entry].body, 0, mem), 0), Fault)
    requires exit in h && h[exit] == LoopBlock(Skip, KeepIndex, Ret)
    ensures RunFails(h, entry, exit, n, mem)
  {
    hide Reaches;
    EntryStep(h, entry, first, n, mem, Fault);
    forall b: Memory | Reaches(h, n, State(entry, mem, 0), State(exit, b, EndIndex(n)))
      ensures false
    {
      OneEnd(h, n, State(entry, mem, 0), Fault, State(exit, b, EndIndex(n)));
    }
  }

  /** The batched function is ready for splitting into any number of loops. */
  lemma BatchedIsSplittable(g: Graph, entry: BlockId, chain: seq<BlockId>, exit: BlockId, count: nat)
    requires IsLoop(g, 0, chain, exit) && GoesTo(g, entry, PreHeader(0))
    requires ProgramBlocks(chain) && Distinct(chain) && entry.Block? && entry !in chain
    requires forall b | b in g && !b.Block? :: b in {PreHeader(0), Header(0), Latch(0)}
    ensures Splittable(g, entry, chain, exit, count)
  {
  }

  /** Where the pipeline's result is entered. */
  function FirstLoop(changed: bool, count: nat): BlockId {
    PreHeader(if changed && count > 0 then 1 else 0)
  }

  /** The function between the passes. */
  ghost predicate IsBatched(g: Graph, entry: BlockId, chain: seq<BlockId>, exit: BlockId, f: Function) {
    && IsLoop(g, 0, chain, exit) && GoesTo(g, entry, PreHeader(0)) && Bodies(g, chain) == BatchSegments(f)
    && exit in g && g[exit] == LoopBlock(Skip, KeepIndex, Ret) && exit.Block? && exit != entry && exit !in chain
    && Plain(Arrays(g[entry].body), ByExpansion)
  }

  /** What both passes made of the function: split or not. */
  ghost predicate IsResult(changed: bool, g: Graph, h: Graph, entry: BlockId, chain: seq<BlockId>, exit: BlockId,
                           vars: seq<nat>, parts: seq<seq<BlockId>>) {
    if changed then |parts| == |vars| + 1 && IsSplit(g, h, entry, chain, exit, Elements(vars), parts) else h == g
  }

  /** The parts do not interfere and what crosses them is local. */
  ghost predicate PartsFit(changed: bool, h: Graph, f: Function, vars: seq<nat>, parts: seq<seq<BlockId>>) {
    changed ==> Elements(vars) <= f.locals && AllApart(PartBodies(h, parts))
  }

  lemma ResultEntry(changed: bool, g: Graph, h: Graph, entry: BlockId, chain: seq<BlockId>, exit: BlockId, f: Function,
                    vars: seq<nat>, parts: seq<seq<BlockId>>)
    requires IsBatched(g, entry, chain, exit, f) && IsResult(changed, g, h, entry, chain, exit, vars, parts)
    ensures GoesTo(h, entry, FirstLoop(changed, |vars|))
    ensures entry in g && h[entry].body == g[entry].body && Plain(Arrays(h[entry].body), ByExpansion)
    ensures exit in h && h[exit] == LoopBlock(Skip, KeepIndex, Ret)
  {
    hide IsLoop, Stitched, Flatten, Plain;
  }

  lemma PipelineRunIsCalls(changed: bool, g: Graph, h: Graph, entry: BlockId, chain: seq<BlockId>, exit: BlockId,
                           f: Function, vars: seq<nat>, parts: seq<seq<BlockId>>, n: int, mem: Memory,
                           garbage: int -> nat -> int)
    requires IsBatched(g, entry, chain, exit, f) && IsResult(changed, g, h, entry, chain, exit, vars, parts)
    requires WellFormed(f) && PartsFit(changed, h, f, vars, parts)
    ensures !changed || n <= EXPANDED_SIZE ==> EntryRunIsCalls(h, entry, exit, f, n, mem, garbage)
    ensures changed && SomeAlwaysUses(PartBodies(g, parts), Elements(vars)) && n > EXPANDED_SIZE ==>
              RunFails(h, entry, exit, n, mem)
  {
    hide IsLoop, IsSplit, WellFormed, RunIsCalls, EntryRunIsCalls, RunFails, AllApart, PartBodies, SomeAlwaysUses, Reaches,
         BatchSegments, Bodies, Exec, InRange, Elements, Plain, Arrays;
    ResultEntry(changed, g, h, entry, chain, exit, f, vars, parts);
    PlainInRange(h[entry].body, 0, mem);
    var first := FirstLoop(changed, |vars|);
    var mem1 := Exec(h[entry].body, 0, mem);
    if !changed {
      BatchedRunIsCalls(g, chain, exit, f, n, mem1, 0, garbage);
      EntryThenCalls(h, entry, first, exit, f, n, mem, garbage);
    } else {
      SplitRunIsCalls(g, h, entry, chain, exit, f, Elements(vars), parts, n, mem1, 0, garbage);
      if n <= EXPANDED_SIZE {
        EntryThenCalls(h, entry, first, exit, f, n, mem, garbage);
      } else if SomeAlwaysUses(PartBodies(g, parts), Elements(vars)) {
        FaultFails(h, entry, first, exit, n, mem);
      }
    }
  }

  /** After the entry block ran once, for every memory and garbage, and every batch size, up to the size
      of the expansion arrays if the loop was split. */
  ghost predicate RunsAsCalls(h: Graph, entry: BlockId, exit: BlockId, f: Function, split: bool) {
    forall n, mem, garbage | !split || n <= EXPANDED_SIZE :: EntryRunIsCalls(h, entry, exit, f, n, mem, garbage)
  }

  /** No larger batch works. */
  ghost predicate FailsBeyond(h: Graph, entry: BlockId, exit: BlockId) {
    forall n, mem | n > EXPANDED_SIZE :: RunFails(h, entry, exit, n, mem)
  }

  lemma PipelineRunsAsCalls(changed: bool, g: Graph, h: Graph, entry: BlockId, chain: seq<BlockId>, exit: BlockId,
                            f: Function, vars: seq<nat>, parts: seq<seq<BlockId>>)
    requires IsBatched(g, entry, chain, exit, f) && IsResult(changed, g, h, entry, chain, exit, vars, parts)
    requires WellFormed(f) && PartsFit(changed, h, f, vars, parts)
    ensures RunsAsCalls(h, entry, exit, f, changed)
    ensures changed && SomeAlwaysUses(PartBodies(g, parts), Elements(vars)) ==> FailsBeyond(h, entry, exit)
  {
    hide IsBatched, IsResult, PartsFit, WellFormed, EntryRunIsCalls, RunFails, SomeAlwaysUses, PartBodies, Elements;
    var none := (_: int) => (_: nat) => 0;
    forall n, mem
      ensures changed && SomeAlwaysUses(PartBodies(g, parts), Elements(vars)) && n > EXPANDED_SIZE ==>
                RunFails(h, entry, exit, n, mem)
    {
      PipelineRunIsCalls(changed, g, h, entry, chain, exit, f, vars, parts, n, mem, none);
    }
    forall n, mem, garbage
      ensures !changed || n <= EXPANDED_SIZE ==> EntryRunIsCalls(h, entry, exit, f, n, mem, garbage)
    {
      PipelineRunIsCalls(changed, g, h, entry, chain, exit, f, vars, parts, n, mem, garbage);
    }
  }

  // ----- calls of the whole original function -----

  /** Run from its entry, the graph computes what calls of the function compute, for every memory and
      garbage, and every batch size, up to the size of the expansion arrays if the loop was split. */
  ghost predicate RunsAsOriginal(h: Graph, entry: BlockId, exit: BlockId, f: Function, split: bool) {
    forall n, mem, garbage | !split || n <= EXPANDED_SIZE :: RunIsCalls(h, entry, exit, f, n, mem, 0, garbage)
  }

  /** Running the code before the marker once, and then the part after it for every element, is calling
      the original function on every element. */
  lemma EntryRunIsOriginal(h: Graph, entry: BlockId, exit: BlockId, w: Marked, n: int, mem: Memory,
                           garbage: int -> nat -> int)
    requires Fits(w) && EntryRunIsCalls(h, entry, exit, w.part, n, mem, garbage)
    requires entry in h && h[entry].body == Sub(w.before, w.part.params, ByBatch)
    ensures RunIsCalls(h, entry, exit, Original(w), n, mem, 0, garbage)
  {
    hide Reaches, LeftByCalls, Exec, Sub, Fits, Original;
    var mem1 := Exec(h[entry].body, 0, mem);
    var b: Memory :| Reaches(h, n, State(entry, mem, 0), State(exit, b, EndIndex(n))) && LeftByCalls(w.part, n, mem1, garbage, b);
    PartIsOriginal(w, n, mem, garbage, b);
  }

  lemma RunsAsOriginalToo(h: Graph, entry: BlockId, exit: BlockId, w: Marked, split: bool)
    requires Fits(w) && RunsAsCalls(h, entry, exit, w.part, split)
    requires entry in h && h[entry].body == Sub(w.before, w.part.params, ByBatch)
    ensures RunsAsOriginal(h, entry, exit, Original(w), split)
  {
    hide Fits, RunIsCalls, EntryRunIsCalls, Original, Sub;
    forall n, mem, garbage | !split || n <= EXPANDED_SIZE
      ensures RunIsCalls(h, entry, exit, Original(w), n, mem, 0, garbage)
    {
      assert EntryRunIsCalls(h, entry, exit, w.part, n, mem, garbage);
      EntryRunIsOriginal(h, entry, exit, w, n, mem, garbage);
    }
  }

  /** The function in the graph, cut at its marker. */
  ghost function MarkedOf(g: Graph, entry: BlockId, chain: seq<BlockId>, params: set<nat>, locals: set<nat>, held: set<nat>): Marked
    requires entry in g && chain != [] && Returning(g, chain[|chain| - 1])
  {
    Marked(g[entry].body, held, FunctionOf(g, chain, params, locals))
  }

  /** Cut and put together again it is the function from the entry block on. */
  lemma OriginalOfGraph(g: Graph, entry: BlockId, chain: seq<BlockId>, params: set<nat>, locals: set<nat>, held: set<nat>)
    requires entry in g && chain != [] && Returning(g, chain[|chain| - 1])
    ensures var all := [entry] + chain;
            && Returning(g, all[|all| - 1])
            && Original(MarkedOf(g, entry, chain, params, locals, held)) == FunctionOf(g, all, params, locals + held)
  {
    assert ([entry] + chain)[1..] == chain;
  }

  lemma PutLast(g: Graph, front: seq<BlockId>, last: BlockId, i: int, m: Memory)
    requires last in g
    ensures Exec(BodyOf(g, front + [last]), i, m) == Exec(g[last].body, i, Exec(BodyOf(g, front), i, m))
  {
    BodiesConcat(g, front, [last]);
    SeqAllConcat(Bodies(g, front), Bodies(g, [last]), i, m);
    assert Bodies(g, [last][1..]) == [];
    var one := Bodies(g, [last]);
    assert one == [g[last].body] && SeqAll(one[1..]) == Skip;
  }

  lemma FrontIsChain(g: Graph, entry: BlockId, chain: seq<BlockId>)
    requires Batchable(g, entry, chain)
    ensures var all := [entry] + chain; IsChain(g, all[..|all| - 1], chain[|chain| - 1]) && entry in g
  {
    var all := [entry] + chain;
    forall j | 0 <= j < |all| - 1
      ensures GoesTo(g, all[j], all[j + 1])
    {
      if j > 0 {
        assert GoesTo(g, chain[j - 1], chain[j]);
      }
    }
  }

  lemma {:induction false} OwnBodiesInRange(g: Graph, chain: seq<BlockId>, i: int, m: Memory)
    requires forall b | b in chain && b in g :: OwnOnly(Arrays(g[b].body))
    ensures InRange(BodyOf(g, chain), i, m)
    decreases |chain|
  {
    if chain != [] {
      assert Bodies(g, chain)[1..] == Bodies(g, chain[1..]);
      if chain[0] in g {
        PlainInRange(g[chain[0]].body, i, m);
        OwnBodiesInRange(g, chain[1..], i, Exec(g[chain[0]].body, i, m));
      } else {
        OwnBodiesInRange(g, chain[1..], i, m);
      }
    }
  }

  /** A call is a run of the original graph: entered with its parameters set and anything in its locals, it gets to
      the return block, and that block leaves the memory of the call and returns its value. */
  lemma CallIsRun(g: Graph, entry: BlockId, chain: seq<BlockId>, params: set<nat>, locals: set<nat>, held: set<nat>,
                  n: int, i: int, m: Memory, garbage: nat -> int)
    requires Batchable(g, entry, chain) && entry in g
    requires forall b | b in [entry] + chain && b in g :: OwnOnly(Arrays(g[b].body))
    ensures var o := Original(MarkedOf(g, entry, chain, params, locals, held));
            var last := chain[|chain| - 1];
            && last in g && g[last].term.RetVal?
            && exists before: Memory ::
                 && Reaches(g, n, State(entry, Enter(o, i, m, garbage), i), State(last, before, i))
                 && Exec(g[last].body, i, before) == CallMemory(o, i, m, garbage)
                 && g[last].term.op(Loads(g[last].term.srcs, i, CallMemory(o, i, m, garbage))) == CallValue(o, i, m, garbage)
  {
    hide Reaches, Exec, Loads, InRange, SeqAll, IsChain;
    var o := Original(MarkedOf(g, entry, chain, params, locals, held));
    var all, last := [entry] + chain, chain[|chain| - 1];
    var front := all[..|all| - 1];
    var start := Enter(o, i, m, garbage);
    FrontIsChain(g, entry, chain);
    assert front[0] == entry && all == front + [last];
    OwnBodiesInRange(g, front, i, start);
    ChainRuns(g, n, front, last, start, i);
    PutLast(g, front, last, i, start);
    OriginalOfGraph(g, entry, chain, params, locals, held);
    var before := Exec(BodyOf(g, front), i, start);
    assert Reaches(g, n, State(entry, start, i), State(last, before, i));
  }

  // ----- conditions on the text of the original function -----

  lemma {:induction false} PlaceStillUses(p: Place, params: set<nat>, vars: set<nat>)
    requires params !! vars
    ensures Uses(SubPlace(p, params, ByBatch), vars) == Uses(p, vars)
  {
    match p
    case Elem(_, q) => PlaceStillUses(q, params, vars);
    case _ =>
  }

  lemma {:induction false} PlacesStillUse(ps: seq<Place>, params: set<nat>, vars: set<nat>)
    requires params !! vars
    ensures UsesAny(SubPlaces(ps, params, ByBatch), vars) == UsesAny(ps, vars)
  {
    if ps != [] {
      PlaceStillUses(ps[0], params, vars);
      PlacesStillUse(ps[1..], params, vars);
    }
  }

  lemma {:induction false} StillAlwaysUses(s: Stmt, params: set<nat>, vars: set<nat>)
    requires params !! vars
    ensures AlwaysUses(Sub(s, params, ByBatch), vars) == AlwaysUses(s, vars)
  {
    match s
    case Skip =>
    case Assign(d, srcs, _) =>
      PlaceStillUses(d, params, vars);
      PlacesStillUse(srcs, params, vars);
    case Seq(s1, s2) =>
      StillAlwaysUses(s1, params, vars);
      StillAlwaysUses(s2, params, vars);
    case If(srcs, _, thn, els) =>
      PlacesStillUse(srcs, params, vars);
      StillAlwaysUses(thn, params, vars);
      StillAlwaysUses(els, params, vars);
  }

  lemma {:induction false} SomeStillAlwaysUses(segs: seq<Stmt>, params: set<nat>, vars: set<nat>)
    requires params !! vars
    ensures SomeAlwaysUses(SubAll(segs, params, ByBatch), vars) == SomeAlwaysUses(segs, vars)
  {
    if segs != [] {
      StillAlwaysUses(segs[0], params, vars);
      SomeStillAlwaysUses(segs[1..], params, vars);
    }
  }

  /** Parts of the original function, its result stored, whose shared scalars are parameters or
      expanded variables, do not interfere after both passes. */
  lemma TextPartsAreApart(s: Graph, g: Graph, h: Graph, parts: seq<seq<BlockId>>, params: set<nat>, vars: set<nat>)
    requires BatchedFrom(s, g, Flatten(parts), params) && TextApart(PartBodies(s, parts), params + vars)
    requires forall b | b in Flatten(parts) :: b in g && b in h && h[b].body == Sub(g[b].body, vars, ByExpansion)
    ensures AllApart(PartBodies(h, parts))
  {
    hide AllApart, TextApart, PartBodies, Sub;
    RewrittenParts(s, g, parts, params, ByBatch);
    RewrittenParts(g, h, parts, vars, ByExpansion);
    TextApartAfterSub(PartBodies(s, parts), params, vars, ByBatch);
    TextApartIsApart(PartBodies(g, parts), vars);
  }

  /** What the split needs, read off the text of the original function. */
  ghost predicate TextFits(s: Graph, f: Function, vars: seq<nat>, parts: seq<seq<BlockId>>) {
    Elements(vars) <= f.locals && TextApart(PartBodies(s, parts), f.params + Elements(vars))
  }

  lemma TextFitsParts(s: Graph, g: Graph, h: Graph, entry: BlockId, chain: seq<BlockId>, exit: BlockId, f: Function,
                      vars: seq<nat>, parts: seq<seq<BlockId>>)
    requires IsSplit(g, h, entry, chain, exit, Elements(vars), parts) && BatchedFrom(s, g, chain, f.params)
    requires TextFits(s, f, vars, parts)
    ensures PartsFit(true, h, f, vars, parts)
  {
    hide AllApart, TextApart, PartBodies, Elements, Stitched, BatchedFrom;
    TextPartsAreApart(s, g, h, parts, f.params, Elements(vars));
  }

  lemma SplitStillAlwaysUses(s: Graph, g: Graph, chain: seq<BlockId>, f: Function, vars: set<nat>, parts: seq<seq<BlockId>>)
    requires Flatten(parts) == chain && BatchedFrom(s, g, chain, f.params) && WellFormed(f) && vars <= f.locals
    ensures SomeAlwaysUses(PartBodies(g, parts), vars) == SomeAlwaysUses(PartBodies(s, parts), vars)
  {
    hide PartBodies, SomeAlwaysUses, Sub;
    RewrittenParts(s, g, parts, f.params, ByBatch);
    SomeStillAlwaysUses(PartBodies(s, parts), f.params, vars);
  }

  /** The pipeline, with its conditions read off the original function; that the parts do not
      interfere may also be known of the result. */
  lemma PipelineFromOriginal(changed: bool, s: Graph, g: Graph, h: Graph, entry: BlockId, chain: seq<BlockId>,
                             exit: BlockId, f: Function, vars: seq<nat>, parts: seq<seq<BlockId>>)
    requires IsBatched(g, entry, chain, exit, f) && IsResult(changed, g, h, entry, chain, exit, vars, parts)
    requires BatchedFrom(s, g, chain, f.params) && WellFormed(f)
    requires PartsFit(changed, h, f, vars, parts) || TextFits(s, f, vars, parts)
    ensures RunsAsCalls(h, entry, exit, f, changed)
    ensures changed && SomeAlwaysUses(PartBodies(s, parts), Elements(vars)) ==> FailsBeyond(h, entry, exit)
  {
    hide IsBatched, WellFormed, AllApart, TextFits, PartBodies, SomeAlwaysUses, Elements, RunsAsCalls, FailsBeyond,
         Stitched, BatchedFrom;
    if changed {
      if TextFits(s, f, vars, parts) {
        TextFitsParts(s, g, h, entry, chain, exit, f, vars, parts);
      }
      SplitStillAlwaysUses(s, g, chain, f, Elements(vars), parts);
    }
    PipelineRunsAsCalls(changed, g, h, entry, chain, exit, f, vars, parts);
  }

  /** Batch a function, then split the loop that makes.  Run from its entry, the result computes what
      calling the original function on each element in turn computes, for every memory and every
      batch size, if the loop was not split; for batches up to the 32 elements of an expansion array,
      if it was, and for no larger ones if every iteration uses an expanded variable.  Whatever the
      code before the marker does, the loops compute the calls of the part after it. */
  method BatchAndSplit(F: LoopFunction, argsToBatch: seq<nat>, annotatedVars: seq<nat>, splitEnds: set<BlockId>,
                       entry: BlockId, chain: seq<BlockId>, exit: BlockId, ghost locals: set<nat>, ghost held: set<nat>)
    returns (changed: bool)
    requires Batchable(F.code, entry, chain) && exit.Block? && exit !in F.code
    requires OwnOnly(Arrays(F.code[entry].body))
    requires splitEnds != {} ==> EndsIn(chain, splitEnds + {chain[|chain| - 1]}) == |annotatedVars| + 1
    modifies F
    ensures changed <==> splitEnds != {}
    ensures GoesTo(F.code, entry, FirstLoop(changed, |annotatedVars|))
    ensures F.code[entry].body == Sub(old(F.code)[entry].body, Elements(argsToBatch), ByBatch)
    ensures var w := MarkedOf(old(F.code), entry, chain, Elements(argsToBatch), locals, held);
            var s := Stored(old(F.code), chain, exit);
            var parts := Parts([], chain, splitEnds + {chain[|chain| - 1]});
            PartsFit(changed, F.code, w.part, annotatedVars, parts) || TextFits(s, w.part, annotatedVars, parts) ==>
              && (WellFormed(w.part) ==> RunsAsCalls(F.code, entry, exit, w.part, changed))
              && (Fits(w) ==> RunsAsOriginal(F.code, entry, exit, Original(w), changed))
              && (WellFormed(w.part) && changed && SomeAlwaysUses(PartBodies(s, parts), Elements(annotatedVars)) ==>
                    FailsBeyond(F.code, entry, exit))
  {
    hide IsLoop, BatchSegments, WellFormed, Fits, RunsAsCalls, RunsAsOriginal, FailsBeyond, AllApart, TextFits, PartsFit,
         SomeAlwaysUses, PartBodies, Bodies, Original, IsSplit, Splittable, Parts, EndsIn, Sub, Elements, Arrays, BatchedFrom, OwnOnly;
    ghost var s := Stored(F.code, chain, exit);
    ghost var ends := splitEnds + {chain[|chain| - 1]};
    ghost var w := MarkedOf(F.code, entry, chain, Elements(argsToBatch), locals, held);
    ghost var f := w.part;
    PartsPartition([], chain, ends);
    BatchedEntryIsPlain(F.code[entry].body, Elements(argsToBatch));
    assert exit !in chain && exit != entry by { BatchableChain(F.code, entry, chain); }
    var BM := new BatchMaker(F, argsToBatch);
    BM.DoBatchTransform(entry, chain, exit, locals);
    ghost var g := F.code;
    BatchedIsSplittable(g, entry, chain, exit, |annotatedVars|);
    var LS := new LoopSplitter(F, annotatedVars, splitEnds);
    changed := LS.Run(entry, chain[|chain| - 1], chain, exit);
    ghost var parts := Parts([], chain, ends);
    assert IsResult(changed, g, F.code, entry, chain, exit, annotatedVars, parts);
    ResultEntry(changed, g, F.code, entry, chain, exit, f, annotatedVars, parts);
    if WellFormed(f) && (PartsFit(changed, F.code, f, annotatedVars, parts) || TextFits(s, f, annotatedVars, parts)) {
      PipelineFromOriginal(changed, s, g, F.code, entry, chain, exit, f, annotatedVars, parts);
      if Fits(w) {
        RunsAsOriginalToo(F.code, entry, exit, w, changed);
      }
    }
    FitsIsWellFormed(w);
  }

  lemma FitsIsWellFormed(w: Marked)
    ensures Fits(w) ==> WellFormed(w.part)
  {
  }

  lemma BatchedEntryIsPlain(s: Stmt, params: set<nat>)
    requires OwnOnly(Arrays(s))
    ensures Plain(Arrays(Sub(s, params, ByBatch)), ByExpansion)
  {
    SubArrays(s, params, ByBatch);
  }
}
