/**
 Collecting the blocks of a loop body: a recursive walk that appends to a shared list and
 stops at an end block and at the exit blocks of the loop.  The graph may have cycles.
 */
module LoopTraversal {
  import opened Common
  import opened LoopGraph
  import opened BatchMaking

  function Succs(b: LoopBlock): seq<BlockId> {
    match b.term
    case Br(t) => [t]
    case IfLess(t, f) => [t, f]
    case _ => []
  }

  ghost predicate Closed(g: Graph) {
    forall u, v | u in g && v in Succs(g[u]) :: v in g
  }

  ghost predicate Hop(g: Graph, exits: set<BlockId>, u: BlockId, v: BlockId) {
    u in g && v in g && v in Succs(g[u]) && v !in exits
  }

  /** One block after the other along edges, never at `end`, and at no exit after the first block. */
  ghost predicate IsPath(g: Graph, exits: set<BlockId>, end: BlockId, p: seq<BlockId>) {
    && p != [] && p[0] in g && end !in p
    && forall i | 0 < i < |p| :: Hop(g, exits, p[i - 1], p[i])
  }

  ghost predicate CanReach(g: Graph, exits: set<BlockId>, end: BlockId, a: BlockId, b: BlockId) {
    exists p :: IsPath(g, exits, end, p) && p[0] == a && p[|p| - 1] == b
  }

  /** Every way on from `b` is taken care of. */
  ghost predicate Explored(g: Graph, exits: set<BlockId>, end: BlockId, blocks: seq<BlockId>, b: BlockId) {
    b in g && forall v | v in Succs(g[b]) :: v in exits || v == end || v in blocks
  }

  lemma ReachSelf(g: Graph, exits: set<BlockId>, end: BlockId, a: BlockId)
    requires a in g && a != end
    ensures CanReach(g, exits, end, a, a)
  {
    assert IsPath(g, exits, end, [a]);
  }

  lemma ReachFrom(g: Graph, exits: set<BlockId>, end: BlockId, a: BlockId, v: BlockId, b: BlockId)
    requires a in g && a != end && v in Succs(g[a]) && v !in exits && CanReach(g, exits, end, v, b)
    ensures CanReach(g, exits, end, a, b)
  {
    var p :| IsPath(g, exits, end, p) && p[0] == v && p[|p| - 1] == b;
    var q := [a] + p;
    forall i | 0 < i < |q|
      ensures Hop(g, exits, q[i - 1], q[i])
    {
      if i > 1 {
        assert Hop(g, exits, p[i - 2], p[i - 1]);
      }
    }
    assert IsPath(g, exits, end, q);
  }

  /** A list whose blocks are all explored holds every block on a path from one of them. */
  lemma {:induction false} PathStaysIn(g: Graph, exits: set<BlockId>, end: BlockId, blocks: seq<BlockId>, p: seq<BlockId>)
    requires IsPath(g, exits, end, p) && p[0] in blocks
    requires forall b | b in blocks :: Explored(g, exits, end, blocks, b)
    ensures p[|p| - 1] in blocks
  {
    if |p| > 1 {
      assert Explored(g, exits, end, blocks, p[0]);
      assert Hop(g, exits, p[0], p[1]) && p[1] in p;
      forall i | 0 < i < |p[1..]|
        ensures Hop(g, exits, p[1..][i - 1], p[1..][i])
      {
        assert Hop(g, exits, p[i], p[i + 1]);
      }
      PathStaysIn(g, exits, end, blocks, p[1..]);
    }
  }

  lemma AllReached(g: Graph, exits: set<BlockId>, end: BlockId, blocks: seq<BlockId>, start: BlockId, b: BlockId)
    requires start in blocks && CanReach(g, exits, end, start, b)
    requires forall x | x in blocks :: Explored(g, exits, end, blocks, x)
    ensures b in blocks
  {
    var p :| IsPath(g, exits, end, p) && p[0] == start && p[|p| - 1] == b;
    PathStaysIn(g, exits, end, blocks, p);
  }

  /** What a walk from `start` added to the list `was`. */
  ghost predicate Walked(g: Graph, exits: set<BlockId>, end: BlockId, was: seq<BlockId>, blocks: seq<BlockId>, start: BlockId) {
    && was <= blocks && Distinct(blocks) && Inside(g, blocks)
    && forall b | b in blocks && b !in was :: CanReach(g, exits, end, start, b) && Explored(g, exits, end, blocks, b)
  }

  ghost predicate Inside(g: Graph, blocks: seq<BlockId>) {
    forall b | b in blocks :: b in g
  }

  /** A walk from a successor adds to the walk from `start`, whose own block is still open. */
  lemma WalkOn(g: Graph, exits: set<BlockId>, end: BlockId, was: seq<BlockId>, mid: seq<BlockId>, blocks: seq<BlockId>,
               start: BlockId, v: BlockId)
    requires start in g && start != end && v in Succs(g[start]) && v !in exits
    requires Walked(g, exits, end, was, mid, start) && Walked(g, exits, end, mid, blocks, v)
    ensures Walked(g, exits, end, was, blocks, start)
  {
    forall b | b in blocks && b !in was
      ensures CanReach(g, exits, end, start, b) && Explored(g, exits, end, blocks, b)
    {
      if b !in mid {
        ReachFrom(g, exits, end, start, v, b);
      }
    }
  }

  lemma WalkDone(g: Graph, exits: set<BlockId>, end: BlockId, was: seq<BlockId>, blocks: seq<BlockId>, start: BlockId)
    requires start in g && start != end
    requires Walked(g, exits, end, was + [start], blocks, start) && Explored(g, exits, end, blocks, start)
    ensures Walked(g, exits, end, was, blocks, start)
  {
    ReachSelf(g, exits, end, start);
    forall b | b in blocks && b !in was
      ensures CanReach(g, exits, end, start, b) && Explored(g, exits, end, blocks, b)
    {
    }
  }

  // ----- the order of the walk -----

  /** The walk may still go from `u` to its successor number `i`. */
  predicate Open(g: Graph, exits: set<BlockId>, end: BlockId, listed: seq<BlockId>, u: BlockId, i: nat)
    requires u in g && i < |Succs(g[u])|
  {
    var v := Succs(g[u])[i];
    v !in exits && v != end && v !in listed
  }

  /** Block `k` of the list is the first successor still open of the latest block that has one; `from` is where
      the walk began. */
  ghost predicate DepthFirstAt(g: Graph, exits: set<BlockId>, end: BlockId, blocks: seq<BlockId>, from: nat, k: nat)
    requires k < |blocks|
  {
    exists j, i :: from <= j < k && FirstOpen(g, exits, end, blocks, j, i, k)
  }

  ghost predicate FirstOpen(g: Graph, exits: set<BlockId>, end: BlockId, blocks: seq<BlockId>, j: nat, i: nat, k: nat)
    requires j < k < |blocks|
  {
    && blocks[j] in g && i < |Succs(g[blocks[j]])| && Succs(g[blocks[j]])[i] == blocks[k]
    && Open(g, exits, end, blocks[..k], blocks[j], i)
    && (forall x: nat | x < i :: !Open(g, exits, end, blocks[..k], blocks[j], x))
    && (forall y | j < y < k :: Explored(g, exits, end, blocks[..k], blocks[y]))
  }

  /** The whole walk that began with block `from` goes depth first. */
  ghost predicate DepthFirst(g: Graph, exits: set<BlockId>, end: BlockId, blocks: seq<BlockId>, from: nat) {
    forall k | from < k < |blocks| :: DepthFirstAt(g, exits, end, blocks, from, k)
  }

  lemma FirstOpenLasts(g: Graph, exits: set<BlockId>, end: BlockId, blocks: seq<BlockId>, longer: seq<BlockId>, j: nat, i: nat, k: nat)
    requires j < k < |blocks| && blocks <= longer && FirstOpen(g, exits, end, blocks, j, i, k)
    ensures FirstOpen(g, exits, end, longer, j, i, k)
  {
    assert longer[..k] == blocks[..k];
  }

  lemma DepthFirstLasts(g: Graph, exits: set<BlockId>, end: BlockId, blocks: seq<BlockId>, longer: seq<BlockId>, low: nat, from: nat, k: nat)
    requires low <= from && k < |blocks| && blocks <= longer && DepthFirstAt(g, exits, end, blocks, from, k)
    ensures DepthFirstAt(g, exits, end, longer, low, k)
  {
    var j, i :| from <= j < k && FirstOpen(g, exits, end, blocks, j, i, k);
    FirstOpenLasts(g, exits, end, blocks, longer, j, i, k);
  }

  /** A walk from successor `i` of the block at `from`, after walks from all the ones before, goes on depth first. */
  lemma WalkOnDepthFirst(g: Graph, exits: set<BlockId>, end: BlockId, mid: seq<BlockId>, blocks: seq<BlockId>, from: nat, i: nat)
    requires from < |mid| && mid <= blocks && mid[from] in g && i < |Succs(g[mid[from]])|
    requires DepthFirst(g, exits, end, mid, from)
    requires forall x: nat | x < i :: !Open(g, exits, end, mid, mid[from], x)
    requires forall y | from < y < |mid| :: Explored(g, exits, end, mid, mid[y])
    requires Succs(g[mid[from]])[i] !in exits
    requires |mid| < |blocks| ==>
               blocks[|mid|] == Succs(g[mid[from]])[i] && Open(g, exits, end, mid, mid[from], i) && DepthFirst(g, exits, end, blocks, |mid|)
    ensures DepthFirst(g, exits, end, blocks, from)
  {
    hide FirstOpen, Open, Explored;
    forall k | from < k < |blocks|
      ensures DepthFirstAt(g, exits, end, blocks, from, k)
    {
      if k < |mid| {
        DepthFirstLasts(g, exits, end, mid, blocks, from, from, k);
      } else if k == |mid| {
        NextIsFirstOpen(g, exits, end, mid, blocks, from, i);
      } else {
        DepthFirstLasts(g, exits, end, blocks, blocks, from, |mid|, k);
      }
    }
  }

  lemma NextIsFirstOpen(g: Graph, exits: set<BlockId>, end: BlockId, mid: seq<BlockId>, blocks: seq<BlockId>, from: nat, i: nat)
    requires from < |mid| < |blocks| && mid <= blocks && mid[from] in g && i < |Succs(g[mid[from]])|
    requires Succs(g[mid[from]])[i] == blocks[|mid|] && Open(g, exits, end, mid, mid[from], i)
    requires forall x: nat | x < i :: !Open(g, exits, end, mid, mid[from], x)
    requires forall y | from < y < |mid| :: Explored(g, exits, end, mid, mid[y])
    ensures FirstOpen(g, exits, end, blocks, from, i, |mid|)
  {
    assert blocks[..|mid|] == mid;
  }

  /** Such a walk leaves no choice: two lists that begin with the same block agree as far as both go. */
  lemma {:induction false} DepthFirstIsUnique(g: Graph, exits: set<BlockId>, end: BlockId, a: seq<BlockId>, b: seq<BlockId>, k: nat)
    requires a != [] && b != [] && a[0] == b[0] && DepthFirst(g, exits, end, a, 0) && DepthFirst(g, exits, end, b, 0)
    requires k <= |a| && k <= |b|
    ensures a[..k] == b[..k]
  {
    hide DepthFirstAt;
    if k > 1 {
      DepthFirstIsUnique(g, exits, end, a, b, k - 1);
      var last := k - 1;
      assert DepthFirstAt(g, exits, end, a, 0, last) && DepthFirstAt(g, exits, end, b, 0, last);
      SameNext(g, exits, end, a, b, last);
      assert a[..k] == a[..last] + [a[last]] && b[..k] == b[..last] + [b[last]];
    } else if k == 1 {
      assert a[..1] == [a[0]] && b[..1] == [b[0]];
    }
  }

  lemma SameNext(g: Graph, exits: set<BlockId>, end: BlockId, a: seq<BlockId>, b: seq<BlockId>, k: nat)
    requires k < |a| && k < |b| && a[..k] == b[..k]
    requires DepthFirstAt(g, exits, end, a, 0, k) && DepthFirstAt(g, exits, end, b, 0, k)
    ensures a[k] == b[k]
  {
    hide FirstOpen;
    var j: nat, i: nat :| j < k && FirstOpen(g, exits, end, a, j, i, k);
    var j': nat, i': nat :| j' < k && FirstOpen(g, exits, end, b, j', i', k);
    SameChoice(g, exits, end, a, b, k, j, i, j', i');
  }

  lemma SameChoice(g: Graph, exits: set<BlockId>, end: BlockId, a: seq<BlockId>, b: seq<BlockId>, k: nat,
                   j: nat, i: nat, j': nat, i': nat)
    requires k < |a| && k < |b| && a[..k] == b[..k] && j < k && j' < k
    requires FirstOpen(g, exits, end, a, j, i, k) && FirstOpen(g, exits, end, b, j', i', k)
    ensures a[k] == b[k]
  {
    assert forall x: nat | x < k :: a[x] == a[..k][x] && b[x] == b[..k][x];
    OpenIsUnexplored(g, exits, end, a[..k], a[j], i);
    OpenIsUnexplored(g, exits, end, b[..k], b[j'], i');
  }

  lemma OpenIsUnexplored(g: Graph, exits: set<BlockId>, end: BlockId, listed: seq<BlockId>, u: BlockId, i: nat)
    requires u in g && i < |Succs(g[u])| && Open(g, exits, end, listed, u, i)
    ensures !Explored(g, exits, end, listed, u)
  {
    assert Succs(g[u])[i] in Succs(g[u]);
  }

  /** Blocks not yet listed. */
  ghost function Left(g: Graph, blocks: seq<BlockId>): set<BlockId> {
    set b | b in g.Keys && b !in blocks
  }

  lemma LessLeft(g: Graph, was: seq<BlockId>, start: BlockId, blocks: seq<BlockId>)
    requires was + [start] <= blocks && start in g && start !in was
    ensures Left(g, blocks) < Left(g, was)
  {
    forall b | b in was + [start]
      ensures b in blocks
    {
      var i :| 0 <= i < |was + [start]| && (was + [start])[i] == b;
      assert blocks[i] == b;
    }
    assert start in Left(g, was) && start !in Left(g, blocks);
  }

  lemma AddedExplored(g: Graph, exits: set<BlockId>, end: BlockId, was: seq<BlockId>, blocks: seq<BlockId>, start: BlockId)
    requires Walked(g, exits, end, was, blocks, start)
    ensures forall y | |was| <= y < |blocks| :: Explored(g, exits, end, blocks, blocks[y])
  {
    forall y | |was| <= y < |blocks|
      ensures Explored(g, exits, end, blocks, blocks[y])
    {
      assert blocks[y] in blocks;
      assert forall x | 0 <= x < |was| :: was[x] == blocks[x];
    }
  }

  class LoopBodyTraverser {
    const F: LoopFunction
    const exitBlocks: set<BlockId>
    var blocks: seq<BlockId>

    constructor (F: LoopFunction, exitBlocks: set<BlockId>)
      ensures this.F == F && this.exitBlocks == exitBlocks && blocks == []
    {
      this.F := F;
      this.exitBlocks := exitBlocks;
      blocks := [];
    }

    /** The walk ends on every graph, lists no block twice, and, started with an empty list, lists
        exactly the blocks reachable from `start` on paths that avoid `end` and, after `start`,
        the exit blocks.  They are listed depth first, successors in order. */
    method Traverse(start: BlockId, end: BlockId)
      requires Closed(F.code) && start in F.code && Distinct(blocks) && Inside(F.code, blocks)
      modifies this`blocks
      ensures Walked(F.code, exitBlocks, end, old(blocks), blocks, start)
      ensures start == end || start in blocks
      ensures |old(blocks)| < |blocks| <==> start != end && start !in old(blocks)
      ensures |old(blocks)| < |blocks| ==>
                blocks[|old(blocks)|] == start && DepthFirst(F.code, exitBlocks, end, blocks, |old(blocks)|)
      ensures old(blocks) == [] ==> forall b :: b in blocks <==> CanReach(F.code, exitBlocks, end, start, b)
      decreases Left(F.code, blocks)
    {
      if start in blocks {
        return;
      }
      if start == end {
        forall b
          ensures !CanReach(F.code, exitBlocks, end, end, b)
        {
        }
        return;
      }
      ghost var was := blocks;
      blocks := blocks + [start];
      assert start !in was && start in blocks;
      var succs := Succs(F.code[start]);
      for i := 0 to |succs|
        invariant Walked(F.code, exitBlocks, end, was + [start], blocks, start)
        invariant forall j | 0 <= j < i :: succs[j] in exitBlocks || succs[j] == end || succs[j] in blocks
        invariant was + [start] <= blocks && DepthFirst(F.code, exitBlocks, end, blocks, |was|)
      {
        if succs[i] !in exitBlocks {
          ghost var mid := blocks;
          LessLeft(F.code, was, start, blocks);
          Traverse(succs[i], end);
          WalkOn(F.code, exitBlocks, end, was + [start], mid, blocks, start, succs[i]);
          AddedExplored(F.code, exitBlocks, end, was + [start], mid, start);
          WalkOnDepthFirst(F.code, exitBlocks, end, mid, blocks, |was|, i);
        }
      }
      WalkDone(F.code, exitBlocks, end, was, blocks, start);
      if was == [] {
        forall b | CanReach(F.code, exitBlocks, end, start, b)
          ensures b in blocks
        {
          AllReached(F.code, exitBlocks, end, blocks, start, b);
        }
      }
    }
  }
}
