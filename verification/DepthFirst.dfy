/**
 The depth-first order both passes iterate over: blocks are emitted when their visit
 finishes, successors are visited in terminator order, and the list is then reversed.

 Besides being topological on acyclic graphs, this order keeps a block next to its
 unique predecessor when it is the last successor of that predecessor.  Reuse of mask
 ids depends on that adjacency.
 */
module DepthFirst {
  import opened Common
  import opened IR

  function Visit(g: Code, v: BlockId, seen: set<BlockId>, post: seq<BlockId>): (r: (set<BlockId>, seq<BlockId>))
    requires Closed(g) && v in g && seen <= g.Keys
    ensures seen <= r.0 <= g.Keys
    decreases g.Keys - seen, 1, 0
  {
    if v in seen then (seen, post)
    else
      var r := VisitAll(g, Succs(g[v]), seen + {v}, post);
      (r.0, r.1 + [v])
  }

  function VisitAll(g: Code, vs: seq<BlockId>, seen: set<BlockId>, post: seq<BlockId>): (r: (set<BlockId>, seq<BlockId>))
    requires Closed(g) && (forall v | v in vs :: v in g) && seen <= g.Keys
    ensures seen <= r.0 <= g.Keys
    decreases g.Keys - seen, 2, |vs|
  {
    if vs == [] then (seen, post)
    else
      var r := Visit(g, vs[0], seen, post);
      VisitAll(g, vs[1..], r.0, r.1)
  }

  function Reverse(s: seq<BlockId>): (r: seq<BlockId>)
    ensures |r| == |s|
    ensures forall i | 0 <= i < |s| :: r[i] == s[|s| - 1 - i]
  {
    if s == [] then [] else Reverse(s[1..]) + [s[0]]
  }

  /** Reverse post-order of the blocks reachable from the entry. */
  function Order(g: Code, entry: BlockId): (r: seq<BlockId>)
    requires Closed(g) && entry in g
  {
    Reverse(Visit(g, entry, {}, []).1)
  }

  ghost predicate SameEdges(g: Code, h: Code) {
    g.Keys == h.Keys && forall b | b in g :: Succs(g[b]) == Succs(h[b])
  }

  /** The order depends on the edges only. */
  lemma {:induction false} VisitSameEdges(g: Code, h: Code, v: BlockId, seen: set<BlockId>, post: seq<BlockId>)
    requires Closed(g) && Closed(h) && SameEdges(g, h) && v in g && seen <= g.Keys
    ensures Visit(g, v, seen, post) == Visit(h, v, seen, post)
    decreases g.Keys - seen, 1, 0
  {
    if v !in seen {
      VisitAllSameEdges(g, h, Succs(g[v]), seen + {v}, post);
    }
  }

  lemma {:induction false} VisitAllSameEdges(g: Code, h: Code, vs: seq<BlockId>, seen: set<BlockId>, post: seq<BlockId>)
    requires Closed(g) && Closed(h) && SameEdges(g, h) && (forall v | v in vs :: v in g) && seen <= g.Keys
    ensures VisitAll(g, vs, seen, post) == VisitAll(h, vs, seen, post)
    decreases g.Keys - seen, 2, |vs|
  {
    if vs != [] {
      VisitSameEdges(g, h, vs[0], seen, post);
      var r := Visit(g, vs[0], seen, post);
      VisitAllSameEdges(g, h, vs[1..], r.0, r.1);
    }
  }

  // ----- counting predecessor edges -----

  function Occurrences(vs: seq<BlockId>, v: BlockId): nat {
    if vs == [] then 0 else (if vs[0] == v then 1 else 0) + Occurrences(vs[1..], v)
  }

  /** Number of edges into `v` from the blocks in `bs`; a two-way branch with equal targets counts twice. */
  function PredCount(g: Code, bs: seq<BlockId>, v: BlockId): nat
    requires forall b | b in bs :: b in g
  {
    if bs == [] then 0 else Occurrences(Succs(g[bs[0]]), v) + PredCount(g, bs[1..], v)
  }

  lemma {:induction false} OccursIffIn(vs: seq<BlockId>, v: BlockId)
    ensures v in vs <==> Occurrences(vs, v) > 0
  {
    if vs != [] {
      OccursIffIn(vs[1..], v);
      assert vs == [vs[0]] + vs[1..];
    }
  }

  lemma {:induction false} PredCountAtLeast(g: Code, bs: seq<BlockId>, u: BlockId, v: BlockId)
    requires forall b | b in bs :: b in g
    requires u in bs
    ensures PredCount(g, bs, v) >= Occurrences(Succs(g[u]), v)
  {
    if bs[0] != u {
      PredCountAtLeast(g, bs[1..], u, v);
    }
  }

  lemma {:induction false} PredCountTwo(g: Code, bs: seq<BlockId>, u: BlockId, w: BlockId, v: BlockId)
    requires forall b | b in bs :: b in g
    requires u in bs && w in bs && u != w
    ensures PredCount(g, bs, v) >= Occurrences(Succs(g[u]), v) + Occurrences(Succs(g[w]), v)
  {
    if bs[0] == u {
      PredCountAtLeast(g, bs[1..], w, v);
    } else if bs[0] == w {
      PredCountAtLeast(g, bs[1..], u, v);
    } else {
      PredCountTwo(g, bs[1..], u, w, v);
    }
  }

  lemma {:induction false} SomePred(g: Code, bs: seq<BlockId>, v: BlockId) returns (u: BlockId)
    requires forall b | b in bs :: b in g
    requires PredCount(g, bs, v) > 0
    ensures u in bs && IsEdge(g, u, v)
  {
    OccursIffIn(Succs(g[bs[0]]), v);
    if v in Succs(g[bs[0]]) {
      u := bs[0];
    } else {
      u := SomePred(g, bs[1..], v);
    }
  }

  /** `u` has the only edge into `v`. */
  ghost predicate OnlyEdge(g: Code, u: BlockId, v: BlockId) {
    && IsEdge(g, u, v)
    && Occurrences(Succs(g[u]), v) == 1
    && forall w | IsEdge(g, w, v) :: w == u
  }

  lemma CountOneIsOnlyEdge(g: Code, bs: seq<BlockId>, u: BlockId, v: BlockId)
    requires forall b :: b in bs <==> b in g
    requires IsEdge(g, u, v)
    ensures PredCount(g, bs, v) >= 1
    ensures PredCount(g, bs, v) == 1 ==> OnlyEdge(g, u, v)
  {
    OccursIffIn(Succs(g[u]), v);
    PredCountAtLeast(g, bs, u, v);
    if PredCount(g, bs, v) == 1 {
      forall w | IsEdge(g, w, v)
        ensures w == u
      {
        if w != u {
          OccursIffIn(Succs(g[w]), v);
          PredCountTwo(g, bs, u, w, v);
        }
      }
    }
  }

  // ----- the invariant of the search -----

  type Rank = BlockId -> nat

  /** A rank that grows along every edge: the graph has no cycle. */
  ghost predicate Ranks(g: Code, rank: Rank) {
    forall u, v | IsEdge(g, u, v) :: rank(u) < rank(v)
  }

  ghost predicate Acyclic(g: Code) {
    exists rank: Rank :: Ranks(g, rank)
  }

  /** Finished blocks are listed once, after all their successors. */
  ghost predicate Finished(g: Code, seen: set<BlockId>, post: seq<BlockId>) {
    && Distinct(post)
    && (forall b | b in post :: b in seen && b in g)
    && (forall i, s | 0 <= i < |post| && s in Succs(g[post[i]]) :: s in post[..i])
  }

  /** Blocks seen but unfinished are ancestors: they rank below `v`. */
  ghost predicate AncestorsBelow(rank: Rank, seen: set<BlockId>, post: seq<BlockId>, v: BlockId) {
    forall x | x in seen && x !in post :: rank(x) < rank(v)
  }

  ghost predicate SameOpen(seen: set<BlockId>, post: seq<BlockId>, seen': set<BlockId>, post': seq<BlockId>) {
    forall x :: x in seen' && x !in post' <==> x in seen && x !in post
  }

  lemma StillBelow(rank: Rank, vs: seq<BlockId>, seen: set<BlockId>, post: seq<BlockId>, seen': set<BlockId>, post': seq<BlockId>)
    requires SameOpen(seen, post, seen', post') && vs != []
    requires forall v | v in vs :: AncestorsBelow(rank, seen, post, v)
    ensures forall v | v in vs[1..] :: AncestorsBelow(rank, seen', post', v)
  {
    forall v | v in vs[1..]
      ensures AncestorsBelow(rank, seen', post', v)
    {
      assert v in vs;
    }
  }

  lemma {:induction false} VisitFinishes(g: Code, rank: Rank, v: BlockId, seen: set<BlockId>, post: seq<BlockId>)
    requires Closed(g) && v in g && seen <= g.Keys && Ranks(g, rank)
    requires Finished(g, seen, post) && AncestorsBelow(rank, seen, post, v)
    ensures var r := Visit(g, v, seen, post);
            && Finished(g, r.0, r.1) && SameOpen(seen, post, r.0, r.1) && post <= r.1 && v in r.1
    decreases g.Keys - seen, 1, 0
  {
    if v in seen {
    } else {
      var r := VisitAll(g, Succs(g[v]), seen + {v}, post);
      forall s | s in Succs(g[v])
        ensures AncestorsBelow(rank, seen + {v}, post, s)
      {
        assert IsEdge(g, v, s);
      }
      VisitAllFinishes(g, rank, Succs(g[v]), seen + {v}, post);
      var post' := r.1 + [v];
      assert v !in r.1;
      forall i, s | 0 <= i < |post'| && s in Succs(g[post'[i]])
        ensures s in post'[..i]
      {
        if i < |r.1| {
          assert post'[..i] == r.1[..i];
        } else {
          assert post'[..i] == r.1;
        }
      }
    }
  }

  lemma {:induction false} VisitAllFinishes(g: Code, rank: Rank, vs: seq<BlockId>, seen: set<BlockId>, post: seq<BlockId>)
    requires Closed(g) && (forall v | v in vs :: v in g) && seen <= g.Keys && Ranks(g, rank)
    requires Finished(g, seen, post) && forall v | v in vs :: AncestorsBelow(rank, seen, post, v)
    ensures var r := VisitAll(g, vs, seen, post);
            && Finished(g, r.0, r.1) && SameOpen(seen, post, r.0, r.1) && post <= r.1
            && forall v | v in vs :: v in r.1
    decreases g.Keys - seen, 2, |vs|
  {
    if vs != [] {
      var r := Visit(g, vs[0], seen, post);
      VisitFinishes(g, rank, vs[0], seen, post);
      StillBelow(rank, vs, seen, post, r.0, r.1);
      VisitAllFinishes(g, rank, vs[1..], r.0, r.1);
      assert vs == [vs[0]] + vs[1..];
    }
  }

  /** Every block first seen during a visit is its start or has a predecessor first seen in it. */
  ghost predicate FreshHavePreds(g: Code, vs: seq<BlockId>, seen: set<BlockId>, seen': set<BlockId>) {
    forall x | x in seen' && x !in seen ::
      x in vs || exists p :: p in seen' && p !in seen && IsEdge(g, p, x)
  }

  lemma {:induction false} VisitFresh(g: Code, v: BlockId, seen: set<BlockId>, post: seq<BlockId>)
    requires Closed(g) && v in g && seen <= g.Keys
    ensures FreshHavePreds(g, [v], seen, Visit(g, v, seen, post).0)
    ensures v in Visit(g, v, seen, post).0
    decreases g.Keys - seen, 1, 0
  {
    if v !in seen {
      VisitAllFresh(g, Succs(g[v]), seen + {v}, post);
    }
  }

  lemma {:induction false} VisitAllFresh(g: Code, vs: seq<BlockId>, seen: set<BlockId>, post: seq<BlockId>)
    requires Closed(g) && (forall v | v in vs :: v in g) && seen <= g.Keys
    ensures FreshHavePreds(g, vs, seen, VisitAll(g, vs, seen, post).0)
    decreases g.Keys - seen, 2, |vs|
  {
    if vs != [] {
      var r := Visit(g, vs[0], seen, post);
      VisitFresh(g, vs[0], seen, post);
      VisitAllFresh(g, vs[1..], r.0, r.1);
      assert vs == [vs[0]] + vs[1..];
    }
  }

  // ----- adjacency -----

  /** `v` hangs off `u` alone and is the last block the search tries from `u`. */
  ghost predicate TailChild(g: Code, u: BlockId, v: BlockId) {
    && OnlyEdge(g, u, v)
    && Succs(g[u])[|Succs(g[u])| - 1] == v
  }

  ghost predicate TailsAdjacent(g: Code, post: seq<BlockId>) {
    forall i, v | 0 <= i < |post| && TailChild(g, post[i], v) :: i > 0 && post[i - 1] == v
  }

  ghost predicate HasSeenPred(g: Code, seen: set<BlockId>, x: BlockId) {
    exists p :: p in seen && IsEdge(g, p, x)
  }

  /** Every block seen, except the root, was reached from a block seen. */
  ghost predicate SeenHavePreds(g: Code, root: BlockId, seen: set<BlockId>) {
    forall x | x in seen && x != root :: HasSeenPred(g, seen, x)
  }

  lemma {:induction false} LastFreshEndsPost(g: Code, u: BlockId, vs: seq<BlockId>, seen: set<BlockId>, post: seq<BlockId>)
    requires Closed(g) && (forall v | v in vs :: v in g) && seen <= g.Keys
    requires vs != [] && u in seen
    requires OnlyEdge(g, u, vs[|vs| - 1]) && vs[|vs| - 1] !in vs[..|vs| - 1]
    requires vs[|vs| - 1] !in seen
    ensures var p := VisitAll(g, vs, seen, post).1; p != [] && p[|p| - 1] == vs[|vs| - 1]
    decreases |vs|
  {
    var v := vs[|vs| - 1];
    var r := Visit(g, vs[0], seen, post);
    if |vs| > 1 {
      VisitFresh(g, vs[0], seen, post);
      assert vs[0] in vs[..|vs| - 1];
      assert v !in r.0;
      assert vs[1..][..|vs| - 2] == vs[..|vs| - 1][1..];
      LastFreshEndsPost(g, u, vs[1..], r.0, r.1);
    } else {
      assert VisitAll(g, vs[1..], r.0, r.1) == r;
    }
  }

  lemma OccursOnceLast(vs: seq<BlockId>, v: BlockId)
    requires |vs| <= 2 && vs != [] && vs[|vs| - 1] == v && Occurrences(vs, v) == 1
    ensures v !in vs[..|vs| - 1]
  {
    if |vs| == 2 {
      assert Occurrences(vs, v) == (if vs[0] == v then 1 else 0) + Occurrences(vs[1..], v);
      assert Occurrences(vs[1..], v) == 1 + Occurrences(vs[1..][1..], v);
    }
  }

  /** When `v` finishes after its successors, its last child, if it has no other way in, is at the end. */
  lemma LastChildEndsPost(g: Code, v: BlockId, c: BlockId, seen: set<BlockId>, post: seq<BlockId>)
    requires Closed(g) && v in g && seen <= g.Keys && v !in seen
    requires TailChild(g, v, c) && !IsEdge(g, v, v)
    requires c !in seen
    ensures var p := VisitAll(g, Succs(g[v]), seen + {v}, post).1; p != [] && p[|p| - 1] == c
  {
    hide VisitAll;
    OccursOnceLast(Succs(g[v]), c);
    LastFreshEndsPost(g, v, Succs(g[v]), seen + {v}, post);
  }

  /** A block whose only predecessor has not been seen has not been seen either. */
  lemma UnseenChild(g: Code, root: BlockId, v: BlockId, c: BlockId, seen: set<BlockId>)
    requires SeenHavePreds(g, root, seen) && v !in seen && TailChild(g, v, c) && c != root
    ensures c !in seen
  {
    hide Occurrences;
  }

  lemma TailsStayAdjacent(g: Code, v: BlockId, post: seq<BlockId>)
    requires TailsAdjacent(g, post)
    requires forall c | TailChild(g, v, c) :: post != [] && post[|post| - 1] == c
    ensures TailsAdjacent(g, post + [v])
  {
    hide TailChild;
  }

  lemma {:induction false} VisitTails(g: Code, rank: Rank, root: BlockId, v: BlockId, seen: set<BlockId>, post: seq<BlockId>)
    requires Closed(g) && v in g && seen <= g.Keys && Ranks(g, rank)
    requires Finished(g, seen, post) && AncestorsBelow(rank, seen, post, v)
    requires forall u :: !IsEdge(g, u, root)
    requires SeenHavePreds(g, root, seen) && TailsAdjacent(g, post)
    requires v == root || HasSeenPred(g, seen, v)
    ensures var r := Visit(g, v, seen, post); SeenHavePreds(g, root, r.0) && TailsAdjacent(g, r.1)
    decreases g.Keys - seen, 1, 0
  {
    hide VisitAll, Occurrences, TailsAdjacent, Finished;
    if v !in seen {
      var seen1 := seen + {v};
      var succs := Succs(g[v]);
      var r := VisitAll(g, succs, seen1, post);
      OpenBlock(g, rank, root, v, seen, post);
      VisitAllTails(g, rank, root, succs, seen1, post);
      forall c | TailChild(g, v, c)
        ensures r.1 != [] && r.1[|r.1| - 1] == c
      {
        assert IsEdge(g, v, c);
        UnseenChild(g, root, v, c, seen);
        LastChildEndsPost(g, v, c, seen, post);
      }
      TailsStayAdjacent(g, v, r.1);
    }
  }

  /** Marking `v` as seen is a good start for visiting its successors. */
  lemma OpenBlock(g: Code, rank: Rank, root: BlockId, v: BlockId, seen: set<BlockId>, post: seq<BlockId>)
    requires v in g && v !in seen && Ranks(g, rank)
    requires Finished(g, seen, post) && AncestorsBelow(rank, seen, post, v)
    requires SeenHavePreds(g, root, seen) && (v == root || HasSeenPred(g, seen, v))
    ensures Finished(g, seen + {v}, post) && SeenHavePreds(g, root, seen + {v})
    ensures forall s | s in Succs(g[v]) :: AncestorsBelow(rank, seen + {v}, post, s) && HasSeenPred(g, seen + {v}, s)
  {
    forall s | s in Succs(g[v])
      ensures AncestorsBelow(rank, seen + {v}, post, s) && HasSeenPred(g, seen + {v}, s)
    {
      assert v in seen + {v} && IsEdge(g, v, s);
    }
  }

  lemma {:induction false} VisitAllTails(g: Code, rank: Rank, root: BlockId, vs: seq<BlockId>, seen: set<BlockId>, post: seq<BlockId>)
    requires Closed(g) && (forall v | v in vs :: v in g) && seen <= g.Keys && Ranks(g, rank)
    requires Finished(g, seen, post) && forall v | v in vs :: AncestorsBelow(rank, seen, post, v)
    requires forall u :: !IsEdge(g, u, root)
    requires SeenHavePreds(g, root, seen) && TailsAdjacent(g, post)
    requires forall v | v in vs :: HasSeenPred(g, seen, v)
    ensures var r := VisitAll(g, vs, seen, post); SeenHavePreds(g, root, r.0) && TailsAdjacent(g, r.1)
    decreases g.Keys - seen, 2, |vs|
  {
    if vs != [] {
      var r := Visit(g, vs[0], seen, post);
      VisitFinishes(g, rank, vs[0], seen, post);
      VisitTails(g, rank, root, vs[0], seen, post);
      StillBelow(rank, vs, seen, post, r.0, r.1);
      forall v | v in vs[1..]
        ensures HasSeenPred(g, r.0, v)
      {
        assert v in vs;
        var p :| p in seen && IsEdge(g, p, v);
        assert p in r.0;
      }
      VisitAllTails(g, rank, root, vs[1..], r.0, r.1);
    }
  }

  // ----- what the order guarantees -----

  /** Nothing enters the entry, and no other block is dead.  On an acyclic graph this says
      that every block can be reached from the entry. */
  ghost predicate NoDeadBlock(g: Code, entry: BlockId) {
    && (forall u :: !IsEdge(g, u, entry))
    && forall v {:trigger Entered(g, v)} | v in g && v != entry :: Entered(g, v)
  }

  ghost predicate Entered(g: Code, v: BlockId) {
    exists u :: IsEdge(g, u, v)
  }

  lemma {:induction false} AllVisited(g: Code, rank: Rank, entry: BlockId, seen: set<BlockId>, post: seq<BlockId>, v: BlockId)
    requires Ranks(g, rank) && NoDeadBlock(g, entry) && Finished(g, seen, post) && entry in post
    requires v in g
    ensures v in post
    decreases rank(v)
  {
    if v != entry {
      assert Entered(g, v);
      var u :| IsEdge(g, u, v);
      AllVisited(g, rank, entry, seen, post, u);
      var i :| 0 <= i < |post| && post[i] == u;
      assert v in post[..i];
    }
  }

  lemma ReverseOfFinished(g: Code, seen: set<BlockId>, post: seq<BlockId>)
    requires Finished(g, seen, post)
    ensures var order := Reverse(post);
            && Distinct(order)
            && (forall b :: b in order <==> b in post)
            && forall i, j | 0 <= i < |order| && 0 <= j < |order| && order[j] in Succs(g[order[i]]) :: i < j
  {
    var order := Reverse(post);
    forall b
      ensures b in order <==> b in post
    {
      if b in post {
        var i :| 0 <= i < |post| && post[i] == b;
        assert order[|post| - 1 - i] == b;
      }
      if b in order {
        var i :| 0 <= i < |order| && order[i] == b;
        assert post[|post| - 1 - i] == b;
      }
    }
    forall i, j | 0 <= i < |order| && 0 <= j < |order| && order[j] in Succs(g[order[i]])
      ensures i < j
    {
      var p, q := |post| - 1 - i, |post| - 1 - j;
      assert post[q] in post[..p];
      var k :| 0 <= k < p && post[k] == post[q];
    }
  }

  /** The order starts at the entry, lists every block once, and every edge goes forward. */
  lemma OrderIsTopological(g: Code, entry: BlockId)
    requires Closed(g) && entry in g && Acyclic(g) && NoDeadBlock(g, entry)
    ensures var order := Order(g, entry);
            && Distinct(order) && order != [] && order[0] == entry
            && (forall b :: b in order <==> b in g)
            && forall i, j | 0 <= i < |order| && 0 <= j < |order| && order[j] in Succs(g[order[i]]) :: i < j
  {
    var rank: Rank :| Ranks(g, rank);
    var r := Visit(g, entry, {}, []);
    VisitFinishes(g, rank, entry, {}, []);
    assert r.1 == VisitAll(g, Succs(g[entry]), {} + {entry}, []).1 + [entry];
    ReverseOfFinished(g, r.0, r.1);
    forall b | b in g
      ensures b in r.1
    {
      AllVisited(g, rank, entry, r.0, r.1, b);
    }
  }

  /** A block whose only way in is the last way out of `order[i]` comes right after it. */
  lemma TailChildFollows(g: Code, entry: BlockId, i: nat, v: BlockId)
    requires Closed(g) && entry in g && Acyclic(g) && NoDeadBlock(g, entry)
    requires i < |Order(g, entry)| && TailChild(g, Order(g, entry)[i], v)
    ensures i + 1 < |Order(g, entry)| && Order(g, entry)[i + 1] == v
  {
    var rank: Rank :| Ranks(g, rank);
    VisitTails(g, rank, entry, entry, {}, []);
    var post := Visit(g, entry, {}, []).1;
    var k := |post| - 1 - i;
    assert TailChild(g, post[k], v);
    assert post[k - 1] == v;
  }

  // ----- what comes right before a join -----

  /** Whatever a branch tries after `j` goes nowhere but to `j`. */
  ghost predicate JoinLast(g: Code, vs: seq<BlockId>, j: BlockId)
    requires forall v | v in vs :: v in g
  {
    forall a, b | 0 <= a < b < |vs| && vs[a] == j :: vs[b] == j || Succs(g[vs[b]]) == [j]
  }

  /** No branch tries `j` before a block that does anything but go to `j`. */
  ghost predicate TriedLast(g: Code, j: BlockId)
    requires Closed(g)
  {
    forall u | u in g :: JoinLast(g, Succs(g[u]), j)
  }

  /** What finishes right after `j` is a block that branches to `j`. */
  ghost predicate PredNext(g: Code, post: seq<BlockId>, j: BlockId) {
    forall k | 0 <= k < |post| - 1 && post[k] == j :: IsEdge(g, post[k + 1], j)
  }

  predicate EndsWith(post: seq<BlockId>, j: BlockId) {
    post != [] && post[|post| - 1] == j
  }

  /** If `j` has just finished, a visit of `w` finishes `w` next or nothing. */
  ghost predicate NextIsPred(g: Code, seen: set<BlockId>, post: seq<BlockId>, j: BlockId, w: BlockId) {
    w in g && (EndsWith(post, j) ==> j in seen && (w in seen || Succs(g[w]) == [j]))
  }

  lemma PredNextSnoc(g: Code, post: seq<BlockId>, j: BlockId, v: BlockId)
    requires PredNext(g, post, j) && (EndsWith(post, j) ==> IsEdge(g, v, j))
    ensures PredNext(g, post + [v], j)
  {
  }

  lemma {:induction false} VisitPredNext(g: Code, j: BlockId, v: BlockId, seen: set<BlockId>, post: seq<BlockId>)
    requires Closed(g) && v in g && seen <= g.Keys && TriedLast(g, j)
    requires PredNext(g, post, j) && NextIsPred(g, seen, post, j, v)
    ensures var r := Visit(g, v, seen, post);
            && PredNext(g, r.1, j)
            && (if v in seen then r == (seen, post) else EndsWith(r.1, v))
            && v in r.0
    decreases g.Keys - seen, 1, 0
  {
    hide TriedLast, PredNext;
    if v !in seen {
      var r := VisitAll(g, Succs(g[v]), seen + {v}, post);
      if EndsWith(post, j) {
        OnlyJoin(g, j, seen + {v}, post);
      } else {
        assert JoinLast(g, Succs(g[v]), j) by { TriedLastAt(g, j, v); }
        VisitAllPredNext(g, j, Succs(g[v]), seen + {v}, post);
      }
      PredNextSnoc(g, r.1, j, v);
    }
  }

  lemma TriedLastAt(g: Code, j: BlockId, v: BlockId)
    requires Closed(g) && TriedLast(g, j) && v in g
    ensures JoinLast(g, Succs(g[v]), j)
  {
  }

  lemma OnlyJoin(g: Code, j: BlockId, seen: set<BlockId>, post: seq<BlockId>)
    requires Closed(g) && seen <= g.Keys && j in seen
    ensures VisitAll(g, [j], seen, post) == (seen, post)
  {
    assert VisitAll(g, [j][1..], seen, post) == (seen, post);
  }

  lemma {:induction false} VisitAllPredNext(g: Code, j: BlockId, vs: seq<BlockId>, seen: set<BlockId>, post: seq<BlockId>)
    requires Closed(g) && (forall v | v in vs :: v in g) && seen <= g.Keys && TriedLast(g, j) && JoinLast(g, vs, j)
    requires PredNext(g, post, j) && forall w | w in vs :: NextIsPred(g, seen, post, j, w)
    ensures var r := VisitAll(g, vs, seen, post);
            PredNext(g, r.1, j) && (EndsWith(r.1, j) ==> EndsWith(post, j) || j in vs)
    decreases g.Keys - seen, 2, |vs|
  {
    hide TriedLast, PredNext;
    if vs != [] {
      var r := Visit(g, vs[0], seen, post);
      VisitPredNext(g, j, vs[0], seen, post);
      forall w | w in vs[1..]
        ensures NextIsPred(g, r.0, r.1, j, w)
      {
        var b :| 0 < b < |vs| && vs[b] == w;
        assert w in vs && NextIsPred(g, seen, post, j, w);
      }
      VisitAllPredNext(g, j, vs[1..], r.0, r.1);
    }
  }

  /** If no branch tries `j` before a block that does anything but go to `j`, then what comes right before
      `j` in the order is one of its predecessors. */
  lemma JoinFollowsPred(g: Code, entry: BlockId, k: nat)
    requires Closed(g) && entry in g && 0 < k < |Order(g, entry)|
    requires TriedLast(g, Order(g, entry)[k])
    ensures IsEdge(g, Order(g, entry)[k - 1], Order(g, entry)[k])
  {
    var j := Order(g, entry)[k];
    VisitPredNext(g, j, entry, {}, []);
    var post := Visit(g, entry, {}, []).1;
    assert post[|post| - 1 - k] == j;
    assert post[|post| - 1 - k + 1] == Order(g, entry)[k - 1];
  }

  // ----- the two sides of a branch -----

  /** The blocks of `side` are entered at `head`, from `u`, and nowhere else. */
  ghost predicate Side(g: Code, u: BlockId, head: BlockId, side: set<BlockId>) {
    && head in side && side <= g.Keys && u !in side
    && forall x, y | IsEdge(g, x, y) && y in side :: x in side || (x == u && y == head)
  }

  /** `u` branches to two separate sides. */
  ghost predicate TwoSides(g: Code, u: BlockId, t: BlockId, onTrue: set<BlockId>, e: BlockId, onFalse: set<BlockId>) {
    && u in g && Succs(g[u]) == [t, e]
    && Side(g, u, t, onTrue) && Side(g, u, e, onFalse) && onTrue !! onFalse
  }

  /** The true side finishes before any block of the false side does. */
  ghost predicate TrueFinishedFirst(post: seq<BlockId>, onTrue: set<BlockId>, onFalse: set<BlockId>) {
    exists k | 0 <= k <= |post| :: SplitAt(post, k, onTrue, onFalse)
  }

  ghost predicate SplitAt(post: seq<BlockId>, k: nat, onTrue: set<BlockId>, onFalse: set<BlockId>)
    requires k <= |post|
  {
    (forall x | x in onTrue :: x in post[..k]) && (forall x | x in onFalse :: x !in post[..k])
  }

  lemma SplitLasts(post: seq<BlockId>, post': seq<BlockId>, onTrue: set<BlockId>, onFalse: set<BlockId>)
    requires TrueFinishedFirst(post, onTrue, onFalse) && post <= post'
    ensures TrueFinishedFirst(post', onTrue, onFalse)
  {
    var k :| 0 <= k <= |post| && SplitAt(post, k, onTrue, onFalse);
    assert post'[..k] == post[..k];
    assert SplitAt(post', k, onTrue, onFalse);
  }

  /** No block of a side has been seen before the block it hangs off. */
  lemma {:induction false} SideUnseen(g: Code, rank: Rank, root: BlockId, u: BlockId, head: BlockId, side: set<BlockId>,
                                      seen: set<BlockId>, x: BlockId)
    requires Ranks(g, rank) && Side(g, u, head, side) && root !in side
    requires SeenHavePreds(g, root, seen) && u !in seen && x in side
    ensures x !in seen
    decreases rank(x)
  {
    if x in seen {
      assert HasSeenPred(g, seen, x);
      var p :| p in seen && IsEdge(g, p, x);
      SideUnseen(g, rank, root, u, head, side, seen, p);
    }
  }

  /** A visit that starts elsewhere after `u` was seen sees no block of the side. */
  lemma {:induction false} SideStaysUnseen(g: Code, rank: Rank, u: BlockId, head: BlockId, side: set<BlockId>,
                                           v: BlockId, seen: set<BlockId>, seen': set<BlockId>, x: BlockId)
    requires Ranks(g, rank) && Side(g, u, head, side) && v !in side && u in seen
    requires FreshHavePreds(g, [v], seen, seen') && x in side && x !in seen && x in seen'
    requires forall y | y in side :: y !in seen
    ensures false
    decreases rank(x)
  {
    var p :| p in seen' && p !in seen && IsEdge(g, p, x);
    SideStaysUnseen(g, rank, u, head, side, v, seen, seen', p);
  }

  /** When its head has finished, so has the whole side. */
  lemma {:induction false} SideFinished(g: Code, rank: Rank, entry: BlockId, u: BlockId, head: BlockId, side: set<BlockId>,
                                        seen: set<BlockId>, post: seq<BlockId>, x: BlockId)
    requires Ranks(g, rank) && NoDeadBlock(g, entry) && Side(g, u, head, side) && entry !in side
    requires Finished(g, seen, post) && head in post && x in side
    ensures x in post
    decreases rank(x)
  {
    if x != head {
      assert Entered(g, x);
      var p :| IsEdge(g, p, x);
      SideFinished(g, rank, entry, u, head, side, seen, post, p);
      var i :| 0 <= i < |post| && post[i] == p;
      assert x in post[..i];
    }
  }

  /** The branch itself: between its two visits the true side is finished and the false side unseen. */
  lemma SidesAtBranch(g: Code, rank: Rank, root: BlockId, u: BlockId, t: BlockId, onTrue: set<BlockId>, e: BlockId,
                      onFalse: set<BlockId>, seen: set<BlockId>, post: seq<BlockId>)
    requires Closed(g) && Ranks(g, rank) && NoDeadBlock(g, root) && TwoSides(g, u, t, onTrue, e, onFalse)
    requires root !in onTrue && root !in onFalse && u !in seen && seen <= g.Keys
    requires Finished(g, seen, post) && AncestorsBelow(rank, seen, post, u) && SeenHavePreds(g, root, seen)
    requires u == root || HasSeenPred(g, seen, u)
    ensures TrueFinishedFirst(VisitAll(g, [t, e], seen + {u}, post).1, onTrue, onFalse)
  {
    hide Visit, TwoSides, SeenHavePreds;
    SidesOf(g, u, t, onTrue, e, onFalse);
    var seen1 := seen + {u};
    OpenBlock(g, rank, root, u, seen, post);
    var r1 := Visit(g, t, seen1, post);
    VisitFinishes(g, rank, t, seen1, post);
    VisitFresh(g, t, seen1, post);
    forall x | x in onTrue
      ensures x in r1.1
    {
      SideFinished(g, rank, root, u, t, onTrue, r1.0, r1.1, x);
    }
    forall x | x in onFalse
      ensures x !in seen1
    {
      SideUnseen(g, rank, root, u, e, onFalse, seen, x);
    }
    forall x | x in onFalse
      ensures x !in r1.1
    {
      if x in r1.0 {
        SideStaysUnseen(g, rank, u, e, onFalse, t, seen1, r1.0, x);
      }
    }
    assert [t, e][1..] == [e] && [e][1..] == [];
    var r2 := Visit(g, e, r1.0, r1.1);
    StillBelow(rank, [t, e], seen1, post, r1.0, r1.1);
    VisitFinishes(g, rank, e, r1.0, r1.1);
    assert r1.1[..|r1.1|] == r1.1;
    assert SplitAt(r1.1, |r1.1|, onTrue, onFalse);
    SplitLasts(r1.1, r2.1, onTrue, onFalse);
    VisitAllTwo(g, t, e, seen1, post);
  }

  lemma SidesOf(g: Code, u: BlockId, t: BlockId, onTrue: set<BlockId>, e: BlockId, onFalse: set<BlockId>)
    requires TwoSides(g, u, t, onTrue, e, onFalse)
    ensures u in g && Succs(g[u]) == [t, e] && t in g && e in g
    ensures Side(g, u, t, onTrue) && Side(g, u, e, onFalse) && t in onTrue && e in onFalse && t !in onFalse
  {
  }

  lemma VisitAllTwo(g: Code, t: BlockId, e: BlockId, seen: set<BlockId>, post: seq<BlockId>)
    requires Closed(g) && t in g && e in g && seen <= g.Keys
    ensures var r := Visit(g, t, seen, post); VisitAll(g, [t, e], seen, post) == Visit(g, e, r.0, r.1)
  {
    var r := Visit(g, t, seen, post);
    assert [t, e][1..] == [e] && [e][1..] == [];
    var r2 := Visit(g, e, r.0, r.1);
    assert VisitAll(g, [e], r.0, r.1) == VisitAll(g, [e][1..], r2.0, r2.1);
  }

  lemma {:induction false} VisitSides(g: Code, rank: Rank, root: BlockId, u: BlockId, t: BlockId, onTrue: set<BlockId>,
                                      e: BlockId, onFalse: set<BlockId>, v: BlockId, seen: set<BlockId>, post: seq<BlockId>)
    requires Closed(g) && Ranks(g, rank) && NoDeadBlock(g, root) && TwoSides(g, u, t, onTrue, e, onFalse)
    requires root !in onTrue && root !in onFalse && v in g && seen <= g.Keys
    requires Finished(g, seen, post) && AncestorsBelow(rank, seen, post, v) && SeenHavePreds(g, root, seen)
    requires v == root || HasSeenPred(g, seen, v)
    requires u in post ==> TrueFinishedFirst(post, onTrue, onFalse)
    ensures var r := Visit(g, v, seen, post);
            SeenHavePreds(g, root, r.0) && (u in r.1 ==> TrueFinishedFirst(r.1, onTrue, onFalse))
    decreases g.Keys - seen, 1, 0
  {
    hide VisitAll, TwoSides, SeenHavePreds, TrueFinishedFirst, Finished, NoDeadBlock, Ranks;
    if v !in seen {
      var seen1 := seen + {v};
      var r := VisitAll(g, Succs(g[v]), seen1, post);
      OpenBlock(g, rank, root, v, seen, post);
      VisitAllSides(g, rank, root, u, t, onTrue, e, onFalse, Succs(g[v]), seen1, post);
      if v == u {
        SidesOf(g, u, t, onTrue, e, onFalse);
        SidesAtBranch(g, rank, root, u, t, onTrue, e, onFalse, seen, post);
      }
      if TrueFinishedFirst(r.1, onTrue, onFalse) {
        SplitLasts(r.1, r.1 + [v], onTrue, onFalse);
      }
    }
  }

  lemma {:induction false} VisitAllSides(g: Code, rank: Rank, root: BlockId, u: BlockId, t: BlockId, onTrue: set<BlockId>,
                                         e: BlockId, onFalse: set<BlockId>, vs: seq<BlockId>, seen: set<BlockId>,
                                         post: seq<BlockId>)
    requires Closed(g) && Ranks(g, rank) && NoDeadBlock(g, root) && TwoSides(g, u, t, onTrue, e, onFalse)
    requires root !in onTrue && root !in onFalse && (forall v | v in vs :: v in g) && seen <= g.Keys
    requires Finished(g, seen, post) && SeenHavePreds(g, root, seen)
    requires forall v | v in vs :: AncestorsBelow(rank, seen, post, v) && HasSeenPred(g, seen, v)
    requires u in post ==> TrueFinishedFirst(post, onTrue, onFalse)
    ensures var r := VisitAll(g, vs, seen, post);
            SeenHavePreds(g, root, r.0) && (u in r.1 ==> TrueFinishedFirst(r.1, onTrue, onFalse))
    decreases g.Keys - seen, 2, |vs|
  {
    hide TwoSides, SeenHavePreds, TrueFinishedFirst, Finished, NoDeadBlock, Ranks, AncestorsBelow;
    if vs != [] {
      var r := Visit(g, vs[0], seen, post);
      VisitFinishes(g, rank, vs[0], seen, post);
      VisitSides(g, rank, root, u, t, onTrue, e, onFalse, vs[0], seen, post);
      StillBelow(rank, vs, seen, post, r.0, r.1);
      forall v | v in vs[1..]
        ensures HasSeenPred(g, r.0, v)
      {
        assert v in vs;
        var p :| p in seen && IsEdge(g, p, v);
        assert p in r.0;
      }
      VisitAllSides(g, rank, root, u, t, onTrue, e, onFalse, vs[1..], r.0, r.1);
    }
  }

  lemma SplitInReverse(post: seq<BlockId>, onTrue: set<BlockId>, onFalse: set<BlockId>, i: nat, j: nat)
    requires TrueFinishedFirst(post, onTrue, onFalse) && Distinct(post)
    requires i < |post| && j < |post| && Reverse(post)[i] in onFalse && Reverse(post)[j] in onTrue
    ensures i < j
  {
    var k :| 0 <= k <= |post| && SplitAt(post, k, onTrue, onFalse);
    var p, q := |post| - 1 - i, |post| - 1 - j;
    assert post[q] in post[..k];
    var b :| 0 <= b < k && post[..k][b] == post[q];
    assert b == q;
    assert forall x | 0 <= x < k :: post[x] in post[..k];
  }

  /** In the order every block of the false side of a branch comes before every block of its true side. */
  lemma FalseSideFirst(g: Code, entry: BlockId, u: BlockId, t: BlockId, onTrue: set<BlockId>, e: BlockId,
                       onFalse: set<BlockId>, i: nat, j: nat)
    requires Closed(g) && entry in g && Acyclic(g) && NoDeadBlock(g, entry)
    requires TwoSides(g, u, t, onTrue, e, onFalse) && entry !in onTrue && entry !in onFalse
    requires i < |Order(g, entry)| && j < |Order(g, entry)|
    requires Order(g, entry)[i] in onFalse && Order(g, entry)[j] in onTrue
    ensures i < j
  {
    var rank: Rank :| Ranks(g, rank);
    VisitSides(g, rank, entry, u, t, onTrue, e, onFalse, entry, {}, []);
    VisitFinishes(g, rank, entry, {}, []);
    var r := Visit(g, entry, {}, []);
    hide TwoSides, Visit, TrueFinishedFirst;
    SidesOf(g, u, t, onTrue, e, onFalse);
    AllVisited(g, rank, entry, r.0, r.1, u);
    SplitInReverse(r.1, onTrue, onFalse, i, j);
  }
}
