/**
 Mask ids: the number each block is recognised by once control flow is linearized.

 A counter runs over the blocks in depth-first order.  A join takes a new number, each
 target of a two-way branch takes a new number, and the single successor of a straight
 block takes the counter as it stands, so different blocks can share an id.
 */
module PathAnalysis {
  import opened Common
  import opened IR
  import opened DepthFirst

  datatype Ids = Ids(counter: nat, of: map<BlockId, int>)

  /** `++counter` handed to `b`. */
  function Next(c: Ids, b: BlockId): Ids {
    Ids(c.counter + 1, c.of[b := c.counter + 1])
  }

  /** One iteration of the analysis, at block `b`. */
  function AssignAt(g: Code, layout: seq<BlockId>, c: Ids, b: BlockId): Ids
    requires b in g && forall x | x in layout :: x in g
  {
    var preds := PredCount(g, layout, b);
    var succs := Succs(g[b]);
    var c1 := if preds > 1 then Next(c, b) else c;
    if |succs| == 1 then
      if preds == 1 then c1.(of := c1.of[succs[0] := c1.counter])
      else if preds > 1 then Next(c1, succs[0])
      else c1
    else if |succs| == 2 then Next(Next(c1, succs[0]), succs[1])
    else c1
  }

  ghost predicate Scannable(g: Code, layout: seq<BlockId>, order: seq<BlockId>) {
    && (forall x | x in layout :: x in g)
    && (forall x | x in order :: x in g)
  }

  /** Counter and ids after the first `k` blocks of `order`. */
  ghost function After(g: Code, layout: seq<BlockId>, order: seq<BlockId>, k: nat): Ids
    requires Scannable(g, layout, order) && k <= |order|
  {
    if k == 0 then Ids(0, map[])
    else AssignAt(g, layout, After(g, layout, order, k - 1), order[k - 1])
  }

  /** The result of the analysis: no ids at all for functions of one or two blocks. */
  ghost function FinalIds(f: Function): Ids
    requires Shaped(f)
  {
    if |f.layout| <= 2 then Ids(0, map[])
    else
      OrderInside(f.code, f.layout[0]);
      After(f.code, f.layout, Order(f.code, f.layout[0]), |Order(f.code, f.layout[0])|)
  }

  /** Layout and code list the same blocks, and branches stay inside the function. */
  ghost predicate Shaped(f: Function) {
    && f.layout != [] && Distinct(f.layout)
    && (forall b :: b in f.layout <==> b in f.code)
    && Closed(f.code)
  }

  lemma {:induction false} VisitInside(g: Code, v: BlockId, seen: set<BlockId>, post: seq<BlockId>)
    requires Closed(g) && v in g && seen <= g.Keys && forall b | b in post :: b in g
    ensures forall b | b in Visit(g, v, seen, post).1 :: b in g
    decreases g.Keys - seen, 1, 0
  {
    if v !in seen {
      VisitAllInside(g, Succs(g[v]), seen + {v}, post);
    }
  }

  lemma {:induction false} VisitAllInside(g: Code, vs: seq<BlockId>, seen: set<BlockId>, post: seq<BlockId>)
    requires Closed(g) && (forall v | v in vs :: v in g) && seen <= g.Keys && forall b | b in post :: b in g
    ensures forall b | b in VisitAll(g, vs, seen, post).1 :: b in g
    decreases g.Keys - seen, 2, |vs|
  {
    if vs != [] {
      var r := Visit(g, vs[0], seen, post);
      VisitInside(g, vs[0], seen, post);
      VisitAllInside(g, vs[1..], r.0, r.1);
    }
  }

  lemma OrderInside(g: Code, entry: BlockId)
    requires Closed(g) && entry in g
    ensures forall b | b in Order(g, entry) :: b in g
  {
    VisitInside(g, entry, {}, []);
    var post := Visit(g, entry, {}, []).1;
    forall b | b in Order(g, entry)
      ensures b in g
    {
      var i :| 0 <= i < |post| && Reverse(post)[i] == b;
      assert post[|post| - 1 - i] in post;
    }
  }

  // ----- what one iteration does -----

  lemma StepBounds(g: Code, layout: seq<BlockId>, c: Ids, b: BlockId)
    requires b in g && forall x | x in layout :: x in g
    ensures AssignAt(g, layout, c, b).counter >= c.counter
    ensures PredCount(g, layout, b) > 1 ==> AssignAt(g, layout, c, b).counter > c.counter
  {
  }

  /** A step at `b` only touches the ids of `b`, when it is a join, and of its successors. */
  lemma StepKeeps(g: Code, layout: seq<BlockId>, c: Ids, b: BlockId, x: BlockId)
    requires b in g && forall y | y in layout :: y in g
    requires x !in Succs(g[b]) && (x != b || PredCount(g, layout, b) <= 1)
    ensures var c' := AssignAt(g, layout, c, b); x in c'.of <==> x in c.of
    ensures var c' := AssignAt(g, layout, c, b); x in c.of ==> c'.of[x] == c.of[x]
  {
  }

  lemma {:induction false} CounterGrows(g: Code, layout: seq<BlockId>, order: seq<BlockId>, i: nat, j: nat)
    requires Scannable(g, layout, order) && i <= j <= |order|
    ensures After(g, layout, order, i).counter <= After(g, layout, order, j).counter
    decreases j - i
  {
    if i < j {
      CounterGrows(g, layout, order, i, j - 1);
      StepBounds(g, layout, After(g, layout, order, j - 1), order[j - 1]);
    }
  }

  /** No step from `i` on touches `x`. */
  ghost predicate Settled(g: Code, layout: seq<BlockId>, order: seq<BlockId>, x: BlockId, i: nat)
    requires Scannable(g, layout, order)
  {
    forall k | i <= k < |order| ::
      x !in Succs(g[order[k]]) && (x != order[k] || PredCount(g, layout, order[k]) <= 1)
  }

  lemma {:induction false} SettledKeeps(g: Code, layout: seq<BlockId>, order: seq<BlockId>, x: BlockId, i: nat, j: nat)
    requires Scannable(g, layout, order) && i <= j <= |order|
    requires Settled(g, layout, order, x, i)
    ensures x in After(g, layout, order, j).of <==> x in After(g, layout, order, i).of
    ensures x in After(g, layout, order, i).of ==>
              After(g, layout, order, j).of[x] == After(g, layout, order, i).of[x]
    decreases j - i
  {
    hide AssignAt, PredCount, Occurrences;
    if i < j {
      SettledKeeps(g, layout, order, x, i, j - 1);
      StepKeeps(g, layout, After(g, layout, order, j - 1), order[j - 1], x);
    }
  }

  // ----- final ids -----

  /** The order lists each block once and every edge goes forward in it. */
  ghost predicate Topological(g: Code, order: seq<BlockId>) {
    && Distinct(order)
    && (forall b :: b in order <==> b in g)
    && forall i, j | 0 <= i < |order| && 0 <= j < |order| && order[j] in Succs(g[order[i]]) :: i < j
  }

  ghost predicate SameBlocks(g: Code, layout: seq<BlockId>) {
    forall b :: b in layout <==> b in g
  }

  lemma JoinStep(g: Code, layout: seq<BlockId>, c: Ids, v: BlockId)
    requires v in g && (forall y | y in layout :: y in g) && PredCount(g, layout, v) > 1 && v !in Succs(g[v])
    ensures var c' := AssignAt(g, layout, c, v); v in c'.of && c'.of[v] == c.counter + 1
  {
  }

  lemma JoinId(g: Code, layout: seq<BlockId>, order: seq<BlockId>, j: nat)
    requires Scannable(g, layout, order) && Topological(g, order) && j < |order|
    requires PredCount(g, layout, order[j]) > 1
    ensures var ids := After(g, layout, order, |order|).of;
            order[j] in ids && ids[order[j]] == After(g, layout, order, j).counter + 1
  {
    var v := order[j];
    assert Settled(g, layout, order, v, j + 1) && v !in Succs(g[v]);
    hide AssignAt, PredCount, Topological, Settled;
    JoinStep(g, layout, After(g, layout, order, j), v);
    SettledKeeps(g, layout, order, v, j + 1, |order|);
  }

  lemma ChildSettled(g: Code, layout: seq<BlockId>, order: seq<BlockId>, i: nat, v: BlockId)
    requires Scannable(g, layout, order) && Topological(g, order)
    requires i < |order| && OnlyEdge(g, order[i], v) && PredCount(g, layout, v) == 1
    ensures Settled(g, layout, order, v, i + 1)
  {
    forall k | i + 1 <= k < |order|
      ensures v !in Succs(g[order[k]])
    {
      if v in Succs(g[order[k]]) {
        assert IsEdge(g, order[k], v);
        assert false;
      }
    }
  }

  /** A block with one way in keeps the id of its predecessor's step. */
  lemma ChildId(g: Code, layout: seq<BlockId>, order: seq<BlockId>, i: nat, v: BlockId)
    requires Scannable(g, layout, order) && Topological(g, order)
    requires i < |order| && OnlyEdge(g, order[i], v) && PredCount(g, layout, v) == 1
    ensures var ids := After(g, layout, order, |order|).of;
            var step := After(g, layout, order, i + 1).of;
            && (v in ids <==> v in step)
            && (v in step ==> ids[v] == step[v])
  {
    ChildSettled(g, layout, order, i, v);
    SettledKeeps(g, layout, order, v, i + 1, |order|);
  }

  /** The step that gives `order[m]` its final id: its own for a join, else that of its predecessor. */
  lemma DecidingStep(g: Code, layout: seq<BlockId>, order: seq<BlockId>, m: nat) returns (s: nat)
    requires Scannable(g, layout, order) && Topological(g, order) && SameBlocks(g, layout)
    requires 0 < m < |order| && PredCount(g, layout, order[m]) >= 1
    requires order[m] in After(g, layout, order, |order|).of
    ensures s <= m
    ensures s < m ==> OnlyEdge(g, order[s], order[m]) && PredCount(g, layout, order[m]) == 1
    ensures var id := After(g, layout, order, |order|).of[order[m]];
            After(g, layout, order, s).counter <= id <= After(g, layout, order, s + 1).counter
  {
    if PredCount(g, layout, order[m]) > 1 {
      JoinId(g, layout, order, m);
      s := m;
      StepBounds(g, layout, After(g, layout, order, m), order[m]);
    } else {
      var u := SomePred(g, layout, order[m]);
      assert u in order;
      s :| 0 <= s < |order| && order[s] == u;
      CountOneIsOnlyEdge(g, layout, u, order[m]);
      ChildId(g, layout, order, s, order[m]);
      var c := After(g, layout, order, s);
      assert After(g, layout, order, s + 1) == AssignAt(g, layout, c, u);
      NotYet(g, layout, order, s, s, order[m]);
      ChildStep(g, layout, c, u, order[m]);
    }
  }

  /** Before the step of its only predecessor a block has no id. */
  lemma {:induction false} NotYet(g: Code, layout: seq<BlockId>, order: seq<BlockId>, s: nat, k: nat, v: BlockId)
    requires Scannable(g, layout, order) && Topological(g, order)
    requires k <= s < |order| && OnlyEdge(g, order[s], v) && PredCount(g, layout, v) <= 1
    ensures v !in After(g, layout, order, k).of
    decreases k
  {
    if k > 0 {
      NotYet(g, layout, order, s, k - 1, v);
      if v in Succs(g[order[k - 1]]) {
        assert IsEdge(g, order[k - 1], v);
      }
      StepKeeps(g, layout, After(g, layout, order, k - 1), order[k - 1], v);
    }
  }

  /** The number a block takes in the step of its only predecessor `u`. */
  lemma ChildStep(g: Code, layout: seq<BlockId>, c: Ids, u: BlockId, v: BlockId)
    requires u in g && (forall y | y in layout :: y in g)
    requires OnlyEdge(g, u, v) && u != v && v !in c.of
    ensures var c' := AssignAt(g, layout, c, u); v in c'.of ==> c.counter <= c'.of[v] <= c'.counter
    ensures var c' := AssignAt(g, layout, c, u);
            |Succs(g[u])| == 2 && Succs(g[u])[0] == v ==>
              && v in c'.of && c.counter < c'.of[v] == c'.counter - 1
              && Succs(g[u])[1] in c'.of && c'.of[Succs(g[u])[1]] == c'.counter
  {
    var succs := Succs(g[u]);
    if |succs| == 2 {
      assert Occurrences(succs, v) == (if succs[0] == v then 1 else 0) + Occurrences(succs[1..], v);
      assert Occurrences(succs[1..], v) == (if succs[1] == v then 1 else 0) + Occurrences(succs[1..][1..], v);
    }
  }

  // ----- main facts -----

  /** Single entry, no cycle, no dead block. */
  ghost predicate Dag(f: Function) {
    Shaped(f) && Acyclic(f.code) && NoDeadBlock(f.code, f.layout[0])
  }

  ghost function OrderOf(f: Function): (order: seq<BlockId>)
    requires Dag(f)
    ensures Scannable(f.code, f.layout, order) && Topological(f.code, order) && SameBlocks(f.code, f.layout)
    ensures order != [] && order[0] == f.layout[0]
  {
    OrderIsTopological(f.code, f.layout[0]);
    Order(f.code, f.layout[0])
  }

  /** The entry branches two ways and there is more than one target to tell apart. */
  predicate Divides(f: Function)
    requires f.layout != [] && f.layout[0] in f.code
  {
    |f.layout| > 2 && |Succs(f.code[f.layout[0]])| == 2
  }

  lemma {:induction false} IdsGrow(g: Code, layout: seq<BlockId>, order: seq<BlockId>, i: nat, j: nat, x: BlockId)
    requires Scannable(g, layout, order) && i <= j <= |order| && x in After(g, layout, order, i).of
    ensures x in After(g, layout, order, j).of
    decreases j - i
  {
    if i < j {
      IdsGrow(g, layout, order, i, j - 1, x);
    }
  }

  lemma StepGives(g: Code, layout: seq<BlockId>, c: Ids, u: BlockId, v: BlockId)
    requires u in g && (forall y | y in layout :: y in g)
    requires v in Succs(g[u]) && (|Succs(g[u])| == 2 || PredCount(g, layout, u) >= 1)
    ensures v in AssignAt(g, layout, c, u).of
  {
  }

  lemma HasPred(f: Function, v: BlockId) returns (i: nat)
    requires Dag(f) && v in f.code && v != f.layout[0]
    ensures i < |OrderOf(f)| && IsEdge(f.code, OrderOf(f)[i], v) && PredCount(f.code, f.layout, v) >= 1
  {
    assert Entered(f.code, v);
    var u :| IsEdge(f.code, u, v);
    assert u in OrderOf(f);
    i :| 0 <= i < |OrderOf(f)| && OrderOf(f)[i] == u;
    CountOneIsOnlyEdge(f.code, f.layout, u, v);
  }

  lemma HasId(f: Function, m: nat)
    requires Dag(f) && Divides(f) && 0 < m < |OrderOf(f)|
    ensures OrderOf(f)[m] in FinalIds(f).of && PredCount(f.code, f.layout, OrderOf(f)[m]) >= 1
  {
    var g, order := f.code, OrderOf(f);
    var v := order[m];
    var i := HasPred(f, v);
    var u := order[i];
    if u != f.layout[0] {
      var h := HasPred(f, u);
    }
    StepGives(g, f.layout, After(g, f.layout, order, i), u, v);
    IdsGrow(g, f.layout, order, i + 1, |order|, v);
  }

  /** The two targets of a branch take consecutive numbers, the first one for good if it has
      no other way in. */
  lemma BranchNumbers(g: Code, layout: seq<BlockId>, order: seq<BlockId>, i: nat, v: BlockId)
    requires Scannable(g, layout, order) && Topological(g, order)
    requires i < |order| && OnlyEdge(g, order[i], v) && PredCount(g, layout, v) == 1
    requires |Succs(g[order[i]])| == 2 && Succs(g[order[i]])[0] == v
    ensures v in After(g, layout, order, |order|).of
    ensures var id, next := After(g, layout, order, |order|).of[v], After(g, layout, order, i + 1);
            && After(g, layout, order, i).counter < id == next.counter - 1
            && Succs(g[order[i]])[1] in next.of && next.of[Succs(g[order[i]])[1]] == next.counter
  {
    assert order[i] != v;
    hide AssignAt, PredCount, Topological;
    ChildId(g, layout, order, i, v);
    NotYet(g, layout, order, i, i, v);
    ChildStep(g, layout, After(g, layout, order, i), order[i], v);
  }

  /** A block with one way in that is not the last way out of `order[i]` is the first of two:
      no other block takes the number it gets there. */
  lemma FirstChildIdIsUnique(g: Code, layout: seq<BlockId>, order: seq<BlockId>, i: nat, m: nat, v: BlockId)
    requires Scannable(g, layout, order) && Topological(g, order) && SameBlocks(g, layout)
    requires i < m < |order| && order[m] != v
    requires PredCount(g, layout, order[m]) >= 1 && order[m] in After(g, layout, order, |order|).of
    requires OnlyEdge(g, order[i], v) && PredCount(g, layout, v) == 1
    requires |Succs(g[order[i]])| == 2 && Succs(g[order[i]])[0] == v
    ensures var ids := After(g, layout, order, |order|).of; v in ids && ids[order[m]] != ids[v]
  {
    hide After, PredCount, Topological, SameBlocks, Occurrences;
    BranchNumbers(g, layout, order, i, v);
    var s := DecidingStep(g, layout, order, m);
    if s < i {
      CounterGrows(g, layout, order, s + 1, i);
    } else if s > i {
      CounterGrows(g, layout, order, i + 1, s);
    } else {
      ChildId(g, layout, order, i, order[m]);
    }
  }

  lemma IdAtMost(g: Code, layout: seq<BlockId>, order: seq<BlockId>, m: nat, k: nat)
    requires Scannable(g, layout, order) && Topological(g, order) && SameBlocks(g, layout)
    requires 0 < m < k <= |order|
    requires PredCount(g, layout, order[m]) >= 1 && order[m] in After(g, layout, order, |order|).of
    ensures After(g, layout, order, |order|).of[order[m]] <= After(g, layout, order, k).counter
  {
    hide AssignAt, PredCount, Occurrences, Topological;
    var s := DecidingStep(g, layout, order, m);
    CounterGrows(g, layout, order, s + 1, k);
  }

  /** A join takes a number larger than those of all blocks before it. */
  lemma JoinIdIsFresh(g: Code, layout: seq<BlockId>, order: seq<BlockId>, m: nat, j: nat)
    requires Scannable(g, layout, order) && Topological(g, order) && SameBlocks(g, layout)
    requires 0 < m < j < |order|
    requires PredCount(g, layout, order[m]) >= 1 && order[m] in After(g, layout, order, |order|).of
    requires PredCount(g, layout, order[j]) > 1
    ensures var ids := After(g, layout, order, |order|).of; order[j] in ids && ids[order[m]] < ids[order[j]]
  {
    IdAtMost(g, layout, order, m, j);
    JoinId(g, layout, order, j);
  }

  lemma NotTheTail(f: Function, i: nat, m: nat, j: nat)
    requires Dag(f) && i < m < j < |OrderOf(f)|
    requires OnlyEdge(f.code, OrderOf(f)[i], OrderOf(f)[j])
    ensures |Succs(f.code[OrderOf(f)[i]])| == 2 && Succs(f.code[OrderOf(f)[i]])[0] == OrderOf(f)[j]
  {
    if TailChild(f.code, OrderOf(f)[i], OrderOf(f)[j]) {
      TailChildFollows(f.code, f.layout[0], i, OrderOf(f)[j]);
      assert false;
    }
  }

  /** Shared ids never misfire: strictly between a block and any of its successors, no block
      of the order carries the id of that successor. */
  lemma IdsDoNotMisfire(f: Function, i: nat, m: nat, j: nat)
    requires Dag(f) && Divides(f)
    requires i < m < j < |OrderOf(f)| && OrderOf(f)[j] in Succs(f.code[OrderOf(f)[i]])
    ensures var order, ids := OrderOf(f), FinalIds(f).of;
            order[m] in ids && order[j] in ids && ids[order[m]] != ids[order[j]]
  {
    var g, layout, order := f.code, f.layout, OrderOf(f);
    HasId(f, m);
    HasId(f, j);
    assert FinalIds(f) == After(g, layout, order, |order|);
    assert IsEdge(g, order[i], order[j]);
    CountOneIsOnlyEdge(g, layout, order[i], order[j]);
    if PredCount(g, layout, order[j]) > 1 {
      JoinIdIsFresh(g, layout, order, m, j);
    } else {
      NotTheTail(f, i, m, j);
      FirstChildIdIsUnique(g, layout, order, i, m, order[j]);
    }
  }

  /** Every block but the entry gets an id exactly when the entry divides control. */
  lemma AllHaveIdsIff(f: Function)
    requires Dag(f) && |f.layout| > 1
    ensures (forall v | v in f.code && v != f.layout[0] :: v in FinalIds(f).of) <==> Divides(f)
  {
    var g, layout, order := f.code, f.layout, OrderOf(f);
    if Divides(f) {
      forall v | v in g && v != layout[0]
        ensures v in FinalIds(f).of
      {
        var m :| 0 <= m < |order| && order[m] == v;
        HasId(f, m);
      }
    } else if |layout| == 2 {
      assert layout[1] in g && layout[1] != layout[0];
    } else {
      var v := OnlyChildHasNoId(f);
    }
  }

  lemma StraightEntryStep(g: Code, layout: seq<BlockId>, c: Ids, u: BlockId)
    requires u in g && (forall y | y in layout :: y in g) && PredCount(g, layout, u) == 0 && |Succs(g[u])| <= 1
    ensures AssignAt(g, layout, c, u) == c
  {
  }

  /** The block after a straight entry has no other way in. */
  lemma SecondIsOnlyChild(f: Function)
    requires Dag(f) && |f.layout| > 2 && |Succs(f.code[f.layout[0]])| <= 1
    ensures |OrderOf(f)| > 1 && OrderOf(f)[1] != f.layout[0]
    ensures OnlyEdge(f.code, f.layout[0], OrderOf(f)[1])
  {
    var g, order := f.code, OrderOf(f);
    assert f.layout[1] in order;
    var v := order[1];
    assert Entered(g, v);
    var u :| IsEdge(g, u, v);
    forall w | IsEdge(g, w, v)
      ensures w == order[0]
    {
      assert w in order;
    }
    assert Succs(g[u]) == [v];
    assert Occurrences([v], v) == 1 + Occurrences([v][1..], v);
  }

  /** A straight entry hands no id to its successor, and nothing later does. */
  lemma OnlyChildHasNoId(f: Function) returns (v: BlockId)
    requires Dag(f) && |f.layout| > 2 && |Succs(f.code[f.layout[0]])| <= 1
    ensures v in f.code && v != f.layout[0] && v !in FinalIds(f).of
  {
    var g, layout, order := f.code, f.layout, OrderOf(f);
    SecondIsOnlyChild(f);
    v := order[1];
    assert v in order;
    hide AssignAt, Order, PredCount, Occurrences;
    OnlyEdgeCount(g, layout, layout[0], v);
    NoEdgeCount(g, layout, layout[0]);
    ChildId(g, layout, order, 0, v);
    assert After(g, layout, order, 0) == Ids(0, map[]);
    StraightEntryStep(g, layout, After(g, layout, order, 0), layout[0]);
    assert v !in After(g, layout, order, 1).of;
    assert FinalIds(f) == After(g, layout, order, |order|);
  }

  lemma {:induction false} NoEdgeCount(g: Code, bs: seq<BlockId>, v: BlockId)
    requires (forall b | b in bs :: b in g) && forall w | w in bs :: v !in Succs(g[w])
    ensures PredCount(g, bs, v) == 0
  {
    if bs != [] {
      OccursIffIn(Succs(g[bs[0]]), v);
      NoEdgeCount(g, bs[1..], v);
    }
  }

  lemma {:induction false} OnlyEdgeCount(g: Code, bs: seq<BlockId>, u: BlockId, v: BlockId)
    requires (forall b | b in bs :: b in g) && Distinct(bs) && u in bs && OnlyEdge(g, u, v)
    ensures PredCount(g, bs, v) == 1
  {
    if bs[0] == u {
      forall w | w in bs[1..]
        ensures v !in Succs(g[w])
      {
        assert !IsEdge(g, w, v);
      }
      NoEdgeCount(g, bs[1..], v);
    } else {
      assert !IsEdge(g, bs[0], v);
      OccursIffIn(Succs(g[bs[0]]), v);
      OnlyEdgeCount(g, bs[1..], u, v);
    }
  }

  lemma LastChildId(g: Code, layout: seq<BlockId>, order: seq<BlockId>, i: nat, u: BlockId)
    requires Scannable(g, layout, order) && Topological(g, order) && SameBlocks(g, layout) && Distinct(layout)
    requires i < |order| && OnlyEdge(g, order[i], u) && |Succs(g[order[i]])| == 2 && Succs(g[order[i]])[1] == u
    ensures var ids := After(g, layout, order, |order|).of;
            u in ids && ids[u] == After(g, layout, order, i + 1).counter
  {
    OnlyEdgeCount(g, layout, order[i], u);
    ChildId(g, layout, order, i, u);
    LastChildStep(g, layout, After(g, layout, order, i), order[i], u);
  }

  lemma StraightChildId(g: Code, layout: seq<BlockId>, order: seq<BlockId>, i: nat, v: BlockId)
    requires Scannable(g, layout, order) && Topological(g, order) && SameBlocks(g, layout) && Distinct(layout)
    requires i < |order| && OnlyEdge(g, order[i], v) && Succs(g[order[i]]) == [v]
    requires PredCount(g, layout, order[i]) == 1
    ensures var ids := After(g, layout, order, |order|).of;
            v in ids && ids[v] == After(g, layout, order, i).counter
  {
    OnlyEdgeCount(g, layout, order[i], v);
    ChildId(g, layout, order, i, v);
    StraightStep(g, layout, After(g, layout, order, i), order[i], v);
  }

  /** Ids do not identify blocks: below a two-way branch, a straight block that is its last
      way out always shares its id with a successor that has no other way in. */
  lemma StraightTailSharesId(f: Function, i: nat, u: BlockId, v: BlockId)
    requires Dag(f) && Divides(f) && i < |OrderOf(f)|
    requires TailChild(f.code, OrderOf(f)[i], u) && |Succs(f.code[OrderOf(f)[i]])| == 2
    requires u in f.code && Succs(f.code[u]) == [v] && OnlyEdge(f.code, u, v)
    ensures u != v && u in FinalIds(f).of && v in FinalIds(f).of && FinalIds(f).of[u] == FinalIds(f).of[v]
  {
    var g, layout, order := f.code, f.layout, OrderOf(f);
    TailChildFollows(g, layout[0], i, u);
    OnlyEdgeCount(g, layout, order[i], u);
    LastChildId(g, layout, order, i, u);
    StraightChildId(g, layout, order, i + 1, v);
    assert FinalIds(f) == After(g, layout, order, |order|);
  }

  lemma LastChildStep(g: Code, layout: seq<BlockId>, c: Ids, w: BlockId, u: BlockId)
    requires w in g && (forall y | y in layout :: y in g) && |Succs(g[w])| == 2 && Succs(g[w])[1] == u
    ensures var c' := AssignAt(g, layout, c, w); u in c'.of && c'.of[u] == c'.counter
  {
  }

  lemma StraightStep(g: Code, layout: seq<BlockId>, c: Ids, u: BlockId, v: BlockId)
    requires u in g && (forall y | y in layout :: y in g) && Succs(g[u]) == [v] && PredCount(g, layout, u) == 1
    ensures var c' := AssignAt(g, layout, c, u); v in c'.of && c'.of[v] == c.counter
  {
  }

  // ----- ids in closed form -----

  predicate IsJoin(g: Code, layout: seq<BlockId>, b: BlockId)
    requires forall x | x in layout :: x in g
  {
    PredCount(g, layout, b) > 1
  }

  /** How many new numbers are handed out at `b`: one to a join, one to the only target of a join, and one to
      either target of a branch. */
  function Takes(g: Code, layout: seq<BlockId>, b: BlockId): nat
    requires b in g && forall x | x in layout :: x in g
  {
    (if IsJoin(g, layout, b) then 1 else 0)
    + match |Succs(g[b])|
      case 0 => 0
      case 1 => if IsJoin(g, layout, b) then 1 else 0
      case _ => 2
  }

  /** Numbers handed out at the first `k` blocks of the order. */
  ghost function Taken(g: Code, layout: seq<BlockId>, order: seq<BlockId>, k: nat): nat
    requires Scannable(g, layout, order) && k <= |order|
  {
    if k == 0 then 0 else Taken(g, layout, order, k - 1) + Takes(g, layout, order[k - 1])
  }

  lemma StepTakes(g: Code, layout: seq<BlockId>, c: Ids, b: BlockId)
    requires b in g && forall x | x in layout :: x in g
    ensures AssignAt(g, layout, c, b).counter == c.counter + Takes(g, layout, b)
  {
  }

  lemma {:induction false} CounterIsTaken(g: Code, layout: seq<BlockId>, order: seq<BlockId>, k: nat)
    requires Scannable(g, layout, order) && k <= |order|
    ensures After(g, layout, order, k).counter == Taken(g, layout, order, k)
  {
    if k > 0 {
      CounterIsTaken(g, layout, order, k - 1);
      StepTakes(g, layout, After(g, layout, order, k - 1), order[k - 1]);
    }
  }

  /** What the step of `u` gives to a target that has no other way in and no id yet. */
  lemma TargetStep(g: Code, layout: seq<BlockId>, c: Ids, u: BlockId, v: BlockId)
    requires u in g && (forall y | y in layout :: y in g) && OnlyEdge(g, u, v) && u != v && v !in c.of
    ensures var c', succs := AssignAt(g, layout, c, u), Succs(g[u]);
            var first := c.counter + if IsJoin(g, layout, u) then 1 else 0;
            && (|succs| == 2 ==> v in c'.of && c'.of[v] == (if v == succs[0] then first + 1 else first + 2))
            && (|succs| == 1 ==>
                  if PredCount(g, layout, u) == 0 then v !in c'.of
                  else v in c'.of && c'.of[v] == (if IsJoin(g, layout, u) then first + 1 else first))
  {
    var succs := Succs(g[u]);
    if |succs| == 2 {
      assert Occurrences(succs, v) == (if succs[0] == v then 1 else 0) + Occurrences(succs[1..], v);
      assert Occurrences(succs[1..], v) == (if succs[1] == v then 1 else 0) + Occurrences(succs[1..][1..], v);
    }
  }

  /** Every id in closed form.  A join has the number after all handed out before it.  The targets of a branch
      have the next two numbers; the only target of a join has the next one; the only target of a straight
      block shares the last number handed out; and the only target of the entry has none. */
  lemma IdLaw(f: Function, i: nat, v: BlockId)
    requires Dag(f) && |f.layout| > 2 && i < |OrderOf(f)| && v in f.code
    ensures var g, layout, order, ids := f.code, f.layout, OrderOf(f), FinalIds(f).of;
            var u, before := order[i], Taken(g, layout, order, i);
            && (IsJoin(g, layout, u) ==> u in ids && ids[u] == before + 1)
            && (OnlyEdge(g, u, v) ==>
                  var own := if IsJoin(g, layout, u) then 1 else 0;
                  && (|Succs(g[u])| == 2 ==> v in ids && ids[v] == before + own + (if v == Succs(g[u])[0] then 1 else 2))
                  && (|Succs(g[u])| == 1 && i > 0 ==> v in ids && ids[v] == before + 2 * own)
                  && (|Succs(g[u])| == 1 && i == 0 ==> v !in ids))
  {
    var g, layout, order := f.code, f.layout, OrderOf(f);
    var u := order[i];
    CounterIsTaken(g, layout, order, i);
    if IsJoin(g, layout, u) {
      JoinId(g, layout, order, i);
    }
    if OnlyEdge(g, u, v) {
      OnlyEdgeCount(g, layout, u, v);
      ChildId(g, layout, order, i, v);
      NotYet(g, layout, order, i, i, v);
      NoSelfEdge(g, order, i, v);
      TargetStep(g, layout, After(g, layout, order, i), u, v);
      EntryOrEntered(f, i);
    }
  }

  lemma NoSelfEdge(g: Code, order: seq<BlockId>, i: nat, v: BlockId)
    requires Topological(g, order) && i < |order| && IsEdge(g, order[i], v)
    ensures order[i] != v
  {
  }

  lemma EntryOrEntered(f: Function, i: nat)
    requires Dag(f) && i < |OrderOf(f)|
    ensures PredCount(f.code, f.layout, OrderOf(f)[i]) == 0 <==> i == 0
  {
    if i == 0 {
      NoEdgeCount(f.code, f.layout, f.layout[0]);
    } else {
      var k := HasPred(f, OrderOf(f)[i]);
    }
  }

  /** The analysis object: it computes its result when it is built. */
  class PacketPathAnalysis {
    const f: Function
    var maskIdCounter: nat
    var blockToMaskId: map<BlockId, int>

    constructor (f: Function)
      requires Shaped(f)
      ensures this.f == f && Ids(maskIdCounter, blockToMaskId) == FinalIds(f)
    {
      this.f := f;
      maskIdCounter := 0;
      blockToMaskId := map[];
      new;
      Calculate();
    }

    method Calculate()
      requires Shaped(f) && maskIdCounter == 0 && blockToMaskId == map[]
      modifies this
      ensures Ids(maskIdCounter, blockToMaskId) == FinalIds(f)
    {
      if |f.layout| <= 2 {
        return;
      }
      var order := Order(f.code, f.layout[0]);
      OrderInside(f.code, f.layout[0]);
      for k := 0 to |order|
        invariant Ids(maskIdCounter, blockToMaskId) == After(f.code, f.layout, order, k)
      {
        Number(order[k]);
      }
    }

    method Number(b: BlockId)
      requires Shaped(f) && b in f.code
      modifies this
      ensures Ids(maskIdCounter, blockToMaskId)
           == AssignAt(f.code, f.layout, old(Ids(maskIdCounter, blockToMaskId)), b)
    {
      var predSize := PredCount(f.code, f.layout, b);
      var succs := Succs(f.code[b]);
      if predSize > 1 {
        maskIdCounter := maskIdCounter + 1;
        blockToMaskId := blockToMaskId[b := maskIdCounter];
      }
      if |succs| == 1 {
        if predSize == 1 {
          blockToMaskId := blockToMaskId[succs[0] := maskIdCounter];
        } else if predSize > 1 {
          maskIdCounter := maskIdCounter + 1;
          blockToMaskId := blockToMaskId[succs[0] := maskIdCounter];
        }
      }
      if |succs| > 1 {
        maskIdCounter := maskIdCounter + 1;
        blockToMaskId := blockToMaskId[succs[0] := maskIdCounter];
        maskIdCounter := maskIdCounter + 1;
        blockToMaskId := blockToMaskId[succs[1] := maskIdCounter];
      }
    }
  }
}
