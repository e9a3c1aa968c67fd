/**
 The linearization pass as it runs: it rewrites a function in place, one step after the
 other, and ends with the chain of `LinearForm`.
 */
module BlockPredication {
  import opened Common
  import opened IR
  import opened DepthFirst
  import opened PathAnalysis
  import opened ExitUnification
  import opened LinearForm
  import opened Preservation

  // ----- when the id lookups of the pass succeed -----

  /** Every branch target of the function with unified exits has an id.  The ids are those
      computed before exits were unified. */
  ghost predicate LookupsSucceed(f: Function)
    requires Shaped(f)
  {
    forall u, v | IsEdge(Unified(f).code, u, v) :: v in FinalIds(f).of
  }

  lemma {:induction false} IdsInside(g: Code, layout: seq<BlockId>, order: seq<BlockId>, k: nat)
    requires Scannable(g, layout, order) && Closed(g) && k <= |order|
    ensures forall b | b in After(g, layout, order, k).of :: b in g
  {
    if k > 0 {
      IdsInside(g, layout, order, k - 1);
    }
  }

  lemma FinalIdsInside(f: Function, b: BlockId)
    requires Dag(f) && b !in f.code
    ensures b !in FinalIds(f).of
  {
    if |f.layout| > 2 {
      IdsInside(f.code, f.layout, OrderOf(f), |OrderOf(f)|);
    }
  }

  /** Looking up branch targets succeeds exactly when the entry branches two ways in a function
      of more than two blocks with at most one return and one unreachable block. */
  lemma LookupsSucceedIff(f: Function)
    requires Dag(f) && |f.layout| > 1
    requires UnifiedReturn !in f.code && UnifiedUnreachable !in f.code
    ensures LookupsSucceed(f) <==>
            Divides(f) && |Returns(f.code, f.layout)| <= 1 && |Unreachables(f.code, f.layout)| <= 1
  {
    var us := Unreachables(f.code, f.layout);
    var u := UnifyUnreachables(f);
    UnreachableUnifiedFacts(f);
    UnifyUnreachablesMerges(f);
    var rets := Returns(u.code, u.layout);
    if |us| > 1 {
      UnreachableLookupFails(f);
    } else if |rets| > 1 {
      ReturnLookupFails(f);
    } else {
      assert Unified(f) == f;
      OneExitLookups(f);
    }
  }

  lemma OneExitLookups(f: Function)
    requires Dag(f) && |f.layout| > 1
    ensures (forall u, v | IsEdge(f.code, u, v) :: v in FinalIds(f).of) <==> Divides(f)
  {
    AllHaveIdsIff(f);
    if forall u, v | IsEdge(f.code, u, v) :: v in FinalIds(f).of {
      forall v | v in f.code && v != f.layout[0]
        ensures v in FinalIds(f).of
      {
        assert Entered(f.code, v);
      }
    }
  }

  lemma DagIsShaped(f: Function)
    requires Dag(f)
    ensures Shaped(f)
  {
  }

  lemma ReturnLookupFails(f: Function)
    requires Dag(f) && UnifiedReturn !in f.code && UnifiedUnreachable !in f.code
    requires |Returns(f.code, f.layout)| > 1 && |Unreachables(f.code, f.layout)| <= 1
    ensures !LookupsSucceed(f)
  {
    hide Dag, Shaped, Redirect, FinalIds;
    var rets := Returns(f.code, f.layout);
    InReturns(f.code, f.layout);
    DagIsShaped(f);
    MergeFacts(f, rets, UnifiedReturn, ReturnBlock(f.code, rets));
    assert rets[0] in rets;
    assert IsEdge(Unified(f).code, rets[0], UnifiedReturn);
    FinalIdsInside(f, UnifiedReturn);
  }

  lemma UnreachableLookupFails(f: Function)
    requires Dag(f) && UnifiedReturn !in f.code && UnifiedUnreachable !in f.code
    requires |Unreachables(f.code, f.layout)| > 1
    ensures !LookupsSucceed(f)
  {
    var us := Unreachables(f.code, f.layout);
    InUnreachables(f.code, f.layout);
    MergeFacts(f, us, UnifiedUnreachable, UNREACHABLE_BLOCK);
    UnreachableUnifiedFacts(f);
    UnifyReturnsMerges(UnifyUnreachables(f));
    assert us[0] in us;
    var u := UnifyUnreachables(f);
    InReturns(u.code, u.layout);
    assert u.code[us[0]].term == Br(UnifiedUnreachable);
    assert Unified(f).code[us[0]] == u.code[us[0]] by {
      assert us[0] !in Returns(u.code, u.layout);
    }
    assert IsEdge(Unified(f).code, us[0], UnifiedUnreachable);
    FinalIdsInside(f, UnifiedUnreachable);
  }

  // ----- the steps of the pass, as functions -----

  const EMPTY_BLOCK := Block([], KEEP_MEMORY, NoStore, Unreachable)

  function Names(n: nat): (r: seq<BlockId>)
    ensures |r| == n && forall i | 0 <= i < n :: r[i] == Predicate(i)
  {
    seq(n, (i: nat) => Predicate(i))
  }

  function WithStores(g: Code, ids: map<BlockId, int>): Code {
    map b | b in g :: WithStore(g[b], ids)
  }

  function WithPredicates(g: Code, n: nat): Code {
    if n == 0 then g else WithPredicates(g, n - 1)[Predicate(n - 1) := EMPTY_BLOCK]
  }

  lemma {:induction false} PredicatesAt(g: Code, n: nat, b: BlockId)
    ensures var h := WithPredicates(g, n);
            && (b in h <==> b in g || (b.Predicate? && 0 <= b.i < n))
            && (b in h ==> h[b] == if b.Predicate? && 0 <= b.i < n then EMPTY_BLOCK else g[b])
  {
    if n > 0 {
      PredicatesAt(g, n - 1, b);
    }
  }

  /** The entry and the first `k` actions fall through to the predicate after them. */
  function Jump(entry: BlockId, acts: seq<BlockId>, k: nat, name: BlockId, b: Block): Block {
    if name == entry then b.(term := Br(Predicate(0)))
    else if 0 <= IndexIn(acts, name) < k then b.(term := Br(Predicate(IndexIn(acts, name) + 1)))
    else b
  }

  function WithJumps(g: Code, entry: BlockId, acts: seq<BlockId>, k: nat): Code {
    map b | b in g :: Jump(entry, acts, k, b, g[b])
  }

  /** The first `k` predicates test for their action. */
  function Test(acts: seq<BlockId>, ids: map<BlockId, int>, k: nat, name: BlockId, b: Block): Block
    requires k <= |acts|
  {
    if name.Predicate? && 0 <= name.i < k
    then b.(term := MaskBr(IdOf(ids, acts[name.i]), acts[name.i], Predicate(name.i + 1)))
    else b
  }

  function WithTests(g: Code, acts: seq<BlockId>, ids: map<BlockId, int>, k: nat): Code
    requires k <= |acts|
  {
    map b | b in g :: Test(acts, ids, k, b, g[b])
  }

  /** The phis of the first `k` actions sit in their predicates. */
  function MovePhi(g: Code, acts: seq<BlockId>, k: nat, name: BlockId): Block
    requires k <= |acts| && (forall a | a in acts :: a in g) && name in g
  {
    if name.Predicate? && 0 <= name.i < k then
      assert acts[name.i] in acts;
      g[name].(phi := PredicatePhi(g[acts[name.i]].phi, acts, name.i))
    else if 0 <= IndexIn(acts, name) < k then g[name].(phi := ActionPhi(g[name].phi, IndexIn(acts, name)))
    else g[name]
  }

  function WithPhis(g: Code, acts: seq<BlockId>, k: nat): Code
    requires k <= |acts| && forall a | a in acts :: a in g
  {
    map b | b in g :: MovePhi(g, acts, k, b)
  }

  /** Terminators done: actions and predicates are chained, phis are where they were. */
  function WithTerminators(g: Code, entry: BlockId, acts: seq<BlockId>, ids: map<BlockId, int>): Code
    requires acts != []
  {
    var n := |acts|;
    WithTests(WithJumps(WithPredicates(WithStores(g, ids), n), entry, acts, n - 1), acts, ids, n - 1)
      [Predicate(n - 1) := Block([], KEEP_MEMORY, NoStore, Br(acts[n - 1]))]
  }

  function AllSteps(g: Code, entry: BlockId, acts: seq<BlockId>, ids: map<BlockId, int>): Code
    requires acts != [] && forall a | a in acts :: a in g
  {
    ActionsStay(g, entry, acts, ids);
    WithPhis(WithTerminators(g, entry, acts, ids), acts, |acts|)
  }

  lemma ActionsStay(g: Code, entry: BlockId, acts: seq<BlockId>, ids: map<BlockId, int>)
    requires acts != [] && forall a | a in acts :: a in g
    ensures forall a | a in acts :: a in WithTerminators(g, entry, acts, ids)
  {
    forall a | a in acts
      ensures a in WithTerminators(g, entry, acts, ids)
    {
      TerminatorsKeys(g, entry, acts, ids, a);
    }
  }

  lemma TerminatorsKeys(g: Code, entry: BlockId, acts: seq<BlockId>, ids: map<BlockId, int>, b: BlockId)
    requires acts != []
    ensures b in WithTerminators(g, entry, acts, ids) <==> b in g || (b.Predicate? && 0 <= b.i < |acts|)
  {
    hide Jump, Test, WithStore;
    PredicatesAt(WithStores(g, ids), |acts|, b);
  }

  /** Blocks of the program store ids and jump to the next predicate. */
  lemma TerminatorsOfProgram(g: Code, entry: BlockId, acts: seq<BlockId>, ids: map<BlockId, int>, b: BlockId)
    requires acts != [] && b in g && b.Orig?
    ensures b in WithTerminators(g, entry, acts, ids)
    ensures WithTerminators(g, entry, acts, ids)[b] == Jump(entry, acts, |acts| - 1, b, WithStore(g[b], ids))
  {
    TerminatorsKeys(g, entry, acts, ids, b);
    hide Jump, WithStore;
    PredicatesAt(WithStores(g, ids), |acts|, b);
  }

  /** Predicates test for their action, the last one just runs it. */
  lemma TerminatorsOfPredicate(g: Code, entry: BlockId, acts: seq<BlockId>, ids: map<BlockId, int>, i: nat)
    requires i < |acts| && acts[i] in g && Predicate(i) !in g && !entry.Predicate? && Predicate(i) !in acts
    ensures Predicate(i) in WithTerminators(g, entry, acts, ids)
    ensures WithTerminators(g, entry, acts, ids)[Predicate(i)] == PredicateBlock(g, acts, ids, i).(phi := [])
  {
    TerminatorsKeys(g, entry, acts, ids, Predicate(i));
    hide WithStore, PredicatePhi;
    PredicatesAt(WithStores(g, ids), |acts|, Predicate(i));
  }

  lemma TerminatorsAt(g: Code, entry: BlockId, acts: seq<BlockId>, ids: map<BlockId, int>, b: BlockId)
    requires ProgramCode(g) && ChainBlocks(g, entry, acts)
    ensures var h := WithTerminators(g, entry, acts, ids);
            && (b in h <==> b in g || (b.Predicate? && 0 <= b.i < |acts|))
            && (b in g ==> h[b] == Jump(entry, acts, |acts| - 1, b, WithStore(g[b], ids)))
            && (b in h && b !in g ==> h[b] == PredicateBlock(g, acts, ids, b.i).(phi := []))
  {
    hide WithTerminators, Jump, WithStore, PredicateBlock;
    TerminatorsKeys(g, entry, acts, ids, b);
    if b in g {
      TerminatorsOfProgram(g, entry, acts, ids, b);
    } else if b.Predicate? && 0 <= b.i < |acts| {
      assert acts[b.i] in acts && entry in g;
      TerminatorsOfPredicate(g, entry, acts, ids, b.i);
    }
  }

  /** Together the steps build the chain, block by block. */
  lemma StepsBuildBlock(g: Code, entry: BlockId, acts: seq<BlockId>, ids: map<BlockId, int>, b: BlockId)
    requires ProgramCode(g) && ChainBlocks(g, entry, acts)
    requires b in g || (b.Predicate? && 0 <= b.i < |acts|)
    ensures b in AllSteps(g, entry, acts, ids)
    ensures AllSteps(g, entry, acts, ids)[b] == LinearBlock(g, entry, acts, ids, b)
  {
    hide WithTerminators;
    TerminatorsAt(g, entry, acts, ids, b);
    if b !in g {
      assert acts[b.i] in acts;
      TerminatorsAt(g, entry, acts, ids, acts[b.i]);
    } else if b in acts {
      assert b.Orig?;
    }
  }

  lemma StepsKeys(g: Code, entry: BlockId, acts: seq<BlockId>, ids: map<BlockId, int>, b: BlockId)
    requires ProgramCode(g) && ChainBlocks(g, entry, acts)
    ensures b in AllSteps(g, entry, acts, ids) <==> b in LinearCode(g, entry, acts, ids)
    ensures b in LinearCode(g, entry, acts, ids) ==>
              && (b in g || (b.Predicate? && 0 <= b.i < |acts|))
              && LinearCode(g, entry, acts, ids)[b] == LinearBlock(g, entry, acts, ids, b)
  {
    hide WithTerminators, LinearBlock, MovePhi;
    TerminatorsKeys(g, entry, acts, ids, b);
  }

  lemma StepsBuildChain(g: Code, entry: BlockId, acts: seq<BlockId>, ids: map<BlockId, int>)
    requires ProgramCode(g) && ChainBlocks(g, entry, acts)
    ensures AllSteps(g, entry, acts, ids) == LinearCode(g, entry, acts, ids)
  {
    hide ProgramCode, LinearCode, AllSteps, LinearBlock;
    var l := LinearCode(g, entry, acts, ids);
    var h := AllSteps(g, entry, acts, ids);
    forall b
      ensures b in h <==> b in l
      ensures b in l ==> h[b] == l[b]
    {
      StepsKeys(g, entry, acts, ids, b);
      if b in l {
        StepsBuildBlock(g, entry, acts, ids, b);
      }
    }
  }

  /** What the jumps find: the entry and every action but the last still branch. */
  lemma BeforeJumps(g: Code, entry: BlockId, acts: seq<BlockId>, ids: map<BlockId, int>)
    requires acts != [] && Ready(g, entry, acts, ids)
    ensures var h := WithPredicates(WithStores(g, ids), |acts|);
            Branches(h, entry) && forall i | 0 <= i < |acts| - 1 :: Branches(h, acts[i])
  {
    hide WithPredicates;
    PredicatesAt(WithStores(g, ids), |acts|, entry);
    forall i | 0 <= i < |acts| - 1
      ensures Branches(WithPredicates(WithStores(g, ids), |acts|), acts[i])
    {
      PredicatesAt(WithStores(g, ids), |acts|, acts[i]);
    }
  }

  /** What the tests find: predicates are still empty. */
  lemma BeforeTests(g: Code, entry: BlockId, acts: seq<BlockId>, ids: map<BlockId, int>, k: nat)
    requires acts != [] && Ready(g, entry, acts, ids)
    ensures var h := WithJumps(WithPredicates(WithStores(g, ids), |acts|), entry, acts, k);
            forall i | 0 <= i < |acts| :: Predicate(i) in h && h[Predicate(i)] == EMPTY_BLOCK
  {
    hide WithPredicates, WithStores;
    forall i | 0 <= i < |acts|
      ensures var h := WithJumps(WithPredicates(WithStores(g, ids), |acts|), entry, acts, k);
              Predicate(i) in h && h[Predicate(i)] == EMPTY_BLOCK
    {
      PredicatesAt(WithStores(g, ids), |acts|, Predicate(i));
      assert Predicate(i) !in acts && entry in g;
    }
  }

  lemma FirstJump(g: Code, entry: BlockId, acts: seq<BlockId>)
    requires entry in g
    ensures WithJumps(g, entry, acts, 0) == g[entry := g[entry].(term := Br(Predicate(0)))]
  {
    hide IndexIn;
  }

  lemma NextJump(g: Code, entry: BlockId, acts: seq<BlockId>, i: nat)
    requires Distinct(acts) && entry !in acts && i < |acts| && acts[i] in g
    ensures var h := WithJumps(g, entry, acts, i);
            acts[i] in h && WithJumps(g, entry, acts, i + 1) == h[acts[i] := h[acts[i]].(term := Br(Predicate(i + 1)))]
  {
    assert acts[i] in acts;
    IndexOfDistinct(acts, i);
    hide IndexIn;
    forall x | x in g && x != acts[i]
      ensures Jump(entry, acts, i + 1, x, g[x]) == Jump(entry, acts, i, x, g[x])
    {
      assert IndexIn(acts, x) != i;
    }
  }

  /** Ids are stored in the blocks `bs` so far. */
  ghost predicate StoredIn(g: Code, h: Code, ids: map<BlockId, int>, bs: seq<BlockId>) {
    h.Keys == g.Keys && forall b | b in g :: h[b] == if b in bs then WithStore(g[b], ids) else g[b]
  }

  lemma StoreOne(g: Code, h: Code, ids: map<BlockId, int>, bs: seq<BlockId>, b: BlockId)
    requires StoredIn(g, h, ids, bs) && b in g && WithStore(h[b], ids) == WithStore(g[b], ids)
    ensures StoredIn(g, h[b := WithStore(h[b], ids)], ids, bs + [b])
    ensures WithStore(h[b], ids) == h[b] ==> StoredIn(g, h, ids, bs + [b])
  {
  }

  lemma NothingStored(g: Code, ids: map<BlockId, int>)
    ensures StoredIn(g, g, ids, [])
  {
  }

  lemma AllStored(g: Code, h: Code, ids: map<BlockId, int>, bs: seq<BlockId>)
    requires StoredIn(g, h, ids, bs) && forall b | b in g :: b in bs
    ensures h == WithStores(g, ids)
  {
  }

  /** What the next step of storing ids meets: the block still branches where it did, and
      blocks that do not branch need no store. */
  lemma StoreAhead(g: Code, h: Code, ids: map<BlockId, int>, bs: seq<BlockId>, b: BlockId)
    requires StoredIn(g, h, ids, bs) && b in g && TargetsIn(g, ids)
    ensures b in h && forall v | v in Succs(h[b]) :: v in ids
    ensures h[b].term == g[b].term
    ensures StoredIn(g, h[b := WithStore(h[b], ids)], ids, bs + [b])
    ensures !h[b].term.Br? && !h[b].term.CondBr? ==> StoredIn(g, h, ids, bs + [b])
  {
    StoredTwice(g[b], ids);
    StoredTwice(h[b], ids);
    assert forall v | v in Succs(g[b]) :: IsEdge(g, b, v);
    StoreOne(g, h, ids, bs, b);
  }

  lemma StoredTwice(b: Block, ids: map<BlockId, int>)
    ensures WithStore(WithStore(b, ids), ids) == WithStore(b, ids) && Succs(WithStore(b, ids)) == Succs(b)
    ensures !b.term.Br? && !b.term.CondBr? ==> WithStore(b, ids) == b
  {
  }

  // ----- layout -----

  function InsertBefore(s: seq<BlockId>, b: BlockId, x: BlockId): seq<BlockId> {
    if s == [] then [x]
    else if s[0] == b then [x] + s
    else [s[0]] + InsertBefore(s[1..], b, x)
  }

  /** The first `n` predicates stand in the layout. */
  function WithNames(layout: seq<BlockId>, acts: seq<BlockId>, n: nat): seq<BlockId>
    requires n <= |acts|
  {
    if n == 0 then layout else InsertBefore(WithNames(layout, acts, n - 1), acts[n - 1], Predicate(n - 1))
  }

  /** `x` stands immediately before `b`. */
  ghost predicate Precedes(s: seq<BlockId>, x: BlockId, b: BlockId) {
    exists k :: 0 < k < |s| && s[k] == b && s[k - 1] == x
  }

  lemma {:induction false} InsertedPrecedes(s: seq<BlockId>, b: BlockId, x: BlockId)
    requires b in s
    ensures Precedes(InsertBefore(s, b, x), x, b)
  {
    var t := InsertBefore(s, b, x);
    if s[0] == b {
      assert t[1] == b && t[0] == x;
    } else {
      InsertedPrecedes(s[1..], b, x);
      var k :| 0 < k < |t[1..]| && t[1..][k] == b && t[1..][k - 1] == x;
      assert t[k + 1] == b && t[k] == x;
    }
  }

  lemma {:induction false} InsertKeepsPairs(s: seq<BlockId>, b: BlockId, x: BlockId, y: BlockId, c: BlockId)
    requires Precedes(s, y, c) && c != b
    ensures Precedes(InsertBefore(s, b, x), y, c)
  {
    var t := InsertBefore(s, b, x);
    var k :| 0 < k < |s| && s[k] == c && s[k - 1] == y;
    if s[0] == b {
      assert t[k + 1] == c && t[k] == y;
    } else if k == 1 {
      assert t[1] == c by { FirstKept(s[1..], b, x); }
      assert t[0] == y;
    } else {
      assert s[1..][k - 1] == c && s[1..][k - 2] == y;
      InsertKeepsPairs(s[1..], b, x, y, c);
      var j :| 0 < j < |t[1..]| && t[1..][j] == c && t[1..][j - 1] == y;
      assert t[j + 1] == c && t[j] == y;
    }
  }

  lemma FirstKept(s: seq<BlockId>, b: BlockId, x: BlockId)
    requires s != [] && s[0] != b
    ensures InsertBefore(s, b, x) != [] && InsertBefore(s, b, x)[0] == s[0]
  {
  }

  lemma {:induction false} InsertKeepsBlocks(s: seq<BlockId>, b: BlockId, x: BlockId, c: BlockId)
    requires c in s
    ensures c in InsertBefore(s, b, x)
  {
    if s[0] != b && c != s[0] {
      InsertKeepsBlocks(s[1..], b, x, c);
    }
  }

  lemma {:induction false} ProgramCons(x: BlockId, s: seq<BlockId>)
    ensures Program([x] + s) == (if x.Orig? then [x] else []) + Program(s)
    decreases |s|
  {
    if s == [] {
      assert [x] + s == [x] && [x][..0] == [];
    } else {
      var init, last := s[..|s| - 1], s[|s| - 1];
      assert ([x] + s)[..|s|] == [x] + init;
      ProgramCons(x, init);
    }
  }

  lemma {:induction false} InsertKeepsProgram(s: seq<BlockId>, b: BlockId, x: BlockId)
    requires !x.Orig?
    ensures Program(InsertBefore(s, b, x)) == Program(s)
  {
    if s == [] {
      ProgramCons(x, []);
      assert [x] + [] == [x];
    } else if s[0] == b {
      ProgramCons(x, s);
    } else {
      ProgramCons(s[0], InsertBefore(s[1..], b, x));
      ProgramCons(s[0], s[1..]);
      assert s == [s[0]] + s[1..];
      InsertKeepsProgram(s[1..], b, x);
    }
  }

  /** Every predicate stands immediately before its action, and the program's blocks keep their order. */
  lemma {:induction false} PredicatesLaidOut(layout: seq<BlockId>, acts: seq<BlockId>, n: nat)
    requires n <= |acts| && Distinct(acts) && forall a | a in acts :: a in layout
    ensures var t := WithNames(layout, acts, n);
            && (forall i | 0 <= i < n :: Precedes(t, Predicate(i), acts[i]))
            && Program(t) == Program(layout)
            && forall a | a in acts :: a in t
  {
    hide InsertBefore, Precedes, Program;
    if n > 0 {
      var t := WithNames(layout, acts, n - 1);
      var b, x := acts[n - 1], Predicate(n - 1);
      PredicatesLaidOut(layout, acts, n - 1);
      assert b in acts;
      InsertedPrecedes(t, b, x);
      InsertKeepsProgram(t, b, x);
      forall i | 0 <= i < n - 1
        ensures Precedes(InsertBefore(t, b, x), Predicate(i), acts[i])
      {
        InsertKeepsPairs(t, b, x, Predicate(i), acts[i]);
      }
      forall a | a in acts
        ensures a in InsertBefore(t, b, x)
      {
        InsertKeepsBlocks(t, b, x, a);
      }
    }
  }

  lemma {:induction false} AllProgram(s: seq<BlockId>)
    requires forall b | b in s :: b.Orig?
    ensures Program(s) == s
  {
    if s != [] {
      AllProgram(s[..|s| - 1]);
      assert s == s[..|s| - 1] + [s[|s| - 1]];
    }
  }

  lemma LaidOut(f: Function)
    requires Linearizable(f)
    ensures var acts := Actions(f);
            var t := WithNames(f.layout, acts, |acts|);
            (forall i | 0 <= i < |acts| :: Precedes(t, Predicate(i), acts[i])) && Program(t) == f.layout
  {
    hide Actions, WithNames, Precedes, Program;
    ActionsDistinct(f);
    AllProgram(f.layout);
    PredicatesLaidOut(f.layout, Actions(f), |Actions(f)|);
  }

  // ----- the pass -----

  lemma UnifiedAlready(f: Function)
    requires Shaped(f) && |Returns(f.code, f.layout)| <= 1 && |Unreachables(f.code, f.layout)| <= 1
    ensures Unified(f) == f
  {
  }

  lemma StoresKeepEdges(f: Function, ids: map<BlockId, int>)
    requires Dag(f)
    ensures var h := WithStores(f.code, ids);
            Closed(h) && f.layout[0] in h && Order(h, f.layout[0]) == OrderOf(f)
  {
    var h := WithStores(f.code, ids);
    assert SameEdges(f.code, h);
    VisitSameEdges(f.code, h, f.layout[0], {}, []);
  }

  /** With one unreachable block at most, skipping it is skipping all of them. */
  lemma TheUnreachable(f: Function, b: BlockId)
    requires Shaped(f) && |Unreachables(f.code, f.layout)| <= 1 && b in f.code
    ensures Some(b) == TheOne(Unreachables(f.code, f.layout)) <==> IsUnreachable(f.code, b)
  {
    var us := Unreachables(f.code, f.layout);
    InUnreachables(f.code, f.layout);
    assert b in us <==> IsUnreachable(f.code, b);
  }

  /** The action blocks come from the order computed on the rewritten function. */
  lemma ActionsAfterStores(f: Function, ids: map<BlockId, int>)
    requires Linearizable(f)
    ensures Without(WithStores(f.code, ids), OrderOf(f)) == [f.layout[0]] + Actions(f)
  {
    EntryDivides(f);
    WithoutStores(f.code, ids, OrderOf(f));
  }

  lemma {:induction false} WithoutStores(g: Code, ids: map<BlockId, int>, s: seq<BlockId>)
    ensures Without(WithStores(g, ids), s) == Without(g, s)
  {
    if s != [] {
      WithoutStores(g, ids, s[1..]);
    }
  }

  lemma NothingWithout(g: Code)
    ensures Without(g, []) == []
  {
  }

  lemma {:induction false} WithoutSnoc(g: Code, s: seq<BlockId>, b: BlockId)
    ensures Without(g, s + [b]) == Without(g, s) + if IsUnreachable(g, b) then [] else [b]
  {
    if s == [] {
      assert s + [b] == [b] && Without(g, [b][1..]) == [];
    } else {
      assert (s + [b])[0] == s[0] && (s + [b])[1..] == s[1..] + [b];
      WithoutSnoc(g, s[1..], b);
    }
  }

  /** Layout and code list the same blocks. */
  ghost predicate Listed(f: Function) {
    forall b :: b in f.layout <==> b in f.code
  }

  ghost predicate TargetsIn(g: Code, ids: map<BlockId, int>) {
    forall u, v | IsEdge(g, u, v) :: v in ids
  }

  ghost predicate OnlyUnreachable(g: Code, unreachableBlock: Option<BlockId>) {
    forall b | b in g :: Some(b) == unreachableBlock <==> IsUnreachable(g, b)
  }

  lemma EdgesHaveIds(f: Function)
    requires Linearizable(f)
    ensures TargetsIn(f.code, FinalIds(f).of) && Listed(f)
  {
    AllHaveIdsIff(f);
  }

  lemma UnreachableAfterStores(f: Function, ids: map<BlockId, int>)
    requires Linearizable(f)
    ensures OnlyUnreachable(WithStores(f.code, ids), TheOne(Unreachables(f.code, f.layout)))
  {
    forall b | b in f.code
      ensures Some(b) == TheOne(Unreachables(f.code, f.layout)) <==> IsUnreachable(f.code, b)
    {
      TheUnreachable(f, b);
    }
  }

  /** What the pass relies on while it looks for the action blocks. */
  lemma FindingActions(f: Function, ret: BlockId)
    requires Linearizable(f) && IsReturn(f.code, ret)
    ensures Dag(f) && Listed(f) && TargetsIn(f.code, FinalIds(f).of)
    ensures var h, acts := WithStores(f.code, FinalIds(f).of), Actions(f);
            && Closed(h) && f.layout[0] in h
            && OnlyUnreachable(h, TheOne(Unreachables(f.code, f.layout)))
            && Without(h, Order(h, f.layout[0])) == [f.layout[0]] + acts
            && acts != [] && ret == acts[|acts| - 1]
  {
    EdgesHaveIds(f);
    StoresKeepEdges(f, FinalIds(f).of);
    ActionsAfterStores(f, FinalIds(f).of);
    UnreachableAfterStores(f, FinalIds(f).of);
    LastReturns(f);
    hide Order, FinalIds, WithStores, Without, Actions;
    OneReturn(f, ret, Actions(f)[|Actions(f)| - 1]);
  }

  /** What the later steps find once the ids are stored. */
  ghost predicate Ready(g: Code, entry: BlockId, acts: seq<BlockId>, ids: map<BlockId, int>) {
    && ProgramCode(g) && ChainBlocks(g, entry, acts) && ChainExits(g, acts)
    && (forall i | 0 <= i < |acts| :: acts[i] in g && acts[i] in ids)
    && (forall i | 0 <= i < |acts| && acts[i] in g && g[acts[i]].phi != [] :: i > 0 && |g[acts[i]].phi| == 2)
  }

  /** The first action has one way in, so it has no phi. */
  lemma FirstHasNoPhi(g: Code, entry: BlockId, acts: seq<BlockId>, ids: map<BlockId, int>)
    requires Chain(g, entry, acts, ids)
    ensures acts[0] in g && g[acts[0]].phi == []
  {
    var v := acts[0];
    assert v in acts && TwoWayPhi(g, v);
    var phi := g[v].phi;
    if phi != [] {
      OnlyFromEntry(g, entry, acts, ids, phi[0].from);
      OnlyFromEntry(g, entry, acts, ids, phi[1].from);
    }
  }

  lemma OnlyFromEntry(g: Code, entry: BlockId, acts: seq<BlockId>, ids: map<BlockId, int>, u: BlockId)
    requires Chain(g, entry, acts, ids)
    ensures IsEdge(g, u, acts[0]) ==> u == entry
  {
    if IsEdge(g, u, acts[0]) {
      var j := SourceIndex(g, entry, acts, ids, u, 0);
    }
  }

  lemma StepsReady(g: Code, entry: BlockId, acts: seq<BlockId>, ids: map<BlockId, int>)
    requires Chain(g, entry, acts, ids)
    ensures Ready(g, entry, acts, ids)
  {
    FirstHasNoPhi(g, entry, acts, ids);
    forall i | 0 <= i < |acts|
      ensures acts[i] in g && acts[i] in ids
      ensures g[acts[i]].phi != [] ==> |g[acts[i]].phi| == 2
    {
      assert acts[i] in acts && TwoWayPhi(g, acts[i]);
    }
  }

  /** What phi relocation finds: phis only in actions, at most two-way, none in the first. */
  ghost predicate PhisReady(h: Code, acts: seq<BlockId>) {
    && Distinct(acts)
    && (forall a | a in acts :: a in h && a.Orig?)
    && (forall i | 0 <= i < |acts| :: Predicate(i) in h && h[Predicate(i)].phi == [])
    && forall i | 0 <= i < |acts| && acts[i] in h && h[acts[i]].phi != [] :: i > 0 && |h[acts[i]].phi| == 2
  }

  lemma ReadyForPhis(g: Code, entry: BlockId, acts: seq<BlockId>, ids: map<BlockId, int>)
    requires acts != [] && Ready(g, entry, acts, ids)
    ensures PhisReady(WithTerminators(g, entry, acts, ids), acts)
  {
    forall i | 0 <= i < |acts|
      ensures var h := WithTerminators(g, entry, acts, ids);
              && Predicate(i) in h && h[Predicate(i)].phi == []
              && acts[i] in h && h[acts[i]].phi == g[acts[i]].phi
    {
      assert acts[i] in acts;
      TerminatorsAt(g, entry, acts, ids, acts[i]);
      TerminatorsAt(g, entry, acts, ids, Predicate(i));
    }
    forall a | a in acts
      ensures a in WithTerminators(g, entry, acts, ids) && a.Orig?
    {
      TerminatorsAt(g, entry, acts, ids, a);
    }
  }

  /** Moving one more phi touches one action and its predicate. */
  lemma PhiStep(g: Code, acts: seq<BlockId>, i: nat)
    requires PhisReady(g, acts) && i < |acts|
    ensures acts[i] in acts && Predicate(i) in g
    ensures var h, a, p := WithPhis(g, acts, i), acts[i], Predicate(i);
            && a in h && p in h && h[a] == g[a] && h[p] == g[p]
            && WithPhis(g, acts, i + 1) == h[p := g[p].(phi := PredicatePhi(g[a].phi, acts, i))]
                                            [a := g[a].(phi := ActionPhi(g[a].phi, i))]
  {
    assert acts[i] in acts;
    forall x | x in g && x != acts[i] && x != Predicate(i)
      ensures MovePhi(g, acts, i + 1, x) == MovePhi(g, acts, i, x)
    {
      assert IndexIn(acts, x) != i;
    }
    IndexOfDistinct(acts, i);
  }

  /** What every step of the chain finds, and what the steps add up to. */
  lemma ChainPlan(g: Code, entry: BlockId, acts: seq<BlockId>, ids: map<BlockId, int>)
    requires acts != [] && Ready(g, entry, acts, ids)
    ensures Distinct(acts) && entry !in acts && forall a | a in acts :: a in g
    ensures var n := |acts|;
            var h1 := WithPredicates(WithStores(g, ids), n);
            var h2 := WithJumps(h1, entry, acts, n - 1);
            var h3 := WithTerminators(g, entry, acts, ids);
            && Branches(h1, entry) && (forall i | 0 <= i < n - 1 :: Branches(h1, acts[i]))
            && (forall i | 0 <= i < n :: acts[i] in ids && Predicate(i) in h2 && h2[Predicate(i)] == EMPTY_BLOCK)
            && h3 == WithTests(h2, acts, ids, n - 1)[Predicate(n - 1) := Block([], KEEP_MEMORY, NoStore, Br(acts[n - 1]))]
            && PhisReady(h3, acts)
            && (forall a | a in acts :: a in h3) && AllSteps(g, entry, acts, ids) == WithPhis(h3, acts, n)
  {
    BeforeJumps(g, entry, acts, ids);
    BeforeTests(g, entry, acts, ids, |acts| - 1);
    ReadyForPhis(g, entry, acts, ids);
    ActionsStay(g, entry, acts, ids);
    hide WithPredicates, WithStores, WithJumps, WithTests, WithPhis, PhisReady, Branches;
  }

  lemma StepsOf(f: Function)
    requires Linearizable(f)
    ensures var g, acts, ids := f.code, Actions(f), FinalIds(f).of;
            && acts != [] && Ready(g, f.layout[0], acts, ids) && (forall a | a in acts :: a in g)
            && AllSteps(g, f.layout[0], acts, ids) == Linearized(f)
  {
    ChainOf(f);
    hide AllSteps, Ready, FinalIds, Actions, LinearCode, Chain, Linearizable;
    var g, acts, ids := f.code, Actions(f), FinalIds(f).of;
    ChainFacts(g, f.layout[0], acts, ids);
    StepsBuildChain(g, f.layout[0], acts, ids);
    StepsReady(g, f.layout[0], acts, ids);
  }

  lemma ChainFacts(g: Code, entry: BlockId, acts: seq<BlockId>, ids: map<BlockId, int>)
    requires Chain(g, entry, acts, ids)
    ensures ProgramCode(g) && ChainBlocks(g, entry, acts)
  {
  }

  class BlockPredication {
    const F: IRFunction
    const PPA: PacketPathAnalysis
    const entryBlock: BlockId
    var actionBlocks: seq<BlockId>
    var predicateBlocks: seq<BlockId>
    var returnBlock: BlockId

    /** Ids are computed here, before the function is touched. */
    constructor (F: IRFunction)
      requires Shaped(F.Value())
      ensures this.F == F && fresh(PPA) && actionBlocks == [] && predicateBlocks == []
      ensures entryBlock == F.layout[0] && PPA.blockToMaskId == FinalIds(F.Value()).of
    {
      this.F := F;
      PPA := new PacketPathAnalysis(F.Value());
      entryBlock := F.layout[0];
      actionBlocks, predicateBlocks := [], [];
      returnBlock := F.layout[0];
    }

    method Run() returns (changed: bool)
      requires Linearizable(F.Value()) && actionBlocks == [] && predicateBlocks == []
      requires entryBlock == F.layout[0] && PPA.blockToMaskId == FinalIds(F.Value()).of
      modifies this, F
      ensures changed && F.code == Linearized(old(F.Value()))
      ensures forall i | 0 <= i < |Actions(old(F.Value()))| :: Precedes(F.layout, Predicate(i), Actions(old(F.Value()))[i])
      ensures Program(F.layout) == old(F.layout)
    {
      hide Linearizable, Linearized, FinalIds, Actions, Program, WithNames, Precedes, Dag, Names;
      ghost var f := F.Value();
      LaidOut(f);
      LinearizeControlFlow();
      changed := true;
    }

    method LinearizeControlFlow()
      requires Linearizable(F.Value()) && actionBlocks == [] && predicateBlocks == []
      requires entryBlock == F.layout[0] && PPA.blockToMaskId == FinalIds(F.Value()).of
      modifies this, F
      ensures F.code == Linearized(old(F.Value()))
      ensures actionBlocks == Actions(old(F.Value())) && predicateBlocks == Names(|actionBlocks|)
      ensures F.layout == WithNames(old(F.layout), actionBlocks, |actionBlocks|)
    {
      hide Linearizable, Linearized, FinalIds, Actions, Ready, AllSteps, WithStores, Dag, Names;
      ghost var f := F.Value();
      StepsOf(f);
      var maskIdMap := PPA.blockToMaskId;
      FindActionBlocks(maskIdMap);
      BuildChain(maskIdMap, f.code);
    }

    /** Up to the point where the entry is taken off the list of action blocks. */
    method FindActionBlocks(maskIdMap: map<BlockId, int>)
      requires Linearizable(F.Value()) && actionBlocks == [] && entryBlock == F.layout[0]
      requires maskIdMap == FinalIds(F.Value()).of
      modifies this`actionBlocks, this`returnBlock, F
      ensures F.code == WithStores(old(F.code), maskIdMap) && F.layout == old(F.layout)
      ensures var acts := Actions(old(F.Value()));
              acts != [] && actionBlocks == acts && returnBlock == acts[|acts| - 1]
    {
      hide Order, FinalIds, WithStores, Without, Actions, Linearizable, Dag, Returns, Unreachables, Listed,
           TargetsIn, OnlyUnreachable, IsReturn, TheOne, Closed;
      ghost var f := F.Value();
      var ret, unreachableBlock := Unify(f);
      returnBlock := ret;
      FindingActions(f, returnBlock);
      SetPathIds(maskIdMap);
      CollectActionBlocks(unreachableBlock);
      assert ([entryBlock] + Actions(f))[1..] == Actions(f);
      actionBlocks := actionBlocks[1..];
    }

    /** A function with one return and at most one unreachable block is unified already. */
    method Unify(ghost f: Function) returns (ret: BlockId, unreachableBlock: Option<BlockId>)
      requires Linearizable(f) && F.Value() == f
      modifies F
      ensures F.Value() == f && IsReturn(f.code, ret)
      ensures unreachableBlock == TheOne(Unreachables(f.code, f.layout))
    {
      UnifiedAlready(f);
      InReturns(f.code, f.layout);
      var r, u := UnifyFunctionExitNodes(F);
      ret, unreachableBlock := r.value, u;
      assert ret in Returns(f.code, f.layout);
    }

    method SetPathIds(maskIdMap: map<BlockId, int>)
      requires Listed(F.Value()) && IsReturn(F.code, returnBlock)
      requires TargetsIn(F.code, maskIdMap)
      modifies F`code
      ensures F.code == WithStores(old(F.code), maskIdMap)
    {
      ghost var g := F.code;
      hide WithStore, StoredIn;
      assert StoredIn(g, F.code, maskIdMap, F.layout[..0]) by { NothingStored(g, maskIdMap); }
      for i := 0 to |F.layout|
        invariant F.code.Keys == g.Keys && StoredIn(g, F.code, maskIdMap, F.layout[..i])
      {
        var b := F.layout[i];
        assert F.layout[..i + 1] == F.layout[..i] + [b];
        StoreAhead(g, F.code, maskIdMap, F.layout[..i], b);
        if b != returnBlock && (F.code[b].term.Br? || F.code[b].term.CondBr?) {
          SetPathIdCondition(b, maskIdMap);
        }
      }
      assert F.layout[..|F.layout|] == F.layout;
      AllStored(g, F.code, maskIdMap, F.layout);
    }

    method SetPathIdCondition(b: BlockId, maskIdMap: map<BlockId, int>)
      requires Branches(F.code, b) && forall v | v in Succs(F.code[b]) :: v in maskIdMap
      modifies F`code
      ensures F.code == old(F.code)[b := WithStore(old(F.code)[b], maskIdMap)]
    {
      match F.code[b].term
      case Br(t) =>
        F.code := F.code[b := F.code[b].(mask := StoreId(maskIdMap[t]))];
      case CondBr(c, t, e) =>
        F.code := F.code[b := F.code[b].(mask := SelectId(c, maskIdMap[t], maskIdMap[e]))];
    }

    method CollectActionBlocks(unreachableBlock: Option<BlockId>)
      requires Closed(F.code) && entryBlock in F.code && actionBlocks == []
      requires OnlyUnreachable(F.code, unreachableBlock)
      modifies this`actionBlocks
      ensures actionBlocks == Without(F.code, Order(F.code, entryBlock))
    {
      hide Order, Without, Closed;
      var order := Order(F.code, entryBlock);
      OrderInside(F.code, entryBlock);
      NothingWithout(F.code);
      assert order[..0] == [];
      for i := 0 to |order|
        invariant actionBlocks == Without(F.code, order[..i])
      {
        assert order[..i + 1] == order[..i] + [order[i]];
        WithoutSnoc(F.code, order[..i], order[i]);
        assert order[i] in order;
        if Some(order[i]) != unreachableBlock {
          actionBlocks := actionBlocks + [order[i]];
        }
      }
      assert order[..|order|] == order;
    }

    /** From the action blocks to the finished chain; `g` is the code before any step. */
    method BuildChain(maskIdMap: map<BlockId, int>, ghost g: Code)
      requires predicateBlocks == [] && actionBlocks != [] && returnBlock == actionBlocks[|actionBlocks| - 1]
      requires Ready(g, entryBlock, actionBlocks, maskIdMap)
      requires F.code == WithStores(g, maskIdMap)
      modifies this`predicateBlocks, F
      ensures predicateBlocks == Names(|actionBlocks|)
      ensures (forall a | a in actionBlocks :: a in g) && F.code == AllSteps(g, entryBlock, actionBlocks, maskIdMap)
      ensures F.layout == WithNames(old(F.layout), actionBlocks, |actionBlocks|)
    {
      hide *;
      ghost var h1 := WithPredicates(WithStores(g, maskIdMap), |actionBlocks|);
      ghost var h2 := WithJumps(h1, entryBlock, actionBlocks, |actionBlocks| - 1);
      ChainPlan(g, entryBlock, actionBlocks, maskIdMap);
      InsertPredicateBlocks();
      assert F.code == h1;
      SetActionBlocksSuccessors();
      assert F.code == h2;
      SetPredBlockSuccessors(maskIdMap);
      assert F.code == WithTerminators(g, entryBlock, actionBlocks, maskIdMap);
      MovePhiNodes();
    }

    method InsertPredicateBlocks()
      requires predicateBlocks == []
      modifies this`predicateBlocks, F
      ensures predicateBlocks == Names(|actionBlocks|)
      ensures F.code == WithPredicates(old(F.code), |actionBlocks|)
      ensures F.layout == WithNames(old(F.layout), actionBlocks, |actionBlocks|)
    {
      hide InsertBefore;
      ghost var g, layout := F.code, F.layout;
      for i := 0 to |actionBlocks|
        invariant predicateBlocks == Names(i)
        invariant F.code == WithPredicates(g, i)
        invariant F.layout == WithNames(layout, actionBlocks, i)
      {
        var pb := Predicate(i);
        F.code := F.code[pb := EMPTY_BLOCK];
        F.layout := InsertBefore(F.layout, actionBlocks[i], pb);
        predicateBlocks := predicateBlocks + [pb];
      }
    }

    method SetActionBlocksSuccessors()
      requires actionBlocks != [] && Distinct(actionBlocks) && entryBlock !in actionBlocks
      requires predicateBlocks == Names(|actionBlocks|)
      requires Branches(F.code, entryBlock)
      requires forall i | 0 <= i < |actionBlocks| - 1 :: Branches(F.code, actionBlocks[i])
      modifies F`code
      ensures F.code == WithJumps(old(F.code), entryBlock, actionBlocks, |actionBlocks| - 1)
    {
      ghost var g := F.code;
      F.code := F.code[entryBlock := F.code[entryBlock].(term := Br(predicateBlocks[0]))];
      FirstJump(g, entryBlock, actionBlocks);
      hide WithJumps, Distinct;
      for i := 0 to |actionBlocks| - 1
        invariant F.code == WithJumps(g, entryBlock, actionBlocks, i)
      {
        var b := actionBlocks[i];
        assert Branches(g, b);
        NextJump(g, entryBlock, actionBlocks, i);
        F.code := F.code[b := F.code[b].(term := Br(predicateBlocks[i + 1]))];
      }
    }

    method SetPredBlockSuccessors(maskIdMap: map<BlockId, int>)
      requires actionBlocks != [] && predicateBlocks == Names(|actionBlocks|)
      requires forall i | 0 <= i < |actionBlocks| :: Predicate(i) in F.code && F.code[Predicate(i)] == EMPTY_BLOCK
      requires forall i | 0 <= i < |actionBlocks| :: actionBlocks[i] in maskIdMap
      modifies F`code
      ensures F.code == WithTests(old(F.code), actionBlocks, maskIdMap, |actionBlocks| - 1)
                          [Predicate(|actionBlocks| - 1) := Block([], KEEP_MEMORY, NoStore, Br(returnBlock))]
    {
      for i := 0 to |predicateBlocks| - 1
        invariant F.code == WithTests(old(F.code), actionBlocks, maskIdMap, i)
      {
        var pb := predicateBlocks[i];
        var maskId := maskIdMap[actionBlocks[i]];
        F.code := F.code[pb := F.code[pb].(term := MaskBr(maskId, actionBlocks[i], predicateBlocks[i + 1]))];
      }
      var last := predicateBlocks[|predicateBlocks| - 1];
      F.code := F.code[last := F.code[last].(term := Br(returnBlock))];
    }

    method MovePhiNodes()
      requires predicateBlocks == Names(|actionBlocks|) && PhisReady(F.code, actionBlocks)
      modifies F`code
      ensures F.code == WithPhis(old(F.code), actionBlocks, |actionBlocks|)
    {
      ghost var g := F.code;
      for i := 0 to |actionBlocks|
        invariant F.code == WithPhis(g, actionBlocks, i)
      {
        PhiStep(g, actionBlocks, i);
        MovePhiNodeToPredicateBlock(i);
      }
    }

    /** Predecessors of a predicate as the use list gives them, latest edge first: the
        conditional edge from the predicate before was created after the one from the action. */
    function PredsOfPredicate(i: nat): seq<BlockId>
      reads this
      requires 0 < i <= |actionBlocks| && i <= |predicateBlocks|
    {
      [predicateBlocks[i - 1], actionBlocks[i - 1]]
    }

    method MovePhiNodeToPredicateBlock(i: nat)
      requires i < |actionBlocks| && predicateBlocks == Names(|actionBlocks|)
      requires actionBlocks[i] in F.code && Predicate(i) in F.code && actionBlocks[i].Orig?
      requires F.code[Predicate(i)].phi == []
      requires F.code[actionBlocks[i]].phi != [] ==> i > 0 && |F.code[actionBlocks[i]].phi| == 2
      modifies F`code
      ensures var was := old(F.code)[actionBlocks[i]].phi;
              F.code == old(F.code)[Predicate(i) := old(F.code)[Predicate(i)].(phi := PredicatePhi(was, actionBlocks, i))]
                                   [actionBlocks[i] := old(F.code)[actionBlocks[i]].(phi := ActionPhi(was, i))]
    {
      var predBB, actionBB := predicateBlocks[i], actionBlocks[i];
      var pn := F.code[actionBB].phi;
      if pn != [] {
        var bb := PredsOfPredicate(i);
        var predPhi := [Incoming(pn[0].val, pn[0].src, bb[0]), Incoming(pn[1].val, pn[1].src, bb[1])];
        F.code := F.code[predBB := F.code[predBB].(phi := predPhi)];
        F.code := F.code[actionBB := F.code[actionBB].(phi := [Incoming(PHI_REGISTER, predBB, predBB)])];
      }
    }
  }
}
