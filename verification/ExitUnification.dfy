/**
 Exit unification: a function with several return blocks gets a single one, fed by a phi
 of the old return values; several unreachable blocks are merged in the same way.
 */
module ExitUnification {
  import opened Common
  import opened IR
  import opened PathAnalysis

  /** A function the passes rewrite in place. */
  class IRFunction {
    var layout: seq<BlockId>
    var code: Code

    constructor (f: Function)
      ensures Value() == f
    {
      layout, code := f.layout, f.code;
    }

    function Value(): Function
      reads this
    {
      Function(layout, code)
    }
  }

  predicate IsReturn(g: Code, b: BlockId) {
    b in g && g[b].term.Ret?
  }

  predicate IsUnreachable(g: Code, b: BlockId) {
    b in g && g[b].term.Unreachable?
  }

  function Returns(g: Code, bs: seq<BlockId>): seq<BlockId> {
    if bs == [] then []
    else if IsReturn(g, bs[0]) then [bs[0]] + Returns(g, bs[1..])
    else Returns(g, bs[1..])
  }

  function Unreachables(g: Code, bs: seq<BlockId>): seq<BlockId> {
    if bs == [] then []
    else if IsUnreachable(g, bs[0]) then [bs[0]] + Unreachables(g, bs[1..])
    else Unreachables(g, bs[1..])
  }

  lemma {:induction false} InReturns(g: Code, bs: seq<BlockId>)
    ensures forall b :: b in Returns(g, bs) <==> b in bs && IsReturn(g, b)
  {
    if bs != [] {
      InReturns(g, bs[1..]);
      assert bs == [bs[0]] + bs[1..];
    }
  }

  lemma {:induction false} InUnreachables(g: Code, bs: seq<BlockId>)
    ensures forall b :: b in Unreachables(g, bs) <==> b in bs && IsUnreachable(g, b)
  {
    if bs != [] {
      InUnreachables(g, bs[1..]);
      assert bs == [bs[0]] + bs[1..];
    }
  }

  /** The blocks in `bs` jump to `target`; the rest is unchanged. */
  function Redirect(g: Code, bs: seq<BlockId>, target: BlockId): (r: Code) {
    map b | b in g :: if b in bs then g[b].(term := Br(target)) else g[b]
  }

  /** The phi of the new return block: one incoming pair per old return block. */
  function ReturnPhi(g: Code, rets: seq<BlockId>): seq<Incoming>
    requires forall b | b in rets :: IsReturn(g, b)
  {
    if rets == [] then []
    else
      assert IsReturn(g, rets[0]) by { assert rets[0] in rets; }
      [Incoming(g[rets[0]].term.val, rets[0], rets[0])] + ReturnPhi(g, rets[1..])
  }

  const UNREACHABLE_BLOCK := Block([], KEEP_MEMORY, NoStore, Unreachable)

  /** The blocks in `bs` now end in a jump to the new block `name`. */
  function Merge(f: Function, bs: seq<BlockId>, name: BlockId, block: Block): Function {
    Function(f.layout + [name], Redirect(f.code, bs, name)[name := block])
  }

  function UnifyUnreachables(f: Function): Function {
    var us := Unreachables(f.code, f.layout);
    if |us| <= 1 then f else Merge(f, us, UnifiedUnreachable, UNREACHABLE_BLOCK)
  }

  function ReturnBlock(g: Code, rets: seq<BlockId>): Block
    requires forall b | b in rets :: IsReturn(g, b)
  {
    Block(ReturnPhi(g, rets), KEEP_MEMORY, NoStore, Ret(PHI_REGISTER))
  }

  function UnifyReturns(f: Function): Function {
    var rets := Returns(f.code, f.layout);
    InReturns(f.code, f.layout);
    if |rets| <= 1 then f else Merge(f, rets, UnifiedReturn, ReturnBlock(f.code, rets))
  }

  function Unified(f: Function): Function {
    UnifyReturns(UnifyUnreachables(f))
  }

  /** The unique exit of the given kind in a unified function, if there is one. */
  function TheOne(bs: seq<BlockId>): Option<BlockId> {
    if |bs| == 1 then Some(bs[0]) else None
  }

  method UnifyFunctionExitNodes(F: IRFunction) returns (ret: Option<BlockId>, unreachable: Option<BlockId>)
    requires Shaped(F.Value())
    requires UnifiedReturn !in F.code && UnifiedUnreachable !in F.code
    modifies F
    ensures F.Value() == Unified(old(F.Value()))
    ensures ret == TheOne(Returns(F.code, F.layout))
    ensures unreachable == TheOne(Unreachables(F.code, F.layout))
    ensures forall b :: IsReturn(F.code, b) <==> ret == Some(b)
    ensures forall b :: IsUnreachable(F.code, b) <==> unreachable == Some(b)
  {
    ghost var f := F.Value();
    var returning, unreachables := CollectExits(F);
    InUnreachables(f.code, f.layout);

    if |unreachables| == 0 {
      unreachable := None;
    } else if |unreachables| == 1 {
      unreachable := Some(unreachables[0]);
    } else {
      MergeInto(F, unreachables, UnifiedUnreachable, UNREACHABLE_BLOCK);
      unreachable := Some(UnifiedUnreachable);
    }
    UnreachableUnifiedFacts(f);

    ghost var u := F.Value();
    assert u == UnifyUnreachables(f);
    InReturns(u.code, u.layout);
    if |returning| == 0 {
      ret := None;
    } else if |returning| == 1 {
      ret := Some(returning[0]);
    } else {
      MergeInto(F, returning, UnifiedReturn, ReturnBlock(F.code, returning));
      ret := Some(UnifiedReturn);
    }
    ReturnUnifiedFacts(u);
    OneOfEach(F.Value());
  }

  /** With at most one block of each kind the one returned is it. */
  lemma OneOfEach(f: Function)
    requires Shaped(f) && |Returns(f.code, f.layout)| <= 1 && |Unreachables(f.code, f.layout)| <= 1
    ensures forall b :: IsReturn(f.code, b) <==> TheOne(Returns(f.code, f.layout)) == Some(b)
    ensures forall b :: IsUnreachable(f.code, b) <==> TheOne(Unreachables(f.code, f.layout)) == Some(b)
  {
    hide Returns, Unreachables;
    InReturns(f.code, f.layout);
    InUnreachables(f.code, f.layout);
    forall b
      ensures IsReturn(f.code, b) ==> b in f.layout
      ensures IsUnreachable(f.code, b) ==> b in f.layout
    {
    }
  }

  method CollectExits(F: IRFunction) returns (returning: seq<BlockId>, unreachables: seq<BlockId>)
    requires Shaped(F.Value())
    ensures returning == Returns(F.code, F.layout) && unreachables == Unreachables(F.code, F.layout)
  {
    returning, unreachables := [], [];
    for i := 0 to |F.layout|
      invariant returning == Returns(F.code, F.layout[..i])
      invariant unreachables == Unreachables(F.code, F.layout[..i])
    {
      var b := F.layout[i];
      assert F.layout[..i + 1] == F.layout[..i] + [b];
      ReturnsConcat(F.code, F.layout[..i], [b]);
      UnreachablesConcat(F.code, F.layout[..i], [b]);
      OneMore(F.code, b);
      if F.code[b].term.Ret? {
        returning := returning + [b];
      } else if F.code[b].term.Unreachable? {
        unreachables := unreachables + [b];
      }
    }
    assert F.layout[..|F.layout|] == F.layout;
  }

  method MergeInto(F: IRFunction, bs: seq<BlockId>, name: BlockId, block: Block)
    requires forall b | b in bs :: b in F.code
    modifies F
    ensures F.Value() == Merge(old(F.Value()), bs, name, block)
  {
    RedirectAll(F, bs, name);
    F.code := F.code[name := block];
    F.layout := F.layout + [name];
  }

  method RedirectAll(F: IRFunction, bs: seq<BlockId>, target: BlockId)
    requires forall b | b in bs :: b in F.code
    modifies F`code
    ensures F.code == Redirect(old(F.code), bs, target)
  {
    for i := 0 to |bs|
      invariant F.code == Redirect(old(F.code), bs[..i], target)
    {
      F.code := F.code[bs[i] := F.code[bs[i]].(term := Br(target))];
      assert bs[..i + 1] == bs[..i] + [bs[i]];
    }
    assert bs[..|bs|] == bs;
  }

  // ----- shape of the result -----

  lemma {:induction false} ReturnsConcat(g: Code, xs: seq<BlockId>, ys: seq<BlockId>)
    ensures Returns(g, xs + ys) == Returns(g, xs) + Returns(g, ys)
  {
    if xs == [] {
      assert xs + ys == ys;
    } else {
      assert (xs + ys)[0] == xs[0] && (xs + ys)[1..] == xs[1..] + ys;
      ReturnsConcat(g, xs[1..], ys);
    }
  }

  lemma {:induction false} UnreachablesConcat(g: Code, xs: seq<BlockId>, ys: seq<BlockId>)
    ensures Unreachables(g, xs + ys) == Unreachables(g, xs) + Unreachables(g, ys)
  {
    if xs == [] {
      assert xs + ys == ys;
    } else {
      assert (xs + ys)[0] == xs[0] && (xs + ys)[1..] == xs[1..] + ys;
      UnreachablesConcat(g, xs[1..], ys);
    }
  }

  lemma {:induction false} NoReturns(g: Code, bs: seq<BlockId>)
    requires forall b | b in bs :: !IsReturn(g, b)
    ensures Returns(g, bs) == []
  {
    if bs != [] {
      NoReturns(g, bs[1..]);
    }
  }

  lemma {:induction false} NoUnreachables(g: Code, bs: seq<BlockId>)
    requires forall b | b in bs :: !IsUnreachable(g, b)
    ensures Unreachables(g, bs) == []
  {
    if bs != [] {
      NoUnreachables(g, bs[1..]);
    }
  }

  lemma {:induction false} SameReturns(g: Code, h: Code, bs: seq<BlockId>)
    requires forall b | b in bs :: IsReturn(g, b) == IsReturn(h, b)
    ensures Returns(g, bs) == Returns(h, bs)
  {
    if bs != [] {
      SameReturns(g, h, bs[1..]);
    }
  }

  lemma {:induction false} SameUnreachables(g: Code, h: Code, bs: seq<BlockId>)
    requires forall b | b in bs :: IsUnreachable(g, b) == IsUnreachable(h, b)
    ensures Unreachables(g, bs) == Unreachables(h, bs)
  {
    if bs != [] {
      SameUnreachables(g, h, bs[1..]);
    }
  }

  lemma MergeFacts(f: Function, bs: seq<BlockId>, name: BlockId, block: Block)
    requires Shaped(f) && name !in f.code && Succs(block) == []
    ensures var u := Merge(f, bs, name, block);
            && Shaped(u) && u.layout == f.layout + [name] && u.layout[0] == f.layout[0] && u.code.Keys == f.code.Keys + {name}
            && u.code[name] == block
            && forall b | b in f.code :: u.code[b] == if b in bs then f.code[b].(term := Br(name)) else f.code[b]
  {
  }

  lemma OneMore(g: Code, b: BlockId)
    ensures Returns(g, [b]) == if IsReturn(g, b) then [b] else []
    ensures Unreachables(g, [b]) == if IsUnreachable(g, b) then [b] else []
  {
    assert Returns(g, [b][1..]) == [];
    assert Unreachables(g, [b][1..]) == [];
  }

  lemma ShapedLayout(f: Function)
    requires Shaped(f)
    ensures f.layout != [] && forall b | b in f.layout :: b in f.code
  {
  }

  lemma UnreachableUnifiedFacts(f: Function)
    requires Shaped(f) && UnifiedReturn !in f.code && UnifiedUnreachable !in f.code
    ensures var u := UnifyUnreachables(f);
            && Shaped(u) && UnifiedReturn !in u.code && u.layout[0] == f.layout[0]
            && Returns(u.code, u.layout) == Returns(f.code, f.layout)
            && Unreachables(u.code, u.layout)
               == if |Unreachables(f.code, f.layout)| <= 1 then Unreachables(f.code, f.layout) else [UnifiedUnreachable]
  {
    hide Merge, Redirect, Shaped;
    assert f.layout != [] && (forall b | b in f.layout :: b in f.code) by { ShapedLayout(f); }
    var us := Unreachables(f.code, f.layout);
    InUnreachables(f.code, f.layout);
    if |us| > 1 {
      var u := Merge(f, us, UnifiedUnreachable, UNREACHABLE_BLOCK);
      MergeFacts(f, us, UnifiedUnreachable, UNREACHABLE_BLOCK);
      ReturnsConcat(u.code, f.layout, [UnifiedUnreachable]);
      UnreachablesConcat(u.code, f.layout, [UnifiedUnreachable]);
      SameReturns(f.code, u.code, f.layout);
      NoUnreachables(u.code, f.layout);
      OneMore(u.code, UnifiedUnreachable);
    }
  }

  lemma ReturnUnifiedFacts(f: Function)
    requires Shaped(f) && UnifiedReturn !in f.code
    ensures var u := UnifyReturns(f);
            && Shaped(u) && u.layout[0] == f.layout[0]
            && Unreachables(u.code, u.layout) == Unreachables(f.code, f.layout)
            && Returns(u.code, u.layout)
               == if |Returns(f.code, f.layout)| <= 1 then Returns(f.code, f.layout) else [UnifiedReturn]
  {
    hide Merge, Redirect, Shaped, ReturnPhi;
    assert f.layout != [] && (forall b | b in f.layout :: b in f.code) by { ShapedLayout(f); }
    var rets := Returns(f.code, f.layout);
    InReturns(f.code, f.layout);
    if |rets| > 1 {
      var u := Merge(f, rets, UnifiedReturn, ReturnBlock(f.code, rets));
      MergeFacts(f, rets, UnifiedReturn, ReturnBlock(f.code, rets));
      ReturnsConcat(u.code, f.layout, [UnifiedReturn]);
      UnreachablesConcat(u.code, f.layout, [UnifiedReturn]);
      SameUnreachables(f.code, u.code, f.layout);
      NoReturns(u.code, f.layout);
      OneMore(u.code, UnifiedReturn);
    }
  }

  /** One return block if there was any, at most one unreachable block. */
  lemma UnifiedHasOneExit(f: Function)
    requires Shaped(f) && UnifiedReturn !in f.code && UnifiedUnreachable !in f.code
    ensures var u := Unified(f);
            && Shaped(u) && u.layout[0] == f.layout[0]
            && |Returns(u.code, u.layout)| == (if Returns(f.code, f.layout) == [] then 0 else 1)
            && |Unreachables(u.code, u.layout)| == (if Unreachables(f.code, f.layout) == [] then 0 else 1)
  {
    UnreachableUnifiedFacts(f);
    ReturnUnifiedFacts(UnifyUnreachables(f));
  }

  // ----- meaning -----

  lemma {:induction false} PickReturn(g: Code, rets: seq<BlockId>, b: BlockId, mem: Memory, regs: map<BlockId, int>)
    requires (forall r | r in rets :: IsReturn(g, r)) && b in rets
    ensures Pick(ReturnPhi(g, rets), b, mem, regs) == g[b].term.val(mem, Reg(regs, b))
  {
    var phi := ReturnPhi(g, rets);
    assert phi[1..] == ReturnPhi(g, rets[1..]);
    if rets[0] != b {
      PickReturn(g, rets[1..], b, mem, regs);
    }
  }

  /** How a run relates to the run of the rewritten function that may take one step more. */
  ghost predicate SameEnd(a: Outcome, b: Outcome) {
    match a
    case Running(s) => b == a
    case Undefined => b == Undefined
    case Returned(v, m, log) =>
      b.Returned? && b.value == v && b.mem == m && (b.log == log || b.log == log + [UnifiedReturn])
  }

  /** `u` is `g` with some unreachable ends turned into jumps to a new unreachable block. */
  ghost predicate UnreachablesMerged(g: Code, u: Code) {
    forall b | b in g :: b in u &&
      (u[b] == g[b]
       || (g[b].term.Unreachable? && u[b] == g[b].(term := Br(UnifiedUnreachable))
           && UnifiedUnreachable in u && u[UnifiedUnreachable] == UNREACHABLE_BLOCK))
  }

  /** `u` is `g` with some returns turned into jumps to a block that returns what they returned. */
  ghost predicate ReturnsMerged(g: Code, u: Code, rets: seq<BlockId>) {
    && (forall b | b in rets :: IsReturn(g, b))
    && forall b | b in g :: b in u &&
         (u[b] == g[b]
          || (b in rets && u[b] == g[b].(term := Br(UnifiedReturn))
              && UnifiedReturn in u && u[UnifiedReturn] == ReturnBlock(g, rets)))
  }

  lemma StepInside(g: Code, s: State)
    requires Closed(g) && s.at in g && Step(g, s).Running?
    ensures Step(g, s).s.at in g
  {
    assert Step(g, s).s.at in Succs(g[s.at]);
  }

  lemma MergedUnreachableStep(u: Code, s: State, n: nat)
    requires n >= 2 && s.at in u && u[s.at].term == Br(UnifiedUnreachable)
    requires UnifiedUnreachable in u && u[UnifiedUnreachable] == UNREACHABLE_BLOCK
    ensures Run(u, Running(s), n) == Undefined
  {
    var t := Step(u, s);
    assert Step(u, t.s) == Undefined;
    assert Run(u, t, n - 1) == Run(u, Undefined, n - 2);
  }

  lemma MergedReturnStep(g: Code, u: Code, rets: seq<BlockId>, s: State, n: nat)
    requires n >= 2 && ReturnsMerged(g, u, rets) && s.at in rets && u[s.at] != g[s.at]
    ensures SameEnd(Step(g, s), Run(u, Running(s), n))
  {
    var t := Step(u, s).s;
    PickReturn(g, rets, s.at, t.mem, t.regs);
    assert Run(u, Running(t), n - 1) == Run(u, Step(u, t), n - 2);
  }

  lemma {:induction false} UnreachablesKeepMeaning(g: Code, u: Code, s: State, n: nat)
    requires Closed(g) && s.at in g && UnreachablesMerged(g, u)
    ensures var o := Run(g, Running(s), n); Run(u, Running(s), if o.Running? then n else n + 1) == o
    decreases n
  {
    hide Closed, StoreMask, Pick;
    if n > 0 {
      if u[s.at] != g[s.at] {
        MergedUnreachableStep(u, s, n + 1);
      } else if Step(g, s).Running? {
        StepInside(g, s);
        UnreachablesKeepMeaning(g, u, Step(g, s).s, n - 1);
      }
    }
  }

  lemma {:induction false} ReturnsKeepMeaning(g: Code, u: Code, rets: seq<BlockId>, s: State, n: nat)
    requires Closed(g) && s.at in g && ReturnsMerged(g, u, rets)
    ensures var o := Run(g, Running(s), n); SameEnd(o, Run(u, Running(s), if o.Running? then n else n + 1))
    decreases n
  {
    hide Closed, StoreMask, Pick, ReturnBlock;
    if n > 0 {
      if u[s.at] != g[s.at] {
        MergedReturnStep(g, u, rets, s, n + 1);
      } else if Step(g, s).Running? {
        StepInside(g, s);
        ReturnsKeepMeaning(g, u, rets, Step(g, s).s, n - 1);
      }
    }
  }

  lemma UnifyUnreachablesMerges(f: Function)
    requires Shaped(f) && UnifiedUnreachable !in f.code
    ensures UnreachablesMerged(f.code, UnifyUnreachables(f).code)
  {
    InUnreachables(f.code, f.layout);
    if |Unreachables(f.code, f.layout)| > 1 {
      MergeFacts(f, Unreachables(f.code, f.layout), UnifiedUnreachable, UNREACHABLE_BLOCK);
    }
  }

  lemma UnifyReturnsMerges(f: Function)
    requires Shaped(f) && UnifiedReturn !in f.code
    ensures ReturnsMerged(f.code, UnifyReturns(f).code, Returns(f.code, f.layout))
  {
    var rets := Returns(f.code, f.layout);
    InReturns(f.code, f.layout);
    if |rets| > 1 {
      MergeFacts(f, rets, UnifiedReturn, ReturnBlock(f.code, rets));
    }
  }

  /** Every run ends with the same value and the same memory, at most two steps later; runs
      that go on, and runs that hit an unreachable block, still do. */
  lemma UnificationKeepsMeaning(f: Function, mem: Memory, mask: int, n: nat)
    requires Shaped(f) && UnifiedReturn !in f.code && UnifiedUnreachable !in f.code
    ensures var a := Run(f.code, Start(f.layout[0], mem, mask), n);
            SameEnd(a, Run(Unified(f).code, Start(f.layout[0], mem, mask), if a.Running? then n else n + 2))
  {
    var o := Start(f.layout[0], mem, mask);
    var u := UnifyUnreachables(f);
    UnreachableUnifiedFacts(f);
    UnifyUnreachablesMerges(f);
    UnreachablesKeepMeaning(f.code, u.code, o.s, n);
    var a := Run(f.code, o, n);
    UnifyReturnsMerges(u);
    ReturnsKeepMeaning(u.code, Unified(f).code, Returns(u.code, u.layout), o.s, if a.Running? then n else n + 1);
  }

  // ----- the rewritten function block by block -----

  /** Listed in the order of the layout. */
  ghost predicate InOrderOf(xs: seq<BlockId>, layout: seq<BlockId>) {
    forall i, j | 0 <= i < j < |xs| :: IsBefore(layout, xs[i], xs[j])
  }

  ghost predicate IsBefore(layout: seq<BlockId>, a: BlockId, b: BlockId) {
    exists p, q :: 0 <= p < q < |layout| && layout[p] == a && layout[q] == b
  }

  lemma PrecedesLater(x: BlockId, layout: seq<BlockId>, a: BlockId, b: BlockId)
    requires IsBefore(layout, a, b)
    ensures IsBefore([x] + layout, a, b)
  {
    var p, q :| 0 <= p < q < |layout| && layout[p] == a && layout[q] == b;
    assert ([x] + layout)[p + 1] == a && ([x] + layout)[q + 1] == b;
  }

  lemma FirstPrecedes(x: BlockId, layout: seq<BlockId>, b: BlockId)
    requires b in layout
    ensures IsBefore([x] + layout, x, b)
  {
    var q :| 0 <= q < |layout| && layout[q] == b;
    assert ([x] + layout)[0] == x && ([x] + layout)[q + 1] == b;
  }

  lemma {:induction false} ReturnsInOrder(g: Code, bs: seq<BlockId>)
    ensures InOrderOf(Returns(g, bs), bs)
  {
    if bs != [] {
      var rest := Returns(g, bs[1..]);
      ReturnsInOrder(g, bs[1..]);
      InReturns(g, bs[1..]);
      var all := Returns(g, bs);
      assert bs == [bs[0]] + bs[1..];
      forall i, j | 0 <= i < j < |all|
        ensures IsBefore(bs, all[i], all[j])
      {
        if IsReturn(g, bs[0]) {
          assert all[j] == rest[j - 1];
          if i == 0 {
            FirstPrecedes(bs[0], bs[1..], all[j]);
          } else {
            assert all[i] == rest[i - 1];
            PrecedesLater(bs[0], bs[1..], all[i], all[j]);
          }
        } else {
          PrecedesLater(bs[0], bs[1..], all[i], all[j]);
        }
      }
    }
  }

  lemma {:induction false} DistinctReturns(g: Code, bs: seq<BlockId>)
    requires Distinct(bs)
    ensures Distinct(Returns(g, bs))
  {
    if bs != [] {
      DistinctReturns(g, bs[1..]);
      InReturns(g, bs[1..]);
    }
  }

  lemma {:induction false} DistinctUnreachables(g: Code, bs: seq<BlockId>)
    requires Distinct(bs)
    ensures Distinct(Unreachables(g, bs))
  {
    if bs != [] {
      DistinctUnreachables(g, bs[1..]);
      InUnreachables(g, bs[1..]);
    }
  }

  /** There are two different blocks of the kind. */
  ghost predicate Several(bs: seq<BlockId>) {
    exists a, b :: a in bs && b in bs && a != b
  }

  ghost predicate SeveralReturns(g: Code) {
    exists a, b :: IsReturn(g, a) && IsReturn(g, b) && a != b
  }

  ghost predicate SeveralUnreachables(g: Code) {
    exists a, b :: IsUnreachable(g, a) && IsUnreachable(g, b) && a != b
  }

  lemma SeveralIff(bs: seq<BlockId>)
    requires Distinct(bs)
    ensures |bs| > 1 <==> Several(bs)
  {
    if |bs| > 1 {
      assert bs[0] in bs && bs[1] in bs;
    }
  }

  lemma CountsOf(f: Function)
    requires Shaped(f)
    ensures |Returns(f.code, f.layout)| > 1 <==> SeveralReturns(f.code)
    ensures |Unreachables(f.code, f.layout)| > 1 <==> SeveralUnreachables(f.code)
  {
    hide Returns, Unreachables;
    DistinctReturns(f.code, f.layout);
    DistinctUnreachables(f.code, f.layout);
    InReturns(f.code, f.layout);
    InUnreachables(f.code, f.layout);
    SeveralIff(Returns(f.code, f.layout));
    SeveralIff(Unreachables(f.code, f.layout));
    assert forall b | IsReturn(f.code, b) || IsUnreachable(f.code, b) :: b in f.layout;
  }

  lemma {:induction false} ReturnPhiAt(g: Code, rets: seq<BlockId>, k: nat)
    requires (forall b | b in rets :: IsReturn(g, b)) && k < |rets|
    ensures |ReturnPhi(g, rets)| == |rets| && rets[k] in g && g[rets[k]].term.Ret?
    ensures ReturnPhi(g, rets)[k] == Incoming(g[rets[k]].term.val, rets[k], rets[k])
  {
    assert rets[0] in rets;
    if k > 0 {
      ReturnPhiAt(g, rets[1..], k - 1);
    } else if |rets| > 1 {
      ReturnPhiAt(g, rets[1..], 0);
    }
  }

  /** The phi takes, for every return block and no other, in the order of the layout, the value it returned. */
  ghost predicate CollectsReturns(f: Function, phi: seq<Incoming>) {
    && (forall b :: IsReturn(f.code, b) <==> exists k :: 0 <= k < |phi| && phi[k].from == b)
    && (forall k | 0 <= k < |phi| ::
          IsReturn(f.code, phi[k].from) && phi[k] == Incoming(f.code[phi[k].from].term.val, phi[k].from, phi[k].from))
    && (forall i, j | 0 <= i < j < |phi| :: IsBefore(f.layout, phi[i].from, phi[j].from))
  }

  ghost predicate ReturnsAll(f: Function, b: Block) {
    b == Block(b.phi, KEEP_MEMORY, NoStore, Ret(PHI_REGISTER)) && CollectsReturns(f, b.phi)
  }

  lemma ReturnPhiCollects(f: Function)
    requires Shaped(f) && forall b | b in Returns(f.code, f.layout) :: IsReturn(f.code, b)
    ensures CollectsReturns(f, ReturnPhi(f.code, Returns(f.code, f.layout)))
  {
    hide Returns, ReturnPhi, IsBefore;
    var rets := Returns(f.code, f.layout);
    var phi := ReturnPhi(f.code, rets);
    InReturns(f.code, f.layout);
    ReturnsInOrder(f.code, f.layout);
    assert |phi| == |rets| by { PhiLength(f.code, rets); }
    forall k: nat | k < |rets|
      ensures phi[k].from == rets[k] && IsReturn(f.code, rets[k]) && phi[k] == Incoming(f.code[rets[k]].term.val, rets[k], rets[k])
    {
      ReturnPhiAt(f.code, rets, k);
    }
    forall b
      ensures IsReturn(f.code, b) <==> exists k :: 0 <= k < |phi| && phi[k].from == b
    {
      if IsReturn(f.code, b) {
        assert b in f.layout && b in rets;
        var k :| 0 <= k < |rets| && rets[k] == b;
        assert phi[k].from == b;
      }
    }
  }

  lemma {:induction false} PhiLength(g: Code, rets: seq<BlockId>)
    requires forall b | b in rets :: IsReturn(g, b)
    ensures |ReturnPhi(g, rets)| == |rets|
  {
    if rets != [] {
      ReturnPhiAt(g, rets, 0);
    }
  }

  /** Several unreachable blocks get one new block to jump to, several return blocks another; a single exit stays
      as it is, and so does every other block. */
  lemma UnifiedBlocks(f: Function)
    requires Shaped(f) && UnifiedReturn !in f.code && UnifiedUnreachable !in f.code
    ensures var g, u := f.code, Unified(f);
            var us, rs := SeveralUnreachables(g), SeveralReturns(g);
            && u.layout == f.layout + (if us then [UnifiedUnreachable] else []) + (if rs then [UnifiedReturn] else [])
            && (forall b | b in g :: b in u.code && u.code[b] ==
                  if us && IsUnreachable(g, b) then g[b].(term := Br(UnifiedUnreachable))
                  else if rs && IsReturn(g, b) then g[b].(term := Br(UnifiedReturn)) else g[b])
            && (us ==> UnifiedUnreachable in u.code && u.code[UnifiedUnreachable] == Block([], KEEP_MEMORY, NoStore, Unreachable))
            && (rs ==> UnifiedReturn in u.code && ReturnsAll(f, u.code[UnifiedReturn]))
  {
    hide Returns, Unreachables, ReturnPhi, Shaped, Merge, SeveralReturns, SeveralUnreachables;
    var m := UnifyUnreachables(f);
    CountsOf(f);
    UnreachableUnifiedFacts(f);
    InReturns(f.code, f.layout);
    InUnreachables(f.code, f.layout);
    AllListed(f);
    if |Unreachables(f.code, f.layout)| > 1 {
      MergeFacts(f, Unreachables(f.code, f.layout), UnifiedUnreachable, UNREACHABLE_BLOCK);
    }
    InReturns(m.code, m.layout);
    if |Returns(m.code, m.layout)| > 1 {
      MergeFacts(m, Returns(m.code, m.layout), UnifiedReturn, ReturnBlock(m.code, Returns(m.code, m.layout)));
      ReturnPhiCollects(f);
      SamePhi(f.code, m.code, Returns(f.code, f.layout));
    }
  }

  lemma AllListed(f: Function)
    requires Shaped(f)
    ensures forall b :: b in f.layout <==> b in f.code
  {
  }

  lemma {:induction false} SamePhi(g: Code, h: Code, rets: seq<BlockId>)
    requires forall b | b in rets :: IsReturn(g, b) && IsReturn(h, b) && h[b] == g[b]
    ensures ReturnPhi(g, rets) == ReturnPhi(h, rets)
  {
    if rets != [] {
      assert rets[0] in rets;
      SamePhi(g, h, rets[1..]);
    }
  }
}
