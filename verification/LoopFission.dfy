/**
 Loop splitting: a loop over a body of consecutive segments becomes one loop per segment,
 and the variables that live across a split become arrays.
 */
module LoopFission {
  import opened Common
  import opened LoopLang
  import opened Expansion

  /** One loop per segment, one after the other. */
  ghost function SplitLoops(segs: seq<Stmt>, n: int, m: Memory): Memory {
    if segs == [] then m else SplitLoops(segs[1..], n, Loop(segs[0], 0, n, m))
  }

  /** `a` at index `i` and `b` at index `j` work on disjoint cells, up to reading in common. */
  ghost predicate Disjoint(a: Stmt, i: int, b: Stmt, j: int) {
    && (forall c | c in Writes(a, i) :: c !in Reads(b, j) && c !in Writes(b, j))
    && (forall c | c in Writes(b, j) :: c !in Reads(a, i))
  }

  /** Different iterations of `a` and `b` do not interfere. */
  ghost predicate Apart(a: Stmt, b: Stmt) {
    forall i, j | i != j :: Disjoint(a, i, b, j)
  }

  /** Segments do not interfere across iterations. */
  ghost predicate AllApart(segs: seq<Stmt>) {
    forall x, y | 0 <= x < y < |segs| :: Apart(segs[x], segs[y])
  }

  ghost function Outside(cells: iset<Cell>): iset<Cell> {
    iset c: Cell | c !in cells
  }

  /** Running `a` on memory changed by `b` elsewhere gives the same outside what `b` writes. */
  lemma Unaffected(a: Stmt, i: int, b: Stmt, j: int, m: Memory)
    requires forall c | c in Writes(b, j) :: c !in Reads(a, i)
    ensures Agree(Exec(a, i, Exec(b, j, m)), Exec(a, i, m), Outside(Writes(b, j)))
  {
    var cells := Outside(Writes(b, j));
    forall c | c in cells
      ensures Exec(b, j, m)[c] == m[c]
    {
      ExecFrame(b, j, m, c);
    }
    ExecAgree(a, i, Exec(b, j, m), m, cells);
  }

  lemma Commute(a: Stmt, i: int, b: Stmt, j: int, m: Memory)
    requires Disjoint(a, i, b, j)
    ensures Exec(a, i, Exec(b, j, m)) == Exec(b, j, Exec(a, i, m))
  {
    forall c: Cell
      ensures Exec(a, i, Exec(b, j, m))[c] == Exec(b, j, Exec(a, i, m))[c]
    {
      CommuteAt(a, i, b, j, m, c);
    }
  }

  lemma CommuteAt(a: Stmt, i: int, b: Stmt, j: int, m: Memory, c: Cell)
    requires Disjoint(a, i, b, j)
    ensures Exec(a, i, Exec(b, j, m))[c] == Exec(b, j, Exec(a, i, m))[c]
  {
    hide Exec, Writes, Reads;
    if c in Writes(a, i) {
      Unaffected(a, i, b, j, m);
      ExecFrame(b, j, Exec(a, i, m), c);
    } else {
      Unaffected(b, j, a, i, m);
      ExecFrame(a, i, Exec(b, j, m), c);
    }
  }

  /** An iteration of `b` moves past later iterations of `a`. */
  lemma {:induction false} MovePast(a: Stmt, b: Stmt, i: int, j: int, n: int, m: Memory)
    requires Apart(a, b) && i < j
    ensures Exec(b, i, Loop(a, j, n, m)) == Loop(a, j, n, Exec(b, i, m))
    decreases n - j
  {
    if j < n {
      Commute(a, j, b, i, m);
      MovePast(a, b, i, j + 1, n, Exec(a, j, m));
    }
  }

  /** Two segments: all of `a` may run before all of `b`. */
  lemma {:induction false} SplitTwo(a: Stmt, b: Stmt, i: int, n: int, m: Memory)
    requires Apart(a, b)
    ensures Loop(Seq(a, b), i, n, m) == Loop(b, i, n, Loop(a, i, n, m))
    decreases n - i
  {
    if i < n {
      var m1 := Exec(a, i, m);
      SplitTwo(a, b, i + 1, n, Exec(b, i, m1));
      MovePast(a, b, i, i + 1, n, m1);
    }
  }

  lemma {:induction false} ApartFromAll(a: Stmt, segs: seq<Stmt>)
    requires forall x | 0 <= x < |segs| :: Apart(a, segs[x])
    ensures Apart(a, SeqAll(segs))
  {
    if segs != [] {
      assert Apart(a, segs[0]);
      assert forall x | 0 <= x < |segs[1..]| :: segs[1..][x] == segs[x + 1];
      ApartFromAll(a, segs[1..]);
      forall i, j | i != j
        ensures Disjoint(a, i, SeqAll(segs), j)
      {
        assert Disjoint(a, i, segs[0], j) && Disjoint(a, i, SeqAll(segs[1..]), j);
      }
    }
  }

  lemma {:induction false} SkipLoop(i: int, n: int, m: Memory)
    ensures Loop(Skip, i, n, m) == m
    decreases n - i
  {
    if i < n {
      SkipLoop(i + 1, n, m);
    }
  }

  /** Any number of segments, any trip count. */
  lemma {:induction false} SplitAll(segs: seq<Stmt>, n: int, m: Memory)
    requires AllApart(segs)
    ensures Loop(SeqAll(segs), 0, n, m) == SplitLoops(segs, n, m)
  {
    if segs == [] {
      SkipLoop(0, n, m);
    } else {
      forall x | 0 <= x < |segs[1..]|
        ensures Apart(segs[0], segs[1..][x])
      {
        assert segs[1..][x] == segs[x + 1];
      }
      ApartFromAll(segs[0], segs[1..]);
      SplitTwo(segs[0], SeqAll(segs[1..]), 0, n, m);
      SplitAll(segs[1..], n, Loop(segs[0], 0, n, m));
    }
  }

  // ----- split loops over arrays that end -----

  /** The loops one after the other, undefined as soon as an access does not exist. */
  ghost function TrySplit(segs: seq<Stmt>, n: int, m: Memory): Option<Memory> {
    if segs == [] then Some(m)
    else
      match TryLoop(segs[0], 0, n, m)
      case None => None
      case Some(m1) => TrySplit(segs[1..], n, m1)
  }

  lemma {:induction false} SegmentArrays(segs: seq<Stmt>, x: nat)
    requires x < |segs|
    ensures Arrays(segs[x]) <= Arrays(SeqAll(segs))
  {
    if x > 0 {
      SegmentArrays(segs[1..], x - 1);
    }
  }

  /** The body uses an expanded variable in every iteration. */
  predicate SomeAlwaysUses(segs: seq<Stmt>, vars: set<nat>) {
    segs != [] && (AlwaysUses(segs[0], vars) || SomeAlwaysUses(segs[1..], vars))
  }

  /** Split loops are defined for trip counts up to the size of the arrays, and for no others if
      every iteration uses an expanded variable. */
  lemma {:induction false} SplitServes(segs: seq<Stmt>, vars: set<nat>, n: int, m: Memory)
    requires Plain(Arrays(SeqAll(segs)), ByExpansion)
    ensures var ts := SubAll(segs, vars, ByExpansion);
            && (n <= EXPANDED_SIZE ==> TrySplit(ts, n, m) == Some(SplitLoops(ts, n, m)))
            && (SomeAlwaysUses(segs, vars) && n > EXPANDED_SIZE ==> TrySplit(ts, n, m) == None)
  {
    if segs != [] {
      var t := Sub(segs[0], vars, ByExpansion);
      ExpandedLoopServes(segs[0], vars, n, m);
      SplitServes(segs[1..], vars, n, Loop(t, 0, n, m));
      if TryLoop(t, 0, n, m).Some? {
        SplitServes(segs[1..], vars, n, TryLoop(t, 0, n, m).value);
      }
    }
  }

  /** The split loops finish with the memory of the original loop, except for the expanded
      variables and their arrays. */
  ghost predicate SplitsRight(segs: seq<Stmt>, vars: set<nat>, n: int, m: Memory) {
    var r := TrySplit(SubAll(segs, vars, ByExpansion), n, m);
    r.Some? && Alike(Loop(SeqAll(segs), 0, n, m), r.value, vars, {}, KindArrays(ByExpansion))
  }

  /** Loop splitting is sound for trip counts up to the 32 elements of an expansion array, and for
      no others if every iteration uses an expanded variable. */
  lemma SplittingIsSound(segs: seq<Stmt>, vars: set<nat>, n: int, m: Memory)
    requires Plain(Arrays(SeqAll(segs)), ByExpansion) && Safe(SeqAll(segs), vars, {})
    requires AllApart(SubAll(segs, vars, ByExpansion))
    ensures n <= EXPANDED_SIZE ==> SplitsRight(segs, vars, n, m)
    ensures SomeAlwaysUses(segs, vars) ==> (SplitsRight(segs, vars, n, m) <==> n <= EXPANDED_SIZE)
  {
    SplitServes(segs, vars, n, m);
    ExpandLoop(SeqAll(segs), vars, ByExpansion, 0, n, m, m);
    SubSeqAll(segs, vars, ByExpansion);
    SplitAll(SubAll(segs, vars, ByExpansion), n, m);
  }

  // ----- a condition on the text of the segments -----

  /** The statement uses scalars and elements at the loop index only. */
  predicate IndexPlace(p: Place) {
    !p.Elem?
  }

  predicate IndexData(s: Stmt) {
    match s
    case Skip => true
    case Assign(d, srcs, _) => IndexPlace(d) && forall k | 0 <= k < |srcs| :: IndexPlace(srcs[k])
    case Seq(s1, s2) => IndexData(s1) && IndexData(s2)
    case If(srcs, _, thn, els) => (forall k | 0 <= k < |srcs| :: IndexPlace(srcs[k])) && IndexData(thn) && IndexData(els)
  }

  function ScalarsIn(ps: seq<Place>): set<nat> {
    if ps == [] then {} else (if ps[0].Var? then {ps[0].x} else {}) + ScalarsIn(ps[1..])
  }

  function ScalarsRead(s: Stmt): set<nat> {
    match s
    case Skip => {}
    case Assign(_, srcs, _) => ScalarsIn(srcs)
    case Seq(s1, s2) => ScalarsRead(s1) + ScalarsRead(s2)
    case If(srcs, _, thn, els) => ScalarsIn(srcs) + ScalarsRead(thn) + ScalarsRead(els)
  }

  function ScalarsWritten(s: Stmt): set<nat> {
    match s
    case Skip => {}
    case Assign(d, _, _) => if d.Var? then {d.x} else {}
    case Seq(s1, s2) => ScalarsWritten(s1) + ScalarsWritten(s2)
    case If(_, _, thn, els) => ScalarsWritten(thn) + ScalarsWritten(els)
  }

  lemma {:induction false} IndexReadCells(ps: seq<Place>, i: int, c: Cell)
    requires (forall k | 0 <= k < |ps| :: IndexPlace(ps[k])) && c in ReadCells(ps, i)
    ensures if c.Scalar? then c.x in ScalarsIn(ps) else c.i == i
  {
    assert IndexPlace(ps[0]);
    if c !in AddressCells(ps[0], i) + TargetCells(ps[0], i) {
      assert forall k | 0 <= k < |ps[1..]| :: ps[1..][k] == ps[k + 1];
      IndexReadCells(ps[1..], i, c);
    }
  }

  lemma {:induction false} IndexReads(s: Stmt, i: int, c: Cell)
    requires IndexData(s) && c in Reads(s, i)
    ensures if c.Scalar? then c.x in ScalarsRead(s) else c.i == i
  {
    match s
    case Assign(d, srcs, _) => IndexReadCells(srcs, i, c);
    case Seq(s1, s2) =>
      if c in Reads(s1, i) { IndexReads(s1, i, c); } else { IndexReads(s2, i, c); }
    case If(srcs, _, thn, els) =>
      if c in ReadCells(srcs, i) { IndexReadCells(srcs, i, c); }
      else if c in Reads(thn, i) { IndexReads(thn, i, c); }
      else { IndexReads(els, i, c); }
  }

  lemma {:induction false} IndexWrites(s: Stmt, i: int, c: Cell)
    requires IndexData(s) && c in Writes(s, i)
    ensures if c.Scalar? then c.x in ScalarsWritten(s) else c.i == i
  {
    match s
    case Assign(d, srcs, _) =>
    case Seq(s1, s2) =>
      if c in Writes(s1, i) { IndexWrites(s1, i, c); } else { IndexWrites(s2, i, c); }
    case If(srcs, _, thn, els) =>
      if c in Writes(thn, i) { IndexWrites(thn, i, c); } else { IndexWrites(els, i, c); }
  }

  /** Segments that touch only data at the loop index and share no scalar either of them writes
      do not interfere across iterations. */
  lemma IndexDataIsApart(a: Stmt, b: Stmt)
    requires IndexData(a) && IndexData(b)
    requires ScalarsWritten(a) !! ScalarsRead(b) + ScalarsWritten(b) && ScalarsWritten(b) !! ScalarsRead(a)
    ensures Apart(a, b)
  {
    forall i, j | i != j
      ensures Disjoint(a, i, b, j)
    {
      forall c | c in Writes(a, i)
        ensures c !in Reads(b, j) && c !in Writes(b, j)
      {
        IndexWrites(a, i, c);
        if c in Reads(b, j) { IndexReads(b, j, c); }
        if c in Writes(b, j) { IndexWrites(b, j, c); }
      }
      forall c | c in Writes(b, j)
        ensures c !in Reads(a, i)
      {
        IndexWrites(b, j, c);
        if c in Reads(a, i) { IndexReads(a, i, c); }
      }
    }
  }

  // ----- from the text of the segments before expansion -----

  /** Segments use scalars and elements at the loop index only, and a scalar that one of them
      writes and another uses is among `vars`. */
  predicate TextApart(segs: seq<Stmt>, vars: set<nat>) {
    && (forall x | 0 <= x < |segs| :: IndexData(segs[x]))
    && forall x, y | 0 <= x < y < |segs| :: SharedWithin(segs[x], segs[y], vars)
  }

  predicate SharedWithin(a: Stmt, b: Stmt, vars: set<nat>) {
    && ScalarsWritten(a) * (ScalarsRead(b) + ScalarsWritten(b)) <= vars
    && ScalarsWritten(b) * ScalarsRead(a) <= vars
  }

  lemma {:induction false} SubScalarsIn(ps: seq<Place>, vars: set<nat>, k: Kind)
    requires forall j | 0 <= j < |ps| :: IndexPlace(ps[j])
    ensures ScalarsIn(SubPlaces(ps, vars, k)) == ScalarsIn(ps) - vars
    ensures forall j | 0 <= j < |ps| :: IndexPlace(SubPlaces(ps, vars, k)[j])
  {
    if ps != [] {
      assert IndexPlace(ps[0]);
      assert forall j | 0 <= j < |ps[1..]| :: ps[1..][j] == ps[j + 1];
      SubScalarsIn(ps[1..], vars, k);
    }
  }

  lemma {:induction false} SubScalarsRead(s: Stmt, vars: set<nat>, k: Kind)
    requires IndexData(s)
    ensures IndexData(Sub(s, vars, k)) && ScalarsRead(Sub(s, vars, k)) == ScalarsRead(s) - vars
  {
    match s
    case Skip =>
    case Assign(_, srcs, _) => SubScalarsIn(srcs, vars, k);
    case Seq(s1, s2) =>
      SubScalarsRead(s1, vars, k);
      SubScalarsRead(s2, vars, k);
    case If(srcs, _, thn, els) =>
      SubScalarsIn(srcs, vars, k);
      SubScalarsRead(thn, vars, k);
      SubScalarsRead(els, vars, k);
  }

  lemma {:induction false} SubScalarsWritten(s: Stmt, vars: set<nat>, k: Kind)
    requires IndexData(s)
    ensures ScalarsWritten(Sub(s, vars, k)) == ScalarsWritten(s) - vars
  {
    match s
    case Seq(s1, s2) =>
      SubScalarsWritten(s1, vars, k);
      SubScalarsWritten(s2, vars, k);
    case If(_, _, thn, els) =>
      SubScalarsWritten(thn, vars, k);
      SubScalarsWritten(els, vars, k);
    case _ =>
  }

  /** Replacing variables takes them off the scalars a statement uses. */
  lemma SubIndexData(s: Stmt, vars: set<nat>, k: Kind)
    requires IndexData(s)
    ensures var t := Sub(s, vars, k);
            && IndexData(t) && ScalarsRead(t) == ScalarsRead(s) - vars && ScalarsWritten(t) == ScalarsWritten(s) - vars
  {
    SubScalarsRead(s, vars, k);
    SubScalarsWritten(s, vars, k);
  }

  lemma {:induction false} SubAllAt(segs: seq<Stmt>, vars: set<nat>, k: Kind, x: nat)
    requires x < |segs|
    ensures SubAll(segs, vars, k)[x] == Sub(segs[x], vars, k)
  {
    if x > 0 {
      SubAllAt(segs[1..], vars, k, x - 1);
    }
  }

  /** Expanding the shared scalars is enough to keep the segments from interfering. */
  lemma TextApartIsApart(segs: seq<Stmt>, vars: set<nat>)
    requires TextApart(segs, vars)
    ensures AllApart(SubAll(segs, vars, ByExpansion))
  {
    hide Sub, IndexData, ScalarsRead, ScalarsWritten, Apart;
    var ts := SubAll(segs, vars, ByExpansion);
    forall x, y | 0 <= x < y < |ts|
      ensures Apart(ts[x], ts[y])
    {
      SubAllAt(segs, vars, ByExpansion, x);
      SubAllAt(segs, vars, ByExpansion, y);
      SubIndexData(segs[x], vars, ByExpansion);
      SubIndexData(segs[y], vars, ByExpansion);
      assert SharedWithin(segs[x], segs[y], vars);
      IndexDataIsApart(ts[x], ts[y]);
    }
  }

  lemma SharedLess(a: set<nat>, b: set<nat>, replaced: set<nat>, vars: set<nat>)
    requires a * b <= replaced + vars
    ensures (a - replaced) * (b - replaced) <= vars
  {
    forall x | x in (a - replaced) * (b - replaced)
      ensures x in vars
    {
      assert x in a * b;
    }
  }

  /** Other variables may have been replaced before. */
  lemma TextApartAfterSub(segs: seq<Stmt>, replaced: set<nat>, vars: set<nat>, k: Kind)
    requires TextApart(segs, replaced + vars)
    ensures TextApart(SubAll(segs, replaced, k), vars)
  {
    hide Sub, IndexData, ScalarsRead, ScalarsWritten;
    var ts := SubAll(segs, replaced, k);
    forall x | 0 <= x < |ts|
      ensures IndexData(ts[x])
    {
      SubAllAt(segs, replaced, k, x);
      SubIndexData(segs[x], replaced, k);
    }
    forall x, y | 0 <= x < y < |ts|
      ensures SharedWithin(ts[x], ts[y], vars)
    {
      SubAllAt(segs, replaced, k, x);
      SubAllAt(segs, replaced, k, y);
      SubIndexData(segs[x], replaced, k);
      SubIndexData(segs[y], replaced, k);
      assert SharedWithin(segs[x], segs[y], replaced + vars);
      SharedLess(ScalarsWritten(segs[x]), ScalarsRead(segs[y]) + ScalarsWritten(segs[y]), replaced, vars);
      SharedLess(ScalarsWritten(segs[y]), ScalarsRead(segs[x]), replaced, vars);
      assert ScalarsRead(ts[y]) + ScalarsWritten(ts[y]) == ScalarsRead(segs[y]) + ScalarsWritten(segs[y]) - replaced;
    }
  }

  /** Loop splitting is sound for segments whose text shows that expansion suffices. */
  lemma SplittingFromText(segs: seq<Stmt>, vars: set<nat>, n: int, m: Memory)
    requires Plain(Arrays(SeqAll(segs)), ByExpansion) && Safe(SeqAll(segs), vars, {}) && TextApart(segs, vars)
    ensures n <= EXPANDED_SIZE ==> SplitsRight(segs, vars, n, m)
    ensures SomeAlwaysUses(segs, vars) ==> (SplitsRight(segs, vars, n, m) <==> n <= EXPANDED_SIZE)
  {
    TextApartIsApart(segs, vars);
    SplittingIsSound(segs, vars, n, m);
  }
}
