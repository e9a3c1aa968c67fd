/**
 Replacing a variable by the element of an array the loop index selects: the step batching
 applies to parameters and loop splitting to variables that live across a split.
 */
module Expansion {
  import opened Common
  import opened LoopLang

  datatype Kind = ByBatch | ByExpansion

  /** The array that replaces variable `x`. */
  function ArrayFor(k: Kind, x: nat): ArrayName {
    match k
    case ByBatch => Batch(x)
    case ByExpansion => Expanded(x)
  }

  predicate OfKind(a: ArrayName, k: Kind) {
    match k
    case ByBatch => a.Batch?
    case ByExpansion => a.Expanded?
  }

  function SubPlace(p: Place, vars: set<nat>, k: Kind): Place {
    match p
    case Var(x) => if x in vars then At(ArrayFor(k, x)) else p
    case At(_) => p
    case Elem(a, q) => Elem(a, SubPlace(q, vars, k))
  }

  function SubPlaces(ps: seq<Place>, vars: set<nat>, k: Kind): (r: seq<Place>)
    ensures |r| == |ps|
  {
    if ps == [] then [] else [SubPlace(ps[0], vars, k)] + SubPlaces(ps[1..], vars, k)
  }

  /** Every use of a variable in `vars` becomes an element access. */
  function Sub(s: Stmt, vars: set<nat>, k: Kind): Stmt {
    match s
    case Skip => Skip
    case Assign(d, srcs, op) => Assign(SubPlace(d, vars, k), SubPlaces(srcs, vars, k), op)
    case Seq(s1, s2) => Seq(Sub(s1, vars, k), Sub(s2, vars, k))
    case If(srcs, test, thn, els) => If(SubPlaces(srcs, vars, k), test, Sub(thn, vars, k), Sub(els, vars, k))
  }

  function SubAll(segs: seq<Stmt>, vars: set<nat>, k: Kind): (r: seq<Stmt>)
    ensures |r| == |segs|
  {
    if segs == [] then [] else [Sub(segs[0], vars, k)] + SubAll(segs[1..], vars, k)
  }

  /** No array of the replacing kind is named yet. */
  predicate Plain(arrays: set<ArrayName>, k: Kind) {
    forall a | a in arrays :: !OfKind(a, k)
  }

  ghost function KindArrays(k: Kind): iset<ArrayName> {
    iset a: ArrayName | OfKind(a, k)
  }

  /** The memory the original statement sees at index `i`: replaced variables hold their elements,
      and the elements themselves are out of sight. */
  ghost function Project(m: Memory, vars: set<nat>, k: Kind, i: int): Memory {
    imap c: Cell ::
      match c
      case Scalar(x) => if x in vars then m[Slot(ArrayFor(k, x), i)] else m[c]
      case Slot(a, j) => if OfKind(a, k) && j == i then 0 else m[c]
  }

  lemma {:induction false} SubLoad(p: Place, vars: set<nat>, k: Kind, i: int, m: Memory)
    requires Plain(ArraysOf(p), k)
    ensures Load(SubPlace(p, vars, k), i, m) == Load(p, i, Project(m, vars, k, i))
    ensures CellOf(SubPlace(p, vars, k), i, m)
         == if p.Var? && p.x in vars then Slot(ArrayFor(k, p.x), i) else CellOf(p, i, Project(m, vars, k, i))
  {
    match p
    case Elem(a, q) =>
      SubLoad(q, vars, k, i, m);
      assert a in ArraysOf(p);
    case At(a) => assert a in ArraysOf(p);
    case Var(_) =>
  }

  lemma {:induction false} SubLoads(ps: seq<Place>, vars: set<nat>, k: Kind, i: int, m: Memory)
    requires Plain(ArraysIn(ps), k)
    ensures Loads(SubPlaces(ps, vars, k), i, m) == Loads(ps, i, Project(m, vars, k, i))
  {
    if ps != [] {
      SubLoad(ps[0], vars, k, i, m);
      SubLoads(ps[1..], vars, k, i, m);
    }
  }

  /** The rewritten statement does to the elements what the original does to the variables. */
  lemma {:induction false} SubExec(s: Stmt, vars: set<nat>, k: Kind, i: int, m: Memory)
    requires Plain(Arrays(s), k)
    ensures Project(Exec(Sub(s, vars, k), i, m), vars, k, i) == Exec(s, i, Project(m, vars, k, i))
  {
    match s
    case Skip =>
    case Assign(d, srcs, op) =>
      SubLoads(srcs, vars, k, i, m);
      SubLoad(d, vars, k, i, m);
      SubAssign(d, op(Loads(srcs, i, Project(m, vars, k, i))), vars, k, i, m);
    case Seq(s1, s2) =>
      SubExec(s1, vars, k, i, m);
      SubExec(s2, vars, k, i, Exec(Sub(s1, vars, k), i, m));
    case If(srcs, test, thn, els) =>
      SubLoads(srcs, vars, k, i, m);
      SubExec(thn, vars, k, i, m);
      SubExec(els, vars, k, i, m);
  }

  lemma SubAssign(d: Place, v: int, vars: set<nat>, k: Kind, i: int, m: Memory)
    requires Plain(ArraysOf(d), k)
    ensures Project(m[CellOf(SubPlace(d, vars, k), i, m) := v], vars, k, i)
         == Project(m, vars, k, i)[CellOf(d, i, Project(m, vars, k, i)) := v]
  {
    SubLoad(d, vars, k, i, m);
    var c', c := CellOf(SubPlace(d, vars, k), i, m), CellOf(d, i, Project(m, vars, k, i));
    if !(d.Var? && d.x in vars) {
      assert d.Var? || d.a in ArraysOf(d);
      assert c' == c && (c.Scalar? ==> c.x !in vars) && (c.Slot? ==> !OfKind(c.a, k));
    }
    var l, r := Project(m[c' := v], vars, k, i), Project(m, vars, k, i)[c := v];
    forall e: Cell
      ensures l[e] == r[e]
    {
      if e.Scalar? && e.x in vars {
        assert l[e] == m[c' := v][Slot(ArrayFor(k, e.x), i)];
      } else if e.Slot? && OfKind(e.a, k) && e.i == i {
        assert c != e;
      } else {
        assert l[e] == m[c' := v][e];
      }
    }
  }

  /** The rewritten statement touches no replaced variable and, of the replacing arrays, only
      the elements at its index. */
  lemma {:induction false} SubTargets(p: Place, vars: set<nat>, k: Kind, i: int, c: Cell)
    requires Plain(ArraysOf(p), k) && c in TargetCells(SubPlace(p, vars, k), i)
    ensures c.Scalar? ==> c.x !in vars
    ensures c.Slot? && OfKind(c.a, k) ==> c.i == i
  {
    match p
    case Elem(a, q) => assert a in ArraysOf(p);
    case _ =>
  }

  lemma {:induction false} SubWrites(s: Stmt, vars: set<nat>, k: Kind, i: int, c: Cell)
    requires Plain(Arrays(s), k) && c in Writes(Sub(s, vars, k), i)
    ensures c.Scalar? ==> c.x !in vars
    ensures c.Slot? && OfKind(c.a, k) ==> c.i == i
  {
    match s
    case Assign(d, _, _) => SubTargets(d, vars, k, i, c);
    case Seq(s1, s2) =>
      if c in Writes(Sub(s1, vars, k), i) {
        SubWrites(s1, vars, k, i, c);
      } else {
        SubWrites(s2, vars, k, i, c);
      }
    case If(_, _, thn, els) =>
      if c in Writes(Sub(thn, vars, k), i) {
        SubWrites(thn, vars, k, i, c);
      } else {
        SubWrites(els, vars, k, i, c);
      }
  }

  // ----- expanding variables keeps a loop -----

  /** One iteration: a body that defines the expanded variables before use runs alike on
      variables and on elements. */
  lemma ExpandStep(s: Stmt, vars: set<nat>, k: Kind, i: int, m: Memory, m': Memory)
    requires Plain(Arrays(s), k) && Safe(s, vars, {}) && Alike(m, m', vars, {}, KindArrays(k))
    ensures Alike(Exec(s, i, m), Exec(Sub(s, vars, k), i, m'), vars, {}, KindArrays(k))
  {
    var seen := Project(m', vars, k, i);
    SubExec(s, vars, k, i, m');
    SafeEndsAlike(s, i, m, seen, vars, {}, KindArrays(k));
  }

  /** Expanding variables keeps a loop, for every trip count; with arrays that end, every access exists
      for trip counts up to their size. */
  lemma {:induction false} ExpandLoop(s: Stmt, vars: set<nat>, k: Kind, i: int, n: int, m: Memory, m': Memory)
    requires Plain(Arrays(s), k) && Safe(s, vars, {}) && Alike(m, m', vars, {}, KindArrays(k))
    ensures Alike(Loop(s, i, n, m), Loop(Sub(s, vars, k), i, n, m'), vars, {}, KindArrays(k))
    ensures k == ByExpansion && 0 <= i && n <= EXPANDED_SIZE ==>
              TryLoop(Sub(s, vars, k), i, n, m') == Some(Loop(Sub(s, vars, k), i, n, m'))
    decreases n - i
  {
    if i < n {
      if k == ByExpansion && 0 <= i && n <= EXPANDED_SIZE {
        SubInRange(s, vars, i, m');
      }
      ExpandStep(s, vars, k, i, m, m');
      ExpandLoop(s, vars, k, i + 1, n, Exec(s, i, m), Exec(Sub(s, vars, k), i, m'));
    }
  }

  lemma {:induction false} SubSeqAll(segs: seq<Stmt>, vars: set<nat>, k: Kind)
    ensures SeqAll(SubAll(segs, vars, k)) == Sub(SeqAll(segs), vars, k)
  {
    if segs != [] {
      SubSeqAll(segs[1..], vars, k);
    }
  }

  // ----- the arrays are large enough -----

  /** Elements of expansion arrays touched by the first `n` iterations exist. */
  ghost predicate InBounds(s: Stmt, n: int) {
    forall i, c | 0 <= i < n && c in Reads(s, i) + Writes(s, i) && c.Slot? && c.a.Expanded? :: 0 <= c.i < EXPANDED_SIZE
  }

  predicate Uses(p: Place, vars: set<nat>) {
    match p
    case Var(x) => x in vars
    case At(_) => false
    case Elem(_, q) => Uses(q, vars)
  }

  predicate UsesAny(ps: seq<Place>, vars: set<nat>) {
    ps != [] && (Uses(ps[0], vars) || UsesAny(ps[1..], vars))
  }

  /** The statement names one of the variables. */
  predicate Mentions(s: Stmt, vars: set<nat>) {
    match s
    case Skip => false
    case Assign(d, srcs, _) => Uses(d, vars) || UsesAny(srcs, vars)
    case Seq(s1, s2) => Mentions(s1, vars) || Mentions(s2, vars)
    case If(srcs, _, thn, els) => UsesAny(srcs, vars) || Mentions(thn, vars) || Mentions(els, vars)
  }

  lemma {:induction false} PlaceElements(p: Place, vars: set<nat>, i: int)
    requires Plain(ArraysOf(p), ByExpansion)
    ensures var q := SubPlace(p, vars, ByExpansion);
            forall c | c in AddressCells(q, i) + TargetCells(q, i) && c.Slot? && c.a.Expanded? :: c.i == i
    ensures Uses(p, vars) ==>
              var q := SubPlace(p, vars, ByExpansion);
              exists c :: c in AddressCells(q, i) + TargetCells(q, i) && c.Slot? && c.a.Expanded?
  {
    match p
    case Elem(a, q) =>
      PlaceElements(q, vars, i);
      assert a in ArraysOf(p);
    case Var(x) =>
      if x in vars {
        assert Slot(Expanded(x), i) in TargetCells(SubPlace(p, vars, ByExpansion), i);
      }
    case At(a) => assert a in ArraysOf(p);
  }

  lemma {:induction false} PlacesElements(ps: seq<Place>, vars: set<nat>, i: int)
    requires Plain(ArraysIn(ps), ByExpansion)
    ensures var qs := SubPlaces(ps, vars, ByExpansion);
            forall c | c in ReadCells(qs, i) && c.Slot? && c.a.Expanded? :: c.i == i
    ensures UsesAny(ps, vars) ==>
              exists c :: c in ReadCells(SubPlaces(ps, vars, ByExpansion), i) && c.Slot? && c.a.Expanded?
  {
    if ps != [] {
      PlaceElements(ps[0], vars, i);
      PlacesElements(ps[1..], vars, i);
    }
  }

  /** Iteration `i` touches expansion arrays at index `i` only, and does touch them if the body
      names an expanded variable. */
  lemma {:induction false} StatementElements(s: Stmt, vars: set<nat>, i: int)
    requires Plain(Arrays(s), ByExpansion)
    ensures var t := Sub(s, vars, ByExpansion);
            forall c | c in Reads(t, i) + Writes(t, i) && c.Slot? && c.a.Expanded? :: c.i == i
    ensures Mentions(s, vars) ==>
              var t := Sub(s, vars, ByExpansion);
              exists c :: c in Reads(t, i) + Writes(t, i) && c.Slot? && c.a.Expanded?
  {
    match s
    case Skip =>
    case Assign(d, srcs, _) =>
      PlaceElements(d, vars, i);
      PlacesElements(srcs, vars, i);
    case Seq(s1, s2) =>
      StatementElements(s1, vars, i);
      StatementElements(s2, vars, i);
    case If(srcs, _, thn, els) =>
      PlacesElements(srcs, vars, i);
      StatementElements(thn, vars, i);
      StatementElements(els, vars, i);
  }

  /** Exactly the trip counts up to the array size stay in bounds. */
  lemma InBoundsIff(s: Stmt, vars: set<nat>, n: int)
    requires Plain(Arrays(s), ByExpansion) && Mentions(s, vars)
    ensures InBounds(Sub(s, vars, ByExpansion), n) <==> n <= 32
  {
    var t := Sub(s, vars, ByExpansion);
    forall i
      ensures forall c | c in Reads(t, i) + Writes(t, i) && c.Slot? && c.a.Expanded? :: c.i == i
    {
      StatementElements(s, vars, i);
    }
    if n > EXPANDED_SIZE {
      StatementElements(s, vars, EXPANDED_SIZE);
      var c :| c in Reads(t, EXPANDED_SIZE) + Writes(t, EXPANDED_SIZE) && c.Slot? && c.a.Expanded?;
    }
  }

  lemma {:induction false} FootprintInRange(s: Stmt, i: int, m: Memory)
    requires forall c | c in Reads(s, i) + Writes(s, i) :: Accessible(c)
    ensures InRange(s, i, m)
  {
    match s
    case Skip =>
    case Assign(d, srcs, _) =>
      PlaceFootprint(d, i, m);
      PlacesFootprint(srcs, i, m);
    case Seq(s1, s2) =>
      FootprintInRange(s1, i, m);
      FootprintInRange(s2, i, Exec(s1, i, m));
    case If(srcs, _, thn, els) =>
      PlacesFootprint(srcs, i, m);
      FootprintInRange(thn, i, m);
      FootprintInRange(els, i, m);
  }

  lemma {:induction false} PlaceFootprint(p: Place, i: int, m: Memory)
    requires forall c | c in AddressCells(p, i) + TargetCells(p, i) :: Accessible(c)
    ensures PlaceInRange(p, i, m)
  {
    CellInTarget(p, i, m);
    if p.Elem? {
      PlaceFootprint(p.index, i, m);
    }
  }

  lemma {:induction false} PlacesFootprint(ps: seq<Place>, i: int, m: Memory)
    requires forall c | c in ReadCells(ps, i) :: Accessible(c)
    ensures PlacesInRange(ps, i, m)
  {
    if ps != [] {
      PlaceFootprint(ps[0], i, m);
      PlacesFootprint(ps[1..], i, m);
    }
  }

  /** Within the size of the arrays the rewritten statement makes no access that does not exist. */
  lemma SubInRange(s: Stmt, vars: set<nat>, i: int, m: Memory)
    requires Plain(Arrays(s), ByExpansion) && 0 <= i < EXPANDED_SIZE
    ensures InRange(Sub(s, vars, ByExpansion), i, m)
  {
    StatementElements(s, vars, i);
    FootprintInRange(Sub(s, vars, ByExpansion), i, m);
  }

  /** Every way through the statement uses one of the variables. */
  predicate AlwaysUses(s: Stmt, vars: set<nat>) {
    match s
    case Skip => false
    case Assign(d, srcs, _) => Uses(d, vars) || UsesAny(srcs, vars)
    case Seq(s1, s2) => AlwaysUses(s1, vars) || AlwaysUses(s2, vars)
    case If(srcs, _, thn, els) => UsesAny(srcs, vars) || (AlwaysUses(thn, vars) && AlwaysUses(els, vars))
  }

  lemma {:induction false} PlaceOutOfRange(p: Place, vars: set<nat>, i: int, m: Memory)
    requires Uses(p, vars) && !(0 <= i < EXPANDED_SIZE)
    ensures !PlaceInRange(SubPlace(p, vars, ByExpansion), i, m)
  {
    if p.Elem? {
      PlaceOutOfRange(p.index, vars, i, m);
    }
  }

  lemma {:induction false} PlacesOutOfRange(ps: seq<Place>, vars: set<nat>, i: int, m: Memory)
    requires UsesAny(ps, vars) && !(0 <= i < EXPANDED_SIZE)
    ensures !PlacesInRange(SubPlaces(ps, vars, ByExpansion), i, m)
  {
    if Uses(ps[0], vars) {
      PlaceOutOfRange(ps[0], vars, i, m);
    } else {
      PlacesOutOfRange(ps[1..], vars, i, m);
    }
  }

  lemma {:induction false} SubOutOfRange(s: Stmt, vars: set<nat>, i: int, m: Memory)
    requires AlwaysUses(s, vars) && !(0 <= i < EXPANDED_SIZE)
    ensures !InRange(Sub(s, vars, ByExpansion), i, m)
  {
    match s
    case Assign(d, srcs, _) =>
      if Uses(d, vars) { PlaceOutOfRange(d, vars, i, m); } else { PlacesOutOfRange(srcs, vars, i, m); }
    case Seq(s1, s2) =>
      if AlwaysUses(s1, vars) {
        SubOutOfRange(s1, vars, i, m);
      } else {
        SubOutOfRange(s2, vars, i, Exec(Sub(s1, vars, ByExpansion), i, m));
      }
    case If(srcs, _, thn, els) =>
      if UsesAny(srcs, vars) {
        PlacesOutOfRange(srcs, vars, i, m);
      } else {
        SubOutOfRange(thn, vars, i, m);
        SubOutOfRange(els, vars, i, m);
      }
  }

  /** A loop over elements is defined for trip counts up to the size of the arrays, and for no
      others if every iteration uses an expanded variable. */
  lemma ExpandedLoopServes(s: Stmt, vars: set<nat>, n: int, m: Memory)
    requires Plain(Arrays(s), ByExpansion)
    ensures var t := Sub(s, vars, ByExpansion);
            && (n <= EXPANDED_SIZE ==> TryLoop(t, 0, n, m) == Some(Loop(t, 0, n, m)))
            && (AlwaysUses(s, vars) && n > EXPANDED_SIZE ==> TryLoop(t, 0, n, m) == None)
  {
    var t := Sub(s, vars, ByExpansion);
    if n <= EXPANDED_SIZE {
      forall j, m' | 0 <= j < n
        ensures InRange(t, j, m')
      {
        SubInRange(s, vars, j, m');
      }
      TryLoopServes(t, 0, n, m);
    } else if AlwaysUses(s, vars) {
      forall m'
        ensures !InRange(t, EXPANDED_SIZE, m')
      {
        SubOutOfRange(s, vars, EXPANDED_SIZE, m');
      }
      TryLoopFails(t, 0, n, m, EXPANDED_SIZE);
    }
  }

  /** Without expansion arrays every access exists. */
  lemma {:induction false} PlainInRange(s: Stmt, i: int, m: Memory)
    requires Plain(Arrays(s), ByExpansion)
    ensures InRange(s, i, m)
  {
    match s
    case Skip =>
    case Assign(d, srcs, _) =>
      PlainPlaceInRange(d, i, m);
      PlainPlacesInRange(srcs, i, m);
    case Seq(s1, s2) =>
      PlainInRange(s1, i, m);
      PlainInRange(s2, i, Exec(s1, i, m));
    case If(srcs, _, thn, els) =>
      PlainPlacesInRange(srcs, i, m);
      PlainInRange(thn, i, m);
      PlainInRange(els, i, m);
  }

  lemma {:induction false} PlainPlaceInRange(p: Place, i: int, m: Memory)
    requires Plain(ArraysOf(p), ByExpansion)
    ensures PlaceInRange(p, i, m)
  {
    match p
    case Var(_) =>
    case At(a) => assert a in ArraysOf(p);
    case Elem(a, q) =>
      assert a in ArraysOf(p);
      PlainPlaceInRange(q, i, m);
  }

  lemma {:induction false} PlainPlacesInRange(ps: seq<Place>, i: int, m: Memory)
    requires Plain(ArraysIn(ps), ByExpansion)
    ensures PlacesInRange(ps, i, m)
  {
    if ps != [] {
      PlainPlaceInRange(ps[0], i, m);
      PlainPlacesInRange(ps[1..], i, m);
    }
  }

  lemma PlainLoopServes(s: Stmt, n: int, m: Memory)
    requires Plain(Arrays(s), ByExpansion)
    ensures TryLoop(s, 0, n, m) == Some(Loop(s, 0, n, m))
  {
    forall j, m' | 0 <= j < n
      ensures InRange(s, j, m')
    {
      PlainInRange(s, j, m');
    }
    TryLoopServes(s, 0, n, m);
  }
}
