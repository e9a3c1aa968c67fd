/**
 Loop bodies as batching and loop splitting see them: statements over scalars and arrays,
 run for one value of the loop index.

 The index lives in a cell of its own that no statement names; `At(a)` is the element of
 array `a` the index selects.
 */
module LoopLang {
  import opened Common

  /** Arrays of the program and the ones the passes introduce: one per batched parameter, the
      array of return values, and one per variable expanded across a loop split. */
  datatype ArrayName = Own(n: nat) | Batch(x: nat) | Results | Expanded(x: nat)

  datatype Place = Var(x: nat) | At(a: ArrayName) | Elem(a: ArrayName, index: Place)

  datatype Cell = Scalar(x: nat) | Slot(a: ArrayName, i: int)

  ghost predicate Total(m: imap<Cell, int>) {
    forall c: Cell :: c in m
  }

  type Memory = m: imap<Cell, int> | Total(m) ghost witness (imap c: Cell :: 0)

  datatype Stmt =
    | Skip
    | Assign(dst: Place, srcs: seq<Place>, op: seq<int> -> int)
    | Seq(s1: Stmt, s2: Stmt)
    | If(srcs: seq<Place>, test: seq<int> -> bool, thn: Stmt, els: Stmt)

  ghost function CellOf(p: Place, i: int, m: Memory): Cell {
    match p
    case Var(x) => Scalar(x)
    case At(a) => Slot(a, i)
    case Elem(a, q) => Slot(a, m[CellOf(q, i, m)])
  }

  ghost function Load(p: Place, i: int, m: Memory): int {
    m[CellOf(p, i, m)]
  }

  ghost function Loads(ps: seq<Place>, i: int, m: Memory): seq<int> {
    if ps == [] then [] else [Load(ps[0], i, m)] + Loads(ps[1..], i, m)
  }

  /** Memory after running `s` for index `i`. */
  ghost function Exec(s: Stmt, i: int, m: Memory): Memory {
    match s
    case Skip => m
    case Assign(d, srcs, op) => m[CellOf(d, i, m) := op(Loads(srcs, i, m))]
    case Seq(s1, s2) => Exec(s2, i, Exec(s1, i, m))
    case If(srcs, test, thn, els) => if test(Loads(srcs, i, m)) then Exec(thn, i, m) else Exec(els, i, m)
  }

  /** `s` for the indices `i`, `i + 1`, ... below `n`. */
  ghost function Loop(s: Stmt, i: int, n: int, m: Memory): Memory
    decreases n - i
  {
    if i >= n then m else Loop(s, i + 1, n, Exec(s, i, m))
  }

  // ----- accesses that exist -----

  /** Elements of an expansion array. */
  const EXPANDED_SIZE := 32

  /** Expansion arrays end; the arrays of the caller are as long as the batch. */
  ghost predicate Accessible(c: Cell) {
    c.Slot? && c.a.Expanded? ==> 0 <= c.i < EXPANDED_SIZE
  }

  ghost predicate PlaceInRange(p: Place, i: int, m: Memory) {
    match p
    case Var(_) => true
    case At(a) => Accessible(Slot(a, i))
    case Elem(a, q) => PlaceInRange(q, i, m) && Accessible(CellOf(p, i, m))
  }

  ghost predicate PlacesInRange(ps: seq<Place>, i: int, m: Memory) {
    ps == [] || (PlaceInRange(ps[0], i, m) && PlacesInRange(ps[1..], i, m))
  }

  /** Every element the statement loads or stores on its way through exists. */
  ghost predicate InRange(s: Stmt, i: int, m: Memory) {
    match s
    case Skip => true
    case Assign(d, srcs, _) => PlaceInRange(d, i, m) && PlacesInRange(srcs, i, m)
    case Seq(s1, s2) => InRange(s1, i, m) && InRange(s2, i, Exec(s1, i, m))
    case If(srcs, test, thn, els) =>
      PlacesInRange(srcs, i, m) && if test(Loads(srcs, i, m)) then InRange(thn, i, m) else InRange(els, i, m)
  }

  /** The loop, undefined as soon as an access does not exist. */
  ghost function TryLoop(s: Stmt, i: int, n: int, m: Memory): Option<Memory>
    decreases n - i
  {
    if i >= n then Some(m) else if !InRange(s, i, m) then None else TryLoop(s, i + 1, n, Exec(s, i, m))
  }

  lemma {:induction false} TryLoopServes(s: Stmt, i: int, n: int, m: Memory)
    requires forall j, m' | i <= j < n :: InRange(s, j, m')
    ensures TryLoop(s, i, n, m) == Some(Loop(s, i, n, m))
    decreases n - i
  {
    if i < n {
      TryLoopServes(s, i + 1, n, Exec(s, i, m));
    }
  }

  lemma {:induction false} TryLoopFails(s: Stmt, i: int, n: int, m: Memory, j: int)
    requires i <= j < n && forall m' :: !InRange(s, j, m')
    ensures TryLoop(s, i, n, m) == None
    decreases n - i
  {
    if i < j && InRange(s, i, m) {
      TryLoopFails(s, i + 1, n, Exec(s, i, m), j);
    }
  }

  function SeqAll(segs: seq<Stmt>): Stmt {
    if segs == [] then Skip else Seq(segs[0], SeqAll(segs[1..]))
  }

  // ----- footprints -----

  /** Cells the address of `p` depends on. */
  ghost function AddressCells(p: Place, i: int): iset<Cell> {
    match p
    case Var(_) => iset{}
    case At(_) => iset{}
    case Elem(_, q) => AddressCells(q, i) + TargetCells(q, i)
  }

  /** Cells `p` may stand for. */
  ghost function TargetCells(p: Place, i: int): iset<Cell> {
    match p
    case Var(x) => iset{Scalar(x)}
    case At(a) => iset{Slot(a, i)}
    case Elem(a, _) => iset j: int :: Slot(a, j)
  }

  ghost function ReadCells(ps: seq<Place>, i: int): iset<Cell> {
    if ps == [] then iset{} else AddressCells(ps[0], i) + TargetCells(ps[0], i) + ReadCells(ps[1..], i)
  }

  ghost function Reads(s: Stmt, i: int): iset<Cell> {
    match s
    case Skip => iset{}
    case Assign(d, srcs, _) => AddressCells(d, i) + ReadCells(srcs, i)
    case Seq(s1, s2) => Reads(s1, i) + Reads(s2, i)
    case If(srcs, _, thn, els) => ReadCells(srcs, i) + Reads(thn, i) + Reads(els, i)
  }

  ghost function Writes(s: Stmt, i: int): iset<Cell> {
    match s
    case Skip => iset{}
    case Assign(d, _, _) => TargetCells(d, i)
    case Seq(s1, s2) => Writes(s1, i) + Writes(s2, i)
    case If(_, _, thn, els) => Writes(thn, i) + Writes(els, i)
  }

  ghost predicate Agree(m: Memory, m': Memory, cells: iset<Cell>) {
    forall c | c in cells :: m[c] == m'[c]
  }

  lemma {:induction false} CellInTarget(p: Place, i: int, m: Memory)
    ensures CellOf(p, i, m) in TargetCells(p, i)
  {
  }

  lemma {:induction false} SameAddress(p: Place, i: int, m: Memory, m': Memory)
    requires Agree(m, m', AddressCells(p, i))
    ensures CellOf(p, i, m) == CellOf(p, i, m')
  {
    match p
    case Elem(a, q) =>
      SameAddress(q, i, m, m');
      CellInTarget(q, i, m);
    case _ =>
  }

  lemma {:induction false} SameLoads(ps: seq<Place>, i: int, m: Memory, m': Memory)
    requires Agree(m, m', ReadCells(ps, i))
    ensures Loads(ps, i, m) == Loads(ps, i, m')
  {
    if ps != [] {
      SameAddress(ps[0], i, m, m');
      CellInTarget(ps[0], i, m);
      SameLoads(ps[1..], i, m, m');
    }
  }

  /** A statement changes only cells of its write footprint. */
  lemma {:induction false} ExecFrame(s: Stmt, i: int, m: Memory, c: Cell)
    requires c !in Writes(s, i)
    ensures Exec(s, i, m)[c] == m[c]
  {
    match s
    case Skip =>
    case Assign(d, srcs, op) => CellInTarget(d, i, m);
    case Seq(s1, s2) =>
      ExecFrame(s1, i, m, c);
      ExecFrame(s2, i, Exec(s1, i, m), c);
    case If(srcs, test, thn, els) =>
      ExecFrame(thn, i, m, c);
      ExecFrame(els, i, m, c);
  }

  /** What a statement does to a set of cells that includes its read footprint depends on that
      set only. */
  lemma {:induction false} ExecAgree(s: Stmt, i: int, m: Memory, m': Memory, cells: iset<Cell>)
    requires Reads(s, i) <= cells && Agree(m, m', cells)
    ensures Agree(Exec(s, i, m), Exec(s, i, m'), cells)
  {
    match s
    case Skip =>
    case Assign(d, srcs, op) =>
      SameAddress(d, i, m, m');
      SameLoads(srcs, i, m, m');
    case Seq(s1, s2) =>
      ExecAgree(s1, i, m, m', cells);
      ExecAgree(s2, i, Exec(s1, i, m), Exec(s1, i, m'), cells);
    case If(srcs, test, thn, els) =>
      SameLoads(srcs, i, m, m');
      ExecAgree(thn, i, m, m', cells);
      ExecAgree(els, i, m, m', cells);
  }

  // ----- defined before use -----

  predicate ReadOk(p: Place, vars: set<nat>, defined: set<nat>) {
    match p
    case Var(x) => x in vars ==> x in defined
    case At(_) => true
    case Elem(_, q) => ReadOk(q, vars, defined)
  }

  predicate WriteOk(p: Place, vars: set<nat>, defined: set<nat>) {
    p.Elem? ==> ReadOk(p.index, vars, defined)
  }

  predicate ReadsOk(ps: seq<Place>, vars: set<nat>, defined: set<nat>) {
    forall k | 0 <= k < |ps| :: ReadOk(ps[k], vars, defined)
  }

  /** Variables among `vars` surely assigned after `s`. */
  function Defines(s: Stmt, vars: set<nat>, defined: set<nat>): set<nat> {
    match s
    case Skip => defined
    case Assign(d, _, _) => if d.Var? && d.x in vars then defined + {d.x} else defined
    case Seq(s1, s2) => Defines(s2, vars, Defines(s1, vars, defined))
    case If(_, _, thn, els) => Defines(thn, vars, defined) * Defines(els, vars, defined)
  }

  /** No path of `s` reads a variable among `vars` before assigning it. */
  predicate Safe(s: Stmt, vars: set<nat>, defined: set<nat>) {
    match s
    case Skip => true
    case Assign(d, srcs, _) => WriteOk(d, vars, defined) && ReadsOk(srcs, vars, defined)
    case Seq(s1, s2) => Safe(s1, vars, defined) && Safe(s2, vars, Defines(s1, vars, defined))
    case If(srcs, _, thn, els) => ReadsOk(srcs, vars, defined) && Safe(thn, vars, defined) && Safe(els, vars, defined)
  }

  /** Arrays a place or statement names. */
  function ArraysOf(p: Place): set<ArrayName> {
    match p
    case Var(_) => {}
    case At(a) => {a}
    case Elem(a, q) => {a} + ArraysOf(q)
  }

  function ArraysIn(ps: seq<Place>): set<ArrayName> {
    if ps == [] then {} else ArraysOf(ps[0]) + ArraysIn(ps[1..])
  }

  function Arrays(s: Stmt): set<ArrayName> {
    match s
    case Skip => {}
    case Assign(d, srcs, _) => ArraysOf(d) + ArraysIn(srcs)
    case Seq(s1, s2) => Arrays(s1) + Arrays(s2)
    case If(srcs, _, thn, els) => ArraysIn(srcs) + Arrays(thn) + Arrays(els)
  }

  /** The two memories differ at most in variables not yet defined and in arrays left aside. */
  ghost predicate Alike(m: Memory, m': Memory, vars: set<nat>, defined: set<nat>, aside: iset<ArrayName>) {
    && (forall x: nat :: x !in vars || x in defined ==> m[Scalar(x)] == m'[Scalar(x)])
    && (forall a, j :: a !in aside ==> m[Slot(a, j)] == m'[Slot(a, j)])
  }

  ghost predicate Avoids(arrays: set<ArrayName>, aside: iset<ArrayName>) {
    forall a | a in arrays :: a !in aside
  }

  lemma {:induction false} AlikeLoad(p: Place, i: int, m: Memory, m': Memory, vars: set<nat>, defined: set<nat>, aside: iset<ArrayName>)
    requires Alike(m, m', vars, defined, aside) && ReadOk(p, vars, defined) && Avoids(ArraysOf(p), aside)
    ensures CellOf(p, i, m) == CellOf(p, i, m') && Load(p, i, m) == Load(p, i, m')
  {
    match p
    case Elem(a, q) => AlikeLoad(q, i, m, m', vars, defined, aside);
    case _ =>
  }

  lemma {:induction false} AlikeLoads(ps: seq<Place>, i: int, m: Memory, m': Memory, vars: set<nat>, defined: set<nat>, aside: iset<ArrayName>)
    requires Alike(m, m', vars, defined, aside) && ReadsOk(ps, vars, defined) && Avoids(ArraysIn(ps), aside)
    ensures Loads(ps, i, m) == Loads(ps, i, m')
  {
    if ps != [] {
      AlikeLoad(ps[0], i, m, m', vars, defined, aside);
      assert forall k | 0 <= k < |ps[1..]| :: ps[1..][k] == ps[k + 1];
      AlikeLoads(ps[1..], i, m, m', vars, defined, aside);
    }
  }

  lemma {:induction false} DefinesGrows(s: Stmt, vars: set<nat>, defined: set<nat>)
    ensures defined <= Defines(s, vars, defined)
  {
    match s
    case Seq(s1, s2) =>
      DefinesGrows(s1, vars, defined);
      DefinesGrows(s2, vars, Defines(s1, vars, defined));
    case If(_, _, thn, els) =>
      DefinesGrows(thn, vars, defined);
      DefinesGrows(els, vars, defined);
    case _ =>
  }

  /** The analysis is sound: started with different values of undefined variables, a safe
      statement ends alike, except for variables still undefined. */
  lemma {:induction false} SafeEndsAlike(s: Stmt, i: int, m: Memory, m': Memory, vars: set<nat>, defined: set<nat>, aside: iset<ArrayName>)
    requires Safe(s, vars, defined) && Alike(m, m', vars, defined, aside) && Avoids(Arrays(s), aside)
    ensures Alike(Exec(s, i, m), Exec(s, i, m'), vars, Defines(s, vars, defined), aside)
  {
    match s
    case Skip =>
    case Assign(d, srcs, op) =>
      AlikeLoads(srcs, i, m, m', vars, defined, aside);
      if d.Elem? {
        AlikeLoad(d.index, i, m, m', vars, defined, aside);
      }
    case Seq(s1, s2) =>
      SafeEndsAlike(s1, i, m, m', vars, defined, aside);
      SafeEndsAlike(s2, i, Exec(s1, i, m), Exec(s1, i, m'), vars, Defines(s1, vars, defined), aside);
    case If(srcs, test, thn, els) =>
      AlikeLoads(srcs, i, m, m', vars, defined, aside);
      SafeEndsAlike(thn, i, m, m', vars, defined, aside);
      SafeEndsAlike(els, i, m, m', vars, defined, aside);
  }
}
