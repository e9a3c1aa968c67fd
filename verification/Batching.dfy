/**
 Batching: a function that processes one packet becomes a loop over argument arrays that
 stores its results in an array.  Here it is the part after the batch marker that is called:
 the reference calls it once per element, in order, with whatever its local variables happen
 to hold at each call.  `OriginalCalls` adds the code before the marker.
 */
module Batching {
  import opened Common
  import opened LoopLang
  import opened Expansion
  import opened LoopFission

  /** A function, or the part of one after the batch marker: parameters to batch, local variables, the
      body as consecutive segments, and the returned value. */
  datatype Function = Function(params: set<nat>, locals: set<nat>, segs: seq<Stmt>,
                               retSrcs: seq<Place>, retOp: seq<int> -> int)

  function Body(f: Function): Stmt {
    SeqAll(f.segs)
  }

  /** Only arrays of the program are named. */
  predicate OwnOnly(arrays: set<ArrayName>) {
    forall a | a in arrays :: a.Own?
  }

  predicate OwnArrays(f: Function) {
    OwnOnly(Arrays(Body(f))) && OwnOnly(ArraysIn(f.retSrcs))
  }

  /** Locals are set before they are used. */
  ghost predicate WellFormed(f: Function) {
    && f.params !! f.locals
    && OwnArrays(f)
    && Safe(Body(f), f.locals, {})
    && ReadsOk(f.retSrcs, f.locals, Defines(Body(f), f.locals, {}))
  }

  // ----- the reference: one call per element -----

  /** Memory at the start of a call on element `i`: parameters are set, locals hold garbage. */
  ghost function Enter(f: Function, i: int, m: Memory, garbage: nat -> int): Memory {
    imap c: Cell ::
      match c
      case Scalar(x) =>
        if x in f.params then m[Slot(Batch(x), i)] else if x in f.locals then garbage(x) else m[c]
      case Slot(_, _) => m[c]
  }

  ghost function CallMemory(f: Function, i: int, m: Memory, garbage: nat -> int): Memory {
    Exec(Body(f), i, Enter(f, i, m, garbage))
  }

  ghost function CallValue(f: Function, i: int, m: Memory, garbage: nat -> int): int {
    f.retOp(Loads(f.retSrcs, i, CallMemory(f, i, m, garbage)))
  }

  /** Memory after the call: what it did to shared data, and its result. */
  ghost function Leave(f: Function, i: int, m: Memory, garbage: nat -> int): Memory {
    imap c: Cell ::
      match c
      case Scalar(x) =>
        if x in f.params || x in f.locals then m[c] else CallMemory(f, i, m, garbage)[c]
      case Slot(a, j) =>
        if a.Own? then CallMemory(f, i, m, garbage)[c]
        else if a == Results && j == i then CallValue(f, i, m, garbage)
        else m[c]
  }

  ghost function Calls(f: Function, i: int, n: int, m: Memory, garbage: int -> nat -> int): Memory
    decreases n - i
  {
    if i >= n then m else Calls(f, i + 1, n, Leave(f, i, m, garbage(i)), garbage)
  }

  // ----- the batched body -----

  /** The store of the returned value into the result array. */
  function StoreResult(f: Function): Stmt {
    Assign(At(Results), SubPlaces(f.retSrcs, f.params, ByBatch), f.retOp)
  }

  function WithResult(segs: seq<Stmt>, store: Stmt): (r: seq<Stmt>)
    ensures r != []
  {
    if segs == [] then [store]
    else if |segs| == 1 then [Seq(segs[0], store)]
    else [segs[0]] + WithResult(segs[1..], store)
  }

  /** The loop body of the batched function, segment by segment. */
  function BatchSegments(f: Function): seq<Stmt> {
    WithResult(SubAll(f.segs, f.params, ByBatch), StoreResult(f))
  }

  lemma {:induction false} ExecWithResult(segs: seq<Stmt>, store: Stmt, i: int, m: Memory)
    ensures Exec(SeqAll(WithResult(segs, store)), i, m) == Exec(store, i, Exec(SeqAll(segs), i, m))
  {
    if segs == [] {
      assert SeqAll([store]) == Seq(store, SeqAll([store][1..]));
    } else if |segs| == 1 {
      var t := Seq(segs[0], store);
      assert SeqAll([t]) == Seq(t, SeqAll([t][1..]));
      assert SeqAll(segs[1..]) == Skip;
    } else {
      assert WithResult(segs, store)[1..] == WithResult(segs[1..], store);
      ExecWithResult(segs[1..], store, i, Exec(segs[0], i, m));
    }
  }

  function BatchBody(f: Function): Stmt {
    SeqAll(BatchSegments(f))
  }

  /** One iteration of the batched loop: the rewritten body, then the result. */
  lemma BatchIteration(f: Function, i: int, m: Memory)
    ensures var m1 := Exec(Sub(Body(f), f.params, ByBatch), i, m);
            Exec(BatchBody(f), i, m) == m1[Slot(Results, i) := f.retOp(Loads(SubPlaces(f.retSrcs, f.params, ByBatch), i, m1))]
  {
    SubSeqAll(f.segs, f.params, ByBatch);
    ExecWithResult(SubAll(f.segs, f.params, ByBatch), StoreResult(f), i, m);
  }

  // ----- batching is iteration -----

  /** Shared data: shared scalars, the program's arrays, and results. */
  ghost predicate SameShared(f: Function, a: Memory, b: Memory) {
    && (forall x: nat | x !in f.params && x !in f.locals :: a[Scalar(x)] == b[Scalar(x)])
    && (forall k: nat, j: int :: a[Slot(Own(k), j)] == b[Slot(Own(k), j)])
    && (forall j: int :: a[Slot(Results, j)] == b[Slot(Results, j)])
  }

  /** Arguments of the elements from `i` on are still those of the caller. */
  ghost predicate SameArguments(a: Memory, b: Memory, i: int) {
    forall x: nat, j: int | j >= i :: a[Slot(Batch(x), j)] == b[Slot(Batch(x), j)]
  }

  /** All that callers can see: shared data and the argument arrays. */
  ghost predicate SameSeen(f: Function, a: Memory, b: Memory) {
    SameShared(f, a, b) && forall x: nat, j: int :: a[Slot(Batch(x), j)] == b[Slot(Batch(x), j)]
  }

  ghost function NotOwn(): iset<ArrayName> {
    iset a: ArrayName | !a.Own?
  }

  lemma {:induction false} WritesArrays(s: Stmt, i: int, c: Cell)
    requires c in Writes(s, i) && c.Slot?
    ensures c.a in Arrays(s)
  {
    match s
    case Assign(d, _, _) =>
    case Seq(s1, s2) =>
      if c in Writes(s1, i) { WritesArrays(s1, i, c); } else { WritesArrays(s2, i, c); }
    case If(_, _, thn, els) =>
      if c in Writes(thn, i) { WritesArrays(thn, i, c); } else { WritesArrays(els, i, c); }
  }

  /** The array of one of the replaced variables. */
  predicate ReplacedBy(a: ArrayName, vars: set<nat>, k: Kind) {
    OfKind(a, k) && a.x in vars
  }

  lemma {:induction false} SubPlaceArrays(p: Place, vars: set<nat>, k: Kind)
    ensures forall a | a in ArraysOf(SubPlace(p, vars, k)) :: a in ArraysOf(p) || ReplacedBy(a, vars, k)
  {
    match p
    case Elem(_, q) => SubPlaceArrays(q, vars, k);
    case _ =>
  }

  lemma {:induction false} SubPlacesArrays(ps: seq<Place>, vars: set<nat>, k: Kind)
    ensures forall a | a in ArraysIn(SubPlaces(ps, vars, k)) :: a in ArraysIn(ps) || ReplacedBy(a, vars, k)
  {
    if ps != [] {
      SubPlaceArrays(ps[0], vars, k);
      SubPlacesArrays(ps[1..], vars, k);
    }
  }

  lemma {:induction false} SubArrays(s: Stmt, vars: set<nat>, k: Kind)
    ensures forall a | a in Arrays(Sub(s, vars, k)) :: a in Arrays(s) || ReplacedBy(a, vars, k)
  {
    match s
    case Skip =>
    case Assign(d, srcs, _) =>
      SubPlaceArrays(d, vars, k);
      SubPlacesArrays(srcs, vars, k);
    case Seq(s1, s2) =>
      SubArrays(s1, vars, k);
      SubArrays(s2, vars, k);
    case If(srcs, _, thn, els) =>
      SubPlacesArrays(srcs, vars, k);
      SubArrays(thn, vars, k);
      SubArrays(els, vars, k);
  }

  /** The rewritten body touches no result and no argument but those of its element. */
  lemma BodyFrame(f: Function, i: int, m: Memory, c: Cell)
    requires OwnOnly(Arrays(Body(f))) && c.Slot? && (c.a == Results || (c.a.Batch? && (c.i != i || c.a.x !in f.params)))
    ensures Exec(Sub(Body(f), f.params, ByBatch), i, m)[c] == m[c]
  {
    var s := Sub(Body(f), f.params, ByBatch);
    if c in Writes(s, i) {
      WritesArrays(s, i, c);
      SubArrays(Body(f), f.params, ByBatch);
      SubWrites(Body(f), f.params, ByBatch, i, c);
    }
    ExecFrame(s, i, m, c);
  }

  /** Results and arguments outside the batch are untouched. */
  lemma {:induction false} OutsideBatchUntouched(f: Function, i: int, n: int, m: Memory, c: Cell)
    requires OwnOnly(Arrays(Body(f))) && c.Slot? && (c.a == Results || c.a.Batch?) && (c.i < i || c.i >= n)
    ensures Loop(BatchBody(f), i, n, m)[c] == m[c]
    decreases n - i
  {
    if i < n {
      BatchIteration(f, i, m);
      BodyFrame(f, i, m, c);
      OutsideBatchUntouched(f, i + 1, n, Exec(BatchBody(f), i, m), c);
    }
  }

  // ----- locals are carried over -----

  ghost function Held(m: Memory): nat -> int {
    (x: nat) => m[Scalar(x)]
  }

  /** Memory after a call by reference: parameters are left in the argument arrays. */
  ghost function LeaveArguments(f: Function, i: int, m: Memory, garbage: nat -> int): Memory {
    imap c: Cell ::
      match c
      case Scalar(_) => Leave(f, i, m, garbage)[c]
      case Slot(a, j) =>
        if a.Batch? && a.x in f.params && j == i then CallMemory(f, i, m, garbage)[Scalar(a.x)]
        else Leave(f, i, m, garbage)[c]
  }

  /** Memory after a call by reference whose locals start with what memory holds and stay behind. */
  ghost function LeaveLocals(f: Function, i: int, m: Memory): Memory {
    imap c: Cell ::
      match c
      case Scalar(x) => if x in f.params then m[c] else CallMemory(f, i, m, Held(m))[c]
      case Slot(_, _) => LeaveArguments(f, i, m, Held(m))[c]
  }

  ghost function CarriedCalls(f: Function, i: int, n: int, m: Memory): Memory
    decreases n - i
  {
    if i >= n then m else CarriedCalls(f, i + 1, n, LeaveLocals(f, i, m))
  }

  /** Locals included. */
  ghost predicate SameCarried(f: Function, a: Memory, b: Memory) {
    SameSeen(f, a, b) && forall x: nat | x !in f.params :: a[Scalar(x)] == b[Scalar(x)]
  }

  lemma {:induction false} AlwaysSafe(s: Stmt)
    ensures Safe(s, {}, {}) && Defines(s, {}, {}) == {}
  {
    match s
    case Skip =>
    case Assign(d, srcs, _) =>
      ReadsAlwaysOk(srcs);
      if d.Elem? {
        ReadAlwaysOk(d.index);
      }
    case Seq(s1, s2) =>
      AlwaysSafe(s1);
      AlwaysSafe(s2);
    case If(srcs, _, thn, els) =>
      ReadsAlwaysOk(srcs);
      AlwaysSafe(thn);
      AlwaysSafe(els);
  }

  lemma {:induction false} ReadAlwaysOk(p: Place)
    ensures ReadOk(p, {}, {})
  {
    match p
    case Elem(_, q) => ReadAlwaysOk(q);
    case _ =>
  }

  lemma ReadsAlwaysOk(ps: seq<Place>)
    ensures ReadsOk(ps, {}, {})
  {
    forall k | 0 <= k < |ps|
      ensures ReadOk(ps[k], {}, {})
    {
      ReadAlwaysOk(ps[k]);
    }
  }

  lemma BodyIsCarriedCall(f: Function, i: int, a: Memory, b: Memory)
    requires OwnArrays(f)
    requires SameCarried(f, a, b)
    ensures var a1, b1 := Exec(Sub(Body(f), f.params, ByBatch), i, a), CallMemory(f, i, b, Held(b));
            && (forall x: nat | x !in f.params :: a1[Scalar(x)] == b1[Scalar(x)])
            && (forall x: nat | x in f.params :: a1[Slot(Batch(x), i)] == b1[Scalar(x)])
            && (forall k: nat, j: int :: a1[Slot(Own(k), j)] == b1[Slot(Own(k), j)])
            && Loads(SubPlaces(f.retSrcs, f.params, ByBatch), i, a1) == Loads(f.retSrcs, i, b1)
  {
    hide Exec, Loads, Safe, Sub, SubPlaces, Arrays, ArraysIn;
    var seen, entered := Project(a, f.params, ByBatch, i), Enter(f, i, b, Held(b));
    var a1 := Exec(Sub(Body(f), f.params, ByBatch), i, a);
    SubExec(Body(f), f.params, ByBatch, i, a);
    CarriedSeen(f, i, a, b);
    AlwaysSafe(Body(f));
    SafeEndsAlike(Body(f), i, seen, entered, {}, {}, NotOwn());
    SubLoads(f.retSrcs, f.params, ByBatch, i, a1);
    ReadsAlwaysOk(f.retSrcs);
    AlikeLoads(f.retSrcs, i, Exec(Body(f), i, seen), CallMemory(f, i, b, Held(b)), {}, {}, NotOwn());
    forall x: nat | x in f.params
      ensures a1[Slot(Batch(x), i)] == CallMemory(f, i, b, Held(b))[Scalar(x)]
    {
      assert Project(a1, f.params, ByBatch, i)[Scalar(x)] == a1[Slot(ArrayFor(ByBatch, x), i)];
    }
  }

  lemma CarriedSeen(f: Function, i: int, a: Memory, b: Memory)
    requires SameCarried(f, a, b)
    ensures Alike(Project(a, f.params, ByBatch, i), Enter(f, i, b, Held(b)), {}, {}, NotOwn())
  {
    var seen, entered := Project(a, f.params, ByBatch, i), Enter(f, i, b, Held(b));
    forall x: nat
      ensures seen[Scalar(x)] == entered[Scalar(x)]
    {
      if x in f.params {
        assert seen[Scalar(x)] == a[Slot(ArrayFor(ByBatch, x), i)] == a[Slot(Batch(x), i)];
        assert a[Slot(Batch(x), i)] == b[Slot(Batch(x), i)];
      } else {
        assert seen[Scalar(x)] == a[Scalar(x)] && entered[Scalar(x)] == b[Scalar(x)];
      }
    }
    forall r: ArrayName, j | r.Own?
      ensures seen[Slot(r, j)] == entered[Slot(r, j)]
    {
      assert a[Slot(Own(r.n), j)] == b[Slot(Own(r.n), j)];
    }
  }

  lemma CarriedArgumentAt(f: Function, i: int, m: Memory, x: nat, j: int)
    ensures LeaveLocals(f, i, m)[Slot(Batch(x), j)]
         == if j == i && x in f.params then CallMemory(f, i, m, Held(m))[Scalar(x)] else m[Slot(Batch(x), j)]
  {
    hide CallMemory, CallValue, Held;
  }

  lemma CarriedArguments(f: Function, i: int, a: Memory, b: Memory)
    requires OwnArrays(f) && SameCarried(f, a, b)
    ensures forall x: nat, j: int ::
              Exec(BatchBody(f), i, a)[Slot(Batch(x), j)] == LeaveLocals(f, i, b)[Slot(Batch(x), j)]
  {
    hide Exec, BatchBody, CallMemory, LeaveLocals, Loads, OwnOnly, Arrays, ArraysIn, Held, Sub, SameShared;
    var a1 := Exec(Sub(Body(f), f.params, ByBatch), i, a);
    BatchIteration(f, i, a);
    BodyIsCarriedCall(f, i, a, b);
    forall x: nat, j: int
      ensures Exec(BatchBody(f), i, a)[Slot(Batch(x), j)] == LeaveLocals(f, i, b)[Slot(Batch(x), j)]
    {
      CarriedArgumentAt(f, i, b, x, j);
      assert Exec(BatchBody(f), i, a)[Slot(Batch(x), j)] == a1[Slot(Batch(x), j)];
      if !(x in f.params && j == i) {
        BodyFrame(f, i, a, Slot(Batch(x), j));
      }
    }
  }

  lemma CarriedData(f: Function, i: int, a: Memory, b: Memory)
    requires OwnArrays(f) && SameCarried(f, a, b)
    ensures var a2, b2 := Exec(BatchBody(f), i, a), LeaveLocals(f, i, b);
            && (forall x: nat | x !in f.params :: a2[Scalar(x)] == b2[Scalar(x)])
            && (forall k: nat, j: int :: a2[Slot(Own(k), j)] == b2[Slot(Own(k), j)])
  {
    hide Exec, BatchBody, CallMemory, CallValue, Loads, OwnOnly, Arrays, ArraysIn, Held, Sub, SameCarried;
    BatchIteration(f, i, a);
    BodyIsCarriedCall(f, i, a, b);
  }

  lemma CarriedResults(f: Function, i: int, a: Memory, b: Memory)
    requires OwnArrays(f) && SameCarried(f, a, b)
    ensures forall j: int ::
              Exec(BatchBody(f), i, a)[Slot(Results, j)] == LeaveLocals(f, i, b)[Slot(Results, j)]
  {
    hide Exec, BatchBody, CallMemory, CallValue, Loads, OwnOnly, Arrays, ArraysIn, Held, Sub;
    BatchIteration(f, i, a);
    BodyIsCarriedCall(f, i, a, b);
    ValueOf(f, i, b, Held(b));
    forall j: int
      ensures Exec(BatchBody(f), i, a)[Slot(Results, j)] == LeaveLocals(f, i, b)[Slot(Results, j)]
    {
      BodyFrame(f, i, a, Slot(Results, j));
    }
  }

  lemma CarriedStep(f: Function, i: int, a: Memory, b: Memory)
    requires OwnArrays(f)
    requires SameCarried(f, a, b)
    ensures SameCarried(f, Exec(BatchBody(f), i, a), LeaveLocals(f, i, b))
  {
    CarriedData(f, i, a, b);
    CarriedResults(f, i, a, b);
    CarriedArguments(f, i, a, b);
    hide Exec, BatchBody, LeaveLocals, OwnArrays;
  }

  lemma ValueOf(f: Function, i: int, m: Memory, garbage: nat -> int)
    ensures CallValue(f, i, m, garbage) == f.retOp(Loads(f.retSrcs, i, CallMemory(f, i, m, garbage)))
  {
  }

  /** With no condition on locals at all, batching is iteration of the body with its locals carried
      over from one element to the next, and its parameters left in the argument arrays. */
  lemma {:induction false} BatchingCarriesLocals(f: Function, i: int, n: int, a: Memory, b: Memory)
    requires OwnArrays(f)
    requires SameCarried(f, a, b)
    ensures SameCarried(f, Loop(BatchBody(f), i, n, a), CarriedCalls(f, i, n, b))
    decreases n - i
  {
    hide Exec, BatchBody, LeaveLocals, OwnOnly, SameCarried;
    if i < n {
      CarriedStep(f, i, a, b);
      BatchingCarriesLocals(f, i + 1, n, Exec(BatchBody(f), i, a), LeaveLocals(f, i, b));
    }
  }

  // ----- when batching is iteration -----

  lemma EnterAlike(f: Function, i: int, a: Memory, b: Memory, garbage: nat -> int)
    requires SameShared(f, a, b) && SameArguments(a, b, i)
    ensures Alike(Enter(f, i, a, garbage), Enter(f, i, b, garbage), {}, {}, NotOwn())
  {
    var x, y := Enter(f, i, a, garbage), Enter(f, i, b, garbage);
    forall v: nat
      ensures x[Scalar(v)] == y[Scalar(v)]
    {
      assert a[Slot(Batch(v), i)] == b[Slot(Batch(v), i)];
    }
    forall r: ArrayName, j | r.Own?
      ensures x[Slot(r, j)] == y[Slot(r, j)]
    {
      assert a[Slot(Own(r.n), j)] == b[Slot(Own(r.n), j)];
    }
  }

  /** A call from the same shared data and arguments, with the same garbage, leaves the same. */
  lemma LeaveAlike(f: Function, i: int, a: Memory, b: Memory, garbage: nat -> int)
    requires OwnArrays(f) && SameShared(f, a, b) && SameArguments(a, b, i)
    ensures SameShared(f, Leave(f, i, a, garbage), Leave(f, i, b, garbage))
    ensures SameArguments(Leave(f, i, a, garbage), Leave(f, i, b, garbage), i + 1)
  {
    hide Enter, Exec, Safe, Loads, Arrays, ArraysIn, SameArguments;
    var x, y := Enter(f, i, a, garbage), Enter(f, i, b, garbage);
    EnterAlike(f, i, a, b, garbage);
    AlwaysSafe(Body(f));
    SafeEndsAlike(Body(f), i, x, y, {}, {}, NotOwn());
    ReadsAlwaysOk(f.retSrcs);
    AlikeLoads(f.retSrcs, i, CallMemory(f, i, a, garbage), CallMemory(f, i, b, garbage), {}, {}, NotOwn());
    ArgumentsStay(f, i, a, b, garbage);
  }

  lemma ArgumentsStay(f: Function, i: int, a: Memory, b: Memory, garbage: nat -> int)
    requires SameArguments(a, b, i)
    ensures SameArguments(Leave(f, i, a, garbage), Leave(f, i, b, garbage), i + 1)
  {
    hide CallMemory, CallValue;
  }

  /** What a call leaves does not depend on what its locals start with. */
  ghost predicate IgnoresLocals(f: Function) {
    forall i, m, g, g' :: SameLeave(f, i, m, g, g')
  }

  ghost predicate SameLeave(f: Function, i: int, m: Memory, g: nat -> int, g': nat -> int) {
    SameShared(f, Leave(f, i, m, g), Leave(f, i, m, g'))
  }

  lemma CarriedIsLeft(f: Function, i: int, m: Memory)
    ensures SameShared(f, LeaveLocals(f, i, m), Leave(f, i, m, Held(m)))
  {
    hide CallMemory, CallValue, Held;
  }

  lemma ArgumentsCarried(f: Function, i: int, a: Memory, b: Memory, garbage: nat -> int)
    requires SameArguments(a, b, i)
    ensures SameArguments(LeaveLocals(f, i, a), Leave(f, i, b, garbage), i + 1)
  {
    hide CallMemory, CallValue, Held;
  }

  lemma CarriedStepIsCall(f: Function, i: int, a: Memory, b: Memory, garbage: nat -> int)
    requires OwnArrays(f) && IgnoresLocals(f) && SameShared(f, a, b) && SameArguments(a, b, i)
    ensures SameShared(f, LeaveLocals(f, i, a), Leave(f, i, b, garbage))
    ensures SameArguments(LeaveLocals(f, i, a), Leave(f, i, b, garbage), i + 1)
  {
    hide Leave, LeaveLocals, OwnArrays, SameArguments;
    CarriedIsLeft(f, i, a);
    assert SameLeave(f, i, a, Held(a), garbage);
    LeaveAlike(f, i, a, b, garbage);
    ArgumentsCarried(f, i, a, b, garbage);
  }

  lemma {:induction false} CarriedIsCalls(f: Function, i: int, n: int, a: Memory, b: Memory, garbage: int -> nat -> int)
    requires OwnArrays(f) && IgnoresLocals(f) && SameShared(f, a, b) && SameArguments(a, b, i)
    ensures SameShared(f, CarriedCalls(f, i, n, a), Calls(f, i, n, b, garbage))
    decreases n - i
  {
    hide Leave, LeaveLocals, OwnArrays, SameArguments, SameShared, IgnoresLocals;
    if i < n {
      CarriedStepIsCall(f, i, a, b, garbage(i));
      CarriedIsCalls(f, i + 1, n, LeaveLocals(f, i, a), Leave(f, i, b, garbage(i)), garbage);
    }
  }

  lemma SharedTransitive(f: Function, a: Memory, b: Memory, c: Memory)
    requires SameShared(f, a, b) || SameShared(f, b, a)
    requires SameShared(f, b, c) || SameShared(f, c, b)
    ensures SameShared(f, a, c)
  {
  }

  /** If calls ignore their locals, batching is iteration from any memories that agree on what calls see. */
  lemma IgnoringIsIteration(f: Function, i: int, n: int, a: Memory, b: Memory, garbage: int -> nat -> int)
    requires OwnArrays(f) && IgnoresLocals(f) && SameShared(f, a, b) && SameArguments(a, b, i)
    ensures SameShared(f, Loop(BatchBody(f), i, n, a), Calls(f, i, n, b, garbage))
  {
    hide BatchBody, Loop, Calls, CarriedCalls, OwnArrays, IgnoresLocals;
    BatchingCarriesLocals(f, i, n, a, a);
    CarriedIsCalls(f, i, n, a, b, garbage);
    SharedTransitive(f, Loop(BatchBody(f), i, n, a), CarriedCalls(f, i, n, a), Calls(f, i, n, b, garbage));
  }

  /** The shared data of a batch is that of its calls. */
  ghost predicate BatchSharesCalls(f: Function, i: int, n: int, m: Memory, garbage: int -> nat -> int) {
    SameShared(f, Loop(BatchBody(f), i, n, m), Calls(f, i, n, m, garbage))
  }

  /** One call is a batch of one. */
  lemma BatchOfOne(f: Function, i: int, m: Memory, g: nat -> int)
    requires BatchSharesCalls(f, i, i + 1, m, _ => g)
    ensures SameShared(f, Loop(BatchBody(f), i, i + 1, m), Leave(f, i, m, g))
  {
    hide Leave, SameShared, Exec, BatchBody;
    var each := (_: int) => g;
    assert Calls(f, i, i + 1, m, each) == Calls(f, i + 1, i + 1, Leave(f, i, m, each(i)), each);
  }

  /** A batch leaves the shared data and the results of calling the function on each element in turn,
      for every batch and whatever locals start with, exactly when what a call leaves there does
      not depend on its locals. */
  lemma SharingIsIterationIff(f: Function)
    requires OwnArrays(f)
    ensures (forall i, n, m, garbage :: BatchSharesCalls(f, i, n, m, garbage)) <==> IgnoresLocals(f)
  {
    hide BatchBody, Loop, Calls, SameShared, Leave, OwnArrays;
    if IgnoresLocals(f) {
      forall i, n, m, garbage
        ensures BatchSharesCalls(f, i, n, m, garbage)
      {
        SharedReflexive(f, m);
        IgnoringIsIteration(f, i, n, m, m, garbage);
      }
    }
    if forall i, n, m, garbage :: BatchSharesCalls(f, i, n, m, garbage) {
      forall i, m, g, g'
        ensures SameLeave(f, i, m, g, g')
      {
        BatchOfOne(f, i, m, g);
        BatchOfOne(f, i, m, g');
        SharedTransitive(f, Leave(f, i, m, g), Loop(BatchBody(f), i, i + 1, m), Leave(f, i, m, g'));
      }
    }
  }

  lemma SharedReflexive(f: Function, m: Memory)
    ensures SameShared(f, m, m) && SameSeen(f, m, m) && forall i :: SameArguments(m, m, i)
  {
  }

  // ----- the argument arrays -----

  /** Every call leaves its parameters with the values it was given. */
  ghost predicate KeepsParams(f: Function) {
    forall i, m, g, x: nat | x in f.params :: CallMemory(f, i, m, g)[Scalar(x)] == m[Slot(Batch(x), i)]
  }

  /** What a batch leaves in the argument arrays: for each element of the batch the value with which
      the body, its locals carried over, leaves the parameter, and elsewhere what was there. */
  lemma {:induction false} ArgumentAfterBatch(f: Function, i: int, n: int, m: Memory, x: nat, j: int)
    requires OwnArrays(f)
    ensures Loop(BatchBody(f), i, n, m)[Slot(Batch(x), j)]
         == if i <= j < n && x in f.params
            then var b := CarriedCalls(f, i, j, m); CallMemory(f, j, b, Held(b))[Scalar(x)]
            else m[Slot(Batch(x), j)]
  {
    hide Loop, BatchBody, OwnArrays, CallMemory, Leave;
    SharedReflexive(f, m);
    BatchingCarriesLocals(f, i, n, m, m);
    CarriedArgument(f, i, n, m, x, j);
  }

  lemma {:induction false} CarriedArgument(f: Function, i: int, n: int, m: Memory, x: nat, j: int)
    ensures CarriedCalls(f, i, n, m)[Slot(Batch(x), j)]
         == if i <= j < n && x in f.params
            then var b := CarriedCalls(f, i, j, m); CallMemory(f, j, b, Held(b))[Scalar(x)]
            else m[Slot(Batch(x), j)]
    decreases n - i
  {
    hide CallMemory, LeaveLocals, Held;
    if i < n {
      CarriedArgumentAt(f, i, m, x, j);
      CarriedArgument(f, i + 1, n, LeaveLocals(f, i, m), x, j);
    }
  }

  lemma {:induction false} CallsKeepArguments(f: Function, i: int, n: int, m: Memory, garbage: int -> nat -> int, x: nat, j: int)
    ensures Calls(f, i, n, m, garbage)[Slot(Batch(x), j)] == m[Slot(Batch(x), j)]
    decreases n - i
  {
    hide CallMemory, CallValue;
    if i < n {
      CallsKeepArguments(f, i + 1, n, Leave(f, i, m, garbage(i)), garbage, x, j);
    }
  }

  lemma {:induction false} CarriedKeepArguments(f: Function, i: int, n: int, m: Memory, x: nat, j: int)
    requires KeepsParams(f)
    ensures CarriedCalls(f, i, n, m)[Slot(Batch(x), j)] == m[Slot(Batch(x), j)]
    decreases n - i
  {
    hide CallMemory, LeaveLocals, Held;
    if i < n {
      CarriedArgumentAt(f, i, m, x, j);
      CarriedKeepArguments(f, i + 1, n, LeaveLocals(f, i, m), x, j);
    }
  }

  /** A batch of a function that keeps its parameters leaves the argument arrays as they were. */
  lemma BatchKeepsArguments(f: Function, i: int, n: int, m: Memory)
    requires OwnArrays(f) && KeepsParams(f)
    ensures forall x: nat, j: int :: Loop(BatchBody(f), i, n, m)[Slot(Batch(x), j)] == m[Slot(Batch(x), j)]
  {
    hide Loop, BatchBody, OwnArrays, KeepsParams, CarriedCalls;
    SharedReflexive(f, m);
    BatchingCarriesLocals(f, i, n, m, m);
    forall x: nat, j: int
      ensures Loop(BatchBody(f), i, n, m)[Slot(Batch(x), j)] == m[Slot(Batch(x), j)]
    {
      CarriedKeepArguments(f, i, n, m, x, j);
    }
  }

  /** Not assigning parameters, which can be read off the function, keeps them. */
  lemma UnwrittenParamsKept(f: Function)
    requires ScalarsWritten(Body(f)) !! f.params
    ensures KeepsParams(f)
  {
    forall i, m, g, x: nat | x in f.params
      ensures CallMemory(f, i, m, g)[Scalar(x)] == m[Slot(Batch(x), i)]
    {
      if Scalar(x) in Writes(Body(f), i) {
        WrittenScalar(Body(f), i, x);
      }
      ExecFrame(Body(f), i, Enter(f, i, m, g), Scalar(x));
    }
  }

  lemma {:induction false} WrittenScalar(s: Stmt, i: int, x: nat)
    requires Scalar(x) in Writes(s, i)
    ensures x in ScalarsWritten(s)
  {
    match s
    case Assign(_, _, _) =>
    case Seq(s1, s2) =>
      if Scalar(x) in Writes(s1, i) { WrittenScalar(s1, i, x); } else { WrittenScalar(s2, i, x); }
    case If(_, _, thn, els) =>
      if Scalar(x) in Writes(thn, i) { WrittenScalar(thn, i, x); } else { WrittenScalar(els, i, x); }
  }

  // ----- when batching is calling -----

  /** All that callers see of a batch is what its calls leave. */
  ghost predicate BatchIsCalls(f: Function, i: int, n: int, m: Memory, garbage: int -> nat -> int) {
    SameSeen(f, Loop(BatchBody(f), i, n, m), Calls(f, i, n, m, garbage))
  }

  lemma KeepingIsCalling(f: Function, i: int, n: int, m: Memory, garbage: int -> nat -> int)
    requires OwnArrays(f) && KeepsParams(f) && BatchSharesCalls(f, i, n, m, garbage)
    ensures BatchIsCalls(f, i, n, m, garbage)
  {
    hide Loop, BatchBody, Calls, OwnArrays, KeepsParams, SameShared;
    BatchKeepsArguments(f, i, n, m);
    forall x: nat, j: int
      ensures Calls(f, i, n, m, garbage)[Slot(Batch(x), j)] == m[Slot(Batch(x), j)]
    {
      CallsKeepArguments(f, i, n, m, garbage, x, j);
    }
  }

  /** Memory with the locals of the function holding `g`. */
  ghost function Holding(f: Function, m: Memory, g: nat -> int): Memory {
    imap c: Cell ::
      match c
      case Scalar(x) => if x in f.locals then g(x) else m[c]
      case Slot(_, _) => m[c]
  }

  lemma EnterHolding(f: Function, i: int, m: Memory, g: nat -> int)
    ensures var m' := Holding(f, m, g); Enter(f, i, m', Held(m')) == Enter(f, i, m, g)
  {
    var m' := Holding(f, m, g);
    var a, b := Enter(f, i, m', Held(m')), Enter(f, i, m, g);
    forall c: Cell
      ensures a[c] == b[c]
    {
    }
  }

  lemma CallingKeepsParams(f: Function, i: int, m: Memory, g: nat -> int, x: nat)
    requires OwnArrays(f) && x in f.params
    requires BatchIsCalls(f, i, i + 1, Holding(f, m, g), _ => g)
    ensures CallMemory(f, i, m, g)[Scalar(x)] == m[Slot(Batch(x), i)]
  {
    hide Loop, BatchBody, OwnArrays, Leave, Enter, Exec;
    var m', each := Holding(f, m, g), (_: int) => g;
    EnterHolding(f, i, m, g);
    ArgumentAfterBatch(f, i, i + 1, m', x, i);
    CallsKeepArguments(f, i, i + 1, m', each, x, i);
    assert CarriedCalls(f, i, i, m') == m';
    assert Calls(f, i, i + 1, m', each)[Slot(Batch(x), i)] == m[Slot(Batch(x), i)];
  }

  /** Batching is calling the function on each element in turn, in all that callers see, for every
      batch and whatever locals start with, exactly when what a call leaves does not depend on its
      locals and no call changes its parameters. */
  lemma BatchingIsIterationIff(f: Function)
    requires OwnArrays(f)
    ensures (forall i, n, m, garbage :: BatchIsCalls(f, i, n, m, garbage)) <==> IgnoresLocals(f) && KeepsParams(f)
  {
    hide BatchBody, Loop, Calls, SameShared, OwnArrays, CallMemory, IgnoresLocals;
    SharingIsIterationIff(f);
    if IgnoresLocals(f) && KeepsParams(f) {
      forall i, n, m, garbage
        ensures BatchIsCalls(f, i, n, m, garbage)
      {
        assert BatchSharesCalls(f, i, n, m, garbage);
        KeepingIsCalling(f, i, n, m, garbage);
      }
    }
    if forall i, n, m, garbage :: BatchIsCalls(f, i, n, m, garbage) {
      forall i, n, m, garbage
        ensures BatchSharesCalls(f, i, n, m, garbage)
      {
        assert BatchIsCalls(f, i, n, m, garbage);
      }
      forall i, m, g, x: nat | x in f.params
        ensures CallMemory(f, i, m, g)[Scalar(x)] == m[Slot(Batch(x), i)]
      {
        var each := (_: int) => g;
        assert BatchIsCalls(f, i, i + 1, Holding(f, m, g), each);
        CallingKeepsParams(f, i, m, g, x);
      }
    }
  }

  // ----- functions that set their locals before use -----

  lemma EnterAlikeButLocals(f: Function, i: int, a: Memory, b: Memory, g: nat -> int, g': nat -> int)
    requires SameShared(f, a, b) && SameArguments(a, b, i)
    ensures Alike(Enter(f, i, a, g), Enter(f, i, b, g'), f.locals, {}, NotOwn())
  {
    var x, y := Enter(f, i, a, g), Enter(f, i, b, g');
    forall v: nat | v !in f.locals
      ensures x[Scalar(v)] == y[Scalar(v)]
    {
      assert a[Slot(Batch(v), i)] == b[Slot(Batch(v), i)];
    }
    forall r: ArrayName, j | r.Own?
      ensures x[Slot(r, j)] == y[Slot(r, j)]
    {
      assert a[Slot(Own(r.n), j)] == b[Slot(Own(r.n), j)];
    }
  }

  /** Calls from the same shared data and argument end alike and return the same, whatever garbage
      they start with. */
  lemma SafeCall(f: Function, i: int, a: Memory, b: Memory, g: nat -> int, g': nat -> int)
    requires WellFormed(f) && SameShared(f, a, b) && SameArguments(a, b, i)
    ensures Alike(CallMemory(f, i, a, g), CallMemory(f, i, b, g'), f.locals, Defines(Body(f), f.locals, {}), NotOwn())
    ensures CallValue(f, i, a, g) == CallValue(f, i, b, g')
  {
    hide Exec, Safe, Loads, Arrays, ArraysIn, Defines, Enter, Alike, SameShared, SameArguments;
    EnterAlikeButLocals(f, i, a, b, g, g');
    SafeEndsAlike(Body(f), i, Enter(f, i, a, g), Enter(f, i, b, g'), f.locals, {}, NotOwn());
    AlikeLoads(f.retSrcs, i, CallMemory(f, i, a, g), CallMemory(f, i, b, g'), f.locals, Defines(Body(f), f.locals, {}), NotOwn());
  }

  /** What they leave by reference is the same too. */
  lemma SafeLeaves(f: Function, i: int, a: Memory, b: Memory, g: nat -> int, g': nat -> int, low: int)
    requires WellFormed(f) && SameShared(f, a, b) && low <= i && SameArguments(a, b, low)
    ensures SameShared(f, LeaveArguments(f, i, a, g), LeaveArguments(f, i, b, g'))
    ensures SameArguments(LeaveArguments(f, i, a, g), LeaveArguments(f, i, b, g'), low)
  {
    hide Safe, Arrays, ArraysIn, Defines, CallMemory, CallValue, ReadsOk;
    SafeCall(f, i, a, b, g, g');
    var x, y := CallMemory(f, i, a, g), CallMemory(f, i, b, g');
    var l, r := LeaveArguments(f, i, a, g), LeaveArguments(f, i, b, g');
    forall v: nat, j: int | j >= low
      ensures l[Slot(Batch(v), j)] == r[Slot(Batch(v), j)]
    {
      assert a[Slot(Batch(v), j)] == b[Slot(Batch(v), j)] && (v in f.params ==> x[Scalar(v)] == y[Scalar(v)]);
    }
    forall k: nat, j: int
      ensures l[Slot(Own(k), j)] == r[Slot(Own(k), j)]
    {
      assert Own(k) !in NotOwn();
    }
  }

  /** Setting locals before use, which can be read off the function, makes calls ignore them. */
  lemma WellFormedIgnoresLocals(f: Function)
    requires WellFormed(f)
    ensures IgnoresLocals(f)
  {
    hide WellFormed, Leave, LeaveArguments;
    forall i, m, g, g'
      ensures SameLeave(f, i, m, g, g')
    {
      SharedReflexive(f, m);
      SafeLeaves(f, i, m, m, g, g', i);
      ByValue(f, i, m, g);
      ByValue(f, i, m, g');
      SharedTransitive(f, Leave(f, i, m, g), LeaveArguments(f, i, m, g), LeaveArguments(f, i, m, g'));
      SharedTransitive(f, Leave(f, i, m, g), LeaveArguments(f, i, m, g'), Leave(f, i, m, g'));
    }
  }

  /** Passing by reference shows in the arguments only. */
  lemma ByValue(f: Function, i: int, m: Memory, g: nat -> int)
    ensures SameShared(f, LeaveArguments(f, i, m, g), Leave(f, i, m, g))
  {
    hide CallMemory, CallValue;
  }

  /** The reference once more, each parameter left in its argument array. */
  ghost function CallsByReference(f: Function, i: int, n: int, m: Memory, garbage: int -> nat -> int): Memory
    decreases n - i
  {
    if i >= n then m else CallsByReference(f, i + 1, n, LeaveArguments(f, i, m, garbage(i)), garbage)
  }

  lemma CarriedByReference(f: Function, i: int, m: Memory)
    ensures SameShared(f, LeaveLocals(f, i, m), LeaveArguments(f, i, m, Held(m)))
    ensures forall low :: SameArguments(LeaveLocals(f, i, m), LeaveArguments(f, i, m, Held(m)), low)
  {
    hide CallMemory, Leave, Held;
    CarriedIsLeft(f, i, m);
    ByValue(f, i, m, Held(m));
  }

  lemma {:induction false} CarriedIsByReference(f: Function, i: int, n: int, a: Memory, b: Memory,
                                                garbage: int -> nat -> int, low: int)
    requires WellFormed(f) && SameShared(f, a, b) && low <= i && SameArguments(a, b, low)
    ensures SameShared(f, CarriedCalls(f, i, n, a), CallsByReference(f, i, n, b, garbage))
    ensures SameArguments(CarriedCalls(f, i, n, a), CallsByReference(f, i, n, b, garbage), low)
    decreases n - i
  {
    hide WellFormed, LeaveLocals, LeaveArguments, Held, SameShared;
    if i < n {
      var c := LeaveArguments(f, i, a, Held(a));
      CarriedByReference(f, i, a);
      SafeLeaves(f, i, a, b, Held(a), garbage(i), low);
      SharedTransitive(f, LeaveLocals(f, i, a), c, LeaveArguments(f, i, b, garbage(i)));
      assert SameArguments(LeaveLocals(f, i, a), c, low);
      CarriedIsByReference(f, i + 1, n, LeaveLocals(f, i, a), LeaveArguments(f, i, b, garbage(i)), garbage, low);
    }
  }

  /** Batching is calling for every function that sets its locals before use: by value in shared data and
      results, and by reference in the arguments too, from memories that agree on shared data and on the
      arguments from `low` on. */
  lemma BatchingIsIteration(f: Function, i: int, n: int, a: Memory, b: Memory, garbage: int -> nat -> int, low: int)
    requires WellFormed(f) && SameShared(f, a, b) && low <= i && SameArguments(a, b, low)
    ensures SameShared(f, Loop(BatchBody(f), i, n, a), Calls(f, i, n, b, garbage))
    ensures SameShared(f, Loop(BatchBody(f), i, n, a), CallsByReference(f, i, n, b, garbage))
    ensures SameArguments(Loop(BatchBody(f), i, n, a), CallsByReference(f, i, n, b, garbage), low)
  {
    hide BatchBody, Loop, Calls, CarriedCalls, CallsByReference, SameShared;
    WellFormedIgnoresLocals(f);
    IgnoringIsIteration(f, i, n, a, b, garbage);
    SharedReflexive(f, a);
    BatchingCarriesLocals(f, i, n, a, a);
    CarriedIsByReference(f, i, n, a, b, garbage, low);
    SharedTransitive(f, Loop(BatchBody(f), i, n, a), CarriedCalls(f, i, n, a), CallsByReference(f, i, n, b, garbage));
  }

  /** `r` is what calling the function on the elements from 0 to `n` leaves: by value, in shared data and
      results; by reference, in the arguments too; and by value in the arguments too, if calls
      keep their parameters. */
  ghost predicate LeftByCalls(f: Function, n: int, m: Memory, garbage: int -> nat -> int, r: Memory) {
    && SameShared(f, r, Calls(f, 0, n, m, garbage))
    && SameSeen(f, r, CallsByReference(f, 0, n, m, garbage))
    && (KeepsParams(f) ==> SameSeen(f, r, Calls(f, 0, n, m, garbage)))
  }

  /** A batch leaves what the calls leave. */
  lemma BatchIsLeftByCalls(f: Function, n: int, m: Memory, garbage: int -> nat -> int)
    requires WellFormed(f)
    ensures LeftByCalls(f, n, m, garbage, Loop(BatchBody(f), 0, n, m))
  {
    hide BatchBody, Loop, Calls, CallsByReference, SameShared, KeepsParams, WellFormed;
    var r := Loop(BatchBody(f), 0, n, m);
    SharedReflexive(f, m);
    forall x: nat, j: int
      ensures r[Slot(Batch(x), j)] == CallsByReference(f, 0, n, m, garbage)[Slot(Batch(x), j)]
    {
      BatchingIsIteration(f, 0, n, m, m, garbage, if j < 0 then j else 0);
    }
    BatchingIsIteration(f, 0, n, m, m, garbage, 0);
    LeftFrom(f, n, m, garbage, r);
  }

  lemma {:induction false} ReferencesKeepArguments(f: Function, i: int, n: int, m: Memory, garbage: int -> nat -> int, x: nat, j: int)
    requires KeepsParams(f)
    ensures CallsByReference(f, i, n, m, garbage)[Slot(Batch(x), j)] == m[Slot(Batch(x), j)]
    decreases n - i
  {
    hide CallMemory, CallValue;
    if i < n {
      ReferencesKeepArguments(f, i + 1, n, LeaveArguments(f, i, m, garbage(i)), garbage, x, j);
    }
  }

  lemma LeftFrom(f: Function, n: int, m: Memory, garbage: int -> nat -> int, r: Memory)
    requires SameShared(f, r, Calls(f, 0, n, m, garbage)) && SameSeen(f, r, CallsByReference(f, 0, n, m, garbage))
    ensures LeftByCalls(f, n, m, garbage, r)
  {
    hide Calls, CallsByReference, KeepsParams, SameShared;
    if KeepsParams(f) {
      forall x: nat, j: int
        ensures r[Slot(Batch(x), j)] == Calls(f, 0, n, m, garbage)[Slot(Batch(x), j)]
      {
        ReferencesKeepArguments(f, 0, n, m, garbage, x, j);
        CallsKeepArguments(f, 0, n, m, garbage, x, j);
      }
    }
  }

  /** A function that sets its parameter to 0. */
  function Clearing(): Function {
    Function({0}, {}, [Assign(Var(0), [], (_: seq<int>) => 0)], [], (_: seq<int>) => 0)
  }

  /** Where a call only changes its own copy, the batch changes the argument array of its caller. */
  lemma ClearedArgumentDiffers(m: Memory, g: nat -> int)
    requires m[Slot(Batch(0), 0)] == 7
    ensures WellFormed(Clearing()) && !KeepsParams(Clearing())
    ensures Loop(BatchBody(Clearing()), 0, 1, m)[Slot(Batch(0), 0)] == 0
    ensures Calls(Clearing(), 0, 1, m, _ => g)[Slot(Batch(0), 0)] == 7
  {
    var f, each := Clearing(), (_: int) => g;
    CallsKeepArguments(f, 0, 1, m, each, 0, 0);
    ArgumentAfterBatch(f, 0, 1, m, 0, 0);
    ClearedParameter(0, m, Held(m));
    assert CallMemory(f, 0, m, Held(m))[Scalar(0)] != m[Slot(Batch(0), 0)];
    assert CarriedCalls(f, 0, 0, m) == m;
  }

  lemma ClearedParameter(i: int, m: Memory, g: nat -> int)
    ensures CallMemory(Clearing(), i, m, g)[Scalar(0)] == 0
  {
    var f := Clearing();
    assert SeqAll(f.segs[1..]) == Skip;
    assert Exec(Body(f), i, Enter(f, i, m, g)) == Exec(f.segs[0], i, Enter(f, i, m, g));
  }

  /** A function that counts in a local it never sets. */
  function Leaky(): Function {
    Function({}, {0}, [Assign(Var(0), [Var(0)], (v: seq<int>) => if v == [] then 0 else v[0] + 1)],
             [Var(0)], (v: seq<int>) => if v == [] then 0 else v[0])
  }

  /** Without definition before use batching differs from calling: the second call of `Leaky` with a
      zeroed local returns 1, the second element of its batch is 2. */
  lemma LeakyLocalDiffers(m: Memory, g: nat -> int)
    requires m[Scalar(0)] == 0 && g(0) == 0
    ensures CallValue(Leaky(), 1, m, g) == 1
    ensures Loop(BatchBody(Leaky()), 0, 2, m)[Slot(Results, 1)] == 2
    ensures !Safe(Body(Leaky()), {0}, {})
  {
  }

  /** The function does not ignore its local. */
  lemma LeakyUsesLocal(m: Memory)
    ensures !IgnoresLocals(Leaky())
  {
    hide Leave;
    var zero, one := (_: nat) => 0, (_: nat) => 1;
    LeakyCounts(m, zero);
    LeakyCounts(m, one);
    assert !SameLeave(Leaky(), 0, m, zero, one);
  }

  lemma LeakyCounts(m: Memory, g: nat -> int)
    ensures Leave(Leaky(), 0, m, g)[Slot(Results, 0)] == g(0) + 1
  {
    var f := Leaky();
    var e := Enter(f, 0, m, g);
    assert SeqAll(f.segs[1..]) == Skip;
    assert Exec(Body(f), 0, e) == Exec(f.segs[0], 0, e);
    LoadsOne(0, 0, e);
    var b := CallMemory(f, 0, m, g);
    assert b == e[Scalar(0) := g(0) + 1];
    LoadsOne(0, 0, b);
    assert CallValue(f, 0, m, g) == g(0) + 1;
  }

  lemma LoadsOne(x: nat, i: int, m: Memory)
    ensures Loads([Var(x)], i, m) == [m[Scalar(x)]]
  {
    assert Loads([Var(x)][1..], i, m) == [];
  }

  // ----- functions that change no shared data are mapped -----

  /** The body assigns parameters and locals only. */
  ghost predicate Pure(f: Function) {
    && ScalarsWritten(Body(f)) <= f.params + f.locals
    && IndexWritesOnly(Body(f))
  }

  /** No array element is assigned. */
  predicate IndexWritesOnly(s: Stmt) {
    match s
    case Skip => true
    case Assign(d, _, _) => d.Var?
    case Seq(s1, s2) => IndexWritesOnly(s1) && IndexWritesOnly(s2)
    case If(_, _, thn, els) => IndexWritesOnly(thn) && IndexWritesOnly(els)
  }

  lemma {:induction false} PureWrites(s: Stmt, i: int, c: Cell)
    requires IndexWritesOnly(s) && c in Writes(s, i)
    ensures c.Scalar? && c.x in ScalarsWritten(s)
  {
    match s
    case Assign(_, _, _) =>
    case Seq(s1, s2) =>
      if c in Writes(s1, i) { PureWrites(s1, i, c); } else { PureWrites(s2, i, c); }
    case If(_, _, thn, els) =>
      if c in Writes(thn, i) { PureWrites(thn, i, c); } else { PureWrites(els, i, c); }
  }

  /** A call of a pure function changes its result slot only. */
  lemma PureCall(f: Function, i: int, m: Memory, garbage: nat -> int)
    requires WellFormed(f) && Pure(f)
    ensures Leave(f, i, m, garbage) == m[Slot(Results, i) := CallValue(f, i, m, garbage)]
  {
    var entered := Enter(f, i, m, garbage);
    var l, r := Leave(f, i, m, garbage), m[Slot(Results, i) := CallValue(f, i, m, garbage)];
    forall c: Cell
      ensures l[c] == r[c]
    {
      if c in Writes(Body(f), i) {
        PureWrites(Body(f), i, c);
      } else {
        ExecFrame(Body(f), i, entered, c);
      }
    }
  }

  /** The value of a call depends neither on results stored before nor on garbage. */
  lemma SameValue(f: Function, i: int, m: Memory, m': Memory, g: nat -> int, g': nat -> int)
    requires WellFormed(f)
    requires forall c: Cell :: (c.Slot? && c.a == Results) || m[c] == m'[c]
    ensures CallValue(f, i, m, g) == CallValue(f, i, m', g')
  {
    var e, e' := Enter(f, i, m, g), Enter(f, i, m', g');
    assert forall x: nat | x !in f.locals :: e[Scalar(x)] == e'[Scalar(x)];
    assert Alike(e, e', f.locals, {}, NotOwn());
    SafeEndsAlike(Body(f), i, e, e', f.locals, {}, NotOwn());
    AlikeLoads(f.retSrcs, i, Exec(Body(f), i, e), Exec(Body(f), i, e'), f.locals, Defines(Body(f), f.locals, {}), NotOwn());
  }

  lemma {:induction false} PureCalls(f: Function, i: int, n: int, m: Memory, m0: Memory, garbage: int -> nat -> int, j: int)
    requires WellFormed(f) && Pure(f)
    requires forall c: Cell :: (c.Slot? && c.a == Results) || m[c] == m0[c]
    ensures Calls(f, i, n, m, garbage)[Slot(Results, j)]
         == if i <= j < n then CallValue(f, j, m0, garbage(j)) else m[Slot(Results, j)]
    decreases n - i
  {
    if i < n {
      PureCall(f, i, m, garbage(i));
      SameValue(f, i, m, m0, garbage(i), garbage(i));
      PureCalls(f, i + 1, n, Leave(f, i, m, garbage(i)), m0, garbage, j);
    }
  }

  /** A function that changes no shared data is mapped over its arguments. */
  lemma BatchingIsMap(f: Function, n: int, m: Memory, j: int, garbage: nat -> int)
    requires WellFormed(f) && Pure(f) && 0 <= j < n
    ensures Loop(BatchBody(f), 0, n, m)[Slot(Results, j)] == CallValue(f, j, m, garbage)
  {
    var each := (i: int) => garbage;
    SharedReflexive(f, m);
    BatchingIsIteration(f, 0, n, m, m, each, 0);
    PureCalls(f, 0, n, m, m, each, j);
  }

  // ----- batching followed by loop splitting -----

  lemma {:induction false} SafeSubset(s: Stmt, vars: set<nat>, fewer: set<nat>, defined: set<nat>, defined': set<nat>)
    requires fewer <= vars && defined * fewer <= defined' && Safe(s, vars, defined)
    ensures Safe(s, fewer, defined')
    ensures Defines(s, vars, defined) * fewer <= Defines(s, fewer, defined')
  {
    match s
    case Skip =>
    case Assign(d, srcs, _) =>
      if d.Elem? {
        ReadOkSubset(d.index, vars, fewer, defined, defined');
      }
      forall k | 0 <= k < |srcs|
        ensures ReadOk(srcs[k], fewer, defined')
      {
        ReadOkSubset(srcs[k], vars, fewer, defined, defined');
      }
    case Seq(s1, s2) =>
      SafeSubset(s1, vars, fewer, defined, defined');
      SafeSubset(s2, vars, fewer, Defines(s1, vars, defined), Defines(s1, fewer, defined'));
    case If(srcs, _, thn, els) =>
      forall k | 0 <= k < |srcs|
        ensures ReadOk(srcs[k], fewer, defined')
      {
        ReadOkSubset(srcs[k], vars, fewer, defined, defined');
      }
      SafeSubset(thn, vars, fewer, defined, defined');
      SafeSubset(els, vars, fewer, defined, defined');
  }

  lemma {:induction false} ReadOkSubset(p: Place, vars: set<nat>, fewer: set<nat>, defined: set<nat>, defined': set<nat>)
    requires fewer <= vars && defined * fewer <= defined' && ReadOk(p, vars, defined)
    ensures ReadOk(p, fewer, defined')
  {
    match p
    case Elem(_, q) => ReadOkSubset(q, vars, fewer, defined, defined');
    case _ =>
  }

  lemma {:induction false} ReadOkSub(p: Place, vars: set<nat>, defined: set<nat>, params: set<nat>)
    requires ReadOk(p, vars, defined)
    ensures ReadOk(SubPlace(p, params, ByBatch), vars, defined)
  {
    match p
    case Elem(_, q) => ReadOkSub(q, vars, defined, params);
    case _ =>
  }

  lemma {:induction false} ReadsOkSub(ps: seq<Place>, vars: set<nat>, defined: set<nat>, params: set<nat>)
    requires ReadsOk(ps, vars, defined)
    ensures ReadsOk(SubPlaces(ps, params, ByBatch), vars, defined)
  {
    if ps != [] {
      ReadOkSub(ps[0], vars, defined, params);
      assert forall k | 0 <= k < |ps[1..]| :: ps[1..][k] == ps[k + 1];
      ReadsOkSub(ps[1..], vars, defined, params);
    }
  }

  /** Batching parameters leaves the analysis of other variables as it was. */
  lemma {:induction false} SafeSub(s: Stmt, vars: set<nat>, defined: set<nat>, params: set<nat>)
    requires Safe(s, vars, defined) && params !! vars
    ensures Safe(Sub(s, params, ByBatch), vars, defined)
    ensures Defines(Sub(s, params, ByBatch), vars, defined) == Defines(s, vars, defined)
  {
    match s
    case Skip =>
    case Assign(d, srcs, _) =>
      ReadsOkSub(srcs, vars, defined, params);
      if d.Elem? {
        ReadOkSub(d.index, vars, defined, params);
      }
    case Seq(s1, s2) =>
      SafeSub(s1, vars, defined, params);
      SafeSub(s2, vars, Defines(s1, vars, defined), params);
    case If(srcs, _, thn, els) =>
      ReadsOkSub(srcs, vars, defined, params);
      SafeSub(thn, vars, defined, params);
      SafeSub(els, vars, defined, params);
  }

  lemma {:induction false} SafeWithResult(segs: seq<Stmt>, store: Stmt, vars: set<nat>, defined: set<nat>)
    requires Safe(SeqAll(segs), vars, defined) && Safe(store, vars, Defines(SeqAll(segs), vars, defined))
    ensures Safe(SeqAll(WithResult(segs, store)), vars, defined)
  {
    if segs == [] {
      assert SeqAll([store]) == Seq(store, SeqAll([store][1..]));
    } else if |segs| == 1 {
      var t := Seq(segs[0], store);
      assert SeqAll([t]) == Seq(t, SeqAll([t][1..]));
      assert SeqAll([t][1..]) == Skip && SeqAll(segs[1..]) == Skip;
      assert Defines(SeqAll(segs), vars, defined) == Defines(segs[0], vars, defined);
    } else {
      assert WithResult(segs, store)[1..] == WithResult(segs[1..], store);
      SafeWithResult(segs[1..], store, vars, Defines(segs[0], vars, defined));
    }
  }

  lemma {:induction false} ArraysWithResult(segs: seq<Stmt>, store: Stmt)
    ensures Arrays(SeqAll(WithResult(segs, store))) == Arrays(SeqAll(segs)) + Arrays(store)
  {
    if segs == [] {
      assert SeqAll([store]) == Seq(store, SeqAll([store][1..]));
    } else if |segs| == 1 {
      var t := Seq(segs[0], store);
      assert SeqAll([t]) == Seq(t, SeqAll([t][1..]));
      assert SeqAll(segs[1..]) == Skip;
    } else {
      assert WithResult(segs, store)[1..] == WithResult(segs[1..], store);
      ArraysWithResult(segs[1..], store);
    }
  }

  /** The batched body is fit for splitting on any of its locals. */
  lemma BatchBodyIsSplittable(f: Function, vars: set<nat>)
    requires WellFormed(f) && vars <= f.locals
    ensures Plain(Arrays(BatchBody(f)), ByExpansion) && Safe(BatchBody(f), vars, {})
  {
    var segs, store := SubAll(f.segs, f.params, ByBatch), StoreResult(f);
    SubSeqAll(f.segs, f.params, ByBatch);
    SafeSub(Body(f), f.locals, {}, f.params);
    ReadsOkSub(f.retSrcs, f.locals, Defines(Body(f), f.locals, {}), f.params);
    SafeWithResult(segs, store, f.locals, {});
    SafeSubset(BatchBody(f), f.locals, vars, {}, {});
    ArraysWithResult(segs, store);
    SubArrays(Body(f), f.params, ByBatch);
    SubPlacesArrays(f.retSrcs, f.params, ByBatch);
  }

  /** Batched and then split on some locals, the loops finish with the shared data and the results
      that calling the original function on each element in turn leaves. */
  ghost predicate PipelineIsCalls(f: Function, vars: set<nat>, n: int, m: Memory, garbage: int -> nat -> int) {
    var r := TrySplit(SubAll(BatchSegments(f), vars, ByExpansion), n, m);
    r.Some? && LeftByCalls(f, n, m, garbage, r.value)
  }

  /** The whole pipeline, for batches up to the 32 elements of an expansion array, and for no
      others if every iteration uses an expanded variable. */
  lemma PipelineIsIteration(f: Function, vars: set<nat>, n: int, m: Memory, garbage: int -> nat -> int)
    requires WellFormed(f) && vars <= f.locals
    requires AllApart(SubAll(BatchSegments(f), vars, ByExpansion))
    ensures n <= EXPANDED_SIZE ==> PipelineIsCalls(f, vars, n, m, garbage)
    ensures SomeAlwaysUses(BatchSegments(f), vars) ==> (PipelineIsCalls(f, vars, n, m, garbage) <==> n <= EXPANDED_SIZE)
  {
    BatchBodyIsSplittable(f, vars);
    SplittingIsSound(BatchSegments(f), vars, n, m);
    SplitServes(BatchSegments(f), vars, n, m);
    BatchIsLeftByCalls(f, n, m, garbage);
    if n <= EXPANDED_SIZE {
      var b := TrySplit(SubAll(BatchSegments(f), vars, ByExpansion), n, m).value;
      hide TrySplit, BatchSegments, Calls, Loop, WellFormed, SubAll, AllApart;
      LeftDespiteExpansion(f, vars, n, m, garbage, Loop(BatchBody(f), 0, n, m), b);
    }
  }

  /** What the caller sees is not among what expansion changes. */
  lemma LeftDespiteExpansion(f: Function, vars: set<nat>, n: int, m: Memory, garbage: int -> nat -> int, a: Memory, b: Memory)
    requires vars <= f.locals && Alike(a, b, vars, {}, KindArrays(ByExpansion)) && LeftByCalls(f, n, m, garbage, a)
    ensures LeftByCalls(f, n, m, garbage, b)
  {
    hide Calls, CallsByReference, KeepsParams;
    assert forall k: nat, j: int :: a[Slot(Own(k), j)] == b[Slot(Own(k), j)];
    assert forall j: int :: a[Slot(Results, j)] == b[Slot(Results, j)];
    assert forall x: nat, j: int :: a[Slot(Batch(x), j)] == b[Slot(Batch(x), j)];
  }

  /** A function that changes no shared data is mapped by the pipeline too. */
  lemma PipelineIsMap(f: Function, vars: set<nat>, n: int, m: Memory, j: int, garbage: nat -> int)
    requires WellFormed(f) && Pure(f) && vars <= f.locals && 0 <= j < n <= EXPANDED_SIZE
    requires AllApart(SubAll(BatchSegments(f), vars, ByExpansion))
    ensures var r := TrySplit(SubAll(BatchSegments(f), vars, ByExpansion), n, m);
            r.Some? && r.value[Slot(Results, j)] == CallValue(f, j, m, garbage)
  {
    var each := (_: int) => garbage;
    PipelineIsIteration(f, vars, n, m, each);
    hide WellFormed, Pure, TrySplit, BatchSegments, AllApart, SubAll;
    PureCalls(f, 0, n, m, m, each, j);
  }

  // ----- from the text of the original function -----

  /** The function's segments with its result stored by the last of them. */
  function ResultSegments(f: Function): seq<Stmt> {
    WithResult(f.segs, Assign(At(Results), f.retSrcs, f.retOp))
  }

  lemma {:induction false} SubWithResult(segs: seq<Stmt>, store: Stmt, vars: set<nat>, k: Kind)
    ensures SubAll(WithResult(segs, store), vars, k) == WithResult(SubAll(segs, vars, k), Sub(store, vars, k))
  {
    if segs == [] {
      assert SubAll([store][1..], vars, k) == [];
    } else if |segs| == 1 {
      var t := Seq(segs[0], store);
      assert SubAll([t][1..], vars, k) == [] && SubAll(segs[1..], vars, k) == [];
    } else {
      assert WithResult(segs, store)[1..] == WithResult(segs[1..], store);
      SubWithResult(segs[1..], store, vars, k);
    }
  }

  /** Segments whose shared scalars are parameters or expanded variables do not interfere once
      batched and expanded. */
  lemma OriginalTextIsApart(f: Function, vars: set<nat>)
    requires TextApart(ResultSegments(f), f.params + vars)
    ensures AllApart(SubAll(BatchSegments(f), vars, ByExpansion))
  {
    hide AllApart, TextApart;
    SubWithResult(f.segs, Assign(At(Results), f.retSrcs, f.retOp), f.params, ByBatch);
    TextApartAfterSub(ResultSegments(f), f.params, vars, ByBatch);
    TextApartIsApart(BatchSegments(f), vars);
  }

  /** The pipeline, with every condition read off the original function. */
  lemma PipelineFromText(f: Function, vars: set<nat>, n: int, m: Memory, garbage: int -> nat -> int)
    requires WellFormed(f) && vars <= f.locals && TextApart(ResultSegments(f), f.params + vars)
    ensures n <= EXPANDED_SIZE ==> PipelineIsCalls(f, vars, n, m, garbage)
    ensures SomeAlwaysUses(BatchSegments(f), vars) ==> (PipelineIsCalls(f, vars, n, m, garbage) <==> n <= EXPANDED_SIZE)
  {
    hide WellFormed, TextApart, AllApart, PipelineIsCalls;
    OriginalTextIsApart(f, vars);
    PipelineIsIteration(f, vars, n, m, garbage);
  }
}
