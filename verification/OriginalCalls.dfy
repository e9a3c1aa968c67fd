/**
 Batching against calls of the whole original function, the code before its batch marker
 included: a batch runs that code once, a call every time.
 */
module OriginalCalls {
  import opened Common
  import opened LoopLang
  import opened Expansion
  import opened LoopFission
  import opened Batching

  /** A function with a batch marker: the code before the marker, the local variables that code sets
      for the part after the marker to read, and that part. */
  datatype Marked = Marked(before: Stmt, held: set<nat>, part: Function)

  /** The function without its marker. */
  function Original(w: Marked): Function {
    Function(w.part.params, w.part.locals + w.held, [w.before] + w.part.segs, w.part.retSrcs, w.part.retOp)
  }

  /** What the code before the marker makes of memory when a batch starts. */
  ghost function Prelude(w: Marked, m: Memory): Memory {
    Exec(Sub(w.before, w.part.params, ByBatch), 0, m)
  }

  /** The batched function. */
  ghost function BatchOf(w: Marked, n: int, m: Memory): Memory {
    Loop(BatchBody(w.part), 0, n, Prelude(w, m))
  }

  // ----- conditions on the text of the function -----

  /** Arrays a statement may change. */
  function ArraysWritten(s: Stmt): set<ArrayName> {
    match s
    case Skip => {}
    case Assign(d, _, _) => if d.Var? then {} else {d.a}
    case Seq(s1, s2) => ArraysWritten(s1) + ArraysWritten(s2)
    case If(_, _, thn, els) => ArraysWritten(thn) + ArraysWritten(els)
  }

  predicate PlaceFixed(p: Place) {
    match p
    case Var(_) => true
    case At(_) => false
    case Elem(_, q) => PlaceFixed(q)
  }

  predicate PlacesFixed(ps: seq<Place>) {
    forall k | 0 <= k < |ps| :: PlaceFixed(ps[k])
  }

  /** The loop index plays no role. */
  predicate Fixed(s: Stmt) {
    match s
    case Skip => true
    case Assign(d, srcs, _) => PlaceFixed(d) && PlacesFixed(srcs)
    case Seq(s1, s2) => Fixed(s1) && Fixed(s2)
    case If(srcs, _, thn, els) => PlacesFixed(srcs) && Fixed(thn) && Fixed(els)
  }

  /** Scalars that may differ from one call to the next. */
  function Varying(w: Marked): set<nat> {
    w.part.params + w.part.locals + w.held + ScalarsWritten(Body(w.part))
  }

  /** The code before the marker sets every held variable to the same value in every call. */
  predicate HoldsSame(w: Marked) {
    && Fixed(w.before) && Arrays(w.before) !! ArraysWritten(Body(w.part))
    && Safe(w.before, Varying(w), {}) && w.held <= Defines(w.before, Varying(w), {})
  }

  /** The code before the marker changes local variables only; of those, the part after it sets what
      it uses, except held ones, which it leaves alone. */
  ghost predicate Fits(w: Marked) {
    && WellFormed(w.part)
    && w.held !! w.part.params + w.part.locals + ScalarsWritten(Body(w.part))
    && IndexWritesOnly(w.before) && ScalarsWritten(w.before) <= w.part.locals + w.held
    && OwnOnly(Arrays(w.before))
    && (w.held == {} || HoldsSame(w))
  }

  // ----- frames -----

  lemma {:induction false} FixedPlace(p: Place, i: int, j: int, m: Memory)
    requires PlaceFixed(p)
    ensures CellOf(p, i, m) == CellOf(p, j, m)
  {
    match p
    case Elem(_, q) => FixedPlace(q, i, j, m);
    case _ =>
  }

  lemma {:induction false} FixedPlaces(ps: seq<Place>, i: int, j: int, m: Memory)
    requires PlacesFixed(ps)
    ensures Loads(ps, i, m) == Loads(ps, j, m)
  {
    if ps != [] {
      FixedPlace(ps[0], i, j, m);
      assert forall k | 0 <= k < |ps[1..]| :: ps[1..][k] == ps[k + 1];
      FixedPlaces(ps[1..], i, j, m);
    }
  }

  lemma {:induction false} FixedExec(s: Stmt, i: int, j: int, m: Memory)
    requires Fixed(s)
    ensures Exec(s, i, m) == Exec(s, j, m)
  {
    match s
    case Skip =>
    case Assign(d, srcs, _) =>
      FixedPlace(d, i, j, m);
      FixedPlaces(srcs, i, j, m);
    case Seq(s1, s2) =>
      FixedExec(s1, i, j, m);
      FixedExec(s2, i, j, Exec(s1, i, m));
    case If(srcs, _, thn, els) =>
      FixedPlaces(srcs, i, j, m);
      FixedExec(thn, i, j, m);
      FixedExec(els, i, j, m);
  }

  lemma {:induction false} WrittenArray(s: Stmt, i: int, c: Cell)
    requires c in Writes(s, i) && c.Slot?
    ensures c.a in ArraysWritten(s)
  {
    match s
    case Assign(_, _, _) =>
    case Seq(s1, s2) =>
      if c in Writes(s1, i) { WrittenArray(s1, i, c); } else { WrittenArray(s2, i, c); }
    case If(_, _, thn, els) =>
      if c in Writes(thn, i) { WrittenArray(thn, i, c); } else { WrittenArray(els, i, c); }
  }

  /** What a body does not name as its target keeps its value. */
  lemma BodyKeeps(s: Stmt, i: int, m: Memory, c: Cell)
    requires if c.Scalar? then c.x !in ScalarsWritten(s) else c.a !in ArraysWritten(s)
    ensures Exec(s, i, m)[c] == m[c]
  {
    if c in Writes(s, i) {
      if c.Scalar? { WrittenScalar(s, i, c.x); } else { WrittenArray(s, i, c); }
    }
    ExecFrame(s, i, m, c);
  }

  /** The code before the marker changes local variables only. */
  lemma BeforeKeeps(w: Marked, i: int, m: Memory, c: Cell)
    requires Fits(w) && (c.Slot? || c.x !in w.part.locals + w.held)
    ensures Exec(w.before, i, m)[c] == m[c]
  {
    if c in Writes(w.before, i) {
      PureWrites(w.before, i, c);
    }
    ExecFrame(w.before, i, m, c);
  }

  // ----- the start of a batch -----

  lemma OwnIsPlain(arrays: set<ArrayName>, k: Kind)
    requires OwnOnly(arrays)
    ensures Plain(arrays, k)
  {
  }

  /** On everything but arguments the rewritten code does, at index 0, what the code does to the first
      element's view of memory. */
  lemma PreludeAt(w: Marked, m: Memory, c: Cell)
    requires Fits(w) && (if c.Scalar? then c.x !in w.part.params else !c.a.Batch?)
    ensures Prelude(w, m)[c] == Exec(w.before, 0, Project(m, w.part.params, ByBatch, 0))[c]
  {
    OwnIsPlain(Arrays(w.before), ByBatch);
    SubExec(w.before, w.part.params, ByBatch, 0, m);
    assert Project(Prelude(w, m), w.part.params, ByBatch, 0)[c] == Prelude(w, m)[c];
  }

  lemma {:induction false} IndexWritesSub(s: Stmt, vars: set<nat>)
    requires IndexWritesOnly(s) && ScalarsWritten(s) !! vars
    ensures IndexWritesOnly(Sub(s, vars, ByBatch)) && ScalarsWritten(Sub(s, vars, ByBatch)) == ScalarsWritten(s)
  {
    match s
    case Seq(s1, s2) =>
      IndexWritesSub(s1, vars);
      IndexWritesSub(s2, vars);
    case If(_, _, thn, els) =>
      IndexWritesSub(thn, vars);
      IndexWritesSub(els, vars);
    case _ =>
  }

  /** The start of a batch changes local variables only. */
  lemma PreludeKeeps(w: Marked, m: Memory, c: Cell)
    requires Fits(w) && (c.Slot? || c.x !in w.part.locals + w.held)
    ensures Prelude(w, m)[c] == m[c]
  {
    var s := Sub(w.before, w.part.params, ByBatch);
    IndexWritesSub(w.before, w.part.params);
    if c in Writes(s, 0) {
      PureWrites(s, 0, c);
    }
    ExecFrame(s, 0, m, c);
  }

  // ----- a call of the part and a call of the whole function -----

  /** Arrays that may differ from one call to the next. */
  ghost function Changing(w: Marked): iset<ArrayName> {
    iset a: ArrayName | !a.Own? || a in ArraysWritten(Body(w.part))
  }

  /** `a` is memory between iterations of the batch, `b` between calls, both started from `m`. */
  ghost predicate Tracks(w: Marked, a: Memory, b: Memory, m: Memory, low: int) {
    && SameShared(Original(w), a, b) && SameArguments(a, b, low)
    && (forall x | x in w.held :: a[Scalar(x)] == Prelude(w, m)[Scalar(x)])
    && (w.held == {} || Alike(b, m, Varying(w), {}, Changing(w)))
  }

  lemma TracksAtStart(w: Marked, m: Memory, low: int)
    requires Fits(w)
    ensures Tracks(w, Prelude(w, m), m, m, low)
  {
    hide Fits, Prelude;
    forall c: Cell | c.Slot? || c.x !in w.part.locals + w.held
      ensures Prelude(w, m)[c] == m[c]
    {
      PreludeKeeps(w, m, c);
    }
  }

  lemma BeforeStartsAlike(w: Marked, i: int, b: Memory, m: Memory, g: nat -> int)
    requires Alike(b, m, Varying(w), {}, Changing(w))
    ensures Alike(Enter(Original(w), i, b, g), Project(m, w.part.params, ByBatch, 0), Varying(w), {}, Changing(w))
  {
  }

  /** Every call gives the held variables the values a batch holds. */
  lemma HeldAlike(w: Marked, i: int, b: Memory, m: Memory, g: nat -> int, x: nat)
    requires Fits(w) && x in w.held && Alike(b, m, Varying(w), {}, Changing(w))
    ensures Exec(w.before, i, Enter(Original(w), i, b, g))[Scalar(x)] == Prelude(w, m)[Scalar(x)]
  {
    hide Exec, Safe, Enter, Project, Prelude, Alike, WellFormed, Fixed, Defines, Arrays, ArraysWritten, Varying, Changing;
    var e, s := Enter(Original(w), i, b, g), Project(m, w.part.params, ByBatch, 0);
    BeforeStartsAlike(w, i, b, m, g);
    FixedExec(w.before, i, 0, e);
    BeforeAvoids(w);
    SafeEndsAlike(w.before, 0, e, s, Varying(w), {}, Changing(w));
    AlikeAt(Exec(w.before, 0, e), Exec(w.before, 0, s), Varying(w), Defines(w.before, Varying(w), {}), Changing(w), x);
    PreludeAt(w, m, Scalar(x));
  }

  lemma BeforeAvoids(w: Marked)
    requires OwnOnly(Arrays(w.before)) && Arrays(w.before) !! ArraysWritten(Body(w.part))
    ensures Avoids(Arrays(w.before), Changing(w))
  {
  }

  lemma AlikeAt(m: Memory, m': Memory, vars: set<nat>, defined: set<nat>, aside: iset<ArrayName>, x: nat)
    requires Alike(m, m', vars, defined, aside) && (x !in vars || x in defined)
    ensures m[Scalar(x)] == m'[Scalar(x)]
  {
  }

  /** The part starts alike in a batch and in a call, but for locals it sets itself. */
  lemma PartStartsAlike(w: Marked, i: int, a: Memory, b: Memory, m: Memory, g': nat -> int, g: nat -> int, low: int)
    requires Fits(w) && Tracks(w, a, b, m, low) && low <= i
    ensures Alike(Enter(w.part, i, a, g'), Exec(w.before, i, Enter(Original(w), i, b, g)), w.part.locals, {}, NotOwn())
  {
    hide Exec, Prelude, Fits, Alike, WellFormed, Varying, Changing;
    var e := Enter(Original(w), i, b, g);
    var x, y := Enter(w.part, i, a, g'), Exec(w.before, i, e);
    forall v: nat | v !in w.part.locals
      ensures x[Scalar(v)] == y[Scalar(v)]
    {
      if v in w.held {
        HeldAlike(w, i, b, m, g, v);
        assert v !in w.part.params by { HeldApart(w); }
      } else {
        BeforeKeeps(w, i, e, Scalar(v));
        assert a[Slot(Batch(v), i)] == b[Slot(Batch(v), i)];
      }
    }
    forall r: ArrayName, j | r.Own?
      ensures x[Slot(r, j)] == y[Slot(r, j)]
    {
      BeforeKeeps(w, i, e, Slot(r, j));
      assert a[Slot(Own(r.n), j)] == b[Slot(Own(r.n), j)];
    }
    AlikeFrom(x, y, w.part.locals);
  }

  lemma HeldApart(w: Marked)
    requires Fits(w)
    ensures WellFormed(w.part) && OwnArrays(w.part)
    ensures w.held !! w.part.params && w.held !! w.part.locals && w.held !! ScalarsWritten(Body(w.part))
    ensures ScalarsWritten(w.before) <= w.part.locals + w.held
  {
  }

  lemma AlikeFrom(m: Memory, m': Memory, vars: set<nat>)
    requires forall x: nat | x !in vars :: m[Scalar(x)] == m'[Scalar(x)]
    requires forall a: ArrayName, j | a.Own? :: m[Slot(a, j)] == m'[Slot(a, j)]
    ensures Alike(m, m', vars, {}, NotOwn())
  {
  }

  lemma WholeCallMemory(w: Marked, i: int, m: Memory, g: nat -> int)
    ensures CallMemory(Original(w), i, m, g) == Exec(Body(w.part), i, Exec(w.before, i, Enter(Original(w), i, m, g)))
  {
    var f := Original(w);
    assert f.segs[1..] == w.part.segs;
    assert Body(f) == Seq(w.before, Body(w.part));
  }

  /** A call of the part and a call of the whole function end alike and return the same. */
  lemma CallsAgree(w: Marked, i: int, a: Memory, b: Memory, m: Memory, g': nat -> int, g: nat -> int, low: int)
    requires Fits(w) && Tracks(w, a, b, m, low) && low <= i
    ensures Alike(CallMemory(w.part, i, a, g'), CallMemory(Original(w), i, b, g), w.part.locals,
                  Defines(Body(w.part), w.part.locals, {}), NotOwn())
    ensures CallValue(w.part, i, a, g') == CallValue(Original(w), i, b, g)
  {
    hide Fits, Tracks, Exec, Safe, Loads, Arrays, ArraysIn, Defines, Enter, Alike;
    HeldApart(w);
    var f, o := w.part, Original(w);
    var s := Exec(w.before, i, Enter(o, i, b, g));
    PartStartsAlike(w, i, a, b, m, g', g, low);
    WholeCallMemory(w, i, b, g);
    SafeEndsAlike(Body(f), i, Enter(f, i, a, g'), s, f.locals, {}, NotOwn());
    AlikeLoads(f.retSrcs, i, CallMemory(f, i, a, g'), CallMemory(o, i, b, g), f.locals, Defines(Body(f), f.locals, {}), NotOwn());
  }

  /** A call of the part leaves held variables alone. */
  lemma HeldStay(w: Marked, i: int, a: Memory, g: nat -> int, x: nat)
    requires Fits(w) && x in w.held
    ensures Leave(w.part, i, a, g)[Scalar(x)] == a[Scalar(x)] && LeaveArguments(w.part, i, a, g)[Scalar(x)] == a[Scalar(x)]
  {
    hide Fits, Exec, CallValue;
    HeldApart(w);
    BodyKeeps(Body(w.part), i, Enter(w.part, i, a, g), Scalar(x));
  }

  /** A call of the whole function changes only what varies. */
  lemma OthersStay(w: Marked, i: int, b: Memory, g: nat -> int, c: Cell)
    requires Fits(w) && (if c.Scalar? then c.x !in Varying(w) else c.a !in Changing(w))
    ensures CallMemory(Original(w), i, b, g)[c] == b[c]
  {
    hide Fits, Exec;
    var e := Enter(Original(w), i, b, g);
    WholeCallMemory(w, i, b, g);
    BeforeKeeps(w, i, e, c);
    BodyKeeps(Body(w.part), i, Exec(w.before, i, e), c);
  }

  lemma OthersStayAlike(w: Marked, i: int, b: Memory, m: Memory, g: nat -> int)
    requires Fits(w) && Alike(b, m, Varying(w), {}, Changing(w))
    ensures Alike(Leave(Original(w), i, b, g), m, Varying(w), {}, Changing(w))
    ensures Alike(LeaveArguments(Original(w), i, b, g), m, Varying(w), {}, Changing(w))
  {
    hide Fits, CallMemory, CallValue;
    forall c: Cell | if c.Scalar? then c.x !in Varying(w) else c.a !in Changing(w)
      ensures Leave(Original(w), i, b, g)[c] == b[c] && LeaveArguments(Original(w), i, b, g)[c] == b[c]
    {
      OthersStay(w, i, b, g, c);
    }
  }

  /** The two keep track of each other, by value and by reference. */
  lemma TracksOn(w: Marked, i: int, a: Memory, b: Memory, m: Memory, g': nat -> int, g: nat -> int, low: int)
    requires Fits(w) && Tracks(w, a, b, m, low) && low <= i
    ensures Tracks(w, Leave(w.part, i, a, g'), Leave(Original(w), i, b, g), m, low)
    ensures Tracks(w, LeaveArguments(w.part, i, a, g'), LeaveArguments(Original(w), i, b, g), m, low)
  {
    hide Fits, Alike, Leave, LeaveArguments, CallMemory, CallValue, Prelude, Varying, Changing, SameShared, SameArguments, Defines;
    HeldApart(w);
    CallsAgree(w, i, a, b, m, g', g, low);
    SharedOn(w, i, a, b, g', g, Defines(Body(w.part), w.part.locals, {}));
    ArgumentsOn(w, i, a, b, g', g, Defines(Body(w.part), w.part.locals, {}), low);
    forall x | x in w.held
      ensures Leave(w.part, i, a, g')[Scalar(x)] == a[Scalar(x)] && LeaveArguments(w.part, i, a, g')[Scalar(x)] == a[Scalar(x)]
    {
      HeldStay(w, i, a, g', x);
    }
    if w.held != {} {
      OthersStayAlike(w, i, b, m, g);
    }
  }

  lemma SharedOn(w: Marked, i: int, a: Memory, b: Memory, g': nat -> int, g: nat -> int, defined: set<nat>)
    requires SameShared(Original(w), a, b) && CallValue(w.part, i, a, g') == CallValue(Original(w), i, b, g)
    requires Alike(CallMemory(w.part, i, a, g'), CallMemory(Original(w), i, b, g), w.part.locals, defined, NotOwn())
    ensures SameShared(Original(w), Leave(w.part, i, a, g'), Leave(Original(w), i, b, g))
    ensures SameShared(Original(w), LeaveArguments(w.part, i, a, g'), LeaveArguments(Original(w), i, b, g))
  {
    hide CallMemory, CallValue;
    forall k: nat, j: int
      ensures CallMemory(w.part, i, a, g')[Slot(Own(k), j)] == CallMemory(Original(w), i, b, g)[Slot(Own(k), j)]
    {
      assert Own(k) !in NotOwn();
    }
  }

  lemma ArgumentsOn(w: Marked, i: int, a: Memory, b: Memory, g': nat -> int, g: nat -> int, defined: set<nat>, low: int)
    requires SameArguments(a, b, low) && w.part.params !! w.part.locals
    requires Alike(CallMemory(w.part, i, a, g'), CallMemory(Original(w), i, b, g), w.part.locals, defined, NotOwn())
    ensures SameArguments(Leave(w.part, i, a, g'), Leave(Original(w), i, b, g), low)
    ensures SameArguments(LeaveArguments(w.part, i, a, g'), LeaveArguments(Original(w), i, b, g), low)
  {
    hide CallMemory, CallValue;
    forall x: nat, j: int | j >= low
      ensures Leave(w.part, i, a, g')[Slot(Batch(x), j)] == Leave(Original(w), i, b, g)[Slot(Batch(x), j)]
      ensures LeaveArguments(w.part, i, a, g')[Slot(Batch(x), j)] == LeaveArguments(Original(w), i, b, g)[Slot(Batch(x), j)]
    {
      assert a[Slot(Batch(x), j)] == b[Slot(Batch(x), j)];
    }
  }

  // ----- whole batches -----

  lemma {:induction false} CallsTrack(w: Marked, i: int, n: int, a: Memory, b: Memory, m: Memory,
                                      garbage: int -> nat -> int, low: int)
    requires Fits(w) && Tracks(w, a, b, m, low) && low <= i
    ensures Tracks(w, Calls(w.part, i, n, a, garbage), Calls(Original(w), i, n, b, garbage), m, low)
    decreases n - i
  {
    hide Fits, Tracks, Leave, Original;
    if i < n {
      TracksOn(w, i, a, b, m, garbage(i), garbage(i), low);
      CallsTrack(w, i + 1, n, Leave(w.part, i, a, garbage(i)), Leave(Original(w), i, b, garbage(i)), m, garbage, low);
    }
  }

  lemma {:induction false} ReferencesTrack(w: Marked, i: int, n: int, a: Memory, b: Memory, m: Memory,
                                           garbage: int -> nat -> int, low: int)
    requires Fits(w) && Tracks(w, a, b, m, low) && low <= i
    ensures Tracks(w, CallsByReference(w.part, i, n, a, garbage), CallsByReference(Original(w), i, n, b, garbage), m, low)
    decreases n - i
  {
    hide Fits, Tracks, LeaveArguments, Original;
    if i < n {
      TracksOn(w, i, a, b, m, garbage(i), garbage(i), low);
      ReferencesTrack(w, i + 1, n, LeaveArguments(w.part, i, a, garbage(i)), LeaveArguments(Original(w), i, b, garbage(i)),
                      m, garbage, low);
    }
  }

  /** What calls of the part leave, after the code before the marker ran once, is what calls of the
      original function leave. */
  lemma PartIsOriginal(w: Marked, n: int, m: Memory, garbage: int -> nat -> int, r: Memory)
    requires Fits(w) && LeftByCalls(w.part, n, Prelude(w, m), garbage, r)
    ensures LeftByCalls(Original(w), n, m, garbage, r)
  {
    hide Fits, Calls, CallsByReference, Prelude, KeepsParams;
    var p, o := CallsByReference(w.part, 0, n, Prelude(w, m), garbage), CallsByReference(Original(w), 0, n, m, garbage);
    TracksAtStart(w, m, 0);
    CallsTrack(w, 0, n, Prelude(w, m), m, m, garbage, 0);
    ReferencesTrack(w, 0, n, Prelude(w, m), m, m, garbage, 0);
    forall x: nat, j: int
      ensures p[Slot(Batch(x), j)] == o[Slot(Batch(x), j)]
    {
      var low := if j < 0 then j else 0;
      TracksAtStart(w, m, low);
      ReferencesTrack(w, 0, n, Prelude(w, m), m, m, garbage, low);
    }
    LeftFrom(Original(w), n, m, garbage, r);
  }

  /** The batched function leaves what calling the original function on each element in turn leaves. */
  lemma BatchIsOriginalCalls(w: Marked, n: int, m: Memory, garbage: int -> nat -> int)
    requires Fits(w)
    ensures LeftByCalls(Original(w), n, m, garbage, BatchOf(w, n, m))
  {
    hide LeftByCalls, Fits;
    HeldApart(w);
    BatchIsLeftByCalls(w.part, n, Prelude(w, m), garbage);
    PartIsOriginal(w, n, m, garbage, BatchOf(w, n, m));
  }

  lemma SameValueAtStart(w: Marked, j: int, m: Memory, garbage: nat -> int)
    requires Fits(w)
    ensures CallValue(w.part, j, Prelude(w, m), garbage) == CallValue(Original(w), j, m, garbage)
  {
    TracksAtStart(w, m, j);
    CallsAgree(w, j, Prelude(w, m), m, m, garbage, garbage, j);
  }

  /** A function that changes no shared data is mapped over its arguments. */
  lemma BatchIsOriginalMap(w: Marked, n: int, m: Memory, j: int, garbage: nat -> int)
    requires Fits(w) && Pure(w.part) && 0 <= j < n
    ensures BatchOf(w, n, m)[Slot(Results, j)] == CallValue(Original(w), j, m, garbage)
  {
    hide Fits, CallValue, BatchBody, Loop;
    HeldApart(w);
    BatchingIsMap(w.part, n, Prelude(w, m), j, garbage);
    SameValueAtStart(w, j, m, garbage);
  }

  // ----- the pipeline -----

  /** Batched and then split on some locals, the loops finish with what calls of the original function leave. */
  ghost predicate PipelineIsOriginalCalls(w: Marked, vars: set<nat>, n: int, m: Memory, garbage: int -> nat -> int) {
    var r := TrySplit(SubAll(BatchSegments(w.part), vars, ByExpansion), n, Prelude(w, m));
    r.Some? && LeftByCalls(Original(w), n, m, garbage, r.value)
  }

  /** Up to 32 elements, and no further if every iteration uses an expanded variable. */
  lemma PipelineIsOriginal(w: Marked, vars: set<nat>, n: int, m: Memory, garbage: int -> nat -> int)
    requires Fits(w) && vars <= w.part.locals && AllApart(SubAll(BatchSegments(w.part), vars, ByExpansion))
    ensures n <= EXPANDED_SIZE ==> PipelineIsOriginalCalls(w, vars, n, m, garbage)
    ensures SomeAlwaysUses(BatchSegments(w.part), vars) ==>
              (PipelineIsOriginalCalls(w, vars, n, m, garbage) <==> n <= EXPANDED_SIZE)
  {
    hide LeftByCalls, Fits, TrySplit, BatchSegments, SubAll, AllApart, SomeAlwaysUses;
    HeldApart(w);
    PipelineIsIteration(w.part, vars, n, Prelude(w, m), garbage);
    if n <= EXPANDED_SIZE {
      PartIsOriginal(w, n, m, garbage, TrySplit(SubAll(BatchSegments(w.part), vars, ByExpansion), n, Prelude(w, m)).value);
    } else if SomeAlwaysUses(BatchSegments(w.part), vars) {
      BatchedServes(w.part, vars, n, Prelude(w, m));
    }
  }

  /** Beyond, the split loops make an access that does not exist. */
  lemma BatchedServes(f: Function, vars: set<nat>, n: int, m: Memory)
    requires WellFormed(f) && vars <= f.locals && n > EXPANDED_SIZE && SomeAlwaysUses(BatchSegments(f), vars)
    ensures TrySplit(SubAll(BatchSegments(f), vars, ByExpansion), n, m) == None
  {
    hide WellFormed, SubAll, TrySplit, SomeAlwaysUses, BatchSegments;
    BatchBodyIsSplittable(f, vars);
    SplitServes(BatchSegments(f), vars, n, m);
  }

  /** A function that changes no shared data is mapped by the pipeline too. */
  lemma PipelineIsOriginalMap(w: Marked, vars: set<nat>, n: int, m: Memory, j: int, garbage: nat -> int)
    requires Fits(w) && Pure(w.part) && vars <= w.part.locals && 0 <= j < n <= EXPANDED_SIZE
    requires AllApart(SubAll(BatchSegments(w.part), vars, ByExpansion))
    ensures var r := TrySplit(SubAll(BatchSegments(w.part), vars, ByExpansion), n, Prelude(w, m));
            r.Some? && r.value[Slot(Results, j)] == CallValue(Original(w), j, m, garbage)
  {
    hide Fits, CallValue, TrySplit, BatchSegments, SubAll, AllApart;
    HeldApart(w);
    PipelineIsMap(w.part, vars, n, Prelude(w, m), j, garbage);
    SameValueAtStart(w, j, m, garbage);
  }

  // ----- a variable set before the marker and changed after it -----

  const COUNTED := 2
  const SUM := 3

  function First(v: seq<int>): int {
    if v == [] then 0 else v[0]
  }

  /** Adds two batched arguments; counts its calls in a variable that it sets to 0 before the marker. */
  function Counting(): Marked {
    Marked(Seq(Assign(Var(COUNTED), [], _ => 0), Assign(Var(SUM), [], _ => 0)), {},
           Function({0, 1}, {COUNTED, SUM},
                    [Seq(Assign(Var(COUNTED), [Var(COUNTED)], v => First(v) + 1),
                         Assign(Var(SUM), [Var(0), Var(1)], v => if |v| < 2 then 0 else v[0] + v[1]))],
                    [Var(COUNTED)], First))
  }

  lemma CountingIsWellFormed()
    ensures WellFormed(Original(Counting())) && Pure(Original(Counting()))
  {
    var f := Original(Counting());
    assert f.segs[1..] == Counting().part.segs && Counting().part.segs[1..] == [];
    assert Body(f) == Seq(Counting().before, Seq(Counting().part.segs[0], Skip));
  }

  lemma CountingUsesLocal()
    ensures !WellFormed(Counting().part)
  {
    var f := Counting().part;
    assert f.segs[1..] == [];
    assert Body(f) == Seq(f.segs[0], Skip);
    assert f.segs[0].s1.srcs[0] == Var(COUNTED);
  }

  /** The part counts. */
  lemma CountingPart(i: int, m: Memory)
    ensures Exec(Body(Counting().part), i, m)[Scalar(COUNTED)] == m[Scalar(COUNTED)] + 1
  {
    var f := Counting().part;
    assert f.segs[1..] == [];
    assert Body(f) == Seq(f.segs[0], Skip);
    CountStep(f.segs[0].s1, f.segs[0].s2, i, m);
  }

  lemma CountStep(count: Stmt, add: Stmt, i: int, m: Memory)
    requires count.Assign? && count.dst == Var(COUNTED) && count.srcs == [Var(COUNTED)]
    requires forall v :: count.op(v) == First(v) + 1
    requires add.Assign? && add.dst == Var(SUM)
    ensures var m1 := Exec(Seq(count, add), i, m);
            && m1[Scalar(COUNTED)] == m[Scalar(COUNTED)] + 1
            && forall a, j :: m1[Slot(a, j)] == m[Slot(a, j)]
  {
    LoadsOne(COUNTED, i, m);
  }

  lemma CountingReturnsOne(j: int, m: Memory, g: nat -> int)
    ensures CallValue(Original(Counting()), j, m, g) == 1
  {
    var o := Original(Counting());
    var e := Enter(o, j, m, g);
    WholeCallMemory(Counting(), j, m, g);
    var e1 := Exec(Counting().before, j, e);
    assert e1[Scalar(COUNTED)] == 0;
    CountingPart(j, e1);
    LoadsOne(COUNTED, j, CallMemory(o, j, m, g));
  }

  lemma CountingStarts(m: Memory)
    ensures Prelude(Counting(), m)[Scalar(COUNTED)] == 0
  {
  }

  /** The part of an iteration that stores the result. */
  lemma CountingIteration(i: int, m: Memory)
    ensures var m1 := Exec(BatchBody(Counting().part), i, m);
            && m1[Scalar(COUNTED)] == m[Scalar(COUNTED)] + 1
            && m1[Slot(Results, i)] == m[Scalar(COUNTED)] + 1
            && forall j | j != i :: m1[Slot(Results, j)] == m[Slot(Results, j)]
  {
    var f := Counting().part;
    var m1 := Exec(Sub(Body(f), f.params, ByBatch), i, m);
    BatchIteration(f, i, m);
    assert f.segs[1..] == [];
    assert Body(f) == Seq(f.segs[0], Skip);
    var count, add := f.segs[0].s1, f.segs[0].s2;
    CountSub(f.params, count);
    CountStep(Sub(count, f.params, ByBatch), Sub(add, f.params, ByBatch), i, m);
    SubPlacesOne(COUNTED, f.params);
    LoadsOne(COUNTED, i, m1);
  }

  lemma SubPlacesOne(x: nat, params: set<nat>)
    requires x !in params
    ensures SubPlaces([Var(x)], params, ByBatch) == [Var(x)]
  {
    assert SubPlaces([Var(x)][1..], params, ByBatch) == [];
  }

  lemma CountSub(params: set<nat>, count: Stmt)
    requires COUNTED !in params && count.Assign? && count.dst == Var(COUNTED) && count.srcs == [Var(COUNTED)]
    ensures Sub(count, params, ByBatch) == count
  {
    SubPlacesOne(COUNTED, params);
  }

  lemma {:induction false} CountingCounts(i: int, n: int, m: Memory, j: int)
    ensures Loop(BatchBody(Counting().part), i, n, m)[Slot(Results, j)]
         == if i <= j < n then m[Scalar(COUNTED)] + 1 + j - i else m[Slot(Results, j)]
    decreases n - i
  {
    hide BatchBody, Exec;
    if i < n {
      CountingIteration(i, m);
      CountingCounts(i + 1, n, Exec(BatchBody(Counting().part), i, m), j);
    }
  }

  /** The whole function sets its locals before use and every call returns 1, yet element `j` of any batch is
      `j + 1`: the part after the marker uses a local before setting it. */
  lemma CountingDiffers(n: int, m: Memory, j: int, g: nat -> int)
    requires 0 <= j < n
    ensures WellFormed(Original(Counting())) && Pure(Original(Counting())) && !WellFormed(Counting().part)
    ensures CallValue(Original(Counting()), j, m, g) == 1
    ensures BatchOf(Counting(), n, m)[Slot(Results, j)] == j + 1
  {
    hide CallValue, BatchBody, Loop, Prelude;
    CountingIsWellFormed();
    CountingUsesLocal();
    CountingReturnsOne(j, m, g);
    CountingStarts(m);
    CountingCounts(0, n, Prelude(Counting(), m), j);
  }

  // ----- shared data changed before the marker -----

  const TALLY := 0

  /** Counts its calls in a shared variable, before the marker. */
  function Tallying(): Marked {
    Marked(Assign(Var(TALLY), [Var(TALLY)], v => First(v) + 1), {}, Function({}, {}, [], [], _ => 0))
  }

  /** Code before the marker runs once in a batch of any size, an empty one included, and once in every call;
      what it changes for everyone to see is as after the calls for a single element only. */
  lemma TallyingDiffers(n: nat, m: Memory, garbage: int -> nat -> int)
    ensures WellFormed(Tallying().part) && WellFormed(Original(Tallying()))
    ensures BatchOf(Tallying(), n, m)[Scalar(TALLY)] == m[Scalar(TALLY)] + 1
    ensures Calls(Original(Tallying()), 0, n, m, garbage)[Scalar(TALLY)] == m[Scalar(TALLY)] + n
    ensures LeftByCalls(Original(Tallying()), n, m, garbage, BatchOf(Tallying(), n, m)) ==> n == 1
  {
    hide BatchBody, CallsByReference, KeepsParams;
    var o := Original(Tallying());
    assert o.segs[1..] == [];
    TallyStays(0, n, Prelude(Tallying(), m));
    TallyStarts(m);
    TallyGrows(0, n, m, garbage);
  }

  lemma TallyStarts(m: Memory)
    ensures Prelude(Tallying(), m)[Scalar(TALLY)] == m[Scalar(TALLY)] + 1
  {
    SubPlacesOne(TALLY, {});
    LoadsOne(TALLY, 0, m);
  }

  lemma {:induction false} TallyStays(i: int, n: int, m: Memory)
    ensures Loop(BatchBody(Tallying().part), i, n, m)[Scalar(TALLY)] == m[Scalar(TALLY)]
    decreases n - i
  {
    hide BatchBody;
    if i < n {
      BatchIteration(Tallying().part, i, m);
      TallyStays(i + 1, n, Exec(BatchBody(Tallying().part), i, m));
    }
  }

  lemma TallyCall(i: int, m: Memory, g: nat -> int)
    ensures Leave(Original(Tallying()), i, m, g)[Scalar(TALLY)] == m[Scalar(TALLY)] + 1
  {
    WholeCallMemory(Tallying(), i, m, g);
    LoadsOne(TALLY, i, Enter(Original(Tallying()), i, m, g));
  }

  lemma {:induction false} TallyGrows(i: int, n: int, m: Memory, garbage: int -> nat -> int)
    requires i <= n
    ensures Calls(Original(Tallying()), i, n, m, garbage)[Scalar(TALLY)] == m[Scalar(TALLY)] + n - i
    decreases n - i
  {
    hide Leave, Original;
    if i < n {
      TallyCall(i, m, garbage(i));
      TallyGrows(i + 1, n, Leave(Original(Tallying()), i, m, garbage(i)), garbage);
    }
  }
}
