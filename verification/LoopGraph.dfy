/**
 Loops as the passes build them: a preheader that resets the shared index, a header that
 compares it with the trip count, a latch that increments it, and a chain of body blocks.
 The constructions rewire a function in place; what they build runs as `Loop` says.
 */
module LoopGraph {
  import opened Common
  import opened LoopLang
  import opened LoopFission

  /** Blocks of the program and the ones made for loop number `k`. */
  datatype BlockId = Block(n: nat) | PreHeader(k: nat) | Header(k: nat) | Latch(k: nat) | EmptyBody(k: nat)

  datatype IndexOp = KeepIndex | ResetIndex | IncrementIndex

  /** `IfLess` branches on index < trip count; `RetVal` returns a value computed from places. */
  datatype Terminator =
    | Ret
    | RetVal(srcs: seq<Place>, op: seq<int> -> int)
    | Br(target: BlockId)
    | IfLess(onTrue: BlockId, onFalse: BlockId)

  datatype LoopBlock = LoopBlock(body: Stmt, op: IndexOp, term: Terminator)

  type Graph = map<BlockId, LoopBlock>

  /** `Fault`: an access to an element that does not exist. */
  datatype State = State(at: BlockId, mem: Memory, index: int) | Fault

  ghost function Step(g: Graph, n: int, s: State): State {
    if s.Fault? || s.at !in g then s
    else if !InRange(g[s.at].body, s.index, s.mem) then Fault
    else
      var b := g[s.at];
      var mem := Exec(b.body, s.index, s.mem);
      var index := match b.op case KeepIndex => s.index case ResetIndex => 0 case IncrementIndex => s.index + 1;
      match b.term
      case Ret => State(s.at, mem, index)
      case RetVal(_, _) => State(s.at, mem, index)
      case Br(t) => State(t, mem, index)
      case IfLess(t, f) => State(if index < n then t else f, mem, index)
  }

  ghost function Steps(g: Graph, n: int, s: State, k: nat): State
    decreases k
  {
    if k == 0 then s else Steps(g, n, Step(g, n, s), k - 1)
  }

  /** A run with trip count `n` gets from one state to the other. */
  ghost predicate Reaches(g: Graph, n: int, s: State, t: State) {
    exists k: nat :: Steps(g, n, s, k) == t
  }

  lemma {:induction false} StepsAdd(g: Graph, n: int, s: State, a: nat, b: nat)
    ensures Steps(g, n, s, a + b) == Steps(g, n, Steps(g, n, s, a), b)
    decreases a
  {
    if a > 0 {
      StepsAdd(g, n, Step(g, n, s), a - 1, b);
    }
  }

  lemma ReachesVia(g: Graph, n: int, s: State, t: State, u: State)
    requires Reaches(g, n, s, t) && Reaches(g, n, t, u)
    ensures Reaches(g, n, s, u)
  {
    var a: nat :| Steps(g, n, s, a) == t;
    var b: nat :| Steps(g, n, t, b) == u;
    StepsAdd(g, n, s, a, b);
  }

  lemma StepReaches(g: Graph, n: int, s: State)
    ensures Reaches(g, n, s, Step(g, n, s)) && Reaches(g, n, s, s)
  {
    assert Steps(g, n, s, 1) == Steps(g, n, Step(g, n, s), 0);
    assert Steps(g, n, s, 0) == s;
  }

  // ----- loops in a graph -----

  function NextIn(chain: seq<BlockId>, j: nat, next: BlockId): BlockId {
    if j + 1 < |chain| then chain[j + 1] else next
  }

  predicate GoesTo(g: Graph, b: BlockId, t: BlockId) {
    b in g && g[b].op == KeepIndex && g[b].term == Br(t)
  }

  /** Body blocks in a row, the last one branching to `next`. */
  ghost predicate IsChain(g: Graph, chain: seq<BlockId>, next: BlockId) {
    forall j | 0 <= j < |chain| :: GoesTo(g, chain[j], NextIn(chain, j, next))
  }

  /** Loop number `k` over the blocks of `chain`, leaving for `exit`. */
  ghost predicate IsLoop(g: Graph, k: nat, chain: seq<BlockId>, exit: BlockId) {
    && chain != [] && IsChain(g, chain, Latch(k))
    && PreHeader(k) in g && g[PreHeader(k)] == LoopBlock(Skip, ResetIndex, Br(Header(k)))
    && Header(k) in g && g[Header(k)] == LoopBlock(Skip, KeepIndex, IfLess(chain[0], exit))
    && Latch(k) in g && g[Latch(k)] == LoopBlock(Skip, IncrementIndex, Br(Header(k)))
  }

  function Bodies(g: Graph, chain: seq<BlockId>): seq<Stmt> {
    if chain == [] then []
    else [if chain[0] in g then g[chain[0]].body else Skip] + Bodies(g, chain[1..])
  }

  function BodyOf(g: Graph, chain: seq<BlockId>): Stmt {
    SeqAll(Bodies(g, chain))
  }

  lemma ChainTail(g: Graph, chain: seq<BlockId>, next: BlockId)
    requires chain != [] && IsChain(g, chain, next)
    ensures IsChain(g, chain[1..], next)
  {
    forall j | 0 <= j < |chain[1..]|
      ensures GoesTo(g, chain[1..][j], NextIn(chain[1..], j, next))
    {
      assert GoesTo(g, chain[j + 1], NextIn(chain, j + 1, next));
    }
  }

  /** Where a computation gets to that may make an access that does not exist. */
  ghost function Arrive(r: Option<Memory>, at: BlockId, index: int): State {
    match r
    case Some(m) => State(at, m, index)
    case None => Fault
  }

  /** One pass over a body. */
  ghost function TryExec(s: Stmt, i: int, m: Memory): Option<Memory> {
    if InRange(s, i, m) then Some(Exec(s, i, m)) else None
  }

  lemma {:induction false} ChainRuns(g: Graph, n: int, chain: seq<BlockId>, next: BlockId, mem: Memory, index: int)
    requires chain != [] && IsChain(g, chain, next)
    ensures Reaches(g, n, State(chain[0], mem, index), Arrive(TryExec(BodyOf(g, chain), index, mem), next, index))
    decreases |chain|
  {
    var s := State(chain[0], mem, index);
    StepReaches(g, n, s);
    ChainTail(g, chain, next);
    assert GoesTo(g, chain[0], NextIn(chain, 0, next));
    var b := g[chain[0]].body;
    assert BodyOf(g, chain) == Seq(b, BodyOf(g, chain[1..]));
    if InRange(b, index, mem) {
      var mem1 := Exec(b, index, mem);
      assert TryExec(BodyOf(g, chain), index, mem) == TryExec(BodyOf(g, chain[1..]), index, mem1);
      assert Step(g, n, s) == State(NextIn(chain, 0, next), mem1, index);
      if |chain| == 1 {
        assert BodyOf(g, chain[1..]) == Skip;
      } else {
        ChainRuns(g, n, chain[1..], next, mem1, index);
        ReachesVia(g, n, s, State(chain[1], mem1, index), Arrive(TryExec(BodyOf(g, chain), index, mem), next, index));
      }
    }
  }

  /** One trip round: from the header through the body and the latch back to the header. */
  lemma TripRuns(g: Graph, n: int, k: nat, chain: seq<BlockId>, exit: BlockId, mem: Memory, i: int)
    requires IsLoop(g, k, chain, exit) && i < n
    ensures Reaches(g, n, State(Header(k), mem, i), Arrive(TryExec(BodyOf(g, chain), i, mem), Header(k), i + 1))
  {
    var r := TryExec(BodyOf(g, chain), i, mem);
    StepReaches(g, n, State(Header(k), mem, i));
    ChainRuns(g, n, chain, Latch(k), mem, i);
    ReachesVia(g, n, State(Header(k), mem, i), State(chain[0], mem, i), Arrive(r, Latch(k), i));
    if r.Some? {
      StepReaches(g, n, State(Latch(k), r.value, i));
      ReachesVia(g, n, State(Header(k), mem, i), State(Latch(k), r.value, i), State(Header(k), r.value, i + 1));
    }
  }

  lemma {:induction false} HeaderRuns(g: Graph, n: int, k: nat, chain: seq<BlockId>, exit: BlockId, mem: Memory, i: int)
    requires IsLoop(g, k, chain, exit)
    ensures Reaches(g, n, State(Header(k), mem, i),
                    Arrive(TryLoop(BodyOf(g, chain), i, n, mem), exit, if i < n then n else i))
    decreases n - i
  {
    if i >= n {
      StepReaches(g, n, State(Header(k), mem, i));
    } else {
      var r := TryExec(BodyOf(g, chain), i, mem);
      TripRuns(g, n, k, chain, exit, mem, i);
      if r.Some? {
        HeaderRuns(g, n, k, chain, exit, r.value, i + 1);
        ReachesVia(g, n, State(Header(k), mem, i), State(Header(k), r.value, i + 1),
                   Arrive(TryLoop(BodyOf(g, chain), i, n, mem), exit, n));
      }
    }
  }

  /** The index when a loop is left. */
  function EndIndex(n: int): int {
    if 0 < n then n else 0
  }

  /** The blocks built for a loop run its body for the indices from 0, whatever the index was, up to
      the first access that does not exist. */
  lemma LoopRuns(g: Graph, n: int, k: nat, chain: seq<BlockId>, exit: BlockId, mem: Memory, index: int)
    requires IsLoop(g, k, chain, exit)
    ensures Reaches(g, n, State(PreHeader(k), mem, index),
                    Arrive(TryLoop(BodyOf(g, chain), 0, n, mem), exit, EndIndex(n)))
  {
    StepReaches(g, n, State(PreHeader(k), mem, index));
    HeaderRuns(g, n, k, chain, exit, mem, 0);
    ReachesVia(g, n, State(PreHeader(k), mem, index), State(Header(k), mem, 0),
               Arrive(TryLoop(BodyOf(g, chain), 0, n, mem), exit, EndIndex(n)));
  }

  // ----- several loops in a row -----

  /** Where loop `ks[i]` leaves to: the next loop, or the exit. */
  function ExitOf(ks: seq<nat>, i: nat, exit: BlockId): BlockId
    requires i < |ks|
  {
    if i + 1 < |ks| then PreHeader(ks[i + 1]) else exit
  }

  /** Loops `ks`, over the parts of a body, stitched one after the other. */
  ghost predicate Stitched(g: Graph, ks: seq<nat>, parts: seq<seq<BlockId>>, exit: BlockId) {
    && |ks| == |parts| > 0
    && forall i | 0 <= i < |ks| :: IsLoop(g, ks[i], parts[i], ExitOf(ks, i, exit))
  }

  function PartBodies(g: Graph, parts: seq<seq<BlockId>>): (r: seq<Stmt>)
    ensures |r| == |parts|
  {
    if parts == [] then [] else [BodyOf(g, parts[0])] + PartBodies(g, parts[1..])
  }

  lemma StitchedTail(g: Graph, ks: seq<nat>, parts: seq<seq<BlockId>>, exit: BlockId)
    requires Stitched(g, ks, parts, exit)
    ensures |ks| == |parts| > 0 && IsLoop(g, ks[0], parts[0], ExitOf(ks, 0, exit))
    ensures |ks| > 1 ==> Stitched(g, ks[1..], parts[1..], exit)
  {
    forall i | 0 <= i < |ks[1..]|
      ensures IsLoop(g, ks[1..][i], parts[1..][i], ExitOf(ks[1..], i, exit))
    {
      assert IsLoop(g, ks[i + 1], parts[i + 1], ExitOf(ks, i + 1, exit));
    }
  }

  lemma TrySplitFirst(g: Graph, parts: seq<seq<BlockId>>, n: int, m: Memory)
    requires parts != []
    ensures TrySplit(PartBodies(g, parts), n, m)
         == match TryLoop(BodyOf(g, parts[0]), 0, n, m)
            case None => None
            case Some(m1) => TrySplit(PartBodies(g, parts[1..]), n, m1)
  {
    assert PartBodies(g, parts)[1..] == PartBodies(g, parts[1..]);
  }

  /** Stitched loops run as one loop per part, in order, up to the first access that does not exist. */
  lemma {:induction false} StitchedRuns(g: Graph, n: int, ks: seq<nat>, parts: seq<seq<BlockId>>, exit: BlockId, mem: Memory, index: int)
    requires Stitched(g, ks, parts, exit)
    ensures Reaches(g, n, State(PreHeader(ks[0]), mem, index),
                    Arrive(TrySplit(PartBodies(g, parts), n, mem), exit, EndIndex(n)))
    decreases |ks|
  {
    hide Reaches, IsLoop, TryLoop, TrySplit, PartBodies, BodyOf, Stitched;
    StitchedTail(g, ks, parts, exit);
    LoopRuns(g, n, ks[0], parts[0], ExitOf(ks, 0, exit), mem, index);
    TrySplitFirst(g, parts, n, mem);
    var r := TryLoop(BodyOf(g, parts[0]), 0, n, mem);
    if r.Some? {
      if |ks| == 1 {
        NothingToSplit(g, parts[1..], n, r.value);
      } else {
        StitchedRuns(g, n, ks[1..], parts[1..], exit, r.value, EndIndex(n));
        ReachesVia(g, n, State(PreHeader(ks[0]), mem, index), State(PreHeader(ks[1]), r.value, EndIndex(n)),
                   Arrive(TrySplit(PartBodies(g, parts), n, mem), exit, EndIndex(n)));
      }
    }
  }

  lemma NothingToSplit(g: Graph, parts: seq<seq<BlockId>>, n: int, m: Memory)
    requires parts == []
    ensures TrySplit(PartBodies(g, parts), n, m) == Some(m)
  {
  }

  // ----- runs end in one state -----

  lemma {:induction false} StaysPut(g: Graph, n: int, s: State, k: nat)
    requires Step(g, n, s) == s
    ensures Steps(g, n, s, k) == s
  {
    if k > 0 {
      StaysPut(g, n, s, k - 1);
    }
  }

  /** A run that comes to rest does so in one state only. */
  lemma OneEnd(g: Graph, n: int, s: State, t: State, u: State)
    requires Reaches(g, n, s, t) && Reaches(g, n, s, u) && Step(g, n, t) == t && Step(g, n, u) == u
    ensures t == u
  {
    var a: nat :| Steps(g, n, s, a) == t;
    var b: nat :| Steps(g, n, s, b) == u;
    if a <= b {
      StepsAdd(g, n, s, a, b - a);
      StaysPut(g, n, t, b - a);
    } else {
      StepsAdd(g, n, s, b, a - b);
      StaysPut(g, n, u, a - b);
    }
  }

  // ----- partition of a body -----

  /** Cut a chain after each block of `ends`; `cur` is the part begun so far. */
  function Parts(cur: seq<BlockId>, chain: seq<BlockId>, ends: set<BlockId>): seq<seq<BlockId>>
    decreases |chain|
  {
    if chain == [] then []
    else if chain[0] in ends then [cur + [chain[0]]] + Parts([], chain[1..], ends)
    else Parts(cur + [chain[0]], chain[1..], ends)
  }

  function Flatten(parts: seq<seq<BlockId>>): seq<BlockId> {
    if parts == [] then [] else parts[0] + Flatten(parts[1..])
  }

  function EndsIn(chain: seq<BlockId>, ends: set<BlockId>): nat {
    if chain == [] then 0 else (if chain[0] in ends then 1 else 0) + EndsIn(chain[1..], ends)
  }

  /** Nothing of the body is lost or repeated, no part is empty, and there are as many parts as
      ends: on a body that is a chain there is no extra part. */
  lemma {:induction false} PartsPartition(cur: seq<BlockId>, chain: seq<BlockId>, ends: set<BlockId>)
    requires chain != [] && chain[|chain| - 1] in ends
    ensures Flatten(Parts(cur, chain, ends)) == cur + chain
    ensures |Parts(cur, chain, ends)| == EndsIn(chain, ends) > 0
    ensures forall i | 0 <= i < |Parts(cur, chain, ends)| :: Parts(cur, chain, ends)[i] != []
    decreases |chain|
  {
    if |chain| == 1 {
      assert Parts([], chain[1..], ends) == [] && EndsIn(chain[1..], ends) == 0;
      assert cur + [chain[0]] == cur + chain;
      assert Flatten([cur + [chain[0]]]) == cur + [chain[0]] + Flatten([cur + [chain[0]]][1..]);
    } else if chain[0] in ends {
      PartsPartition([], chain[1..], ends);
      assert cur + chain == cur + [chain[0]] + ([] + chain[1..]);
    } else {
      PartsPartition(cur + [chain[0]], chain[1..], ends);
      assert cur + chain == cur + [chain[0]] + chain[1..];
    }
  }

  /** The part ends with a block of `ends` and at no earlier block. */
  predicate EndsOnce(part: seq<BlockId>, ends: set<BlockId>) {
    && part != [] && part[|part| - 1] in ends
    && forall j | 0 <= j < |part| - 1 :: part[j] !in ends
  }

  /** The parts in sequence are the chain, and each is cut right after the first block of `ends` it meets. */
  predicate CutAtEnds(parts: seq<seq<BlockId>>, chain: seq<BlockId>, ends: set<BlockId>) {
    && Flatten(parts) == chain
    && forall i | 0 <= i < |parts| :: EndsOnce(parts[i], ends)
  }

  lemma {:induction false} PartsEndOnce(cur: seq<BlockId>, chain: seq<BlockId>, ends: set<BlockId>)
    requires forall j | 0 <= j < |cur| :: cur[j] !in ends
    ensures forall i | 0 <= i < |Parts(cur, chain, ends)| :: EndsOnce(Parts(cur, chain, ends)[i], ends)
    decreases |chain|
  {
    if chain != [] {
      if chain[0] in ends {
        PartsEndOnce([], chain[1..], ends);
      } else {
        PartsEndOnce(cur + [chain[0]], chain[1..], ends);
      }
    }
  }

  /** A body is cut after each end block, and nowhere else. */
  lemma PartsCutAtEnds(chain: seq<BlockId>, ends: set<BlockId>)
    requires chain != [] && chain[|chain| - 1] in ends
    ensures CutAtEnds(Parts([], chain, ends), chain, ends)
  {
    hide Parts, Flatten, EndsOnce;
    PartsPartition([], chain, ends);
    PartsEndOnce([], chain, ends);
    assert [] + chain == chain;
  }

  /** Of two parts that begin the same chain neither is longer. */
  lemma SameFirstPart(a: seq<BlockId>, x: seq<BlockId>, b: seq<BlockId>, y: seq<BlockId>, ends: set<BlockId>)
    requires EndsOnce(a, ends) && EndsOnce(b, ends) && a + x == b + y
    ensures a == b && x == y
  {
    var all := a + x;
    assert forall j | 0 <= j < |a| :: all[j] == a[j];
    assert forall j | 0 <= j < |b| :: all[j] == b[j];
    assert all[|a| - 1] in ends && all[|b| - 1] in ends;
    assert forall j | 0 <= j < |a| - 1 :: all[j] !in ends;
    assert forall j | 0 <= j < |b| - 1 :: all[j] !in ends;
    assert a == all[..|a|] && b == all[..|b|] && x == all[|a|..] && y == all[|b|..];
  }

  /** There is only one way to cut a chain so. */
  lemma {:induction false} CutIsUnique(parts: seq<seq<BlockId>>, others: seq<seq<BlockId>>, chain: seq<BlockId>, ends: set<BlockId>)
    requires CutAtEnds(parts, chain, ends) && CutAtEnds(others, chain, ends)
    ensures parts == others
  {
    hide EndsOnce;
    if parts != [] {
      PartNotEmpty(parts, ends);
    }
    if others != [] {
      PartNotEmpty(others, ends);
    }
    if parts != [] && others != [] {
      SameFirstPart(parts[0], Flatten(parts[1..]), others[0], Flatten(others[1..]), ends);
      CutIsUnique(parts[1..], others[1..], Flatten(parts[1..]), ends);
    }
  }

  lemma PartNotEmpty(parts: seq<seq<BlockId>>, ends: set<BlockId>)
    requires parts != [] && EndsOnce(parts[0], ends)
    ensures Flatten(parts) != []
  {
  }

  lemma {:induction false} SeqAllConcat(a: seq<Stmt>, b: seq<Stmt>, i: int, m: Memory)
    ensures Exec(SeqAll(a + b), i, m) == Exec(SeqAll(b), i, Exec(SeqAll(a), i, m))
  {
    if a == [] {
      assert a + b == b;
    } else {
      assert (a + b)[1..] == a[1..] + b;
      SeqAllConcat(a[1..], b, i, Exec(a[0], i, m));
    }
  }

  lemma {:induction false} BodiesConcat(g: Graph, a: seq<BlockId>, b: seq<BlockId>)
    ensures Bodies(g, a + b) == Bodies(g, a) + Bodies(g, b)
  {
    if a == [] {
      assert a + b == b;
    } else {
      assert (a + b)[1..] == a[1..] + b;
      BodiesConcat(g, a[1..], b);
    }
  }

  /** The parts in sequence do what the whole chain does. */
  lemma {:induction false} PartsRunAsWhole(g: Graph, parts: seq<seq<BlockId>>, i: int, m: Memory)
    ensures Exec(SeqAll(PartBodies(g, parts)), i, m) == Exec(BodyOf(g, Flatten(parts)), i, m)
  {
    if parts != [] {
      BodiesConcat(g, parts[0], Flatten(parts[1..]));
      SeqAllConcat(Bodies(g, parts[0]), Bodies(g, Flatten(parts[1..])), i, m);
      PartsRunAsWhole(g, parts[1..], i, Exec(BodyOf(g, parts[0]), i, m));
    }
  }

  lemma {:induction false} ArraysConcat(a: seq<Stmt>, b: seq<Stmt>)
    ensures Arrays(SeqAll(a + b)) == Arrays(SeqAll(a)) + Arrays(SeqAll(b))
  {
    if a == [] {
      assert a + b == b;
    } else {
      assert (a + b)[1..] == a[1..] + b;
      ArraysConcat(a[1..], b);
    }
  }

  /** The parts name the arrays the whole chain names. */
  lemma {:induction false} PartsNameSameArrays(g: Graph, parts: seq<seq<BlockId>>)
    ensures Arrays(SeqAll(PartBodies(g, parts))) == Arrays(BodyOf(g, Flatten(parts)))
  {
    if parts != [] {
      BodiesConcat(g, parts[0], Flatten(parts[1..]));
      ArraysConcat(Bodies(g, parts[0]), Bodies(g, Flatten(parts[1..])));
      PartsNameSameArrays(g, parts[1..]);
    }
  }

  lemma {:induction false} LoopSameBody(s: Stmt, t: Stmt, i: int, n: int, m: Memory)
    requires forall j, m' :: Exec(s, j, m') == Exec(t, j, m')
    ensures Loop(s, i, n, m) == Loop(t, i, n, m)
    decreases n - i
  {
    if i < n {
      assert Exec(s, i, m) == Exec(t, i, m);
      LoopSameBody(s, t, i + 1, n, Exec(s, i, m));
    }
  }
}
