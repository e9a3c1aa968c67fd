/**
 The intermediate representation that control-flow linearization reads and writes,
 with one interpreter for both sides of the transformation.

 A block runs its phi, then its effect on memory, then its store to the mask cell (if
 any), then its terminator.  The mask cell is the fresh stack slot of the pass: effects
 are functions of memory, so no block of the program can touch it.
 */
module IR {

  type Memory = map<int, int>

  /** `Orig` blocks come from the program; the other names are the blocks the passes create. */
  datatype BlockId = Orig(n: nat) | Predicate(i: nat) | UnifiedReturn | UnifiedUnreachable

  /** One incoming pair of a phi: on the edge from `from` the phi takes `val`, an SSA value
      computed from memory and from the phi register of block `src`. */
  datatype Incoming = Incoming(val: (Memory, int) -> int, src: BlockId, from: BlockId)

  /** What a block stores into the mask cell just before its terminator. */
  datatype MaskStore =
    | NoStore
    | StoreId(id: int)
    | SelectId(cond: (Memory, int) -> bool, onTrue: int, onFalse: int)

  /** `MaskBr` is the terminator of a predicate block: load the mask, compare, branch. */
  datatype Terminator =
    | Ret(val: (Memory, int) -> int)
    | Unreachable
    | Br(target: BlockId)
    | CondBr(cond: (Memory, int) -> bool, onTrue: BlockId, onFalse: BlockId)
    | MaskBr(id: int, onTrue: BlockId, onFalse: BlockId)

  datatype Block = Block(phi: seq<Incoming>, eff: (Memory, int) -> Memory, mask: MaskStore, term: Terminator)

  type Code = map<BlockId, Block>

  /** A function: its blocks in layout order (the first is the entry) and their code. */
  datatype Function = Function(layout: seq<BlockId>, code: Code)

  const KEEP_MEMORY: (Memory, int) -> Memory := (m, p) => m
  const PHI_REGISTER: (Memory, int) -> int := (m, p) => p

  /** Successors in terminator order, one entry per edge. */
  function Succs(b: Block): seq<BlockId> {
    match b.term
    case Ret(_) => []
    case Unreachable => []
    case Br(t) => [t]
    case CondBr(_, t, f) => [t, f]
    case MaskBr(_, t, f) => [t, f]
  }

  predicate IsEdge(g: Code, u: BlockId, v: BlockId) {
    u in g && v in Succs(g[u])
  }

  predicate Closed(g: Code) {
    forall u, v | u in g && v in Succs(g[u]) :: v in g
  }

  // ----- interpreter -----

  datatype State = State(at: BlockId, prev: BlockId, mem: Memory, mask: int,
                         regs: map<BlockId, int>, log: seq<BlockId>)

  datatype Outcome =
    | Running(s: State)
    | Returned(value: int, mem: Memory, log: seq<BlockId>)
    | Undefined

  function Reg(regs: map<BlockId, int>, b: BlockId): int {
    if b in regs then regs[b] else 0
  }

  function Pick(phi: seq<Incoming>, prev: BlockId, mem: Memory, regs: map<BlockId, int>): int {
    if phi == [] then 0
    else if phi[0].from == prev then phi[0].val(mem, Reg(regs, phi[0].src))
    else Pick(phi[1..], prev, mem, regs)
  }

  function StoreMask(st: MaskStore, mem: Memory, p: int, mask: int): int {
    match st
    case NoStore => mask
    case StoreId(id) => id
    case SelectId(c, t, f) => if c(mem, p) then t else f
  }

  function Goto(s: State, b: Block, target: BlockId): Outcome {
    var p := Pick(b.phi, s.prev, s.mem, s.regs);
    var m := b.eff(s.mem, p);
    Running(State(target, s.at, m, StoreMask(b.mask, m, p, s.mask), s.regs[s.at := p], s.log + [s.at]))
  }

  function Step(g: Code, s: State): Outcome {
    if s.at !in g then Undefined
    else
      var b := g[s.at];
      var p := Pick(b.phi, s.prev, s.mem, s.regs);
      var m := b.eff(s.mem, p);
      match b.term
      case Ret(v) => Returned(v(m, p), m, s.log + [s.at])
      case Unreachable => Undefined
      case Br(t) => Goto(s, b, t)
      case CondBr(c, t, f) => Goto(s, b, if c(m, p) then t else f)
      case MaskBr(id, t, f) =>
        Goto(s, b, if StoreMask(b.mask, m, p, s.mask) == id then t else f)
  }

  /** At most `n` block visits; a finished run stays finished. */
  function Run(g: Code, o: Outcome, n: nat): Outcome
    decreases n
  {
    if n == 0 || !o.Running? then o else Run(g, Step(g, o.s), n - 1)
  }

  /** Entering a function: nothing has run, the mask cell holds whatever the stack held. */
  function Start(entry: BlockId, mem: Memory, mask: int): Outcome {
    Running(State(entry, entry, mem, mask, map[], []))
  }

  /** The blocks of the program among those a run visited. */
  function Program(log: seq<BlockId>): seq<BlockId> {
    if log == [] then []
    else if log[|log| - 1].Orig? then Program(log[..|log| - 1]) + [log[|log| - 1]]
    else Program(log[..|log| - 1])
  }

  lemma {:induction false} RunAdd(g: Code, o: Outcome, a: nat, b: nat)
    ensures Run(g, o, a + b) == Run(g, Run(g, o, a), b)
    decreases a
  {
    if a > 0 && o.Running? {
      RunAdd(g, Step(g, o.s), a - 1, b);
    }
  }

  lemma RunStep(g: Code, s: State, n: nat)
    requires n > 0
    ensures Run(g, Running(s), n) == Run(g, Step(g, s), n - 1)
  {
  }

  lemma {:induction false} RunMore(g: Code, o: Outcome, a: nat, b: nat)
    requires a <= b && !Run(g, o, a).Running?
    ensures Run(g, o, b) == Run(g, o, a)
  {
    RunAdd(g, o, a, b - a);
  }
}
