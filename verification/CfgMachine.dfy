/** Basic blocks with phi nodes, branches, switches and stack save/restore, and how they run. */
module CfgMachine {
  import opened Options
  import opened CfgSource

  type Label = nat
  type Reg = nat

  datatype Val = Bool(b: bool) | Int(n: nat) | Null | Var(r: Reg)

  datatype Instr =
    | Act(a: nat)
    | Probe(r: Reg, t: nat)
    | Phi(r: Reg)
    | Or8(r: Reg, x: Val, y: Val)
    | StackSave(r: Reg)
    | StackRestore(v: Val)

  /** `Switch` leads to `zero`, `one`, `two` or `three` by the value of `v`. */
  datatype Term =
    | Br(l: Label)
    | CondBr(v: Val, yes: Label, no: Label)
    | Switch(v: Val, zero: Label, one: Label, two: Label, three: Label)

  datatype Code = Code(instrs: seq<Instr>, term: Option<Term>)

  /** `phis` holds, for every phi register, the incoming value by predecessor block. */
  datatype Graph = Graph(blocks: map<Label, Code>, phis: map<Reg, map<Label, Val>>)

  datatype Value = VBool(b: bool) | VInt(n: nat) | VPtr(p: int) | VNull

  datatype Point = Point(l: Label, i: nat)

  datatype Config = Config(at: Point, prev: Label, regs: map<Reg, Value>, st: State)

  function Get(v: Val, regs: map<Reg, Value>): Value {
    match v
    case Bool(b) => VBool(b)
    case Int(n) => VInt(n)
    case Null => VNull
    case Var(r) => if r in regs then regs[r] else VNull
  }

  datatype Next = Stuck | Go(c: Config)

  function Jump(c: Config, l: Label): Next {
    Go(Config(Point(l, 0), c.at.l, c.regs, c.st))
  }

  function Advance(c: Config, regs: map<Reg, Value>, st: State): Next {
    Go(Config(Point(c.at.l, c.at.i + 1), c.prev, regs, st))
  }

  function StepInstr(g: Graph, sem: Sem, c: Config, ins: Instr): Next {
    match ins
    case Act(a) => Advance(c, c.regs, sem.act(a, c.st))
    case Probe(r, t) => var (b, st) := sem.test(t, c.st); Advance(c, c.regs[r := VBool(b)], st)
    case Phi(r) =>
      if r in g.phis && c.prev in g.phis[r] then Advance(c, c.regs[r := Get(g.phis[r][c.prev], c.regs)], c.st)
          else Stuck
    case Or8(r, x, y) =>
      var n, b := Get(x, c.regs), Get(y, c.regs);
      if n.VInt? && n.n % 2 == 0 && b.VBool? then Advance(c, c.regs[r := VInt(if b.b then n.n + 1 else n.n)], c.st)
          else Stuck
    case StackSave(r) => Advance(c, c.regs[r := VPtr(c.st.sp)], c.st)
    case StackRestore(v) =>
      var p := Get(v, c.regs);
      if p.VPtr? then Advance(c, c.regs, c.st.(sp := p.p)) else Stuck
  }

  function StepTerm(c: Config, t: Term): Next {
    match t
    case Br(l) => Jump(c, l)
    case CondBr(v, yes, no) =>
      var b := Get(v, c.regs);
      if b.VBool? then Jump(c, if b.b then yes else no) else Stuck
    case Switch(v, l0, l1, l2, l3) =>
      var n := Get(v, c.regs);
      if n == VInt(0) then Jump(c, l0)
      else if n == VInt(1) then Jump(c, l1)
      else if n == VInt(2) then Jump(c, l2)
      else if n == VInt(3) then Jump(c, l3)
      else Stuck
  }

  /** A block without a terminator is still open: running into its end stops the machine. */
  function Step(g: Graph, sem: Sem, c: Config): Next {
    if c.at.l !in g.blocks then Stuck
    else
      var code := g.blocks[c.at.l];
      if c.at.i < |code.instrs| then StepInstr(g, sem, c, code.instrs[c.at.i])
      else if c.at.i == |code.instrs| && code.term.Some? then StepTerm(c, code.term.value)
      else Stuck
  }

  function Run(g: Graph, sem: Sem, c: Config, n: nat): Next
    decreases n
  {
    if n == 0 then Go(c)
    else
      var s := Step(g, sem, c);
      if s.Stuck? then Stuck else Run(g, sem, s.c, n - 1)
  }

  lemma {:induction false} RunAdd(g: Graph, sem: Sem, c: Config, m: nat, c1: Config, n: nat)
    requires Run(g, sem, c, m) == Go(c1)
    ensures Run(g, sem, c, m + n) == Run(g, sem, c1, n)
    decreases m
  {
    if m > 0 {
      RunAdd(g, sem, Step(g, sem, c).c, m - 1, c1, n);
    }
  }

  /** A stopped machine makes no further step. */
  lemma {:induction false} RunStopped(g: Graph, sem: Sem, c: Config, m: nat, c1: Config, n: nat)
    requires Run(g, sem, c, m) == Go(c1) && Step(g, sem, c1).Stuck?
    requires Run(g, sem, c, n).Go?
    ensures n <= m
  {
    if n > m {
      RunAdd(g, sem, c, m, c1, n - m);
    }
  }
}
