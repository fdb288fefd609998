/** Running the block graph of a statement does what the statement means, stack pointer included. */
module CfgSimulation {
  import opened CfgSource
  import opened CfgMachine
  import opened CfgLayout

  /** Registers below `lo` are as before. */
  ghost predicate Keeps(r: map<Reg, Value>, r': map<Reg, Value>, lo: Reg) {
    forall x: Reg | x < lo :: (x in r <==> x in r') && (x in r ==> r'[x] == r[x])
  }

  /** In `n` steps the machine gets from `c` to `c'`, with the state `st`. */
  ghost predicate Gets(g: Graph, sem: Sem, c: Config, n: nat, c': Config, at: Point, st: State, lo: Reg) {
    Run(g, sem, c, n) == Go(c') && c'.at == at && c'.st == st && Keeps(c.regs, c'.regs, lo)
  }

  lemma GetsThen(g: Graph, sem: Sem, c: Config, n: nat, c1: Config, lo: Reg, m: nat, c2: Config, lo1: Reg)
    requires Gets(g, sem, c, n, c1, c1.at, c1.st, lo) && Gets(g, sem, c1, m, c2, c2.at, c2.st, lo1) && lo <= lo1
    ensures Gets(g, sem, c, n + m, c2, c2.at, c2.st, lo)
  {
    RunAdd(g, sem, c, n, c1, m);
  }

  /** One more step. */
  lemma GetsStep(g: Graph, sem: Sem, c: Config, n: nat, c1: Config, lo: Reg, c2: Config)
    requires Gets(g, sem, c, n, c1, c1.at, c1.st, lo) && Step(g, sem, c1) == Go(c2) && Keeps(c1.regs, c2.regs, lo)
    ensures Gets(g, sem, c, n + 1, c2, c2.at, c2.st, lo)
  {
    RunAdd(g, sem, c, n, c1, 1);
    assert Run(g, sem, c1, 1) == Go(c2);
  }

  // ---------------------------------------------------------------- conditions

  /** A condition that folded to a constant has no code and no effect. */
  lemma {:induction false} FoldedEval(g: Graph, sem: Sem, c: Cond, lay: CondLay, from: Point, lo: Reg, st: State)
    requires CondLaid(g, c, lay, from, lo) && lay.v.Bool?
    ensures Eval(sem, c, st) == (lay.v.b, st)
  {
    if c.Both? || c.Either? {
      FoldedEval(g, sem, c.l, lay.l, from, lo, st);
      FoldedEval(g, sem, c.r, lay.r, Start(lay.rhs), lo, st);
    }
  }

  lemma {:induction false} CondSim(g: Graph, sem: Sem, c: Cond, lay: CondLay, from: Point, lo: Reg, cfg: Config)
    returns (n: nat, cfg': Config)
    requires CondLaid(g, c, lay, from, lo) && cfg.at == from
    ensures Gets(g, sem, cfg, n, cfg', lay.to, Eval(sem, c, cfg.st).1, lo)
    ensures Get(lay.v, cfg'.regs) == VBool(Eval(sem, c, cfg.st).0)
    decreases c, 3
  {
    match c
    case Const(b) =>
      n, cfg' := 0, cfg;
    case Test(t) =>
      cfg' := Step(g, sem, cfg).c;
      n := 1;
      assert Run(g, sem, cfg, 1) == Go(cfg');
    case Both(_, _) => n, cfg' := PairSim(g, sem, c, lay, from, lo, cfg);
    case Either(_, _) => n, cfg' := PairSim(g, sem, c, lay, from, lo, cfg);
  }

  /** The left side and the jump behind it. */
  lemma {:induction false} LeftSim(g: Graph, sem: Sem, c: Cond, lay: CondLay, from: Point, lo: Reg, cfg: Config)
    returns (n: nat, cfg': Config)
    requires c.Both? || c.Either?
    requires CondLaid(g, c, lay, from, lo) && cfg.at == from
    ensures var folded := lay.l.v.Bool? && lay.r.v.Bool?;
            var (b, st1) := Eval(sem, c.l, cfg.st);
            Gets(g, sem, cfg, n, cfg', Start(if folded || b == c.Both? then lay.rhs else lay.cont), st1, lo)
    ensures cfg'.prev == lay.l.to.l
    decreases c, 0
  {
    var n1, cfg1 := CondSim(g, sem, c.l, lay.l, from, lo, cfg);
    cfg' := Step(g, sem, cfg1).c;
    GetsStep(g, sem, cfg, n1, cfg1, lo, cfg');
    n := n1 + 1;
  }

  lemma {:induction false} FoldedSim(g: Graph, sem: Sem, c: Cond, lay: CondLay, from: Point, lo: Reg, cfg: Config)
    returns (n: nat, cfg': Config)
    requires c.Both? || c.Either?
    requires CondLaid(g, c, lay, from, lo) && cfg.at == from
    requires lay.l.v.Bool? && lay.r.v.Bool?
    ensures Gets(g, sem, cfg, n, cfg', lay.to, Eval(sem, c, cfg.st).1, lo)
    ensures Get(lay.v, cfg'.regs) == VBool(Eval(sem, c, cfg.st).0)
    decreases c, 1
  {
    var n1, cfg1 := LeftSim(g, sem, c, lay, from, lo, cfg);
    FoldedEval(g, sem, c, lay, from, lo, cfg.st);
    FoldedEval(g, sem, c.l, lay.l, from, lo, cfg.st);
    var n2;
    n2, cfg' := CondSim(g, sem, c.r, lay.r, Start(lay.rhs), lo, cfg1);
    FoldedEval(g, sem, c.r, lay.r, Start(lay.rhs), lo, cfg1.st);
    GetsThen(g, sem, cfg, n1, cfg1, lo, n2, cfg', lo);
    n := n1 + n2;
  }

  /** The right side decides. */
  lemma {:induction false} DecidedSim(g: Graph, sem: Sem, c: Cond, lay: CondLay, from: Point, lo: Reg, cfg: Config)
    returns (n: nat, cfg': Config)
    requires c.Both? || c.Either?
    requires CondLaid(g, c, lay, from, lo) && cfg.at == from
    requires !(lay.l.v.Bool? && lay.r.v.Bool?) && Eval(sem, c.l, cfg.st).0 == c.Both?
    ensures Gets(g, sem, cfg, n, cfg', lay.to, Eval(sem, c, cfg.st).1, lo)
    ensures Get(lay.v, cfg'.regs) == VBool(Eval(sem, c, cfg.st).0)
    decreases c, 1
  {
    var n1, cfg1 := LeftSim(g, sem, c, lay, from, lo, cfg);
    var n2, cfg2 := CondSim(g, sem, c.r, lay.r, Start(lay.rhs), lo, cfg1);
    GetsThen(g, sem, cfg, n1, cfg1, lo, n2, cfg2, lo);
    var cfg3 := Step(g, sem, cfg2).c;
    GetsStep(g, sem, cfg, n1 + n2, cfg2, lo, cfg3);
    cfg' := Step(g, sem, cfg3).c;
    GetsStep(g, sem, cfg, n1 + n2 + 1, cfg3, lo, cfg');
    n := n1 + n2 + 2;
  }

  /** The left side decides: around the right one. */
  lemma {:induction false} SkippedSim(g: Graph, sem: Sem, c: Cond, lay: CondLay, from: Point, lo: Reg, cfg: Config)
    returns (n: nat, cfg': Config)
    requires c.Both? || c.Either?
    requires CondLaid(g, c, lay, from, lo) && cfg.at == from
    requires !(lay.l.v.Bool? && lay.r.v.Bool?) && Eval(sem, c.l, cfg.st).0 != c.Both?
    ensures Gets(g, sem, cfg, n, cfg', lay.to, Eval(sem, c, cfg.st).1, lo)
    ensures Get(lay.v, cfg'.regs) == VBool(Eval(sem, c, cfg.st).0)
    decreases c, 1
  {
    var n1, cfg1 := LeftSim(g, sem, c, lay, from, lo, cfg);
    cfg' := Step(g, sem, cfg1).c;
    GetsStep(g, sem, cfg, n1, cfg1, lo, cfg');
    n := n1 + 1;
  }

  lemma {:induction false} PairSim(g: Graph, sem: Sem, c: Cond, lay: CondLay, from: Point, lo: Reg, cfg: Config)
    returns (n: nat, cfg': Config)
    requires c.Both? || c.Either?
    requires CondLaid(g, c, lay, from, lo) && cfg.at == from
    ensures Gets(g, sem, cfg, n, cfg', lay.to, Eval(sem, c, cfg.st).1, lo)
    ensures Get(lay.v, cfg'.regs) == VBool(Eval(sem, c, cfg.st).0)
    decreases c, 2
  {
    if lay.l.v.Bool? && lay.r.v.Bool? {
      n, cfg' := FoldedSim(g, sem, c, lay, from, lo, cfg);
    } else if Eval(sem, c.l, cfg.st).0 == c.Both? {
      n, cfg' := DecidedSim(g, sem, c, lay, from, lo, cfg);
    } else {
      n, cfg' := SkippedSim(g, sem, c, lay, from, lo, cfg);
    }
  }

  // ---------------------------------------------------------------- statements

  /**
    * The machine run that matches a result: to `to` if it ends normally, to the merge block that a break selects, or at
    * least `fuel` steps.
    */
  ghost predicate Matches(g: Graph, sem: Sem, c: Config, n: nat, c': Config, r: Result, to: Point, merges: seq<Label>,
                          lo: Reg, fuel: nat) {
    && Run(g, sem, c, n) == Go(c')
    && (r.Timeout? ==> n >= fuel)
    && (r.Done? ==> c'.st == r.st && Keeps(c.regs, c'.regs, lo))
    && (r.Done? && r.o.Normal? ==> c'.at == to)
    && (r.Done? && r.o.Break? ==> 1 <= r.o.depth <= |merges| && c'.at == Start(Target(merges, r.o.depth)))
  }

  lemma MatchesAfter(g: Graph, sem: Sem, c: Config, n: nat, c1: Config, lo: Reg, m: nat, c2: Config, lo1: Reg,
                     r: Result, to: Point, merges: seq<Label>, fuel: nat, fuel1: nat)
    requires Gets(g, sem, c, n, c1, c1.at, c1.st, lo) && Matches(g, sem, c1, m, c2, r, to, merges, lo1, fuel1)
    requires lo <= lo1 && fuel <= fuel1 + n
    ensures Matches(g, sem, c, n + m, c2, r, to, merges, lo, fuel)
  {
    RunAdd(g, sem, c, n, c1, m);
  }

  /** One run after another one that ended normally. */
  lemma MatchesThen(g: Graph, sem: Sem, c: Config, n: nat, c1: Config, r1: Result, to1: Point, fuel1: nat, m: nat,
                    c2: Config, r: Result, to: Point, merges: seq<Label>, lo: Reg, fuel: nat, fuel2: nat)
    requires Matches(g, sem, c, n, c1, r1, to1, merges, lo, fuel1) && r1.Done? && r1.o.Normal?
    requires Matches(g, sem, c1, m, c2, r, to, merges, lo, fuel2) && fuel <= fuel2 + n
    ensures Matches(g, sem, c, n + m, c2, r, to, merges, lo, fuel)
  {
    RunAdd(g, sem, c, n, c1, m);
  }

  /** Leaving a construct with merge block `merge`. */
  lemma MatchesLeave(g: Graph, sem: Sem, c: Config, n: nat, c': Config, r: Result, merge: Label, merges: seq<Label>,
                     lo: Reg, fuel: nat)
    requires Matches(g, sem, c, n, c', r, Start(merge), merges + [merge], lo, fuel)
    ensures Matches(g, sem, c, n, c', Leave(r), Start(merge), merges, lo, fuel)
  {
    if r.Done? && r.o.Break? && r.o.depth > 1 {
      assert Target(merges + [merge], r.o.depth) == Target(merges, r.o.depth - 1);
    }
  }

  lemma {:induction false} BlockSim(g: Graph, sem: Sem, fuel: nat, b: Block, lay: BlockLay, from: Point,
                                    merges: seq<Label>, lo: Reg, cfg: Config)
    returns (n: nat, cfg': Config)
    requires BlockLaid(g, b, lay, from, merges, lo) && cfg.at == from
    ensures Matches(g, sem, cfg, n, cfg', ExecBlock(sem, fuel, b, cfg.st), lay.to, merges, lo, fuel)
    decreases fuel, b, 1
  {
    if b.Empty? {
      return 0, cfg;
    }
    n, cfg' := StmtSim(g, sem, fuel, b.s, lay.s, from, merges, lo, cfg);
    var r := ExecStmt(sem, fuel, b.s, cfg.st);
    if r.Done? && r.o.Normal? {
      var m, cfg2 := BlockSim(g, sem, fuel, b.rest, lay.rest, lay.s.to, merges, lo, cfg');
      MatchesAfter(g, sem, cfg, n, cfg', lo, m, cfg2, lo, ExecBlock(sem, fuel, b.rest, r.st), lay.to, merges, fuel,
                   fuel);
      return n + m, cfg2;
    }
  }

  lemma {:induction false} BranchSim(g: Graph, sem: Sem, fuel: nat, br: Branch, lay: BranchLay, from: Point,
                                     merges: seq<Label>, lo: Reg, cfg: Config)
    returns (n: nat, cfg': Config)
    requires BranchLaid(g, br, lay, from, merges, lo) && cfg.at == from
    ensures Matches(g, sem, cfg, n, cfg', ExecBranch(sem, fuel, br, cfg.st), lay.to, merges, lo, fuel)
    decreases fuel, br, 1
  {
    n, cfg' := BlockSim(g, sem, fuel, br.body, lay.body, from, merges, lo, cfg);
    var r := ExecBlock(sem, fuel, br.body, cfg.st);
    if br.Brk? && r.Done? && r.o.Normal? {
      var (b, st1) := Eval(sem, br.c, r.st);
      var n1, cfg1 := CondSim(g, sem, br.c, lay.c, lay.body.to, lo, cfg');
      GetsThen(g, sem, cfg, n, cfg', lo, n1, cfg1, lo);
      var cfg2 := Step(g, sem, cfg1).c;
      GetsStep(g, sem, cfg, n + n1, cfg1, lo, cfg2);
      if b {
        cfg' := Step(g, sem, cfg2).c;
        GetsStep(g, sem, cfg, n + n1 + 1, cfg2, lo, cfg');
        n := n + n1 + 2;
      } else {
        var m, cfg3 := BranchSim(g, sem, fuel, br.rest, lay.rest, Start(lay.cont), merges, lo, cfg2);
        MatchesAfter(g, sem, cfg, n + n1 + 1, cfg2, lo, m, cfg3, lo, ExecBranch(sem, fuel, br.rest, st1), lay.to,
                     merges, fuel, fuel);
        n, cfg' := n + n1 + 1 + m, cfg3;
      }
    }
  }

  lemma {:induction false} ArmSim(g: Graph, sem: Sem, fuel: nat, br: Branch, lay: BranchLay, from: Point,
                                  merges: seq<Label>, merge: Label, next: Label, lo: Reg, cfg: Config)
    returns (n: nat, cfg': Config)
    requires ArmLaid(g, br, lay, from, merges, merge, next, lo) && cfg.at == from
    ensures Matches(g, sem, cfg, n, cfg', ExecBranch(sem, fuel, br, cfg.st), Start(next), merges + [merge], lo, fuel)
    ensures ExecBranch(sem, fuel, br, cfg.st).Done? && ExecBranch(sem, fuel, br, cfg.st).o.Normal? ==>
              cfg'.prev == lay.to.l
    decreases fuel, br, 2
  {
    n, cfg' := BranchSim(g, sem, fuel, br, lay, from, merges + [merge], lo, cfg);
    var r := ExecBranch(sem, fuel, br, cfg.st);
    if r.Done? && r.o.Normal? {
      var cfg1 := Step(g, sem, cfg').c;
      GetsStep(g, sem, cfg, n, cfg', lo, cfg1);
      n, cfg' := n + 1, cfg1;
    }
  }

  lemma {:induction false} IfSim(g: Graph, sem: Sem, fuel: nat, s: Stmt, lay: StmtLay, from: Point, merges: seq<Label>,
                                 lo: Reg, cfg: Config)
    returns (n: nat, cfg': Config)
    requires s.IfElse? && IfLaid(g, s, lay, from, merges, lo) && cfg.at == from
    ensures Matches(g, sem, cfg, n, cfg', ExecStmt(sem, fuel, s, cfg.st), lay.to, merges, lo, fuel)
    decreases fuel, s, 1
  {
    var (b, st1) := Eval(sem, s.c, cfg.st);
    var n1, cfg1 := CondSim(g, sem, s.c, lay.c, from, lo, cfg);
    var cfg2 := Step(g, sem, cfg1).c;
    GetsStep(g, sem, cfg, n1, cfg1, lo, cfg2);
    if lay.c.v.Bool? {
      FoldedEval(g, sem, s.c, lay.c, from, lo, cfg.st);
    }
    var m;
    if b {
      m, cfg' := ArmSim(g, sem, fuel, s.thn, lay.t, Start(lay.thn), merges, lay.to.l, lay.to.l, lo, cfg2);
    } else {
      m, cfg' := ArmSim(g, sem, fuel, s.els, lay.e, Start(lay.els), merges, lay.to.l, lay.to.l, lo, cfg2);
    }
    var r := ExecBranch(sem, fuel, if b then s.thn else s.els, st1);
    MatchesAfter(g, sem, cfg, n1 + 1, cfg2, lo, m, cfg', lo, r, Start(lay.to.l), merges + [lay.to.l], fuel, fuel);
    n := n1 + 1 + m;
    MatchesLeave(g, sem, cfg, n, cfg', r, lay.to.l, merges, lo, fuel);
  }

  // ---------------------------------------------------------------- while

  /** The two phis at the head of the condition block. */
  lemma WhileHead(g: Graph, sem: Sem, bs: LoopBlocks, rs: LoopRegs, from: Point, c: CondLay, bodyEnd: Point, lo: Reg,
                  first: bool, cfg: Config)
    returns (cfg': Config)
    requires WhileFrame(g, bs, rs, from, c, bodyEnd, lo)
    requires cfg.at == Start(bs.cond) && cfg.prev == if first then from.l else bodyEnd.l
    ensures Gets(g, sem, cfg, 2, cfg', Point(bs.cond, 2), cfg.st, lo)
    ensures Get(Var(rs.must), cfg'.regs) == VInt(if first then 2 else 0)
    ensures !first ==> Get(Var(rs.saved), cfg'.regs) == Get(Var(rs.saved1), cfg.regs)
  {
    var cfg1 := Step(g, sem, cfg).c;
    GetsStep(g, sem, cfg, 0, cfg, lo, cfg1);
    cfg' := Step(g, sem, cfg1).c;
    GetsStep(g, sem, cfg, 1, cfg1, lo, cfg');
  }

  /** The switch on "first run" or'ed with the condition. */
  lemma WhileSwitch(g: Graph, sem: Sem, bs: LoopBlocks, rs: LoopRegs, from: Point, c: CondLay, bodyEnd: Point, lo: Reg,
                    first: bool, b: bool, cfg: Config)
    returns (cfg': Config)
    requires WhileFrame(g, bs, rs, from, c, bodyEnd, lo)
    requires cfg.at == c.to && Get(Var(rs.must), cfg.regs) == VInt(if first then 2 else 0)
             && Get(c.v, cfg.regs) == VBool(b)
    ensures var target := if first then (if b then bs.save else bs.els) else (if b then bs.restore else bs.merge);
            Gets(g, sem, cfg, 2, cfg', Start(target), cfg.st, rs.sw)
  {
    var cfg1 := Step(g, sem, cfg).c;
    GetsStep(g, sem, cfg, 0, cfg, rs.sw, cfg1);
    cfg' := Step(g, sem, cfg1).c;
    GetsStep(g, sem, cfg, 1, cfg1, rs.sw, cfg');
  }

  /** A condition after `m` steps; registers below `lo1` are kept by it. */
  lemma CondAfter(g: Graph, sem: Sem, c: Cond, cl: CondLay, lo: Reg, cfg: Config, m: nat, cfg1: Config, lo1: Reg)
    returns (n: nat, cfg': Config)
    requires Gets(g, sem, cfg, m, cfg1, cfg1.at, cfg1.st, lo) && CondLaid(g, c, cl, cfg1.at, lo1) && lo <= lo1
    ensures Gets(g, sem, cfg, n, cfg', cl.to, Eval(sem, c, cfg1.st).1, lo)
    ensures Get(cl.v, cfg'.regs) == VBool(Eval(sem, c, cfg1.st).0)
    ensures forall x: Reg | x < lo1 :: Get(Var(x), cfg'.regs) == Get(Var(x), cfg1.regs)
  {
    n, cfg' := CondSim(g, sem, c, cl, cfg1.at, lo1, cfg1);
    GetsThen(g, sem, cfg, m, cfg1, lo, n, cfg', lo1);
    n := m + n;
  }

  /** The condition, with the stack pointer and the first-run flag kept. */
  lemma WhileCond(g: Graph, sem: Sem, c: Cond, bs: LoopBlocks, rs: LoopRegs, from: Point, cl: CondLay, bodyEnd: Point,
                  lo: Reg, first: bool, cfg: Config)
    returns (n: nat, cfg': Config)
    requires WhileFrame(g, bs, rs, from, cl, bodyEnd, lo) && CondLaid(g, c, cl, Point(bs.cond, 2), rs.saved + 1)
    requires cfg.at == Start(bs.cond) && cfg.prev == if first then from.l else bodyEnd.l
    ensures Gets(g, sem, cfg, n, cfg', cl.to, Eval(sem, c, cfg.st).1, lo)
    ensures Get(cl.v, cfg'.regs) == VBool(Eval(sem, c, cfg.st).0)
            && Get(Var(rs.must), cfg'.regs) == VInt(if first then 2 else 0)
    ensures !first ==> Get(Var(rs.saved), cfg'.regs) == Get(Var(rs.saved1), cfg.regs)
  {
    var cfg1 := WhileHead(g, sem, bs, rs, from, cl, bodyEnd, lo, first, cfg);
    n, cfg' := CondAfter(g, sem, c, cl, lo, cfg, 2, cfg1, rs.saved + 1);
  }

  /** From the condition block, on the first run or a later one, to the block that the switch selects. */
  lemma WhileTestSim(g: Graph, sem: Sem, c: Cond, bs: LoopBlocks, rs: LoopRegs, from: Point, cl: CondLay,
                     bodyEnd: Point, lo: Reg, first: bool, cfg: Config)
    returns (n: nat, cfg': Config)
    requires WhileFrame(g, bs, rs, from, cl, bodyEnd, lo) && CondLaid(g, c, cl, Point(bs.cond, 2), rs.saved + 1)
    requires cfg.at == Start(bs.cond) && cfg.prev == if first then from.l else bodyEnd.l
    ensures var (b, st1) := Eval(sem, c, cfg.st);
            var target := if first then (if b then bs.save else bs.els) else (if b then bs.restore else bs.merge);
            Gets(g, sem, cfg, n, cfg', Start(target), st1, lo)
    ensures !first ==> Get(Var(rs.saved), cfg'.regs) == Get(Var(rs.saved1), cfg.regs)
  {
    var cfg2;
    n, cfg2 := WhileCond(g, sem, c, bs, rs, from, cl, bodyEnd, lo, first, cfg);
    cfg' := WhileSwitch(g, sem, bs, rs, from, cl, bodyEnd, lo, first, Eval(sem, c, cfg.st).0, cfg2);
    GetsThen(g, sem, cfg, n, cfg2, lo, 2, cfg', rs.sw);
    n := n + 2;
  }

  /** Saving the stack pointer before the first iteration. */
  lemma WhileSave(g: Graph, sem: Sem, bs: LoopBlocks, rs: LoopRegs, from: Point, c: CondLay, bodyEnd: Point, lo: Reg,
                  cfg: Config)
    returns (cfg': Config)
    requires WhileFrame(g, bs, rs, from, c, bodyEnd, lo) && cfg.at == Start(bs.save)
    ensures Gets(g, sem, cfg, 2, cfg', Start(bs.thn), cfg.st, lo) && cfg'.prev == bs.save
    ensures Get(Var(rs.saved0), cfg'.regs) == VPtr(cfg.st.sp)
  {
    var cfg1 := Step(g, sem, cfg).c;
    GetsStep(g, sem, cfg, 0, cfg, lo, cfg1);
    cfg' := Step(g, sem, cfg1).c;
    GetsStep(g, sem, cfg, 1, cfg1, lo, cfg');
  }

  /** Restoring it before a later one. */
  lemma WhileRestore(g: Graph, sem: Sem, bs: LoopBlocks, rs: LoopRegs, from: Point, c: CondLay, bodyEnd: Point, lo: Reg,
                     sp: int, cfg: Config)
    returns (cfg': Config)
    requires WhileFrame(g, bs, rs, from, c, bodyEnd, lo) && cfg.at == Start(bs.restore)
             && Get(Var(rs.saved), cfg.regs) == VPtr(sp)
    ensures Gets(g, sem, cfg, 2, cfg', Start(bs.thn), cfg.st.(sp := sp), lo) && cfg'.prev == bs.restore
    ensures Get(Var(rs.saved), cfg'.regs) == VPtr(sp)
  {
    var cfg1 := Step(g, sem, cfg).c;
    GetsStep(g, sem, cfg, 0, cfg, lo, cfg1);
    cfg' := Step(g, sem, cfg1).c;
    GetsStep(g, sem, cfg, 1, cfg1, lo, cfg');
  }

  /** Between iterations: from the condition block to the body block, or out. */
  lemma WhileAgain(g: Graph, sem: Sem, c: Cond, bs: LoopBlocks, rs: LoopRegs, from: Point, cl: CondLay, bodyEnd: Point,
                   lo: Reg, sp: int, cfg: Config)
    returns (n: nat, cfg': Config)
    requires WhileFrame(g, bs, rs, from, cl, bodyEnd, lo) && CondLaid(g, c, cl, Point(bs.cond, 2), rs.saved + 1)
    requires cfg.at == Start(bs.cond) && cfg.prev == bodyEnd.l && Get(Var(rs.saved1), cfg.regs) == VPtr(sp)
    ensures var (b, st1) := Eval(sem, c, cfg.st);
            if b then Gets(g, sem, cfg, n, cfg', Start(bs.thn), st1.(sp := sp), lo) && cfg'.prev == bs.restore
                && Get(Var(rs.saved), cfg'.regs) == VPtr(sp)
            else Gets(g, sem, cfg, n, cfg', Start(bs.merge), st1, lo)
  {
    n, cfg' := WhileTestSim(g, sem, c, bs, rs, from, cl, bodyEnd, lo, false, cfg);
    if Eval(sem, c, cfg.st).0 {
      var cfg1 := WhileRestore(g, sem, bs, rs, from, cl, bodyEnd, lo, sp, cfg');
      GetsThen(g, sem, cfg, n, cfg', lo, 2, cfg1, lo);
      n, cfg' := n + 2, cfg1;
    }
  }

  /** The phi at the head of the body picks up the saved stack pointer. */
  lemma WhileEnter(g: Graph, sem: Sem, bs: LoopBlocks, rs: LoopRegs, from: Point, cl: CondLay, bodyEnd: Point, lo: Reg,
                   sp: int, cfg: Config)
    returns (cfg': Config)
    requires WhileFrame(g, bs, rs, from, cl, bodyEnd, lo) && cfg.at == Start(bs.thn)
    requires (cfg.prev == bs.save && Get(Var(rs.saved0), cfg.regs) == VPtr(sp))
               || (cfg.prev == bs.restore && Get(Var(rs.saved), cfg.regs) == VPtr(sp))
    ensures Gets(g, sem, cfg, 1, cfg', Point(bs.thn, 1), cfg.st, lo) && Get(Var(rs.saved1), cfg'.regs) == VPtr(sp)
  {
    cfg' := Step(g, sem, cfg).c;
    GetsStep(g, sem, cfg, 0, cfg, lo, cfg');
  }

  ghost predicate WhileReady(bs: LoopBlocks, rs: LoopRegs, sp: int, cfg: Config) {
    && cfg.at == Start(bs.thn)
    && ((cfg.prev == bs.save && Get(Var(rs.saved0), cfg.regs) == VPtr(sp))
        || (cfg.prev == bs.restore && Get(Var(rs.saved), cfg.regs) == VPtr(sp)))
  }

  /** One iteration's body, up to the jump to the condition block. */
  lemma {:induction false} WhileBody(g: Graph, sem: Sem, fuel: nat, body: Branch, bs: LoopBlocks, rs: LoopRegs,
                                     from: Point,
                                     cl: CondLay, bl: BranchLay, merges: seq<Label>, lo: Reg, sp: int, cfg: Config)
    returns (n: nat, cfg': Config)
    requires WhileFrame(g, bs, rs, from, cl, bl.to, lo) && WhileReady(bs, rs, sp, cfg)
    requires ArmLaid(g, body, bl, Point(bs.thn, 1), merges, bs.merge, bs.cond, rs.saved1 + 1)
    ensures var r := ExecBranch(sem, fuel, body, cfg.st);
            && Matches(g, sem, cfg, n, cfg', r, Start(bs.cond), merges + [bs.merge], lo, fuel + 1)
            && (r.Done? && r.o.Normal? ==> cfg'.prev == bl.to.l && Get(Var(rs.saved1), cfg'.regs) == VPtr(sp))
    ensures n > 0
    decreases fuel, body, 3
  {
    var cfg1 := WhileEnter(g, sem, bs, rs, from, cl, bl.to, lo, sp, cfg);
    var m;
    m, cfg' := ArmSim(g, sem, fuel, body, bl, Point(bs.thn, 1), merges, bs.merge, bs.cond, rs.saved1 + 1, cfg1);
    MatchesAfter(g, sem, cfg, 1, cfg1, lo, m, cfg', rs.saved1 + 1, ExecBranch(sem, fuel, body, cfg.st), Start(bs.cond),
                 merges + [bs.merge], fuel + 1, fuel);
    n := 1 + m;
  }

  /** The iterations, from the body block with the saved stack pointer about to be picked up. */
  lemma {:induction false} WhileLoopSim(g: Graph, sem: Sem, fuel: nat, c: Cond, body: Branch, bs: LoopBlocks,
                                        rs: LoopRegs, from: Point,
                                        cl: CondLay, bl: BranchLay, merges: seq<Label>, lo: Reg, st: State, sp: int,
                                            cfg: Config)
    returns (n: nat, cfg': Config)
    requires WhileFrame(g, bs, rs, from, cl, bl.to, lo) && CondLaid(g, c, cl, Point(bs.cond, 2), rs.saved + 1)
    requires ArmLaid(g, body, bl, Point(bs.thn, 1), merges, bs.merge, bs.cond, rs.saved1 + 1)
    requires WhileReady(bs, rs, sp, cfg) && cfg.st == st.(sp := sp)
    ensures Matches(g, sem, cfg, n, cfg', WhileLoop(sem, fuel, c, body, sp, st), Start(bs.merge), merges + [bs.merge],
              lo, fuel)
    decreases fuel, body, 4
  {
    if fuel == 0 {
      return 0, cfg;
    }
    var r := ExecBranch(sem, fuel - 1, body, cfg.st);
    n, cfg' := WhileBody(g, sem, fuel - 1, body, bs, rs, from, cl, bl, merges, lo, sp, cfg);
    if r.Done? && r.o.Normal? {
      n, cfg' := WhileRest(g, sem, fuel, c, body, bs, rs, from, cl, bl, merges, lo, sp, cfg, n, cfg', r);
    }
  }

  /** What comes after a body that ended normally, together with the body. */
  lemma {:induction false} WhileRest(g: Graph, sem: Sem, fuel: nat, c: Cond, body: Branch, bs: LoopBlocks, rs: LoopRegs,
                                     from: Point, cl: CondLay, bl: BranchLay, merges: seq<Label>, lo: Reg, sp: int,
                                     cfg: Config, m: nat, cfg1: Config, r: Result)
    returns (n: nat, cfg': Config)
    requires fuel > 0 && m > 0
    requires WhileFrame(g, bs, rs, from, cl, bl.to, lo) && CondLaid(g, c, cl, Point(bs.cond, 2), rs.saved + 1)
    requires ArmLaid(g, body, bl, Point(bs.thn, 1), merges, bs.merge, bs.cond, rs.saved1 + 1)
    requires r.Done? && r.o.Normal? && Matches(g, sem, cfg, m, cfg1, r, Start(bs.cond), merges + [bs.merge], lo, fuel)
    requires cfg1.prev == bl.to.l && Get(Var(rs.saved1), cfg1.regs) == VPtr(sp)
    ensures var (b, st1) := Eval(sem, c, r.st);
            var r' := if b then WhileLoop(sem, fuel - 1, c, body, sp, st1) else Done(Normal, st1);
            Matches(g, sem, cfg, n, cfg', r', Start(bs.merge), merges + [bs.merge], lo, fuel)
    decreases fuel, body, 3
  {
    n, cfg' := WhileNext(g, sem, fuel, c, body, bs, rs, from, cl, bl, merges, lo, sp, cfg1);
    var (b, st1) := Eval(sem, c, r.st);
    MatchesThen(g, sem, cfg, m, cfg1, r, Start(bs.cond), fuel, n, cfg',
                if b then WhileLoop(sem, fuel - 1, c, body, sp, st1) else Done(Normal, st1),
                Start(bs.merge), merges + [bs.merge], lo, fuel, fuel - 1);
    n := m + n;
  }

  /** The condition after a body, and the further iterations. */
  lemma {:induction false} WhileNext(g: Graph, sem: Sem, fuel: nat, c: Cond, body: Branch, bs: LoopBlocks, rs: LoopRegs,
                                     from: Point,
                                     cl: CondLay, bl: BranchLay, merges: seq<Label>, lo: Reg, sp: int, cfg: Config)
    returns (n: nat, cfg': Config)
    requires fuel > 0
    requires WhileFrame(g, bs, rs, from, cl, bl.to, lo) && CondLaid(g, c, cl, Point(bs.cond, 2), rs.saved + 1)
    requires ArmLaid(g, body, bl, Point(bs.thn, 1), merges, bs.merge, bs.cond, rs.saved1 + 1)
    requires cfg.at == Start(bs.cond) && cfg.prev == bl.to.l && Get(Var(rs.saved1), cfg.regs) == VPtr(sp)
    ensures var (b, st1) := Eval(sem, c, cfg.st);
            var r := if b then WhileLoop(sem, fuel - 1, c, body, sp, st1) else Done(Normal, st1);
            Matches(g, sem, cfg, n, cfg', r, Start(bs.merge), merges + [bs.merge], lo, fuel - 1)
    decreases fuel, body, 2
  {
    var (b, st1) := Eval(sem, c, cfg.st);
    n, cfg' := WhileAgain(g, sem, c, bs, rs, from, cl, bl.to, lo, sp, cfg);
    if b {
      var cfg1, m := cfg', n;
      n, cfg' := WhileLoopSim(g, sem, fuel - 1, c, body, bs, rs, from, cl, bl, merges, lo, st1, sp, cfg1);
      MatchesAfter(g, sem, cfg, m, cfg1, lo, n, cfg', lo, WhileLoop(sem, fuel - 1, c, body, sp, st1), Start(bs.merge),
                   merges + [bs.merge], fuel - 1, fuel - 1);
      n := m + n;
    }
  }

  /** From the start of the loop through the first test to the head of the body. */
  lemma WhileFirst(g: Graph, sem: Sem, s: Stmt, lay: StmtLay, from: Point, merges: seq<Label>, lo: Reg, cfg: Config)
    returns (n: nat, cfg': Config)
    requires s.While? && WhileLaid(g, s, lay, from, merges, lo) && cfg.at == from && Eval(sem, s.c, cfg.st).0
    ensures var st1 := Eval(sem, s.c, cfg.st).1;
            Gets(g, sem, cfg, n, cfg', Start(lay.bs.thn), st1, lo) && WhileReady(lay.bs, lay.rs, st1.sp, cfg')
  {
    var bs := lay.bs;
    var m, cfg1 := WhileTested(g, sem, s, lay, from, merges, lo, cfg);
    cfg' := WhileSave(g, sem, bs, lay.rs, from, lay.c, lay.body.to, lo, cfg1);
    GetsThen(g, sem, cfg, m, cfg1, lo, 2, cfg', lo);
    n := m + 2;
  }

  lemma WhileTested(g: Graph, sem: Sem, s: Stmt, lay: StmtLay, from: Point, merges: seq<Label>, lo: Reg, cfg: Config)
    returns (n: nat, cfg': Config)
    requires s.While? && WhileLaid(g, s, lay, from, merges, lo) && cfg.at == from
    ensures var (b, st1) := Eval(sem, s.c, cfg.st);
            Gets(g, sem, cfg, n, cfg', Start(if b then lay.bs.save else lay.bs.els), st1, lo)
  {
    var cfg1 := Step(g, sem, cfg).c;
    GetsStep(g, sem, cfg, 0, cfg, lo, cfg1);
    var m;
    m, cfg' := WhileTestSim(g, sem, s.c, lay.bs, lay.rs, from, lay.c, lay.body.to, lo, true, cfg1);
    GetsThen(g, sem, cfg, 1, cfg1, lo, m, cfg', lo);
    n := 1 + m;
  }

  lemma {:induction false} WhileSim(g: Graph, sem: Sem, fuel: nat, s: Stmt, lay: StmtLay, from: Point,
                                    merges: seq<Label>, lo: Reg, cfg: Config)
    returns (n: nat, cfg': Config)
    requires s.While? && WhileLaid(g, s, lay, from, merges, lo) && cfg.at == from
    ensures Matches(g, sem, cfg, n, cfg', ExecStmt(sem, fuel, s, cfg.st), lay.to, merges, lo, fuel)
    decreases fuel, s, 1
  {
    var bs, inner := lay.bs, merges + [lay.bs.merge];
    var (b, st1) := Eval(sem, s.c, cfg.st);
    var r, k;
    if b {
      var m, cfg1 := WhileFirst(g, sem, s, lay, from, merges, lo, cfg);
      k, cfg' := WhileLoopSim(g, sem, fuel, s.c, s.body, bs, lay.rs, from, lay.c, lay.body, merges, lo, st1, st1.sp,
                              cfg1);
      r := WhileLoop(sem, fuel, s.c, s.body, st1.sp, st1);
      MatchesAfter(g, sem, cfg, m, cfg1, lo, k, cfg', lo, r, lay.to, inner, fuel, fuel);
      n := m + k;
    } else {
      var m, cfg1 := WhileTested(g, sem, s, lay, from, merges, lo, cfg);
      k, cfg' := ArmSim(g, sem, fuel, s.els, lay.e, Start(bs.els), merges, bs.merge, bs.merge, lo, cfg1);
      r := ExecBranch(sem, fuel, s.els, st1);
      MatchesAfter(g, sem, cfg, m, cfg1, lo, k, cfg', lo, r, lay.to, inner, fuel, fuel);
      n := m + k;
    }
    MatchesLeave(g, sem, cfg, n, cfg', r, bs.merge, merges, lo, fuel);
  }

  // ---------------------------------------------------------------- repeat

  lemma RepeatSave(g: Graph, sem: Sem, bs: LoopBlocks, rs: LoopRegs, from: Point, cl: CondLay, lo: Reg, cfg: Config)
    returns (cfg': Config)
    requires RepeatFrame(g, bs, rs, from, cl, lo) && cfg.at == from
    ensures Gets(g, sem, cfg, 3, cfg', Start(bs.thn), cfg.st, lo) && WhileReady(bs, rs, cfg.st.sp, cfg')
  {
    var cfg1 := Step(g, sem, cfg).c;
    GetsStep(g, sem, cfg, 0, cfg, lo, cfg1);
    var cfg2 := Step(g, sem, cfg1).c;
    GetsStep(g, sem, cfg, 1, cfg1, lo, cfg2);
    cfg' := Step(g, sem, cfg2).c;
    GetsStep(g, sem, cfg, 2, cfg2, lo, cfg');
  }

  lemma RepeatEnter(g: Graph, sem: Sem, bs: LoopBlocks, rs: LoopRegs, from: Point, cl: CondLay, lo: Reg, sp: int,
                    cfg: Config)
    returns (cfg': Config)
    requires RepeatFrame(g, bs, rs, from, cl, lo) && WhileReady(bs, rs, sp, cfg)
    ensures Gets(g, sem, cfg, 1, cfg', Point(bs.thn, 1), cfg.st, lo) && Get(Var(rs.saved1), cfg'.regs) == VPtr(sp)
  {
    cfg' := Step(g, sem, cfg).c;
    GetsStep(g, sem, cfg, 0, cfg, lo, cfg');
  }

  /** The restore block: pick up the saved stack pointer, restore it, and back to the body. */
  lemma RepeatRestore(g: Graph, sem: Sem, bs: LoopBlocks, rs: LoopRegs, from: Point, cl: CondLay, lo: Reg, sp: int,
                      cfg: Config)
    returns (cfg': Config)
    requires RepeatFrame(g, bs, rs, from, cl, lo)
    requires cfg.at == Start(bs.restore) && cfg.prev == cl.to.l && Get(Var(rs.saved1), cfg.regs) == VPtr(sp)
    ensures Gets(g, sem, cfg, 3, cfg', Start(bs.thn), cfg.st.(sp := sp), lo) && WhileReady(bs, rs, sp, cfg')
  {
    var cfg1 := Step(g, sem, cfg).c;
    GetsStep(g, sem, cfg, 0, cfg, lo, cfg1);
    var cfg2 := Step(g, sem, cfg1).c;
    GetsStep(g, sem, cfg, 1, cfg1, lo, cfg2);
    cfg' := Step(g, sem, cfg2).c;
    GetsStep(g, sem, cfg, 2, cfg2, lo, cfg');
  }

  /** Behind the body: out if the condition holds, else back to the body block. */
  lemma RepeatAgain(g: Graph, sem: Sem, c: Cond, bs: LoopBlocks, rs: LoopRegs, from: Point, cl: CondLay, lo: Reg,
                    sp: int, cfg: Config)
    returns (n: nat, cfg': Config)
    requires RepeatFrame(g, bs, rs, from, cl, lo) && CondLaid(g, c, cl, Start(bs.cond), rs.saved1 + 1)
    requires cfg.at == Start(bs.cond) && Get(Var(rs.saved1), cfg.regs) == VPtr(sp)
    ensures var (b, st1) := Eval(sem, c, cfg.st);
            if b then Gets(g, sem, cfg, n, cfg', Start(bs.merge), st1, lo)
            else Gets(g, sem, cfg, n, cfg', Start(bs.thn), st1.(sp := sp), lo) && WhileReady(bs, rs, sp, cfg')
  {
    var m, cfg1 := CondSim(g, sem, c, cl, Start(bs.cond), rs.saved1 + 1, cfg);
    cfg' := Step(g, sem, cfg1).c;
    GetsStep(g, sem, cfg, m, cfg1, rs.saved1 + 1, cfg');
    n := m + 1;
    if !Eval(sem, c, cfg.st).0 {
      var cfg2 := RepeatRestore(g, sem, bs, rs, from, cl, lo, sp, cfg');
      GetsThen(g, sem, cfg, n, cfg', lo, 3, cfg2, lo);
      n, cfg' := n + 3, cfg2;
    }
  }

  lemma {:induction false} RepeatBody(g: Graph, sem: Sem, fuel: nat, body: Branch, bs: LoopBlocks, rs: LoopRegs,
                                      from: Point,
                                      cl: CondLay, bl: BranchLay, merges: seq<Label>, lo: Reg, sp: int, cfg: Config)
    returns (n: nat, cfg': Config)
    requires RepeatFrame(g, bs, rs, from, cl, lo) && WhileReady(bs, rs, sp, cfg)
    requires ArmLaid(g, body, bl, Point(bs.thn, 1), merges, bs.merge, bs.cond, rs.saved1 + 1)
    ensures var r := ExecBranch(sem, fuel, body, cfg.st);
            && Matches(g, sem, cfg, n, cfg', r, Start(bs.cond), merges + [bs.merge], lo, fuel + 1)
            && (r.Done? && r.o.Normal? ==> Get(Var(rs.saved1), cfg'.regs) == VPtr(sp))
    ensures n > 0
    decreases fuel, body, 3
  {
    var cfg1 := RepeatEnter(g, sem, bs, rs, from, cl, lo, sp, cfg);
    var m;
    m, cfg' := ArmSim(g, sem, fuel, body, bl, Point(bs.thn, 1), merges, bs.merge, bs.cond, rs.saved1 + 1, cfg1);
    MatchesAfter(g, sem, cfg, 1, cfg1, lo, m, cfg', rs.saved1 + 1, ExecBranch(sem, fuel, body, cfg.st), Start(bs.cond),
                 merges + [bs.merge], fuel + 1, fuel);
    n := 1 + m;
  }

  lemma {:induction false} RepeatLoopSim(g: Graph, sem: Sem, fuel: nat, c: Cond, body: Branch, bs: LoopBlocks,
                                         rs: LoopRegs, from: Point,
                                         cl: CondLay, bl: BranchLay, merges: seq<Label>, lo: Reg, st: State, sp: int,
                                             cfg: Config)
    returns (n: nat, cfg': Config)
    requires RepeatFrame(g, bs, rs, from, cl, lo) && CondLaid(g, c, cl, Start(bs.cond), rs.saved1 + 1)
    requires ArmLaid(g, body, bl, Point(bs.thn, 1), merges, bs.merge, bs.cond, rs.saved1 + 1)
    requires WhileReady(bs, rs, sp, cfg) && cfg.st == st.(sp := sp)
    ensures Matches(g, sem, cfg, n, cfg', RepeatLoop(sem, fuel, body, c, sp, st), Start(bs.merge), merges + [bs.merge],
              lo, fuel)
    decreases fuel, body, 4
  {
    if fuel == 0 {
      return 0, cfg;
    }
    var r := ExecBranch(sem, fuel - 1, body, cfg.st);
    n, cfg' := RepeatBody(g, sem, fuel - 1, body, bs, rs, from, cl, bl, merges, lo, sp, cfg);
    if r.Done? && r.o.Normal? {
      n, cfg' := RepeatRest(g, sem, fuel, c, body, bs, rs, from, cl, bl, merges, lo, sp, cfg, n, cfg', r);
    }
  }

  lemma {:induction false} RepeatRest(g: Graph, sem: Sem, fuel: nat, c: Cond, body: Branch, bs: LoopBlocks,
                                      rs: LoopRegs, from: Point, cl: CondLay, bl: BranchLay, merges: seq<Label>,
                                      lo: Reg, sp: int, cfg: Config, m: nat, cfg1: Config, r: Result)
    returns (n: nat, cfg': Config)
    requires fuel > 0 && m > 0
    requires RepeatFrame(g, bs, rs, from, cl, lo) && CondLaid(g, c, cl, Start(bs.cond), rs.saved1 + 1)
    requires ArmLaid(g, body, bl, Point(bs.thn, 1), merges, bs.merge, bs.cond, rs.saved1 + 1)
    requires r.Done? && r.o.Normal? && Matches(g, sem, cfg, m, cfg1, r, Start(bs.cond), merges + [bs.merge], lo, fuel)
    requires Get(Var(rs.saved1), cfg1.regs) == VPtr(sp)
    ensures var (b, st1) := Eval(sem, c, r.st);
            var r' := if b then Done(Normal, st1) else RepeatLoop(sem, fuel - 1, body, c, sp, st1);
            Matches(g, sem, cfg, n, cfg', r', Start(bs.merge), merges + [bs.merge], lo, fuel)
    decreases fuel, body, 3
  {
    n, cfg' := RepeatNext(g, sem, fuel, c, body, bs, rs, from, cl, bl, merges, lo, sp, cfg1);
    var (b, st1) := Eval(sem, c, r.st);
    MatchesThen(g, sem, cfg, m, cfg1, r, Start(bs.cond), fuel, n, cfg',
                if b then Done(Normal, st1) else RepeatLoop(sem, fuel - 1, body, c, sp, st1),
                Start(bs.merge), merges + [bs.merge], lo, fuel, fuel - 1);
    n := m + n;
  }

  lemma {:induction false} RepeatNext(g: Graph, sem: Sem, fuel: nat, c: Cond, body: Branch, bs: LoopBlocks,
                                      rs: LoopRegs, from: Point,
                                      cl: CondLay, bl: BranchLay, merges: seq<Label>, lo: Reg, sp: int, cfg: Config)
    returns (n: nat, cfg': Config)
    requires fuel > 0
    requires RepeatFrame(g, bs, rs, from, cl, lo) && CondLaid(g, c, cl, Start(bs.cond), rs.saved1 + 1)
    requires ArmLaid(g, body, bl, Point(bs.thn, 1), merges, bs.merge, bs.cond, rs.saved1 + 1)
    requires cfg.at == Start(bs.cond) && Get(Var(rs.saved1), cfg.regs) == VPtr(sp)
    ensures var (b, st1) := Eval(sem, c, cfg.st);
            var r := if b then Done(Normal, st1) else RepeatLoop(sem, fuel - 1, body, c, sp, st1);
            Matches(g, sem, cfg, n, cfg', r, Start(bs.merge), merges + [bs.merge], lo, fuel - 1)
    decreases fuel, body, 2
  {
    var (b, st1) := Eval(sem, c, cfg.st);
    n, cfg' := RepeatAgain(g, sem, c, bs, rs, from, cl, lo, sp, cfg);
    if !b {
      var cfg1, m := cfg', n;
      n, cfg' := RepeatLoopSim(g, sem, fuel - 1, c, body, bs, rs, from, cl, bl, merges, lo, st1, sp, cfg1);
      MatchesAfter(g, sem, cfg, m, cfg1, lo, n, cfg', lo, RepeatLoop(sem, fuel - 1, body, c, sp, st1), Start(bs.merge),
                   merges + [bs.merge], fuel - 1, fuel - 1);
      n := m + n;
    }
  }

  lemma {:induction false} RepeatSim(g: Graph, sem: Sem, fuel: nat, s: Stmt, lay: StmtLay, from: Point,
                                     merges: seq<Label>, lo: Reg, cfg: Config)
    returns (n: nat, cfg': Config)
    requires s.Repeat? && RepeatLaid(g, s, lay, from, merges, lo) && cfg.at == from
    ensures Matches(g, sem, cfg, n, cfg', ExecStmt(sem, fuel, s, cfg.st), lay.to, merges, lo, fuel)
    decreases fuel, s, 1
  {
    var bs, sp := lay.bs, cfg.st.sp;
    var r := RepeatLoop(sem, fuel, s.body, s.until, sp, cfg.st);
    var cfg1 := RepeatSave(g, sem, bs, lay.rs, from, lay.c, lo, cfg);
    n, cfg' := RepeatLoopSim(g, sem, fuel, s.until, s.body, bs, lay.rs, from, lay.c, lay.body, merges, lo, cfg.st, sp,
                             cfg1);
    MatchesAfter(g, sem, cfg, 3, cfg1, lo, n, cfg', lo, r, lay.to, merges + [bs.merge], fuel, fuel);
    n := 3 + n;
    MatchesLeave(g, sem, cfg, n, cfg', r, bs.merge, merges, lo, fuel);
  }

  // ---------------------------------------------------------------- for

  /** The initialisation and the first test. */
  lemma ForHead(g: Graph, sem: Sem, s: Stmt, lay: StmtLay, from: Point, lo: Reg, cfg: Config)
    returns (cfg': Config)
    requires s.For? && lay.SFor? && ForFrame(g, s, lay, from, lo) && cfg.at == from
    ensures var (b, st1) := sem.test(s.first, sem.act(s.init, cfg.st));
            Gets(g, sem, cfg, 3, cfg', Start(if b then lay.bs.save else lay.bs.els), st1, lo)
  {
    var cfg1 := Step(g, sem, cfg).c;
    GetsStep(g, sem, cfg, 0, cfg, lo, cfg1);
    var cfg2 := Step(g, sem, cfg1).c;
    GetsStep(g, sem, cfg, 1, cfg1, lo, cfg2);
    cfg' := Step(g, sem, cfg2).c;
    GetsStep(g, sem, cfg, 2, cfg2, lo, cfg');
  }

  /** About to jump to the body, with the stack pointer saved. */
  ghost predicate ForReady(lay: StmtLay, sp: int, cfg: Config)
    requires lay.SFor?
  {
    (cfg.at == Point(lay.bs.save, 1) || cfg.at == Point(lay.bs.restore, 1))
        && Get(Var(lay.saved0), cfg.regs) == VPtr(sp)
  }

  lemma ForSave(g: Graph, sem: Sem, s: Stmt, lay: StmtLay, from: Point, lo: Reg, cfg: Config)
    returns (cfg': Config)
    requires s.For? && lay.SFor? && ForFrame(g, s, lay, from, lo) && cfg.at == Start(lay.bs.save)
    ensures Gets(g, sem, cfg, 1, cfg', cfg'.at, cfg.st, lo) && ForReady(lay, cfg.st.sp, cfg')
  {
    cfg' := Step(g, sem, cfg).c;
    GetsStep(g, sem, cfg, 0, cfg, lo, cfg');
  }

  lemma ForEnter(g: Graph, sem: Sem, s: Stmt, lay: StmtLay, from: Point, lo: Reg, sp: int, cfg: Config)
    returns (cfg': Config)
    requires s.For? && lay.SFor? && ForFrame(g, s, lay, from, lo) && ForReady(lay, sp, cfg)
    ensures Gets(g, sem, cfg, 1, cfg', Start(lay.bs.thn), cfg.st, lo) && Get(Var(lay.saved0), cfg'.regs) == VPtr(sp)
  {
    cfg' := Step(g, sem, cfg).c;
    GetsStep(g, sem, cfg, 0, cfg, lo, cfg');
  }

  /** The second test, behind the body. */
  lemma ForMore(g: Graph, sem: Sem, s: Stmt, lay: StmtLay, from: Point, lo: Reg, cfg: Config)
    returns (cfg': Config)
    requires s.For? && lay.SFor? && ForFrame(g, s, lay, from, lo) && cfg.at == lay.body.to
    ensures var (b, st1) := sem.test(s.more, cfg.st);
            Gets(g, sem, cfg, 2, cfg', Start(if b then lay.iter else lay.bs.merge), st1, lay.more)
  {
    var cfg1 := Step(g, sem, cfg).c;
    GetsStep(g, sem, cfg, 0, cfg, lay.more, cfg1);
    cfg' := Step(g, sem, cfg1).c;
    GetsStep(g, sem, cfg, 1, cfg1, lay.more, cfg');
  }

  /** The step and the restored stack pointer. */
  lemma ForStep(g: Graph, sem: Sem, s: Stmt, lay: StmtLay, from: Point, lo: Reg, sp: int, cfg: Config)
    returns (cfg': Config)
    requires s.For? && lay.SFor? && ForFrame(g, s, lay, from, lo) && cfg.at == Start(lay.iter)
    requires Get(Var(lay.saved0), cfg.regs) == VPtr(sp)
    ensures Gets(g, sem, cfg, 3, cfg', cfg'.at, sem.act(s.step, cfg.st).(sp := sp), lo) && ForReady(lay, sp, cfg')
  {
    var cfg1 := Step(g, sem, cfg).c;
    GetsStep(g, sem, cfg, 0, cfg, lo, cfg1);
    var cfg2 := Step(g, sem, cfg1).c;
    GetsStep(g, sem, cfg, 1, cfg1, lo, cfg2);
    cfg' := Step(g, sem, cfg2).c;
    GetsStep(g, sem, cfg, 2, cfg2, lo, cfg');
  }

  lemma ForAgain(g: Graph, sem: Sem, s: Stmt, lay: StmtLay, from: Point, lo: Reg, sp: int, cfg: Config)
    returns (n: nat, cfg': Config)
    requires s.For? && lay.SFor? && ForFrame(g, s, lay, from, lo) && cfg.at == lay.body.to
    requires Get(Var(lay.saved0), cfg.regs) == VPtr(sp)
    ensures var (b, st1) := sem.test(s.more, cfg.st);
            if b then Gets(g, sem, cfg, n, cfg', cfg'.at, sem.act(s.step, st1).(sp := sp), lo)
                && ForReady(lay, sp, cfg')
            else Gets(g, sem, cfg, n, cfg', Start(lay.bs.merge), st1, lo)
  {
    cfg' := ForMore(g, sem, s, lay, from, lo, cfg);
    n := 2;
    if sem.test(s.more, cfg.st).0 {
      var cfg1 := ForStep(g, sem, s, lay, from, lo, sp, cfg');
      GetsThen(g, sem, cfg, 2, cfg', lo, 3, cfg1, lo);
      n, cfg' := 5, cfg1;
    }
  }

  lemma {:induction false} ForBody(g: Graph, sem: Sem, fuel: nat, s: Stmt, lay: StmtLay, from: Point,
                                   merges: seq<Label>, lo: Reg, sp: int, cfg: Config)
    returns (n: nat, cfg': Config)
    requires s.For? && lay.SFor? && ForFrame(g, s, lay, from, lo) && ForReady(lay, sp, cfg)
    requires BranchLaid(g, s.body, lay.body, Start(lay.bs.thn), merges + [lay.bs.merge], lay.saved0 + 1)
    ensures var r := ExecBranch(sem, fuel, s.body, cfg.st);
            && Matches(g, sem, cfg, n, cfg', r, lay.body.to, merges + [lay.bs.merge], lo, fuel + 1)
            && (r.Done? && r.o.Normal? ==> Get(Var(lay.saved0), cfg'.regs) == VPtr(sp))
    ensures n > 0
    decreases fuel, s.body, 3
  {
    var inner := merges + [lay.bs.merge];
    var cfg1 := ForEnter(g, sem, s, lay, from, lo, sp, cfg);
    var m;
    m, cfg' := BranchSim(g, sem, fuel, s.body, lay.body, Start(lay.bs.thn), inner, lay.saved0 + 1, cfg1);
    MatchesAfter(g, sem, cfg, 1, cfg1, lo, m, cfg', lay.saved0 + 1, ExecBranch(sem, fuel, s.body, cfg.st), lay.body.to,
                 inner, fuel + 1, fuel);
    n := 1 + m;
  }

  lemma {:induction false} ForLoopSim(g: Graph, sem: Sem, fuel: nat, s: Stmt, lay: StmtLay, from: Point,
                                      merges: seq<Label>, lo: Reg, st: State, sp: int, cfg: Config)
    returns (n: nat, cfg': Config)
    requires s.For? && lay.SFor? && ForFrame(g, s, lay, from, lo) && ForReady(lay, sp, cfg) && cfg.st == st.(sp := sp)
    requires BranchLaid(g, s.body, lay.body, Start(lay.bs.thn), merges + [lay.bs.merge], lay.saved0 + 1)
    ensures Matches(g, sem, cfg, n, cfg', ForLoop(sem, fuel, s.more, s.step, s.body, sp, st), Start(lay.bs.merge),
              merges + [lay.bs.merge], lo, fuel)
    decreases fuel, s.body, 4
  {
    if fuel == 0 {
      return 0, cfg;
    }
    var inner := merges + [lay.bs.merge];
    var r := ExecBranch(sem, fuel - 1, s.body, cfg.st);
    n, cfg' := ForBody(g, sem, fuel - 1, s, lay, from, merges, lo, sp, cfg);
    if r.Done? && r.o.Normal? {
      var cfg2, m := cfg', n;
      n, cfg' := ForRest(g, sem, fuel, s, lay, from, merges, lo, sp, cfg2);
      MatchesAfter(g, sem, cfg, m, cfg2, lo, n, cfg', lo, ForLoop(sem, fuel, s.more, s.step, s.body, sp, st),
                   Start(lay.bs.merge), inner, fuel, fuel - 1);
      n := m + n;
    }
  }

  lemma {:induction false} ForRest(g: Graph, sem: Sem, fuel: nat, s: Stmt, lay: StmtLay, from: Point,
                                   merges: seq<Label>, lo: Reg, sp: int, cfg: Config)
    returns (n: nat, cfg': Config)
    requires fuel > 0 && s.For? && lay.SFor? && ForFrame(g, s, lay, from, lo)
    requires BranchLaid(g, s.body, lay.body, Start(lay.bs.thn), merges + [lay.bs.merge], lay.saved0 + 1)
    requires cfg.at == lay.body.to && Get(Var(lay.saved0), cfg.regs) == VPtr(sp)
    ensures var (b, st1) := sem.test(s.more, cfg.st);
            var r := if b then ForLoop(sem, fuel - 1, s.more, s.step, s.body, sp, sem.act(s.step, st1))
                else Done(Normal, st1);
            Matches(g, sem, cfg, n, cfg', r, Start(lay.bs.merge), merges + [lay.bs.merge], lo, fuel - 1)
    decreases fuel, s.body, 2
  {
    var (b, st1) := sem.test(s.more, cfg.st);
    n, cfg' := ForAgain(g, sem, s, lay, from, lo, sp, cfg);
    if b {
      var st2 := sem.act(s.step, st1);
      var cfg1, m := cfg', n;
      n, cfg' := ForLoopSim(g, sem, fuel - 1, s, lay, from, merges, lo, st2, sp, cfg1);
      MatchesAfter(g, sem, cfg, m, cfg1, lo, n, cfg', lo, ForLoop(sem, fuel - 1, s.more, s.step, s.body, sp, st2),
                   Start(lay.bs.merge), merges + [lay.bs.merge], fuel - 1, fuel - 1);
      n := m + n;
    }
  }

  /** From the start of the loop through the first test, with the stack pointer saved. */
  lemma ForFirst(g: Graph, sem: Sem, s: Stmt, lay: StmtLay, from: Point, merges: seq<Label>, lo: Reg, cfg: Config)
    returns (n: nat, cfg': Config)
    requires s.For? && ForLaid(g, s, lay, from, merges, lo) && cfg.at == from
    requires sem.test(s.first, sem.act(s.init, cfg.st)).0
    ensures var st1 := sem.test(s.first, sem.act(s.init, cfg.st)).1;
            Gets(g, sem, cfg, n, cfg', cfg'.at, st1, lo) && ForReady(lay, st1.sp, cfg')
  {
    var cfg1 := ForHead(g, sem, s, lay, from, lo, cfg);
    cfg' := ForSave(g, sem, s, lay, from, lo, cfg1);
    GetsThen(g, sem, cfg, 3, cfg1, lo, 1, cfg', lo);
    n := 4;
  }

  lemma {:induction false} ForSim(g: Graph, sem: Sem, fuel: nat, s: Stmt, lay: StmtLay, from: Point, merges: seq<Label>,
                                  lo: Reg, cfg: Config)
    returns (n: nat, cfg': Config)
    requires s.For? && ForLaid(g, s, lay, from, merges, lo) && cfg.at == from
    ensures Matches(g, sem, cfg, n, cfg', ExecStmt(sem, fuel, s, cfg.st), lay.to, merges, lo, fuel)
    decreases fuel, s, 1
  {
    var merge := lay.bs.merge;
    var inner := merges + [merge];
    var (b, st1) := sem.test(s.first, sem.act(s.init, cfg.st));
    var r;
    if b {
      var m, cfg1 := ForFirst(g, sem, s, lay, from, merges, lo, cfg);
      n, cfg' := ForLoopSim(g, sem, fuel, s, lay, from, merges, lo, st1, st1.sp, cfg1);
      r := ForLoop(sem, fuel, s.more, s.step, s.body, st1.sp, st1);
      MatchesAfter(g, sem, cfg, m, cfg1, lo, n, cfg', lo, r, lay.to, inner, fuel, fuel);
      n := m + n;
    } else {
      var cfg1 := ForHead(g, sem, s, lay, from, lo, cfg);
      n, cfg' := ArmSim(g, sem, fuel, s.els, lay.e, Start(lay.bs.els), merges, merge, merge, lo, cfg1);
      r := ExecBranch(sem, fuel, s.els, st1);
      MatchesAfter(g, sem, cfg, 3, cfg1, lo, n, cfg', lo, r, lay.to, inner, fuel, fuel);
      n := 3 + n;
    }
    MatchesLeave(g, sem, cfg, n, cfg', r, merge, merges, lo, fuel);
  }

  lemma {:induction false} StmtSim(g: Graph, sem: Sem, fuel: nat, s: Stmt, lay: StmtLay, from: Point,
                                   merges: seq<Label>, lo: Reg, cfg: Config)
    returns (n: nat, cfg': Config)
    requires StmtLaid(g, s, lay, from, merges, lo) && cfg.at == from
    ensures Matches(g, sem, cfg, n, cfg', ExecStmt(sem, fuel, s, cfg.st), lay.to, merges, lo, fuel)
    decreases fuel, s, 2
  {
    match s
    case Do(_) =>
      cfg' := Step(g, sem, cfg).c;
      n := 1;
      assert Run(g, sem, cfg, 1) == Go(cfg');
    case IfElse(_, _, _) => n, cfg' := IfSim(g, sem, fuel, s, lay, from, merges, lo, cfg);
    case While(_, _, _) => n, cfg' := WhileSim(g, sem, fuel, s, lay, from, merges, lo, cfg);
    case Repeat(_, _) => n, cfg' := RepeatSim(g, sem, fuel, s, lay, from, merges, lo, cfg);
    case For(_, _, _, _, _, _) => n, cfg' := ForSim(g, sem, fuel, s, lay, from, merges, lo, cfg);
  }
}
