/**
  * How a statement sits in a block graph: the layout names the blocks, registers and program points of a lowered
  * statement, and the `...Laid` predicates say what the graph holds there (src/codegen.cc, BranchExprAST::codegen_raw,
  * createCondBranch and the lazy operators).
  */
module CfgLayout {
  import opened Options
  import opened CfgSource
  import opened CfgMachine

  /** `to` is where control goes on; `v` is the value of the condition there. */
  datatype CondLay =
    | CLeaf(to: Point, v: Val)
    | CPair(to: Point, v: Val, l: CondLay, r: CondLay, rhs: Label, cont: Label)

  datatype LoopRegs = LoopRegs(must: Reg, saved: Reg, sw: Reg, saved0: Reg, saved1: Reg)

  datatype LoopBlocks = LoopBlocks(cond: Label, els: Label, save: Label, restore: Label, thn: Label, merge: Label)

  datatype StmtLay =
    | SDo(to: Point)
    | SIf(to: Point, c: CondLay, thn: Label, els: Label, t: BranchLay, e: BranchLay)
    | SWhile(to: Point, bs: LoopBlocks, rs: LoopRegs, c: CondLay, body: BranchLay, e: BranchLay)
    | SRepeat(to: Point, bs: LoopBlocks, rs: LoopRegs, body: BranchLay, c: CondLay)
    | SFor(to: Point, bs: LoopBlocks, first: Reg, more: Reg, saved0: Reg, iter: Label, body: BranchLay, e: BranchLay)

  datatype BlockLay = KEmpty(to: Point) | KChain(to: Point, s: StmtLay, rest: BlockLay)

  datatype BranchLay =
    | REnd(to: Point, body: BlockLay)
    | RBrk(to: Point, body: BlockLay, c: CondLay, brk: Label, cont: Label, rest: BranchLay)

  // ---------------------------------------------------------------- what a graph holds at a point

  predicate HasInstr(g: Graph, p: Point, ins: Instr) {
    p.l in g.blocks && p.i < |g.blocks[p.l].instrs| && g.blocks[p.l].instrs[p.i] == ins
  }

  predicate EndsWith(g: Graph, p: Point, t: Term) {
    p.l in g.blocks && p.i == |g.blocks[p.l].instrs| && g.blocks[p.l].term == Some(t)
  }

  predicate Incoming(g: Graph, r: Reg, from: Label, v: Val) {
    r in g.phis && from in g.phis[r] && g.phis[r][from] == v
  }

  function After(p: Point): Point {
    Point(p.l, p.i + 1)
  }

  function Start(l: Label): Point {
    Point(l, 0)
  }

  /** The constant that a condition folds to, if both sides of every lazy operator in it are constants. */
  function Fold(c: Cond, x: Val, y: Val): Val
    requires x.Bool? && y.Bool?
  {
    if c.Both? then Bool(x.b && y.b) else Bool(x.b || y.b)
  }

  // ---------------------------------------------------------------- layouts; registers written are at least `lo`

  predicate CondLaid(g: Graph, c: Cond, lay: CondLay, from: Point, lo: Reg) {
    match c
    case Const(b) => lay == CLeaf(from, Bool(b))
    case Test(t) =>
      lay.CLeaf? && lay.v.Var? && lo <= lay.v.r && HasInstr(g, from, Probe(lay.v.r, t)) && lay.to == After(from)
    case Both(l, r) =>
      && lay.CPair? && CondLaid(g, l, lay.l, from, lo) && CondLaid(g, r, lay.r, Start(lay.rhs), lo)
      && PairLaid(g, c, lay, lo)
    case Either(l, r) =>
      && lay.CPair? && CondLaid(g, l, lay.l, from, lo) && CondLaid(g, r, lay.r, Start(lay.rhs), lo)
      && PairLaid(g, c, lay, lo)
  }

  /**
    * The joint of a lazy operator: straight on if both sides are constants, else a branch around the right side and a
    * phi.
    */
  predicate PairLaid(g: Graph, c: Cond, lay: CondLay, lo: Reg)
    requires lay.CPair? && (c.Both? || c.Either?)
  {
    if lay.l.v.Bool? && lay.r.v.Bool? then
      EndsWith(g, lay.l.to, Br(lay.rhs)) && lay.to == lay.r.to && lay.v == Fold(c, lay.l.v, lay.r.v)
    else
      && EndsWith(g, lay.l.to, if c.Both? then CondBr(lay.l.v, lay.rhs, lay.cont)
          else CondBr(lay.l.v, lay.cont, lay.rhs))
      && EndsWith(g, lay.r.to, Br(lay.cont))
      && lay.v.Var? && lo <= lay.v.r && lay.to == Point(lay.cont, 1)
      && HasInstr(g, Start(lay.cont), Phi(lay.v.r))
      && Incoming(g, lay.v.r, lay.l.to.l, Bool(c.Either?)) && Incoming(g, lay.v.r, lay.r.to.l, lay.r.v)
  }

  /** Where a `brk` of the given depth leads: the merge block of the construct that many levels out. */
  function Target(merges: seq<Label>, depth: nat): Label
    requires 1 <= depth <= |merges|
  {
    merges[|merges| - depth]
  }

  predicate BlockLaid(g: Graph, b: Block, lay: BlockLay, from: Point, merges: seq<Label>, lo: Reg)
    decreases b, 0
  {
    if b.Empty? then lay == KEmpty(from)
    else
      && lay.KChain? && lay.to == lay.rest.to
      && StmtLaid(g, b.s, lay.s, from, merges, lo)
      && BlockLaid(g, b.rest, lay.rest, lay.s.to, merges, lo)
  }

  predicate BranchLaid(g: Graph, br: Branch, lay: BranchLay, from: Point, merges: seq<Label>, lo: Reg)
    decreases br, 0
  {
    if br.End? then lay.REnd? && lay.to == lay.body.to && BlockLaid(g, br.body, lay.body, from, merges, lo)
    else
      && lay.RBrk? && lay.to == lay.rest.to && 1 <= br.depth <= |merges|
      && BlockLaid(g, br.body, lay.body, from, merges, lo)
      && CondLaid(g, br.c, lay.c, lay.body.to, lo)
      && EndsWith(g, lay.c.to, CondBr(lay.c.v, lay.brk, lay.cont))
      && EndsWith(g, Start(lay.brk), Br(Target(merges, br.depth)))
      && BranchLaid(g, br.rest, lay.rest, Start(lay.cont), merges, lo)
  }

  predicate StmtLaid(g: Graph, s: Stmt, lay: StmtLay, from: Point, merges: seq<Label>, lo: Reg)
    decreases s, 1
  {
    match s
    case Do(a) => lay == SDo(After(from)) && HasInstr(g, from, Act(a))
    case IfElse(c, t, e) => IfLaid(g, s, lay, from, merges, lo)
    case While(c, body, e) => WhileLaid(g, s, lay, from, merges, lo)
    case Repeat(body, c) => RepeatLaid(g, s, lay, from, merges, lo)
    case For(init, first, more, step, body, e) => ForLaid(g, s, lay, from, merges, lo)
  }

  /** A branch of a construct with merge block `merge`, entered at `from`, that jumps to `next` when it is through. */
  predicate ArmLaid(g: Graph, br: Branch, lay: BranchLay, from: Point, merges: seq<Label>, merge: Label, next: Label,
                    lo: Reg)
    decreases br, 1
  {
    BranchLaid(g, br, lay, from, merges + [merge], lo) && EndsWith(g, lay.to, Br(next))
  }

  predicate IfLaid(g: Graph, s: Stmt, lay: StmtLay, from: Point, merges: seq<Label>, lo: Reg)
    requires s.IfElse?
    decreases s, 0
  {
    && lay.SIf? && CondLaid(g, s.c, lay.c, from, lo) && lay.to.i == 0
    // with a constant condition only one branch is generated
    && EndsWith(g, lay.c.to, if lay.c.v.Bool? then Br(if lay.c.v.b then lay.thn else lay.els)
        else CondBr(lay.c.v, lay.thn, lay.els))
    && (lay.c.v != Bool(false) ==> ArmLaid(g, s.thn, lay.t, Start(lay.thn), merges, lay.to.l, lay.to.l, lo))
    && (lay.c.v != Bool(true) ==> ArmLaid(g, s.els, lay.e, Start(lay.els), merges, lay.to.l, lay.to.l, lo))
  }

  predicate WhileLaid(g: Graph, s: Stmt, lay: StmtLay, from: Point, merges: seq<Label>, lo: Reg)
    requires s.While?
    decreases s, 0
  {
    && lay.SWhile? && lay.to == Start(lay.bs.merge)
    && WhileFrame(g, lay.bs, lay.rs, from, lay.c, lay.body.to, lo)
    && CondLaid(g, s.c, lay.c, Point(lay.bs.cond, 2), lay.rs.saved + 1)
    && ArmLaid(g, s.body, lay.body, Point(lay.bs.thn, 1), merges, lay.bs.merge, lay.bs.cond, lay.rs.saved1 + 1)
    && ArmLaid(g, s.els, lay.e, Start(lay.bs.els), merges, lay.bs.merge, lay.bs.merge, lo)
  }

  predicate RepeatLaid(g: Graph, s: Stmt, lay: StmtLay, from: Point, merges: seq<Label>, lo: Reg)
    requires s.Repeat?
    decreases s, 0
  {
    && lay.SRepeat? && lay.to == Start(lay.bs.merge)
    && RepeatFrame(g, lay.bs, lay.rs, from, lay.c, lo)
    && ArmLaid(g, s.body, lay.body, Point(lay.bs.thn, 1), merges, lay.bs.merge, lay.bs.cond, lay.rs.saved1 + 1)
    && CondLaid(g, s.until, lay.c, Start(lay.bs.cond), lay.rs.saved1 + 1)
  }

  predicate ForLaid(g: Graph, s: Stmt, lay: StmtLay, from: Point, merges: seq<Label>, lo: Reg)
    requires s.For?
    decreases s, 0
  {
    && lay.SFor? && lay.to == Start(lay.bs.merge)
    && ForFrame(g, s, lay, from, lo)
    && BranchLaid(g, s.body, lay.body, Start(lay.bs.thn), merges + [lay.bs.merge], lay.saved0 + 1)
    && ArmLaid(g, s.els, lay.e, Start(lay.bs.els), merges, lay.bs.merge, lay.bs.merge, lo)
  }

  /**
    * `while`: a switch on "first run" (2) or'ed with the condition (1), and the stack pointer carried around by phis.
    */
  predicate WhileFrame(g: Graph, bs: LoopBlocks, rs: LoopRegs, from: Point, c: CondLay, bodyEnd: Point, lo: Reg) {
    && lo <= rs.must < rs.saved < rs.sw && rs.saved < rs.saved0 < rs.saved1 && rs.sw < rs.saved1
    && EndsWith(g, from, Br(bs.cond))
    && HasInstr(g, Start(bs.cond), Phi(rs.must)) && HasInstr(g, Point(bs.cond, 1), Phi(rs.saved))
    && Incoming(g, rs.must, from.l, Int(2)) && Incoming(g, rs.must, bodyEnd.l, Int(0))
    && Incoming(g, rs.saved, from.l, Null) && Incoming(g, rs.saved, bodyEnd.l, Var(rs.saved1))
    && HasInstr(g, c.to, Or8(rs.sw, Var(rs.must), c.v))
    && EndsWith(g, After(c.to), Switch(Var(rs.sw), bs.merge, bs.restore, bs.els, bs.save))
    && HasInstr(g, Start(bs.save), StackSave(rs.saved0)) && EndsWith(g, Point(bs.save, 1), Br(bs.thn))
    && HasInstr(g, Start(bs.restore), StackRestore(Var(rs.saved))) && EndsWith(g, Point(bs.restore, 1), Br(bs.thn))
    && HasInstr(g, Start(bs.thn), Phi(rs.saved1))
    && Incoming(g, rs.saved1, bs.save, Var(rs.saved0)) && Incoming(g, rs.saved1, bs.restore, Var(rs.saved))
  }

  /** `repeat`: the stack pointer is saved on entry and restored whenever the condition fails. */
  predicate RepeatFrame(g: Graph, bs: LoopBlocks, rs: LoopRegs, from: Point, c: CondLay, lo: Reg) {
    && lo <= rs.saved0 < rs.saved < rs.saved1
    && EndsWith(g, from, Br(bs.save))
    && HasInstr(g, Start(bs.save), StackSave(rs.saved0)) && EndsWith(g, Point(bs.save, 1), Br(bs.thn))
    && HasInstr(g, Start(bs.restore), Phi(rs.saved)) && HasInstr(g, Point(bs.restore, 1), StackRestore(Var(rs.saved)))
    && EndsWith(g, Point(bs.restore, 2), Br(bs.thn))
    && HasInstr(g, Start(bs.thn), Phi(rs.saved1))
    && Incoming(g, rs.saved1, bs.save, Var(rs.saved0)) && Incoming(g, rs.saved1, bs.restore, Var(rs.saved))
    && EndsWith(g, c.to, CondBr(c.v, bs.merge, bs.restore))
    && Incoming(g, rs.saved, c.to.l, Var(rs.saved1))
  }

  /** `for`: tested once before and once after each iteration. */
  predicate ForFrame(g: Graph, s: Stmt, lay: StmtLay, from: Point, lo: Reg)
    requires s.For? && lay.SFor?
  {
    var bs := lay.bs;
    && lo <= lay.first < lay.saved0 < lay.more
    && HasInstr(g, from, Act(s.init)) && HasInstr(g, After(from), Probe(lay.first, s.first))
    && EndsWith(g, After(After(from)), CondBr(Var(lay.first), bs.save, bs.els))
    && HasInstr(g, Start(bs.save), StackSave(lay.saved0)) && EndsWith(g, Point(bs.save, 1), Br(bs.thn))
    && HasInstr(g, Start(bs.restore), StackRestore(Var(lay.saved0))) && EndsWith(g, Point(bs.restore, 1), Br(bs.thn))
    && HasInstr(g, lay.body.to, Probe(lay.more, s.more))
    && EndsWith(g, After(lay.body.to), CondBr(Var(lay.more), lay.iter, bs.merge))
    && HasInstr(g, Start(lay.iter), Act(s.step)) && EndsWith(g, Point(lay.iter, 1), Br(bs.restore))
  }

  // ---------------------------------------------------------------- layouts survive as the graph grows

  /** Emitted instructions, terminators and incoming values stay. */
  ghost predicate Grows(g: Graph, g': Graph) {
    && (forall p, ins :: HasInstr(g, p, ins) ==> HasInstr(g', p, ins))
    && (forall p, t :: EndsWith(g, p, t) ==> EndsWith(g', p, t))
    && (forall r, l, v :: Incoming(g, r, l, v) ==> Incoming(g', r, l, v))
  }

  lemma GrowsTransitive(a: Graph, b: Graph, c: Graph)
    requires Grows(a, b) && Grows(b, c)
    ensures Grows(a, c)
  {
  }

  lemma {:induction false} CondStays(g: Graph, g': Graph, c: Cond, lay: CondLay, from: Point, lo: Reg, lo': Reg)
    requires Grows(g, g') && CondLaid(g, c, lay, from, lo) && lo' <= lo
    ensures CondLaid(g', c, lay, from, lo')
  {
    if c.Both? || c.Either? {
      CondStays(g, g', c.l, lay.l, from, lo, lo');
      CondStays(g, g', c.r, lay.r, Start(lay.rhs), lo, lo');
    }
  }

  lemma {:induction false} BlockStays(g: Graph, g': Graph, b: Block, lay: BlockLay, from: Point, merges: seq<Label>,
                                      lo: Reg, lo': Reg)
    requires Grows(g, g') && BlockLaid(g, b, lay, from, merges, lo) && lo' <= lo
    ensures BlockLaid(g', b, lay, from, merges, lo')
    decreases b, 0
  {
    if b.Chain? {
      StmtStays(g, g', b.s, lay.s, from, merges, lo, lo');
      BlockStays(g, g', b.rest, lay.rest, lay.s.to, merges, lo, lo');
    }
  }

  lemma {:induction false} BranchStays(g: Graph, g': Graph, br: Branch, lay: BranchLay, from: Point, merges: seq<Label>,
                                       lo: Reg, lo': Reg)
    requires Grows(g, g') && BranchLaid(g, br, lay, from, merges, lo) && lo' <= lo
    ensures BranchLaid(g', br, lay, from, merges, lo')
    decreases br, 0
  {
    BlockStays(g, g', br.body, lay.body, from, merges, lo, lo');
    if br.Brk? {
      CondStays(g, g', br.c, lay.c, lay.body.to, lo, lo');
      BranchStays(g, g', br.rest, lay.rest, Start(lay.cont), merges, lo, lo');
    }
  }

  lemma WhileFrameStays(g: Graph, g': Graph, bs: LoopBlocks, rs: LoopRegs, from: Point, c: CondLay, bodyEnd: Point,
                        lo: Reg, lo': Reg)
    requires Grows(g, g') && WhileFrame(g, bs, rs, from, c, bodyEnd, lo) && lo' <= lo
    ensures WhileFrame(g', bs, rs, from, c, bodyEnd, lo')
  {
  }

  lemma {:induction false} ArmStays(g: Graph, g': Graph, br: Branch, lay: BranchLay, from: Point, merges: seq<Label>,
                                    merge: Label, next: Label, lo: Reg, lo': Reg)
    requires Grows(g, g') && ArmLaid(g, br, lay, from, merges, merge, next, lo) && lo' <= lo
    ensures ArmLaid(g', br, lay, from, merges, merge, next, lo')
    decreases br, 1
  {
    BranchStays(g, g', br, lay, from, merges + [merge], lo, lo');
  }

  lemma {:induction false} IfStays(g: Graph, g': Graph, s: Stmt, lay: StmtLay, from: Point, merges: seq<Label>, lo: Reg,
                                   lo': Reg)
    requires s.IfElse? && Grows(g, g') && IfLaid(g, s, lay, from, merges, lo) && lo' <= lo
    ensures IfLaid(g', s, lay, from, merges, lo')
    decreases s, 0
  {
    CondStays(g, g', s.c, lay.c, from, lo, lo');
    if lay.c.v != Bool(false) {
      ArmStays(g, g', s.thn, lay.t, Start(lay.thn), merges, lay.to.l, lay.to.l, lo, lo');
    }
    if lay.c.v != Bool(true) {
      ArmStays(g, g', s.els, lay.e, Start(lay.els), merges, lay.to.l, lay.to.l, lo, lo');
    }
  }

  lemma {:induction false} WhileStays(g: Graph, g': Graph, s: Stmt, lay: StmtLay, from: Point, merges: seq<Label>,
                                      lo: Reg, lo': Reg)
    requires s.While? && Grows(g, g') && WhileLaid(g, s, lay, from, merges, lo) && lo' <= lo
    ensures WhileLaid(g', s, lay, from, merges, lo')
    decreases s, 0
  {
    var saved, saved1 := lay.rs.saved + 1, lay.rs.saved1 + 1;
    WhileFrameStays(g, g', lay.bs, lay.rs, from, lay.c, lay.body.to, lo, lo');
    CondStays(g, g', s.c, lay.c, Point(lay.bs.cond, 2), saved, saved);
    ArmStays(g, g', s.body, lay.body, Point(lay.bs.thn, 1), merges, lay.bs.merge, lay.bs.cond, saved1, saved1);
    ArmStays(g, g', s.els, lay.e, Start(lay.bs.els), merges, lay.bs.merge, lay.bs.merge, lo, lo');
  }

  lemma {:induction false} RepeatStays(g: Graph, g': Graph, s: Stmt, lay: StmtLay, from: Point, merges: seq<Label>,
                                       lo: Reg, lo': Reg)
    requires s.Repeat? && Grows(g, g') && RepeatLaid(g, s, lay, from, merges, lo) && lo' <= lo
    ensures RepeatLaid(g', s, lay, from, merges, lo')
    decreases s, 0
  {
    var saved1 := lay.rs.saved1 + 1;
    ArmStays(g, g', s.body, lay.body, Point(lay.bs.thn, 1), merges, lay.bs.merge, lay.bs.cond, saved1, saved1);
    CondStays(g, g', s.until, lay.c, Start(lay.bs.cond), saved1, saved1);
  }

  lemma {:induction false} ForStays(g: Graph, g': Graph, s: Stmt, lay: StmtLay, from: Point, merges: seq<Label>,
                                    lo: Reg, lo': Reg)
    requires s.For? && Grows(g, g') && ForLaid(g, s, lay, from, merges, lo) && lo' <= lo
    ensures ForLaid(g', s, lay, from, merges, lo')
    decreases s, 0
  {
    var saved0 := lay.saved0 + 1;
    BranchStays(g, g', s.body, lay.body, Start(lay.bs.thn), merges + [lay.bs.merge], saved0, saved0);
    ArmStays(g, g', s.els, lay.e, Start(lay.bs.els), merges, lay.bs.merge, lay.bs.merge, lo, lo');
  }

  lemma {:induction false} StmtStays(g: Graph, g': Graph, s: Stmt, lay: StmtLay, from: Point, merges: seq<Label>,
                                     lo: Reg, lo': Reg)
    requires Grows(g, g') && StmtLaid(g, s, lay, from, merges, lo) && lo' <= lo
    ensures StmtLaid(g', s, lay, from, merges, lo')
    decreases s, 1
  {
    match s
    case Do(a) =>
    case IfElse(_, _, _) => IfStays(g, g', s, lay, from, merges, lo, lo');
    case While(_, _, _) => WhileStays(g, g', s, lay, from, merges, lo, lo');
    case Repeat(_, _) => RepeatStays(g, g', s, lay, from, merges, lo, lo');
    case For(_, _, _, _, _, _) => ForStays(g, g', s, lay, from, merges, lo, lo');
  }
}
