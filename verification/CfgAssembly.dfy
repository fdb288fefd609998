/** The emitted pieces of a statement add up to its layout. */
module CfgAssembly {
  import opened Options
  import opened CfgSource
  import opened CfgMachine
  import opened CfgLayout
  import opened CfgBuild

  /** A condition has been emitted from `a` to `b`. */
  ghost predicate CondDone(a: Build, b: Build, c: Cond, lay: CondLay) {
    Good(a) && Good(b) && Within(a, a, b) && CondLaid(b.g, c, lay, Here(a), a.regs) && lay.to == Here(b)
  }

  /** A statement, up to the point where the builder goes on. */
  ghost predicate StmtDone(a: Build, b: Build, s: Stmt, lay: StmtLay, merges: seq<Label>) {
    Good(a) && Good(b) && Within(a, a, b) && StmtLaid(b.g, s, lay, Here(a), merges, a.regs) && lay.to == Here(b)
  }

  ghost predicate BlockDone(a: Build, b: Build, k: Block, lay: BlockLay, merges: seq<Label>) {
    Good(a) && Good(b) && Within(a, a, b) && BlockLaid(b.g, k, lay, Here(a), merges, a.regs) && lay.to == Here(b)
  }

  ghost predicate BranchDone(a: Build, b: Build, br: Branch, lay: BranchLay, merges: seq<Label>) {
    Good(a) && Good(b) && Within(a, a, b) && BranchLaid(b.g, br, lay, Here(a), merges, a.regs) && lay.to == Here(b)
  }

  /** A branch together with the jump behind it; its last block is closed. */
  ghost predicate ArmDone(a: Build, b: Build, br: Branch, lay: BranchLay, merges: seq<Label>, merge: Label,
                          next: Label) {
    Good(a) && Bounded(b) && Within(a, a, b) && ArmLaid(b.g, br, lay, Here(a), merges, merge, next, a.regs)
        && lay.to.l == b.cur
  }

  /** A block that waits for its code, elsewhere. */
  lemma StillOpen(a: Build, b: Build, l: Label)
    requires Bounded(a) && Within(a, a, b) && IsOpen(a.g, l) && a.cur != l
    ensures IsOpen(b.g, l) && (b.cur != l)
  {
  }

  // ---------------------------------------------------------------- lazy operators

  lemma PairFolds(b0: Build, b1: Build, b3: Build, c: Cond, ll: CondLay, rl: CondLay)
    requires c.Both? || c.Either?
    requires CondDone(b0, b1, c.l, ll) && ll.v.Bool? && rl.v.Bool?
    requires var b2 := WithBlock(b1).(cur := b1.labels); CondDone(b2, b3, c.r, rl)
    ensures var b4, lay := FoldedPair(b3, b1.cur, b1.labels), CPair(rl.to, Fold(c, ll.v, rl.v), ll, rl, b1.labels, 0);
            CondDone(b0, b4, c, lay)
  {
    var b2, b4 := WithBlock(b1).(cur := b1.labels), FoldedPair(b3, b1.cur, b1.labels);
    BlockStep(b1);
    Untouched(b2, b3, b1.cur);
    WithinPart(b0, b2, b3);
    FoldedPairStep(b0, b3, b1.cur, b1.labels);
    PairStays(b0, b1, b2, b3, b4, c, ll, rl);
    PairMakes(b4.g, c, CPair(rl.to, Fold(c, ll.v, rl.v), ll, rl, b1.labels, 0), Here(b0), b0.regs);
  }

  lemma PairMakes(g: Graph, c: Cond, lay: CondLay, from: Point, lo: Reg)
    requires (c.Both? || c.Either?) && lay.CPair? && PairLaid(g, c, lay, lo)
    requires CondLaid(g, c.l, lay.l, from, lo) && CondLaid(g, c.r, lay.r, Start(lay.rhs), lo)
    ensures CondLaid(g, c, lay, from, lo)
  {
  }

  lemma PairJoins(b0: Build, b1: Build, b3: Build, c: Cond, ll: CondLay, rl: CondLay)
    requires c.Both? || c.Either?
    requires CondDone(b0, b1, c.l, ll) && !(ll.v.Bool? && rl.v.Bool?)
    requires var b2 := WithBlock(b1).(cur := b1.labels); CondDone(b2, b3, c.r, rl)
    ensures var rhs, cont := b1.labels, b3.labels;
            var t := if c.Both? then CondBr(ll.v, rhs, cont) else CondBr(ll.v, cont, rhs);
            var b4, lay := JoinedPair(b3, b1.cur, t, Bool(c.Either?),
                                      rl.v), CPair(Point(cont, 1), Var(b3.regs), ll, rl, rhs, cont);
            CondDone(b0, b4, c, lay)
  {
    var b2, rhs, cont := WithBlock(b1).(cur := b1.labels), b1.labels, b3.labels;
    var t := if c.Both? then CondBr(ll.v, rhs, cont) else CondBr(ll.v, cont, rhs);
    var b4 := JoinedPair(b3, b1.cur, t, Bool(c.Either?), rl.v);
    BlockStep(b1);
    Untouched(b2, b3, b1.cur);
    WithinPart(b0, b2, b3);
    JoinedPairStep(b0, b3, b1.cur, t, Bool(c.Either?), rl.v);
    PairStays(b0, b1, b2, b3, b4, c, ll, rl);
    PairMakes(b4.g, c, CPair(Point(cont, 1), Var(b3.regs), ll, rl, rhs, cont), Here(b0), b0.regs);
  }

  lemma PairStays(b0: Build, b1: Build, b2: Build, b3: Build, b4: Build, c: Cond, ll: CondLay, rl: CondLay)
    requires c.Both? || c.Either?
    requires CondDone(b0, b1, c.l, ll) && b2 == WithBlock(b1).(cur := b1.labels) && CondDone(b2, b3, c.r, rl)
             && Within(b0, b3, b4)
    ensures CondLaid(b4.g, c.l, ll, Here(b0), b0.regs) && CondLaid(b4.g, c.r, rl, Start(b1.labels), b0.regs)
            && Within(b0, b0, b4)
  {
    BlockStep(b1);
    WithinPart(b0, b2, b3);
    CondStays(b1.g, b2.g, c.l, ll, Here(b0), b0.regs, b0.regs);
    CondStays(b2.g, b3.g, c.l, ll, Here(b0), b0.regs, b0.regs);
    CondStays(b3.g, b4.g, c.l, ll, Here(b0), b0.regs, b0.regs);
    CondStays(b3.g, b4.g, c.r, rl, Start(b1.labels), b2.regs, b0.regs);
    assert Within(b0, b1, b2);
    WithinThen(b0, b0, b1, b2);
    WithinThen(b0, b0, b2, b3);
    WithinThen(b0, b0, b3, b4);
  }

  // ---------------------------------------------------------------- if

  /**
    * Between the condition and the branch behind it, which is emitted last; `yes` and `no` tell which arms are there.
    */
  ghost predicate IfBetween(b0: Build, b: Build, s: Stmt, lay: StmtLay, merges: seq<Label>, yes: bool, no: bool)
    requires s.IfElse? && lay.SIf?
  {
    var at, merge := lay.c.to, lay.to.l;
    && Good(b0) && Bounded(b) && Within(b0, b0, b) && CondLaid(b.g, s.c, lay.c, Here(b0), b0.regs)
    && TestedAt(b.g, at) && (at.l == b0.cur || b0.labels <= at.l) && IsOpen(b.g, merge) && b0.labels <= merge != at.l
    && (yes ==> ArmLaid(b.g, s.thn, lay.t, Start(lay.thn), merges, merge, merge, b0.regs))
    && (no ==> ArmLaid(b.g, s.els, lay.e, Start(lay.els), merges, merge, merge, b0.regs))
  }

  /** A block that waits to be entered. */
  ghost predicate Waits(b0: Build, b: Build, lay: StmtLay, arm: Label)
    requires lay.SIf?
  {
    IsOpen(b.g, arm) && b0.labels <= arm && arm != lay.c.to.l && arm != lay.to.l
  }

  lemma IfTested(b0: Build, b2: Build, s: Stmt, lay: StmtLay, merges: seq<Label>)
    requires s.IfElse? && lay.SIf? && Good(b0) && CondDone(WithBlock(b0), b2, s.c, lay.c) && lay.to == Start(b0.labels)
    ensures IfBetween(b0, b2, s, lay, merges, false, false) && Good(b2) && b2.cur == lay.c.to.l
  {
    var b1 := WithBlock(b0);
    BlockStep(b0);
    StillOpen(b1, b2, b0.labels);
    WithinPart(b0, b1, b2);
    WithinThen(b0, b0, b1, b2);
  }

  lemma IfBlock(b0: Build, b: Build, s: Stmt, lay: StmtLay, merges: seq<Label>)
    requires s.IfElse? && lay.SIf? && IfBetween(b0, b, s, lay, merges, false, false)
    ensures var c := WithBlock(b);
            && IfBetween(b0, c, s, lay, merges, false, false) && Waits(b0, c, lay, b.labels)
            && forall l | IsOpen(b.g, l) :: IsOpen(c.g, l) && l != b.labels
  {
    BlockStep(b);
    WithinThen(b0, b0, b, WithBlock(b));
    CondStays(b.g, WithBlock(b).g, s.c, lay.c, Here(b0), b0.regs, b0.regs);
  }

  /** One arm, entered in a block of its own. */
  lemma ArmEntered(b0: Build, b: Build, c: Build, br: Branch, lay: BranchLay, merges: seq<Label>, merge: Label,
                   arm: Label)
    requires Good(b0) && Bounded(b) && Within(b0, b0, b) && ArmDone(b.(cur := arm), c, br, lay, merges, merge, merge)
    requires b0.labels <= arm && IsOpen(b.g, arm)
    ensures Bounded(c) && Within(b0, b0, c) && Grows(b.g, c.g)
    ensures forall l | l in b.g.blocks && l != arm :: l in c.g.blocks && c.g.blocks[l] == b.g.blocks[l]
    ensures ArmLaid(c.g, br, lay, Start(arm), merges, merge, merge, b0.regs)
  {
    var s := b.(cur := arm);
    WithinPart(b0, s, c);
    WithinThen(b0, b0, b, c);
    ArmStays(c.g, c.g, br, lay, Start(arm), merges, merge, merge, s.regs, b0.regs);
  }

  lemma IfThenDone(b0: Build, b: Build, c: Build, s: Stmt, lay: StmtLay, merges: seq<Label>)
    requires s.IfElse? && lay.SIf? && IfBetween(b0, b, s, lay, merges, false, false) && Waits(b0, b, lay, lay.thn)
    requires ArmDone(b.(cur := lay.thn), c, s.thn, lay.t, merges, lay.to.l, lay.to.l)
    ensures IfBetween(b0, c, s, lay, merges, true, false)
    ensures forall l | IsOpen(b.g, l) && l != lay.thn :: IsOpen(c.g, l)
  {
    ArmEntered(b0, b, c, s.thn, lay.t, merges, lay.to.l, lay.thn);
    CondStays(b.g, c.g, s.c, lay.c, Here(b0), b0.regs, b0.regs);
  }

  lemma IfElseDone(b0: Build, b: Build, c: Build, s: Stmt, lay: StmtLay, merges: seq<Label>, yes: bool)
    requires s.IfElse? && lay.SIf? && IfBetween(b0, b, s, lay, merges, yes, false) && Waits(b0, b, lay, lay.els)
    requires ArmDone(b.(cur := lay.els), c, s.els, lay.e, merges, lay.to.l, lay.to.l)
    ensures IfBetween(b0, c, s, lay, merges, yes, true)
  {
    ArmEntered(b0, b, c, s.els, lay.e, merges, lay.to.l, lay.els);
    CondStays(b.g, c.g, s.c, lay.c, Here(b0), b0.regs, b0.regs);
    if yes {
      ArmStays(b.g, c.g, s.thn, lay.t, Start(lay.thn), merges, lay.to.l, lay.to.l, b0.regs, b0.regs);
    }
  }

  /** The branch behind the condition: to both arms, or just to the one that a constant condition selects. */
  function IfTerm(lay: StmtLay): Term
    requires lay.SIf?
  {
    if lay.c.v.Bool? then Br(if lay.c.v.b then lay.thn else lay.els) else CondBr(lay.c.v, lay.thn, lay.els)
  }

  lemma IfDone(b0: Build, b: Build, s: Stmt, lay: StmtLay, merges: seq<Label>)
    requires s.IfElse? && lay.SIf? && lay.to.i == 0
    requires IfBetween(b0, b, s, lay, merges, lay.c.v != Bool(false), lay.c.v != Bool(true))
    ensures StmtDone(b0, Closed(b, lay.c.to.l, IfTerm(lay), lay.to.l), s, lay, merges)
  {
    var c := Closed(b, lay.c.to.l, IfTerm(lay), lay.to.l);
    ClosedStep(b0, b, lay.c.to, IfTerm(lay), lay.to.l);
    WithinThen(b0, b0, b, c);
    CondStays(b.g, c.g, s.c, lay.c, Here(b0), b0.regs, b0.regs);
    if lay.c.v != Bool(false) {
      ArmStays(b.g, c.g, s.thn, lay.t, Start(lay.thn), merges, lay.to.l, lay.to.l, b0.regs, b0.regs);
    }
    if lay.c.v != Bool(true) {
      ArmStays(b.g, c.g, s.els, lay.e, Start(lay.els), merges, lay.to.l, lay.to.l, b0.regs, b0.regs);
    }
  }

  // ---------------------------------------------------------------- blocks and branches

  lemma BlockJoined(a: Build, b: Build, c: Build, k: Block, s: StmtLay, rest: BlockLay, merges: seq<Label>)
    requires k.Chain? && StmtDone(a, b, k.s, s, merges) && BlockDone(b, c, k.rest, rest, merges)
    ensures BlockDone(a, c, k, KChain(rest.to, s, rest), merges)
  {
    WithinPart(a, b, c);
    WithinThen(a, a, b, c);
    StmtStays(b.g, c.g, k.s, s, Here(a), merges, a.regs, a.regs);
    BlockStays(c.g, c.g, k.rest, rest, s.to, merges, b.regs, a.regs);
  }

  /** `brk` under a condition: a block that jumps to the merge block of the construct left, and one that goes on. */
  function Broken(b: Build, v: Val, target: Label): Build
    requires b.cur in b.g.blocks
  {
    var l := b.labels;
    var blocks := b.g.blocks[b.cur := b.g.blocks[b.cur].(term := Some(CondBr(v, l, l + 1)))]
        [l := Code([], Some(Br(target)))][l + 1 := OPEN];
    Build(Graph(blocks, b.g.phis), l + 1, l + 2, b.regs)
  }

  lemma BrokenStep(b: Build, v: Val, target: Label)
    requires Good(b)
    ensures var c, l := Broken(b, v, target), b.labels;
            Good(c) && Within(b, b, c) && Here(c) == Start(l + 1) && EndsWith(c.g, Here(b), CondBr(v, l, l + 1))
                && EndsWith(c.g, Start(l), Br(target))
  {
  }

  /** The condition of a `brk` has been emitted from `b`, and the block behind it entered. */
  ghost predicate BrkTested(b: Build, e: Build, c: Cond, cl: CondLay, target: Label, l: Label) {
    && Good(b) && Good(e) && Within(b, b, e) && Here(e) == Start(l + 1) && CondLaid(e.g, c, cl, Here(b), b.regs)
    && EndsWith(e.g, cl.to, CondBr(cl.v, l, l + 1)) && EndsWith(e.g, Start(l), Br(target))
  }

  lemma BrkCond(b: Build, c: Build, cond: Cond, cl: CondLay, target: Label)
    requires CondDone(b, c, cond, cl)
    ensures BrkTested(b, Broken(c, cl.v, target), cond, cl, target, c.labels)
  {
    var e := Broken(c, cl.v, target);
    BrokenStep(c, cl.v, target);
    WithinPart(b, c, e);
    WithinThen(b, b, c, e);
    CondStays(c.g, e.g, cond, cl, Here(b), b.regs, b.regs);
  }

  lemma BrkJoined(a: Build, b: Build, e: Build, d: Build, br: Branch, body: BlockLay, cl: CondLay, rest: BranchLay,
                  l: Label, merges: seq<Label>)
    requires br.Brk? && 1 <= br.depth <= |merges|
    requires BlockDone(a, b, br.body, body, merges) && BrkTested(b, e, br.c, cl, Target(merges, br.depth), l)
    requires BranchDone(e, d, br.rest, rest, merges)
    ensures BranchDone(a, d, br, RBrk(rest.to, body, cl, l, l + 1, rest), merges)
  {
    BrkRest(a, b, e, d);
    CondStays(e.g, d.g, br.c, cl, body.to, b.regs, a.regs);
    BlockStays(b.g, d.g, br.body, body, Here(a), merges, a.regs, a.regs);
    BranchStays(d.g, d.g, br.rest, rest, Start(l + 1), merges, e.regs, a.regs);
  }

  lemma BrkRest(a: Build, b: Build, e: Build, d: Build)
    requires Bounded(a) && Bounded(b) && Bounded(e) && Within(a, a, b) && Within(b, b, e) && Within(e, e, d)
    ensures Within(a, a, d) && Grows(b.g, d.g)
  {
    WithinPart(b, e, d);
    WithinThen(b, b, e, d);
    WithinPart(a, b, d);
    WithinThen(a, a, b, d);
  }

  lemma ArmJoined(a: Build, b: Build, br: Branch, lay: BranchLay, merges: seq<Label>, merge: Label, next: Label)
    requires BranchDone(a, b, br, lay, merges + [merge])
    ensures ArmDone(a, WithEnd(b, Br(next)), br, lay, merges, merge, next)
  {
    var c := WithEnd(b, Br(next));
    EndStep(b, Br(next));
    WithinPart(a, b, c);
    WithinThen(a, a, b, c);
    BranchStays(b.g, c.g, br, lay, Here(a), merges + [merge], a.regs, a.regs);
  }

  // ---------------------------------------------------------------- while

  /** The condition has been tested. */
  ghost predicate WhileTested(b0: Build, b: Build, bs: LoopBlocks, must: Reg, c: Cond, cl: CondLay) {
    && Good(b0) && Within(b0, b0, b) && Awaits(b0, b, bs) && b0.regs <= must && must + 2 <= b.regs && cl.to == Here(b)
    && WhileFront(b.g, bs, must, Here(b0)) && CondLaid(b.g, c, cl, Point(bs.cond, 2), must + 2)
    && HeadPhis(b.g, must, b0.cur)
  }

  ghost predicate WhileFront(g: Graph, bs: LoopBlocks, must: Reg, from: Point) {
    EndsWith(g, from, Br(bs.cond)) && HasInstr(g, Start(bs.cond), Phi(must))
        && HasInstr(g, Point(bs.cond, 1), Phi(must + 1))
  }

  lemma WhileCondDone(b0: Build, b1: Build, b2: Build, bs: LoopBlocks, must: Reg, c: Cond, cl: CondLay)
    requires Good(b0) && WhileHead(b0, b1, bs, must) && CondDone(b1, b2, c, cl)
    ensures WhileTested(b0, b2, bs, must, c, cl)
  {
    StillOpen(b1, b2, bs.thn);
    StillOpen(b1, b2, bs.els);
    StillOpen(b1, b2, bs.merge);
    StillOpen(b1, b2, bs.save);
    StillOpen(b1, b2, bs.restore);
    WithinPart(b0, b1, b2);
    WithinThen(b0, b0, b1, b2);
  }

  /** At the head of the body. */
  ghost predicate WhileOpened(b0: Build, b: Build, bs: LoopBlocks, rs: LoopRegs, c: Cond, cl: CondLay) {
    && Good(b0) && Good(b) && Within(b0, b0, b) && Here(b) == Point(bs.thn, 1) && bs == LoopOf(b0)
    && bs.restore < b.labels
    && RegsOk(rs, b0.regs) && rs.saved1 < b.regs
    && WhileFront(b.g, bs, rs.must, Here(b0)) && CondLaid(b.g, c, cl, Point(bs.cond, 2), rs.saved + 1)
    && HeadPhis(b.g, rs.must, b0.cur)
    && WhileMiddle(b.g, bs, rs.must, rs.sw, cl.to, cl.v) && IsOpen(b.g, bs.els) && IsOpen(b.g, bs.merge)
  }

  ghost predicate RegsOk(rs: LoopRegs, lo: Reg) {
    lo <= rs.must && rs.saved == rs.must + 1 && rs.saved < rs.sw && rs.saved0 == rs.sw + 1 && rs.saved1 == rs.sw + 2
  }

  lemma WhileSwitchDone(b0: Build, b2: Build, bs: LoopBlocks, must: Reg, c: Cond, cl: CondLay)
    requires Good(b0) && WhileTested(b0, b2, bs, must, c, cl)
    ensures WhileOpened(b0, WhileSwitched(b2, bs, must, cl.v), bs,
              LoopRegs(must, must + 1, b2.regs, b2.regs + 1, b2.regs + 2), c, cl)
  {
    var b3 := WhileSwitched(b2, bs, must, cl.v);
    WhileSwitchedStep(b0, b2, bs, must, cl.v);
    WhileSwitchedHas(b0, b2, bs, must, cl.v);
    WhileTestStays(b0, b2, b3, bs, must, c, cl);
  }

  /** What stands up to the condition remains. */
  lemma WhileTestStays(b0: Build, b2: Build, b3: Build, bs: LoopBlocks, must: Reg, c: Cond, cl: CondLay)
    requires Good(b0) && WhileTested(b0, b2, bs, must, c, cl) && Within(b0, b2, b3)
    ensures Within(b0, b0, b3) && WhileFront(b3.g, bs, must, Here(b0))
    ensures CondLaid(b3.g, c, cl, Point(bs.cond, 2), must + 2)
  {
    WithinThen(b0, b0, b2, b3);
    CondStays(b2.g, b3.g, c, cl, Point(bs.cond, 2), must + 2, must + 2);
  }

  /** At the head of the `else` part. */
  ghost predicate WhileLooped(b0: Build, b: Build, bs: LoopBlocks, rs: LoopRegs, c: Cond, cl: CondLay, body: Branch,
                              bl: BranchLay, merges: seq<Label>) {
    && Good(b0) && Good(b) && Within(b0, b0, b) && Here(b) == Start(bs.els) && IsOpen(b.g, bs.merge) && bs == LoopOf(b0)
    && WhileFrame(b.g, bs, rs, Here(b0), cl, bl.to, b0.regs)
    && CondLaid(b.g, c, cl, Point(bs.cond, 2), rs.saved + 1)
    && ArmLaid(b.g, body, bl, Point(bs.thn, 1), merges, bs.merge, bs.cond, rs.saved1 + 1)
  }

  /** The body is there; the phis at the head have both incoming values. */
  lemma WhileFramed(g: Graph, g': Graph, bs: LoopBlocks, rs: LoopRegs, from: Point, cl: CondLay, bodyEnd: Point,
                    lo: Reg)
    requires Grows(g, g') && RegsOk(rs, lo) && WhileFront(g, bs, rs.must, from)
             && WhileMiddle(g, bs, rs.must, rs.sw, cl.to, cl.v)
    requires Incoming(g', rs.must, from.l, Int(2)) && Incoming(g', rs.must, bodyEnd.l, Int(0))
    requires Incoming(g', rs.saved, from.l, Null) && Incoming(g', rs.saved, bodyEnd.l, Var(rs.saved1))
    ensures WhileFrame(g', bs, rs, from, cl, bodyEnd, lo)
  {
  }

  /** The same step, seen from outside: only the phis and the blocks of this loop change. */
  lemma WhileBodyKept(b0: Build, b3: Build, b4: Build, must: Reg, saved1: Reg, els: Label, merge: Label)
    requires Good(b0) && Bounded(b3) && Within(b0, b0, b3) && b0.labels <= b3.cur && b0.regs <= must
             && HeadPhis(b3.g, must, b0.cur)
    requires IsOpen(b3.g, els) && IsOpen(b3.g, merge) && b0.labels <= els != b3.cur && b3.cur != merge
    requires Bounded(b4) && Within(b3, b3, b4)
    ensures var b5 := WhileClosed(b4, must, saved1); var b := b5.(cur := els);
            && Good(b) && Within(b0, b0, b) && Here(b) == Start(els) && IsOpen(b.g, merge) && Grows(b4.g, b5.g)
            && Incoming(b5.g, must, b0.cur, Int(2)) && Incoming(b5.g, must, b4.cur, Int(0))
            && Incoming(b5.g, must + 1, b0.cur, Null) && Incoming(b5.g, must + 1, b4.cur, Var(saved1))
  {
    StillOpen(b3, b4, els);
    StillOpen(b3, b4, merge);
    WithinPart(b0, b3, b4);
    WithinThen(b0, b0, b3, b4);
    WhileClosedStep(b0, b4, must, saved1, b0.cur);
    WithinThen(b0, b0, b4, WhileClosed(b4, must, saved1));
  }

  lemma WhileBodyDone(b0: Build, b3: Build, b4: Build, bs: LoopBlocks, rs: LoopRegs, c: Cond, cl: CondLay, body: Branch,
                      bl: BranchLay, merges: seq<Label>)
    requires WhileOpened(b0, b3, bs, rs, c, cl) && ArmDone(b3, b4, body, bl, merges, bs.merge, bs.cond)
    ensures WhileLooped(b0, WhileClosed(b4, rs.must, rs.saved1).(cur := bs.els), bs, rs, c, cl, body, bl, merges)
  {
    var b5 := WhileClosed(b4, rs.must, rs.saved1);
    WhileBodyMoved(b0, b3, b4, bs, rs, c, cl, body, bl, merges);
    WhileBodyLaid(b0, b3, b4, b5, bs, rs, c, cl, body, bl, merges);
  }

  /** The second incoming values are there: `b5` is `b4` with them. */
  ghost predicate WhileBack(b0: Build, b4: Build, b5: Build, bs: LoopBlocks, rs: LoopRegs) {
    var b := b5.(cur := bs.els);
    && Good(b) && Within(b0, b0, b) && Here(b) == Start(bs.els) && IsOpen(b.g, bs.merge) && Grows(b4.g, b5.g)
    && Incoming(b5.g, rs.must, b0.cur, Int(2)) && Incoming(b5.g, rs.must, b4.cur, Int(0))
    && Incoming(b5.g, rs.must + 1, b0.cur, Null) && Incoming(b5.g, rs.must + 1, b4.cur, Var(rs.saved1))
  }

  lemma WhileBodyMoved(b0: Build, b3: Build, b4: Build, bs: LoopBlocks, rs: LoopRegs, c: Cond, cl: CondLay,
                       body: Branch, bl: BranchLay, merges: seq<Label>)
    requires WhileOpened(b0, b3, bs, rs, c, cl) && ArmDone(b3, b4, body, bl, merges, bs.merge, bs.cond)
    ensures WhileBack(b0, b4, WhileClosed(b4, rs.must, rs.saved1), bs, rs)
  {
    WhileBodyKept(b0, b3, b4, rs.must, rs.saved1, bs.els, bs.merge);
  }

  lemma WhileBodyLaid(b0: Build, b3: Build, b4: Build, b5: Build, bs: LoopBlocks, rs: LoopRegs, c: Cond, cl: CondLay,
                      body: Branch, bl: BranchLay, merges: seq<Label>)
    requires WhileOpened(b0, b3, bs, rs, c, cl) && ArmDone(b3, b4, body, bl, merges, bs.merge, bs.cond)
    requires WhileBack(b0, b4, b5, bs, rs)
    ensures WhileLooped(b0, b5.(cur := bs.els), bs, rs, c, cl, body, bl, merges)
  {
    WhileBodyStays(b0, b3, b4, b5, bs, rs, c, cl, body, bl, merges);
    WhileFramed(b3.g, b5.g, bs, rs, Here(b0), cl, bl.to, b0.regs);
  }

  lemma WhileBodyStays(b0: Build, b3: Build, b4: Build, b5: Build, bs: LoopBlocks, rs: LoopRegs, c: Cond,
                       cl: CondLay, body: Branch, bl: BranchLay, merges: seq<Label>)
    requires WhileOpened(b0, b3, bs, rs, c, cl) && ArmDone(b3, b4, body, bl, merges, bs.merge, bs.cond)
    requires Grows(b4.g, b5.g)
    ensures Grows(b3.g, b5.g) && CondLaid(b5.g, c, cl, Point(bs.cond, 2), rs.saved + 1)
    ensures ArmLaid(b5.g, body, bl, Point(bs.thn, 1), merges, bs.merge, bs.cond, rs.saved1 + 1)
  {
    GrowsTransitive(b3.g, b4.g, b5.g);
    CondStays(b3.g, b5.g, c, cl, Point(bs.cond, 2), rs.saved + 1, rs.saved + 1);
    ArmStays(b4.g, b5.g, body, bl, Point(bs.thn, 1), merges, bs.merge, bs.cond, b3.regs, rs.saved1 + 1);
  }

  lemma WhileElseDone(b0: Build, b5: Build, b6: Build, s: Stmt, lay: StmtLay, merges: seq<Label>)
    requires s.While? && lay.SWhile? && lay.to == Start(lay.bs.merge)
    requires Good(b0) && WhileLooped(b0, b5, lay.bs, lay.rs, s.c, lay.c, s.body, lay.body, merges)
    requires ArmDone(b5, b6, s.els, lay.e, merges, lay.bs.merge, lay.bs.merge)
    ensures StmtDone(b0, b6.(cur := lay.bs.merge), s, lay, merges)
  {
    var bs, rs := lay.bs, lay.rs;
    StillOpen(b5, b6, bs.merge);
    WithinPart(b0, b5, b6);
    WithinThen(b0, b0, b5, b6);
    WhileFrameStays(b5.g, b6.g, bs, rs, Here(b0), lay.c, lay.body.to, b0.regs, b0.regs);
    CondStays(b5.g, b6.g, s.c, lay.c, Point(bs.cond, 2), rs.saved + 1, rs.saved + 1);
    ArmStays(b5.g, b6.g, s.body, lay.body, Point(bs.thn, 1), merges, bs.merge, bs.cond, rs.saved1 + 1, rs.saved1 + 1);
    ArmStays(b6.g, b6.g, s.els, lay.e, Start(bs.els), merges, bs.merge, bs.merge, b5.regs, b0.regs);
  }

  // ---------------------------------------------------------------- repeat

  /** At the head of the exit test. */
  ghost predicate RepeatLooped(b0: Build, b: Build, bs: LoopBlocks, saved0: Reg, body: Branch, bl: BranchLay,
                               merges: seq<Label>) {
    && Good(b0) && Good(b) && Within(b0, b0, b) && Here(b) == Start(bs.cond) && IsOpen(b.g, bs.merge)
    && bs == RepeatOf(b0)
    && b0.regs <= saved0 && saved0 + 3 <= b.regs && saved0 + 1 in b.g.phis && b.g.phis[saved0 + 1] == map[]
    && RepeatFront(b.g, bs, saved0, Here(b0))
    && ArmLaid(b.g, body, bl, Point(bs.thn, 1), merges, bs.merge, bs.cond, saved0 + 3)
  }

  lemma RepeatFrontStays(g: Graph, g': Graph, bs: LoopBlocks, saved0: Reg, from: Point)
    requires Grows(g, g') && RepeatFront(g, bs, saved0, from)
    ensures RepeatFront(g', bs, saved0, from)
  {
  }

  lemma RepeatBodyDone(b0: Build, b1: Build, b2: Build, bs: LoopBlocks, saved0: Reg, body: Branch, bl: BranchLay,
                       merges: seq<Label>)
    requires RepeatHead(b0, b1, bs, saved0) && ArmDone(b1, b2, body, bl, merges, bs.merge, bs.cond)
    ensures RepeatLooped(b0, b2.(cur := bs.cond), bs, saved0, body, bl, merges)
  {
    StillOpen(b1, b2, bs.cond);
    StillOpen(b1, b2, bs.merge);
    WithinPart(b0, b1, b2);
    WithinThen(b0, b0, b1, b2);
    RepeatFrontStays(b1.g, b2.g, bs, saved0, Here(b0));
  }

  lemma RepeatFrameMade(g: Graph, g': Graph, bs: LoopBlocks, rs: LoopRegs, from: Point, cl: CondLay, lo: Reg)
    requires Grows(g, g') && lo <= rs.saved0 && rs.saved == rs.saved0 + 1 && rs.saved1 == rs.saved0 + 2
             && RepeatFront(g, bs, rs.saved0, from)
    requires EndsWith(g', cl.to, CondBr(cl.v, bs.merge, bs.restore)) && Incoming(g', rs.saved, cl.to.l, Var(rs.saved1))
    ensures RepeatFrame(g', bs, rs, from, cl, lo)
  {
  }

  lemma RepeatTestKept(b0: Build, b3: Build, b4: Build, bs: LoopBlocks, saved0: Reg, v: Val)
    requires Good(b0) && Good(b3) && Good(b4) && Within(b0, b0, b3) && Within(b3, b3, b4)
    requires Here(b3) == Start(bs.cond) && IsOpen(b3.g, bs.merge) && bs == RepeatOf(b0) && b0.regs <= saved0
             && saved0 + 3 <= b3.regs
    requires saved0 + 1 in b3.g.phis && b3.g.phis[saved0 + 1] == map[]
    ensures var b5 := RepeatClosed(b4, bs, saved0 + 1, v); var b := b5.(cur := bs.merge);
            && Good(b) && Within(b0, b0, b) && Here(b) == Start(bs.merge) && Grows(b4.g, b5.g)
            && EndsWith(b5.g, Here(b4), CondBr(v, bs.merge, bs.restore))
            && Incoming(b5.g, saved0 + 1, b4.cur, Var(saved0 + 2))
  {
    StillOpen(b3, b4, bs.merge);
    WithinPart(b0, b3, b4);
    WithinThen(b0, b0, b3, b4);
    RepeatClosedStep(b0, b4, bs, saved0 + 1, v);
    WithinThen(b0, b0, b4, RepeatClosed(b4, bs, saved0 + 1, v));
  }

  lemma RepeatTestDone(b0: Build, b3: Build, b4: Build, s: Stmt, lay: StmtLay, merges: seq<Label>)
    requires s.Repeat? && lay.SRepeat? && lay.to == Start(lay.bs.merge)
    requires lay.rs.saved == lay.rs.saved0 + 1 && lay.rs.saved1 == lay.rs.saved0 + 2
    requires RepeatLooped(b0, b3, lay.bs, lay.rs.saved0, s.body, lay.body, merges) && CondDone(b3, b4, s.until, lay.c)
    ensures StmtDone(b0, RepeatClosed(b4, lay.bs, lay.rs.saved, lay.c.v).(cur := lay.bs.merge), s, lay, merges)
  {
    RepeatTestMoved(b0, b3, b4, s, lay, merges);
    RepeatTestLaid(b0, b3, b4, RepeatClosed(b4, lay.bs, lay.rs.saved, lay.c.v), s, lay, merges);
  }

  lemma RepeatTestMoved(b0: Build, b3: Build, b4: Build, s: Stmt, lay: StmtLay, merges: seq<Label>)
    requires s.Repeat? && lay.SRepeat? && lay.rs.saved == lay.rs.saved0 + 1 && lay.rs.saved1 == lay.rs.saved0 + 2
    requires RepeatLooped(b0, b3, lay.bs, lay.rs.saved0, s.body, lay.body, merges) && CondDone(b3, b4, s.until, lay.c)
    ensures b4.cur in b4.g.blocks && RepeatExit(b0, b4, RepeatClosed(b4, lay.bs, lay.rs.saved, lay.c.v), lay)
  {
    RepeatTestKept(b0, b3, b4, lay.bs, lay.rs.saved0, lay.c.v);
  }

  /** The exit test has been closed: `b5` is `b4` with the branch behind the test. */
  ghost predicate RepeatExit(b0: Build, b4: Build, b5: Build, lay: StmtLay)
    requires lay.SRepeat? && b4.cur in b4.g.blocks
  {
    var b := b5.(cur := lay.bs.merge);
    && Good(b) && Within(b0, b0, b) && Here(b) == Start(lay.bs.merge) && Grows(b4.g, b5.g)
    && EndsWith(b5.g, Here(b4), CondBr(lay.c.v, lay.bs.merge, lay.bs.restore))
    && Incoming(b5.g, lay.rs.saved, b4.cur, Var(lay.rs.saved1))
  }

  lemma RepeatTestLaid(b0: Build, b3: Build, b4: Build, b5: Build, s: Stmt, lay: StmtLay, merges: seq<Label>)
    requires s.Repeat? && lay.SRepeat? && lay.to == Start(lay.bs.merge)
    requires lay.rs.saved == lay.rs.saved0 + 1 && lay.rs.saved1 == lay.rs.saved0 + 2
    requires RepeatLooped(b0, b3, lay.bs, lay.rs.saved0, s.body, lay.body, merges) && CondDone(b3, b4, s.until, lay.c)
    requires b4.cur in b4.g.blocks && RepeatExit(b0, b4, b5, lay)
    ensures StmtDone(b0, b5.(cur := lay.bs.merge), s, lay, merges)
  {
    var bs, rs := lay.bs, lay.rs;
    GrowsTransitive(b3.g, b4.g, b5.g);
    RepeatFrameMade(b3.g, b5.g, bs, rs, Here(b0), lay.c, b0.regs);
    ArmStays(b3.g, b5.g, s.body, lay.body, Point(bs.thn, 1), merges, bs.merge, bs.cond, rs.saved1 + 1, rs.saved1 + 1);
    CondStays(b4.g, b5.g, s.until, lay.c, Start(bs.cond), b3.regs, rs.saved1 + 1);
    RepeatMade(b5.g, s, lay, Here(b0), merges, b0.regs);
  }

  lemma RepeatMade(g: Graph, s: Stmt, lay: StmtLay, from: Point, merges: seq<Label>, lo: Reg)
    requires s.Repeat? && lay.SRepeat? && lay.to == Start(lay.bs.merge)
    requires RepeatFrame(g, lay.bs, lay.rs, from, lay.c, lo)
    requires ArmLaid(g, s.body, lay.body, Point(lay.bs.thn, 1), merges, lay.bs.merge, lay.bs.cond, lay.rs.saved1 + 1)
    requires CondLaid(g, s.until, lay.c, Start(lay.bs.cond), lay.rs.saved1 + 1)
    ensures StmtLaid(g, s, lay, from, merges, lo)
  {
  }

  // ---------------------------------------------------------------- for

  /** At the head of the `else` part. */
  ghost predicate ForLooped(b0: Build, b: Build, s: Stmt, lay: StmtLay, merges: seq<Label>)
    requires s.For? && lay.SFor?
  {
    var bs := lay.bs;
    && Good(b0) && Good(b) && Within(b0, b0, b) && Here(b) == Start(bs.els) && IsOpen(b.g, bs.merge) && bs == ForOf(b0)
    && TestedAt(b.g, After(After(Here(b0)))) && b0.regs <= lay.first && lay.saved0 == lay.first + 1
    && ForFront(b.g, bs, lay.first, Here(b0), s.init, s.first) && ForBack(b.g, s, lay)
    && BranchLaid(b.g, s.body, lay.body, Start(bs.thn), merges + [bs.merge], lay.saved0 + 1)
  }

  ghost predicate ForBack(g: Graph, s: Stmt, lay: StmtLay)
    requires s.For? && lay.SFor?
  {
    && lay.saved0 < lay.more
    && HasInstr(g, lay.body.to, Probe(lay.more, s.more))
    && EndsWith(g, After(lay.body.to), CondBr(Var(lay.more), lay.iter, lay.bs.merge))
    && HasInstr(g, Start(lay.iter), Act(s.step)) && EndsWith(g, Point(lay.iter, 1), Br(lay.bs.restore))
  }

  lemma ForFrontStays(g: Graph, g': Graph, bs: LoopBlocks, r: Reg, from: Point, init: nat, first: nat)
    requires Grows(g, g') && ForFront(g, bs, r, from, init, first)
    ensures ForFront(g', bs, r, from, init, first)
  {
  }

  lemma ForBodyKept(b0: Build, b1: Build, b2: Build, bs: LoopBlocks, init: nat, first: nat, more: nat, step: nat,
                    r: Reg)
    requires ForHead(b0, b1, bs, init, first, r) && Good(b2) && Within(b1, b1, b2)
    ensures var b3 := ForTail(b2, bs, more, step);
            && Good(b3) && Within(b0, b0, b3) && Here(b3) == Start(bs.els) && IsOpen(b3.g, bs.merge)
            && TestedAt(b3.g, After(After(Here(b0))))
            && Grows(b2.g, b3.g)
  {
    StillOpen(b1, b2, bs.els);
    StillOpen(b1, b2, bs.merge);
    Untouched(b1, b2, b0.cur);
    WithinPart(b0, b1, b2);
    WithinThen(b0, b0, b1, b2);
    ForTailStep(b0, b2, bs, more, step);
    WithinThen(b0, b0, b2, ForTail(b2, bs, more, step));
  }

  lemma ForBodyDone(b0: Build, b1: Build, b2: Build, s: Stmt, lay: StmtLay, merges: seq<Label>)
    requires s.For? && lay.SFor? && lay.saved0 == lay.first + 1
    requires ForHead(b0, b1, lay.bs, s.init, s.first, lay.first)
             && BranchDone(b1, b2, s.body, lay.body, merges + [lay.bs.merge])
    requires lay.more == b2.regs && lay.iter == b2.labels
    ensures ForLooped(b0, ForTail(b2, lay.bs, s.more, s.step), s, lay, merges)
  {
    var bs, b3 := lay.bs, ForTail(b2, lay.bs, s.more, s.step);
    ForBodyKept(b0, b1, b2, bs, s.init, s.first, s.more, s.step, lay.first);
    ForTailBack(b0, b1, b2, s, lay);
    GrowsTransitive(b1.g, b2.g, b3.g);
    ForFrontStays(b1.g, b3.g, bs, lay.first, Here(b0), s.init, s.first);
    BranchStays(b2.g, b3.g, s.body, lay.body, Start(bs.thn), merges + [bs.merge], b1.regs, lay.saved0 + 1);
  }

  lemma ForTailBack(b0: Build, b1: Build, b2: Build, s: Stmt, lay: StmtLay)
    requires s.For? && lay.SFor? && lay.saved0 == lay.first + 1 && Good(b2) && lay.body.to == Here(b2)
    requires ForHead(b0, b1, lay.bs, s.init, s.first, lay.first) && Within(b1, b1, b2)
    requires lay.more == b2.regs && lay.iter == b2.labels
    ensures ForBack(ForTail(b2, lay.bs, s.more, s.step).g, s, lay)
  {
    StillOpen(b1, b2, lay.bs.els);
    ForTailStep(b0, b2, lay.bs, s.more, s.step);
  }

  lemma ForFrameMade(g: Graph, g': Graph, s: Stmt, lay: StmtLay, from: Point, lo: Reg)
    requires s.For? && lay.SFor? && Grows(g, g') && lo <= lay.first && lay.saved0 == lay.first + 1
    requires ForFront(g, lay.bs, lay.first, from, s.init, s.first) && ForBack(g, s, lay)
    requires EndsWith(g', After(After(from)), CondBr(Var(lay.first), lay.bs.save, lay.bs.els))
    ensures ForFrame(g', s, lay, from, lo)
  {
  }

  lemma ForElseKept(b0: Build, b3: Build, b4: Build, at: Point, t: Term, els: Label, merge: Label)
    requires Good(b0) && Good(b3) && Bounded(b4) && Within(b0, b0, b3) && Within(b3, b3, b4)
    requires Here(b3) == Start(els) && IsOpen(b3.g, merge) && TestedAt(b3.g, at) && at.l == b0.cur
             && b0.labels <= els != merge && b0.labels <= merge
    ensures var b5 := Closed(b4, at.l, t, merge);
            && Good(b5) && Within(b0, b0, b5) && Here(b5) == Start(merge) && Grows(b4.g, b5.g) && EndsWith(b5.g, at, t)
  {
    StillOpen(b3, b4, merge);
    Untouched(b3, b4, b0.cur);
    WithinPart(b0, b3, b4);
    WithinThen(b0, b0, b3, b4);
    ClosedStep(b0, b4, at, t, merge);
    WithinThen(b0, b0, b4, Closed(b4, at.l, t, merge));
  }

  lemma ForElseDone(b0: Build, b3: Build, b4: Build, s: Stmt, lay: StmtLay, merges: seq<Label>)
    requires s.For? && lay.SFor? && lay.to == Start(lay.bs.merge)
    requires ForLooped(b0, b3, s, lay, merges) && ArmDone(b3, b4, s.els, lay.e, merges, lay.bs.merge, lay.bs.merge)
    ensures b0.cur in b4.g.blocks
    ensures StmtDone(b0, Closed(b4, b0.cur, CondBr(Var(lay.first), lay.bs.save, lay.bs.els), lay.bs.merge), s, lay,
              merges)
  {
    var bs, t, at := lay.bs, CondBr(Var(lay.first), lay.bs.save, lay.bs.els), After(After(Here(b0)));
    ForElseKept(b0, b3, b4, at, t, bs.els, bs.merge);
    var b5 := Closed(b4, b0.cur, t, bs.merge);
    GrowsTransitive(b3.g, b4.g, b5.g);
    ForFrameMade(b3.g, b5.g, s, lay, Here(b0), b0.regs);
    BranchStays(b3.g, b5.g, s.body, lay.body, Start(bs.thn), merges + [bs.merge], lay.saved0 + 1, lay.saved0 + 1);
    ArmStays(b4.g, b5.g, s.els, lay.e, Start(bs.els), merges, bs.merge, bs.merge, b3.regs, b0.regs);
  }
}
