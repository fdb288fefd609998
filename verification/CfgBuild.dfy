/**
  * The pure side of the code generator: what each group of emitted instructions does to the graph under construction.
  */
module CfgBuild {
  import opened Options
  import opened CfgSource
  import opened CfgMachine
  import opened CfgLayout

  /** What has been produced so far: the graph, the insertion block, and the next unused label and register. */
  datatype Build = Build(g: Graph, cur: Label, labels: nat, regs: nat)

  const OPEN := Code([], None)

  /** Labels and registers in use are below the counters. */
  ghost predicate Bounded(b: Build) {
    (forall l | l in b.g.blocks :: l < b.labels) && (forall r | r in b.g.phis :: r < b.regs) && b.cur in b.g.blocks
  }

  /** The insertion block can take more code. */
  ghost predicate Good(b: Build) {
    Bounded(b) && b.g.blocks[b.cur].term.None?
  }

  function Here(b: Build): Point
    requires b.cur in b.g.blocks
  {
    Point(b.cur, |b.g.blocks[b.cur].instrs|)
  }

  /** From `b` to `c`, of what was there in `a` only the insertion block has changed. */
  ghost predicate Within(a: Build, b: Build, c: Build) {
    && Grows(b.g, c.g) && b.labels <= c.labels && b.regs <= c.regs && (c.cur == a.cur || a.labels <= c.cur)
    && (forall l | l in b.g.blocks ::
        l in c.g.blocks && (l < a.labels && l != a.cur ==> c.g.blocks[l] == b.g.blocks[l]))
    && (forall r | r in b.g.phis && r < a.regs :: r in c.g.phis && c.g.phis[r] == b.g.phis[r])
  }

  lemma WithinThen(a: Build, b: Build, c: Build, d: Build)
    requires Within(a, b, c) && Within(a, c, d)
    ensures Within(a, b, d)
  {
  }

  /** A part emitted from a place of its own. */
  lemma WithinPart(a: Build, b: Build, c: Build)
    requires Within(b, b, c) && Bounded(b) && a.labels <= b.labels && a.regs <= b.regs
             && (b.cur == a.cur || a.labels <= b.cur)
    ensures Within(a, b, c)
  {
  }

  lemma Untouched(b: Build, c: Build, l: Label)
    requires Bounded(b) && Within(b, b, c) && l in b.g.blocks && l != b.cur
    ensures l in c.g.blocks && c.g.blocks[l] == b.g.blocks[l]
  {
  }

  // ---------------------------------------------------------------- single steps

  function WithInstr(b: Build, ins: Instr): Build
    requires b.cur in b.g.blocks
  {
    var code := b.g.blocks[b.cur];
    b.(g := b.g.(blocks := b.g.blocks[b.cur := code.(instrs := code.instrs + [ins])]))
  }

  function WithEnd(b: Build, t: Term): Build
    requires b.cur in b.g.blocks
  {
    b.(g := b.g.(blocks := b.g.blocks[b.cur := b.g.blocks[b.cur].(term := Some(t))]))
  }

  function WithBlock(b: Build): Build {
    b.(g := b.g.(blocks := b.g.blocks[b.labels := OPEN]), labels := b.labels + 1)
  }

  function WithIncoming(b: Build, r: Reg, from: Label, v: Val): Build {
    var known := if r in b.g.phis then b.g.phis[r] else map[];
    b.(g := b.g.(phis := b.g.phis[r := known[from := v]]))
  }

  /** A phi in a new register, without incoming values yet. */
  function WithPhi(b: Build): Build
    requires b.cur in b.g.blocks
  {
    var c := WithInstr(b, Phi(b.regs));
    c.(g := c.g.(phis := c.g.phis[b.regs := map[]]), regs := b.regs + 1)
  }

  /** A block that was created before gets its code: one instruction and a jump. */
  function WithStackBlock(b: Build, l: Label, ins: Instr, next: Label): Build {
    Build(b.g.(blocks := b.g.blocks[l := Code([ins], Some(Br(next)))]), l, b.labels, b.regs)
  }

  /** A stack block whose saved stack pointer comes in through a phi. */
  function WithRestoreBlock(b: Build, l: Label, next: Label): Build {
    var code := Code([Phi(b.regs), StackRestore(Var(b.regs))], Some(Br(next)));
    Build(Graph(b.g.blocks[l := code], b.g.phis[b.regs := map[]]), l, b.labels, b.regs + 1)
  }

  function FourBlocks(b: Build): Build {
    WithBlock(WithBlock(WithBlock(WithBlock(b))))
  }

  lemma InstrStep(b: Build, ins: Instr)
    requires Good(b)
    ensures var c := WithInstr(b, ins);
            Good(c) && Within(b, b, c) && HasInstr(c.g, Here(b), ins) && Here(c) == After(Here(b))
  {
  }

  lemma EndStep(b: Build, t: Term)
    requires Good(b)
    ensures var c := WithEnd(b, t);
            Bounded(c) && Within(b, b, c) && EndsWith(c.g, Here(b), t)
  {
  }

  lemma BlockStep(b: Build)
    requires Bounded(b)
    ensures var c := WithBlock(b);
            Bounded(c) && Within(b, b, c) && c.g.blocks[b.labels] == OPEN && b.labels !in b.g.blocks
  {
  }

  // ---------------------------------------------------------------- lazy operators

  /** Both sides are constants: the right side's empty code just follows. */
  function FoldedPair(b: Build, enter: Label, rhs: Label): Build
    requires enter in b.g.blocks
  {
    WithEnd(b.(cur := enter), Br(rhs)).(cur := b.cur)
  }

  lemma FoldedPairStep(a: Build, b: Build, enter: Label, rhs: Label)
    requires Good(b) && enter in b.g.blocks && enter != b.cur && b.g.blocks[enter].term.None?
    requires (enter == a.cur || a.labels <= enter) && a.labels <= b.cur
    ensures var c := FoldedPair(b, enter, rhs);
            Good(c) && Within(a, b, c) && Here(c) == Here(b) && EndsWith(c.g, Here(b.(cur := enter)), Br(rhs))
  {
  }

  /** A branch around the right side, and a joint block with a phi. */
  function JoinedPair(b: Build, enter: Label, t: Term, short: Val, rv: Val): Build
    requires enter in b.g.blocks && b.cur in b.g.blocks
  {
    var cont, r := b.labels, b.regs;
    var blocks := b.g.blocks[cont := Code([Phi(r)], None)]
                            [b.cur := b.g.blocks[b.cur].(term := Some(Br(cont)))]
                            [enter := b.g.blocks[enter].(term := Some(t))];
    Build(Graph(blocks, b.g.phis[r := map[enter := short, b.cur := rv]]), cont, cont + 1, r + 1)
  }

  /** Two incoming values for a phi of its own. */
  lemma BothIncoming(b: Build, from: Label, v: Val, from': Label, v': Val)
    requires b.cur in b.g.blocks
    ensures WithIncoming(WithIncoming(WithPhi(b), b.regs, from, v), b.regs, from', v')
         == Build(Graph(WithInstr(b, Phi(b.regs)).g.blocks, b.g.phis[b.regs := map[from := v, from' := v']]),
                  b.cur, b.labels, b.regs + 1)
  {
  }

  /** The same, instruction by instruction. */
  lemma JoinedPairSteps(b: Build, enter: Label, t: Term, short: Val, rv: Val)
    requires Good(b) && enter in b.g.blocks && enter != b.cur
    ensures var cont, r := b.labels, b.regs;
            var c := WithEnd(WithEnd(WithBlock(b), Br(cont)).(cur := enter), t).(cur := cont);
            JoinedPair(b, enter, t, short, rv) == WithIncoming(WithIncoming(WithPhi(c), r, enter, short), r, b.cur, rv)
  {
    var cont := b.labels;
    var c := WithEnd(WithEnd(WithBlock(b), Br(cont)).(cur := enter), t).(cur := cont);
    BothIncoming(c, enter, short, b.cur, rv);
    assert [] + [Phi(b.regs)] == [Phi(b.regs)];
  }

  lemma JoinedPairStep(a: Build, b: Build, enter: Label, t: Term, short: Val, rv: Val)
    requires Good(b) && enter in b.g.blocks && enter != b.cur && b.g.blocks[enter].term.None?
    requires (enter == a.cur || a.labels <= enter) && a.labels <= b.cur && a.labels <= b.labels && a.regs <= b.regs
    ensures var c := JoinedPair(b, enter, t, short, rv);
            && Good(c) && Within(a, b, c) && Here(c) == Point(b.labels, 1)
            && EndsWith(c.g, Here(b.(cur := enter)), t) && EndsWith(c.g, Here(b), Br(b.labels))
            && HasInstr(c.g, Start(b.labels), Phi(b.regs))
            && Incoming(c.g, b.regs, enter, short) && Incoming(c.g, b.regs, b.cur, rv)
  {
  }

  // ---------------------------------------------------------------- while

  /** Up to the two phis at the head of the condition block. */
  function WhileEntered(b: Build): Build
    requires b.cur in b.g.blocks
  {
    var l, r := b.labels, b.regs;
    var blocks := b.g.blocks[b.cur := b.g.blocks[b.cur].(term := Some(Br(l + 1)))][l := OPEN]
        [l + 1 := Code([Phi(r), Phi(r + 1)], None)];
    Build(Graph(blocks, b.g.phis[r := map[b.cur := Int(2)]][r + 1 := map[b.cur := Null]]), l + 1, l + 2, r + 2)
  }

  lemma TwoPhis(b: Build)
    requires IsOpen(b.g, b.cur)
    ensures var r := b.regs;
            var blocks := b.g.blocks[b.cur := Code([Phi(r), Phi(r + 1)], None)];
            WithPhi(WithPhi(b)) == Build(Graph(blocks, b.g.phis[r := map[]][r + 1 := map[]]), b.cur, b.labels, r + 2)
  {
    assert [] + [Phi(b.regs)] + [Phi(b.regs + 1)] == [Phi(b.regs), Phi(b.regs + 1)];
  }

  lemma TwoIncoming(b: Build, r: Reg, from: Label, v: Val, v': Val)
    requires r in b.g.phis && r + 1 in b.g.phis && b.g.phis[r] == map[] == b.g.phis[r + 1]
    ensures WithIncoming(WithIncoming(b, r, from, v), r + 1, from, v')
         == b.(g := b.g.(phis := b.g.phis[r := map[from := v]][r + 1 := map[from := v']]))
  {
  }

  lemma NewHead(b: Build)
    requires Good(b)
    ensures var l := b.labels;
            var c := WithEnd(WithBlock(WithBlock(b)), Br(l + 1)).(cur := l + 1);
            IsOpen(c.g, c.cur) && c.regs == b.regs && c.g.phis == b.g.phis && c.labels == l + 2
            && c.g.blocks == b.g.blocks[b.cur := b.g.blocks[b.cur].(term := Some(Br(l + 1)))][l := OPEN][l + 1 := OPEN]
  {
  }

  /** The same, instruction by instruction. */
  lemma WhileEnteredSteps(b: Build)
    requires Good(b)
    ensures var l, r := b.labels, b.regs;
            var c := WithEnd(WithBlock(WithBlock(b)), Br(l + 1)).(cur := l + 1);
            WhileEntered(b) == WithIncoming(WithIncoming(WithPhi(WithPhi(c)), r, b.cur, Int(2)), r + 1, b.cur, Null)
  {
    var c := WithEnd(WithBlock(WithBlock(b)), Br(b.labels + 1)).(cur := b.labels + 1);
    NewHead(b);
    WhileHeadPhis(b, c);
  }

  lemma WhileHeadPhis(b: Build, c: Build)
    requires Good(b) && IsOpen(c.g, c.cur) && c.regs == b.regs && c.g.phis == b.g.phis
    requires c.cur == b.labels + 1 && c.labels == b.labels + 2
    requires c.g.blocks == b.g.blocks[b.cur := b.g.blocks[b.cur].(term := Some(Br(c.cur)))][b.labels := OPEN]
               [c.cur := OPEN]
    ensures WhileEntered(b)
         == WithIncoming(WithIncoming(WithPhi(WithPhi(c)), b.regs, b.cur, Int(2)), b.regs + 1, b.cur, Null)
  {
    TwoPhis(c);
    TwoIncoming(WithPhi(WithPhi(c)), b.regs, b.cur, Int(2), Null);
  }

  /** The blocks for the `else` part, for what follows, and for the stack pointer. */
  function WhileBegun(b: Build): Build
    requires b.cur in b.g.blocks
  {
    FourBlocks(WhileEntered(b))
  }

  /** The blocks that a loop starting at `b` creates. */
  function LoopOf(b: Build): LoopBlocks {
    var l := b.labels;
    LoopBlocks(l + 1, l + 2, l + 4, l + 5, l, l + 3)
  }

  /** A block that waits for its code. */
  predicate IsOpen(g: Graph, l: Label) {
    l in g.blocks && g.blocks[l] == OPEN
  }

  lemma WhileEnteredStep(b: Build)
    requires Good(b)
    ensures Good(WhileEntered(b)) && Within(b, b, WhileEntered(b)) && b.labels <= WhileEntered(b).cur
  {
  }

  /** One more block, seen from `a`. */
  lemma OneMore(a: Build, b: Build)
    requires Good(b) && Within(a, a, b) && a.labels <= b.cur
    ensures Good(WithBlock(b)) && Within(a, a, WithBlock(b))
  {
    BlockStep(b);
    WithinPart(a, b, WithBlock(b));
    WithinThen(a, a, b, WithBlock(b));
  }

  lemma WhileBegunStep(b: Build)
    requires Good(b)
    ensures Good(WhileBegun(b)) && Within(b, b, WhileBegun(b))
  {
    var c := WhileEntered(b);
    WhileEnteredStep(b);
    OneMore(b, c);
    OneMore(b, WithBlock(c));
    OneMore(b, WithBlock(WithBlock(c)));
    OneMore(b, WithBlock(WithBlock(WithBlock(c))));
  }

  /** A `while` loop from `b0` up to its condition. */
  ghost predicate WhileHead(b0: Build, b: Build, bs: LoopBlocks, must: Reg) {
    && Good(b0) && Good(b) && Within(b0, b0, b) && Here(b) == Point(bs.cond, 2) && b0.regs <= must && must + 2 == b.regs
    && bs == LoopOf(b0) && b.labels == b0.labels + 6
    && EndsWith(b.g, Here(b0), Br(bs.cond)) && HasInstr(b.g, Start(bs.cond), Phi(must))
    && HasInstr(b.g, Point(bs.cond, 1), Phi(must + 1))
    && HeadPhis(b.g, must, b0.cur)
    && IsOpen(b.g, bs.thn) && IsOpen(b.g, bs.els) && IsOpen(b.g, bs.merge) && IsOpen(b.g, bs.save)
    && IsOpen(b.g, bs.restore)
  }

  /** The phis at the head have one incoming value each, from before the loop. */
  ghost predicate HeadPhis(g: Graph, must: Reg, from: Label) {
    && must in g.phis && g.phis[must] == map[from := Int(2)]
    && must + 1 in g.phis && g.phis[must + 1] == map[from := Null]
  }

  lemma WhileBegunHas(b: Build)
    requires Good(b)
    ensures WhileHead(b, WhileBegun(b), LoopOf(b), b.regs)
  {
    WhileBegunStep(b);
  }

  /** The switch, the two stack blocks and the phi at the head of the body. */
  function WhileSwitched(b: Build, bs: LoopBlocks, must: Reg, v: Val): Build
    requires b.cur in b.g.blocks
  {
    var r := b.regs;
    var c := WithEnd(WithInstr(b.(regs := r + 1), Or8(r, Var(must), v)),
                     Switch(Var(r), bs.merge, bs.restore, bs.els, bs.save));
    var d := WithStackBlock(c.(regs := r + 2), bs.save, StackSave(r + 1), bs.thn);
    var e := WithStackBlock(d, bs.restore, StackRestore(Var(must + 1)), bs.thn);
    var phis := b.g.phis[r + 2 := map[bs.save := Var(r + 1), bs.restore := Var(must + 1)]];
    Build(Graph(e.g.blocks[bs.thn := Code([Phi(r + 2)], None)], phis), bs.thn, b.labels, r + 3)
  }

  /** The condition has been tested at `b`; the loop's other blocks are new and wait. */
  ghost predicate Awaits(a: Build, b: Build, bs: LoopBlocks) {
    && Good(b) && a.labels <= b.cur && a.regs <= b.regs && bs == LoopOf(a)
    && b.cur !in {bs.thn, bs.els, bs.merge, bs.save, bs.restore}
    && IsOpen(b.g, bs.thn) && IsOpen(b.g, bs.els) && IsOpen(b.g, bs.merge) && IsOpen(b.g, bs.save)
    && IsOpen(b.g, bs.restore)
  }

  lemma WhileSwitchedStep(a: Build, b: Build, bs: LoopBlocks, must: Reg, v: Val)
    requires Awaits(a, b, bs)
    ensures Good(WhileSwitched(b, bs, must, v)) && Within(a, b, WhileSwitched(b, bs, must, v))
  {
    WhileSwitchedGood(a, b, bs, must, v);
  }

  lemma WhileSwitchedGood(a: Build, b: Build, bs: LoopBlocks, must: Reg, v: Val)
    requires Awaits(a, b, bs)
    ensures Good(WhileSwitched(b, bs, must, v))
  {
  }

  /** The same, instruction by instruction. */
  lemma WhileSwitchedSteps(a: Build, b: Build, bs: LoopBlocks, must: Reg, v: Val)
    requires Awaits(a, b, bs)
    ensures var r := b.regs;
            var c := WithEnd(WithInstr(b.(regs := r + 1), Or8(r, Var(must), v)),
                             Switch(Var(r), bs.merge, bs.restore, bs.els, bs.save));
            var d := WithStackBlock(c.(regs := r + 2), bs.save, StackSave(r + 1), bs.thn);
            var e := WithStackBlock(d, bs.restore, StackRestore(Var(must + 1)), bs.thn);
            var f := WithPhi(e.(cur := bs.thn));
            WhileSwitched(b, bs, must, v)
                == WithIncoming(WithIncoming(f, r + 2, bs.save, Var(r + 1)), r + 2, bs.restore, Var(must + 1))
  {
    var r := b.regs;
    assert [] + [Phi(r + 2)] == [Phi(r + 2)];
  }

  lemma WhileSwitchedHas(a: Build, b: Build, bs: LoopBlocks, must: Reg, v: Val)
    requires Awaits(a, b, bs)
    ensures var c, r := WhileSwitched(b, bs, must, v), b.regs;
            && c.cur in c.g.blocks && Here(c) == Point(bs.thn, 1) && c.regs == r + 3 && c.labels == b.labels
            && WhileMiddle(c.g, bs, must, r, Here(b), v) && IsOpen(c.g, bs.els) && IsOpen(c.g, bs.merge)
  {
  }

  /** The switch behind the condition, and the blocks that save and restore the stack pointer. */
  ghost predicate WhileMiddle(g: Graph, bs: LoopBlocks, must: Reg, sw: Reg, tested: Point, v: Val) {
    && HasInstr(g, tested, Or8(sw, Var(must), v))
    && EndsWith(g, After(tested), Switch(Var(sw), bs.merge, bs.restore, bs.els, bs.save))
    && HasInstr(g, Start(bs.save), StackSave(sw + 1)) && EndsWith(g, Point(bs.save, 1), Br(bs.thn))
    && HasInstr(g, Start(bs.restore), StackRestore(Var(must + 1))) && EndsWith(g, Point(bs.restore, 1), Br(bs.thn))
    && HasInstr(g, Start(bs.thn), Phi(sw + 2))
    && Incoming(g, sw + 2, bs.save, Var(sw + 1)) && Incoming(g, sw + 2, bs.restore, Var(must + 1))
  }

  /** The second incoming values of the phis at the head, once the body is there. */
  function WhileClosed(b: Build, must: Reg, saved1: Reg): Build {
    WithIncoming(WithIncoming(b, must, b.cur, Int(0)), must + 1, b.cur, Var(saved1))
  }

  lemma WhileClosedStep(a: Build, b: Build, must: Reg, saved1: Reg, from: Label)
    requires Bounded(b) && (b.cur == a.cur || a.labels <= b.cur) && a.regs <= must && b.cur != from
    requires HeadPhis(b.g, must, from)
    ensures var c := WhileClosed(b, must, saved1);
            && Bounded(c) && Within(a, b, c)
            && Incoming(c.g, must, from, Int(2)) && Incoming(c.g, must, b.cur, Int(0))
            && Incoming(c.g, must + 1, from, Null) && Incoming(c.g, must + 1, b.cur, Var(saved1))
  {
  }

  // ---------------------------------------------------------------- repeat

  /** The blocks of the loop, and the jump to the first of them. */
  function RepeatEntered(b: Build): Build
    requires b.cur in b.g.blocks
  {
    var l := b.labels;
    var blocks := b.g.blocks[b.cur := b.g.blocks[b.cur].(term := Some(Br(l + 3)))][l := OPEN][l + 1 := OPEN]
        [l + 2 := OPEN][l + 3 := OPEN][l + 4 := OPEN];
    Build(Graph(blocks, b.g.phis), b.cur, l + 5, b.regs)
  }

  lemma RepeatEnteredSteps(b: Build)
    requires Good(b)
    ensures RepeatEntered(b) == WithEnd(FourBlocks(WithBlock(b)), Br(b.labels + 3))
  {
  }

  /** Up to the blocks that save and restore the stack pointer. */
  function RepeatStacked(b: Build): Build
    requires b.cur in b.g.blocks
  {
    var l, r := b.labels, b.regs;
    WithRestoreBlock(WithStackBlock(RepeatEntered(b).(regs := r + 1), l + 3, StackSave(r), l), l + 4, l)
  }

  /** Up to the phi at the head of the body. */
  function RepeatBegun(b: Build): Build
    requires b.cur in b.g.blocks
  {
    var l, r, c := b.labels, b.regs, RepeatStacked(b);
    Build(Graph(c.g.blocks[l := Code([Phi(r + 2)], None)],
        c.g.phis[r + 2 := map[l + 3 := Var(r), l + 4 := Var(r + 1)]]), l, l + 5, r + 3)
  }

  /** The same, instruction by instruction. */
  lemma RepeatBegunSteps(b: Build)
    requires Good(b)
    ensures var l, r, c := b.labels, b.regs, RepeatStacked(b);
            RepeatBegun(b) == WithIncoming(WithIncoming(WithPhi(c.(cur := l)), r + 2, l + 3, Var(r)), r + 2, l + 4,
                Var(r + 1))
  {
    assert [] + [Phi(b.regs + 2)] == [Phi(b.regs + 2)];
  }

  /** The blocks that wait for their code on the way. */
  lemma RepeatAwaits(b: Build)
    requires Good(b)
    ensures var l, r := b.labels, b.regs;
            var b1 := RepeatEntered(b).(regs := r + 1);
            IsOpen(b1.g, l + 3) && IsOpen(b1.g, l + 4)
    ensures b.labels in RepeatStacked(b).g.blocks && RepeatStacked(b).regs == b.regs + 2
  {
  }

  function RepeatOf(b: Build): LoopBlocks {
    var l := b.labels;
    LoopBlocks(l + 1, 0, l + 3, l + 4, l, l + 2)
  }

  /** All the changes at once. */
  function RepeatAtOnce(b: Build): Build
    requires b.cur in b.g.blocks
  {
    var l, r := b.labels, b.regs;
    var blocks := b.g.blocks[b.cur := b.g.blocks[b.cur].(term := Some(Br(l + 3)))]
                            [l := Code([Phi(r + 2)], None)][l + 1 := OPEN][l + 2 := OPEN]
                            [l + 3 := Code([StackSave(r)], Some(Br(l)))]
                            [l + 4 := Code([Phi(r + 1), StackRestore(Var(r + 1))], Some(Br(l)))];
    Build(Graph(blocks, b.g.phis[r + 1 := map[]][r + 2 := map[l + 3 := Var(r), l + 4 := Var(r + 1)]]), l, l + 5, r + 3)
  }

  lemma RepeatAtOnceGood(b: Build)
    requires Good(b)
    ensures Good(RepeatAtOnce(b))
  {
  }

  lemma RepeatAtOnceWithin(b: Build)
    requires Good(b)
    ensures Within(b, b, RepeatAtOnce(b))
  {
  }

  lemma RepeatAtOnceSame(b: Build)
    requires Good(b)
    ensures RepeatBegun(b) == RepeatAtOnce(b)
  {
  }

  lemma RepeatBegunStep(b: Build)
    requires Good(b)
    ensures Good(RepeatBegun(b)) && Within(b, b, RepeatBegun(b))
  {
    RepeatAtOnceGood(b);
    RepeatAtOnceWithin(b);
    RepeatAtOnceSame(b);
  }

  /** A `repeat` loop from `b0` up to its body. */
  ghost predicate RepeatHead(b0: Build, b: Build, bs: LoopBlocks, saved0: Reg) {
    && Good(b0) && Good(b) && Within(b0, b0, b) && Here(b) == Point(bs.thn, 1) && b0.regs <= saved0
    && saved0 + 3 == b.regs
    && bs == RepeatOf(b0) && b.labels == b0.labels + 5
    && RepeatFront(b.g, bs, saved0, Here(b0)) && saved0 + 1 in b.g.phis && b.g.phis[saved0 + 1] == map[]
    && IsOpen(b.g, bs.cond) && IsOpen(b.g, bs.merge)
  }

  ghost predicate RepeatFront(g: Graph, bs: LoopBlocks, saved0: Reg, from: Point) {
    && EndsWith(g, from, Br(bs.save)) && HasInstr(g, Start(bs.save), StackSave(saved0))
    && EndsWith(g, Point(bs.save, 1), Br(bs.thn))
    && HasInstr(g, Start(bs.restore), Phi(saved0 + 1))
    && HasInstr(g, Point(bs.restore, 1), StackRestore(Var(saved0 + 1)))
    && EndsWith(g, Point(bs.restore, 2), Br(bs.thn))
    && HasInstr(g, Start(bs.thn), Phi(saved0 + 2))
    && Incoming(g, saved0 + 2, bs.save, Var(saved0)) && Incoming(g, saved0 + 2, bs.restore, Var(saved0 + 1))
  }

  lemma RepeatBegunFront(b: Build)
    requires Good(b)
    ensures RepeatFront(RepeatBegun(b).g, RepeatOf(b), b.regs, Here(b))
  {
  }

  lemma RepeatBegunHas(b: Build)
    requires Good(b)
    ensures RepeatHead(b, RepeatBegun(b), RepeatOf(b), b.regs)
  {
    RepeatBegunStep(b);
    RepeatBegunFront(b);
  }

  /** The exit test. */
  function RepeatClosed(b: Build, bs: LoopBlocks, saved: Reg, v: Val): Build
    requires b.cur in b.g.blocks
  {
    WithIncoming(WithEnd(b, CondBr(v, bs.merge, bs.restore)), saved, b.cur, Var(saved + 1))
  }

  lemma RepeatClosedStep(a: Build, b: Build, bs: LoopBlocks, saved: Reg, v: Val)
    requires Good(b) && (b.cur == a.cur || a.labels <= b.cur) && a.regs <= saved
    requires saved in b.g.phis && b.g.phis[saved] == map[]
    ensures var c := RepeatClosed(b, bs, saved, v);
            && Bounded(c) && Within(a, b, c) && EndsWith(c.g, Here(b), CondBr(v, bs.merge, bs.restore))
            && Incoming(c.g, saved, b.cur, Var(saved + 1))
  {
  }

  // ---------------------------------------------------------------- for

  /** The initialisation, the first test (its branch comes last) and the stack blocks. */
  function ForBegun(b: Build, init: nat, first: nat): Build
    requires b.cur in b.g.blocks
  {
    var l, r := b.labels, b.regs;
    var code := b.g.blocks[b.cur];
    var blocks := b.g.blocks[b.cur := code.(instrs := code.instrs + [Act(init), Probe(r, first)])]
                            [l := OPEN][l + 1 := OPEN][l + 2 := OPEN]
                            [l + 3 := Code([StackSave(r + 1)], Some(Br(l)))]
                            [l + 4 := Code([StackRestore(Var(r + 1))], Some(Br(l)))];
    Build(Graph(blocks, b.g.phis), l, l + 5, r + 2)
  }

  /** The same, instruction by instruction. */
  lemma ForBegunSteps(b: Build, init: nat, first: nat)
    requires Good(b)
    ensures var l, r := b.labels, b.regs;
            var c := WithInstr(FourBlocks(WithInstr(WithBlock(b), Act(init))).(regs := r + 1), Probe(r, first));
            ForBegun(b, init, first) == WithStackBlock(WithStackBlock(c.(regs := r + 2), l + 3, StackSave(r + 1), l),
                l + 4, StackRestore(Var(r + 1)), l).(cur := l)
  {
    var l, r, code := b.labels, b.regs, b.g.blocks[b.cur];
    var c := WithInstr(FourBlocks(WithInstr(WithBlock(b), Act(init))).(regs := r + 1), Probe(r, first));
    assert code.instrs + [Act(init)] + [Probe(r, first)] == code.instrs + [Act(init), Probe(r, first)];
    assert c.g.blocks == b.g.blocks[b.cur := code.(instrs := code.instrs + [Act(init), Probe(r, first)])][l := OPEN]
             [l + 1 := OPEN][l + 2 := OPEN][l + 3 := OPEN][l + 4 := OPEN];
  }

  function ForOf(b: Build): LoopBlocks {
    var l := b.labels;
    LoopBlocks(0, l + 1, l + 3, l + 4, l, l + 2)
  }

  lemma ForBegunStep(b: Build, init: nat, first: nat)
    requires Good(b)
    ensures Good(ForBegun(b, init, first)) && Within(b, b, ForBegun(b, init, first))
  {
  }

  /** A `for` loop from `b0` up to its body; the branch behind the first test is still to come. */
  ghost predicate ForHead(b0: Build, b: Build, bs: LoopBlocks, init: nat, first: nat, r: Reg) {
    && Good(b0) && Good(b) && Within(b0, b0, b) && Here(b) == Start(bs.thn) && b0.regs <= r && r + 2 == b.regs
    && bs == ForOf(b0) && b.labels == b0.labels + 5
    && ForFront(b.g, bs, r, Here(b0), init, first) && TestedAt(b.g, After(After(Here(b0))))
    && IsOpen(b.g, bs.els) && IsOpen(b.g, bs.merge)
  }

  /** An open block that ends here. */
  ghost predicate TestedAt(g: Graph, p: Point) {
    p.l in g.blocks && |g.blocks[p.l].instrs| == p.i && g.blocks[p.l].term.None?
  }

  ghost predicate ForFront(g: Graph, bs: LoopBlocks, r: Reg, from: Point, init: nat, first: nat) {
    && HasInstr(g, from, Act(init)) && HasInstr(g, After(from), Probe(r, first))
    && HasInstr(g, Start(bs.save), StackSave(r + 1)) && EndsWith(g, Point(bs.save, 1), Br(bs.thn))
    && HasInstr(g, Start(bs.restore), StackRestore(Var(r + 1))) && EndsWith(g, Point(bs.restore, 1), Br(bs.thn))
  }

  lemma ForBegunHas(b: Build, init: nat, first: nat)
    requires Good(b)
    ensures ForHead(b, ForBegun(b, init, first), ForOf(b), init, first, b.regs)
  {
    ForBegunStep(b, init, first);
  }

  /** Behind the body: the second test and the step. */
  function ForTail(b: Build, bs: LoopBlocks, more: nat, step: nat): Build
    requires b.cur in b.g.blocks
  {
    var l, r := b.labels, b.regs;
    var code := b.g.blocks[b.cur];
    var blocks := b.g.blocks[b.cur := Code(code.instrs + [Probe(r, more)], Some(CondBr(Var(r), l, bs.merge)))]
                            [l := Code([Act(step)], Some(Br(bs.restore)))];
    Build(Graph(blocks, b.g.phis), bs.els, l + 1, r + 1)
  }

  lemma ForTailStep(a: Build, b: Build, bs: LoopBlocks, more: nat, step: nat)
    requires Good(b) && (b.cur == a.cur || a.labels <= b.cur) && a.labels <= bs.els != b.cur && a.labels <= b.labels
             && IsOpen(b.g, bs.els)
    ensures var c, l, r := ForTail(b, bs, more, step), b.labels, b.regs;
            && Good(c) && Within(a, b, c) && Here(c) == Start(bs.els)
            && HasInstr(c.g, Here(b), Probe(r, more)) && EndsWith(c.g, After(Here(b)), CondBr(Var(r), l, bs.merge))
            && HasInstr(c.g, Start(l), Act(step)) && EndsWith(c.g, Point(l, 1), Br(bs.restore))
            && forall k | k in b.g.blocks && k != b.cur :: k in c.g.blocks && c.g.blocks[k] == b.g.blocks[k]
  {
  }

  /** A branch at the end of a block left open before, and on to the merge block. */
  function Closed(b: Build, enter: Label, t: Term, merge: Label): Build
    requires enter in b.g.blocks
  {
    WithEnd(b.(cur := enter), t).(cur := merge)
  }

  lemma ClosedStep(a: Build, b: Build, at: Point, t: Term, merge: Label)
    requires Bounded(b) && TestedAt(b.g, at) && at.l != merge
    requires (at.l == a.cur || a.labels <= at.l) && a.labels <= merge && IsOpen(b.g, merge)
    ensures var c := Closed(b, at.l, t, merge);
            Good(c) && Within(a, b, c) && Here(c) == Start(merge) && EndsWith(c.g, at, t)
  {
  }
}
