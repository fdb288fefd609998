/**
  * The code generator: a builder with an insertion point and a stack of merge points that emits the blocks of a
  * statement (src/codegen.cc, BranchExprAST::codegen_raw, createCondBranch, and the lazy operators).
  */
module CfgBuilder {
  import opened Options
  import opened CfgSource
  import opened CfgMachine
  import opened CfgLayout
  import opened CfgBuild
  import opened CfgAssembly

  class Builder {
    var b: Build
    var merges: seq<Label>

    /** A function with an empty entry block. */
    constructor ()
      ensures Good(b) && merges == [] && Here(b) == Start(0) && b.regs == 0
    {
      b := Build(Graph(map[0 := OPEN], map[]), 0, 1, 0);
      merges := [];
    }

    // -------------------------------------------------------------- single instructions

    method SetInsertPoint(l: Label)
      modifies this`b
      ensures b == old(b).(cur := l)
    {
      b := b.(cur := l);
    }

    method Insert(ins: Instr)
      requires b.cur in b.g.blocks
      modifies this`b
      ensures b == WithInstr(old(b), ins)
    {
      var code := b.g.blocks[b.cur];
      b := b.(g := b.g.(blocks := b.g.blocks[b.cur := code.(instrs := code.instrs + [ins])]));
    }

    method Terminate(t: Term)
      requires b.cur in b.g.blocks
      modifies this`b
      ensures b == WithEnd(old(b), t)
    {
      b := b.(g := b.g.(blocks := b.g.blocks[b.cur := b.g.blocks[b.cur].(term := Some(t))]));
    }

    method CreateBlock() returns (l: Label)
      modifies this`b
      ensures l == old(b).labels && b == WithBlock(old(b))
    {
      l := b.labels;
      b := b.(g := b.g.(blocks := b.g.blocks[l := OPEN]), labels := l + 1);
    }

    method CreateReg() returns (r: Reg)
      modifies this`b
      ensures r == old(b).regs && b == old(b).(regs := r + 1)
    {
      r := b.regs;
      b := b.(regs := r + 1);
    }

    method AddIncoming(r: Reg, from: Label, v: Val)
      modifies this`b
      ensures b == WithIncoming(old(b), r, from, v)
    {
      var known := if r in b.g.phis then b.g.phis[r] else map[];
      b := b.(g := b.g.(phis := b.g.phis[r := known[from := v]]));
    }

    method CreatePhi() returns (r: Reg)
      requires b.cur in b.g.blocks
      modifies this`b
      ensures r == old(b).regs && b == WithPhi(old(b))
    {
      r := b.regs;
      Insert(Phi(r));
      b := b.(g := b.g.(phis := b.g.phis[r := map[]]), regs := r + 1);
    }

    /** A block that saves or restores the stack pointer and goes on to the loop's body. */
    method EmitStackBlock(l: Label, ins: Instr, next: Label)
      requires IsOpen(b.g, l)
      modifies this`b
      ensures b == WithStackBlock(old(b), l, ins, next)
    {
      SetInsertPoint(l);
      Insert(ins);
      Terminate(Br(next));
      assert [] + [ins] == [ins];
    }

    /** The same with the saved stack pointer coming in through a phi. */
    method EmitRestoreBlock(l: Label, next: Label) returns (r: Reg)
      requires IsOpen(b.g, l)
      modifies this`b
      ensures r == old(b).regs && b == WithRestoreBlock(old(b), l, next)
    {
      SetInsertPoint(l);
      r := CreatePhi();
      Insert(StackRestore(Var(r)));
      Terminate(Br(next));
      assert [] + [Phi(r)] + [StackRestore(Var(r))] == [Phi(r), StackRestore(Var(r))];
    }

    // -------------------------------------------------------------- conditions

    method EmitCond(c: Cond) returns (v: Val, ghost lay: CondLay)
      requires Good(b)
      modifies this`b
      ensures CondDone(old(b), b, c, lay) && lay.v == v
      decreases c, 1
    {
      match c
      case Const(k) =>
        v, lay := Bool(k), CLeaf(Here(b), Bool(k));
      case Test(t) =>
        var r := CreateReg();
        Insert(Probe(r, t));
        v, lay := Var(r), CLeaf(Here(b), Var(r));
      case Both(_, _) => v, lay := EmitPair(c);
      case Either(_, _) => v, lay := EmitPair(c);
    }

    /** Lazy `&&` and `||`: the right side in a block of its own, and a phi unless both sides are constants. */
    method EmitPair(c: Cond) returns (v: Val, ghost lay: CondLay)
      requires Good(b) && (c.Both? || c.Either?)
      modifies this`b
      ensures CondDone(old(b), b, c, lay) && lay.v == v
      decreases c, 0
    {
      ghost var b0 := b;
      var lv, ll := EmitCond(c.l);
      ghost var b1 := b;
      var enter := b.cur;
      var rhs := CreateBlock();
      BlockStep(b1);
      SetInsertPoint(rhs);
      var rv, rl := EmitCond(c.r);
      ghost var b3 := b;
      StillThere(b1, b3, enter);
      if lv.Bool? && rv.Bool? {
        v := Fold(c, lv, rv);
        lay := CPair(rl.to, v, ll, rl, rhs, 0);
        var last := b.cur;
        SetInsertPoint(enter);
        Terminate(Br(rhs));
        SetInsertPoint(last);
        PairFolds(b0, b1, b3, c, ll, rl);
      } else {
        v := EmitJoint(enter, rhs, c, lv, rv);
        lay := CPair(Point(b3.labels, 1), v, ll, rl, rhs, b3.labels);
        PairJoins(b0, b1, b3, c, ll, rl);
      }
    }

    /** The joint block of a lazy operator. */
    method EmitJoint(enter: Label, rhs: Label, c: Cond, lv: Val, rv: Val) returns (v: Val)
      requires Good(b) && enter in b.g.blocks && enter != b.cur
      modifies this`b
      ensures var cont := old(b).labels;
              var t := if c.Both? then CondBr(lv, rhs, cont) else CondBr(lv, cont, rhs);
              v == Var(old(b).regs) && b == JoinedPair(old(b), enter, t, Bool(c.Either?), rv)
    {
      var cont := CreateBlock();
      Terminate(Br(cont));
      var last := b.cur;
      SetInsertPoint(enter);
      Terminate(if c.Both? then CondBr(lv, rhs, cont) else CondBr(lv, cont, rhs));
      SetInsertPoint(cont);
      var r := CreatePhi();
      AddIncoming(r, enter, Bool(c.Either?));
      AddIncoming(r, last, rv);
      v := Var(r);
      JoinedPairSteps(old(b), enter, if c.Both? then CondBr(lv, rhs, cont) else CondBr(lv, cont, rhs), Bool(c.Either?),
                      rv);
    }

    // -------------------------------------------------------------- if

    method IfTestPart(s: Stmt) returns (merge: Label, v: Val, ghost lay: StmtLay)
      requires Good(b) && s.IfElse?
      modifies this`b
      ensures lay.SIf? && lay.to == Start(merge) && lay.c.v == v && lay.c.to.l == b.cur
      ensures IfBetween(old(b), b, s, lay, merges, false, false)
    {
      ghost var b0 := b;
      merge := CreateBlock();
      BlockStep(b0);
      ghost var cl;
      v, cl := EmitCond(s.c);
      lay := SIf(Start(merge), cl, 0, 0, REnd(Start(0), KEmpty(Start(0))), REnd(Start(0), KEmpty(Start(0))));
      IfTested(b0, b, s, lay, merges);
    }

    /** The blocks of the arms; with a constant condition only one of them is created. */
    method IfBlocksPart(s: Stmt, v: Val, ghost b0: Build, ghost half: StmtLay)
      returns (thn: Label, els: Label, ghost lay: StmtLay)
      requires s.IfElse? && half.SIf? && half.c.v == v && IfBetween(b0, b, s, half, merges, false, false)
      modifies this`b
      ensures lay == SIf(half.to, half.c, thn, els, half.t, half.e) && IfBetween(b0, b, s, lay, merges, false, false)
      ensures v != Bool(false) ==> Waits(b0, b, lay, thn)
      ensures v != Bool(true) ==> Waits(b0, b, lay, els) && (v != Bool(false) ==> thn != els)
    {
      thn, els := 0, 0;
      if v != Bool(false) {
        IfBlock(b0, b, s, half, merges);
        thn := CreateBlock();
      }
      if v != Bool(true) {
        IfBlock(b0, b, s, half, merges);
        els := CreateBlock();
      }
      lay := SIf(half.to, half.c, thn, els, half.t, half.e);
    }

    method IfThenPart(s: Stmt, v: Val, merge: Label, thn: Label, ghost b0: Build, ghost half: StmtLay)
      returns (ghost lay: StmtLay)
      requires s.IfElse? && half.SIf? && half.c.v == v && half.to == Start(merge) && half.thn == thn
               && BranchOk(s.thn, |merges| + 1)
      requires IfBetween(b0, b, s, half, merges, false, false) && (v != Bool(false) ==> Waits(b0, b, half, thn))
      requires v != Bool(true) ==> Waits(b0, b, half, half.els) && (v != Bool(false) ==> thn != half.els)
      modifies this
      ensures lay.SIf? && lay == SIf(half.to, half.c, half.thn, half.els, lay.t, half.e) && merges == old(merges)
      ensures IfBetween(b0, b, s, lay, merges, v != Bool(false), false)
              && (v != Bool(true) ==> Waits(b0, b, lay, lay.els))
      decreases s.thn, 2
    {
      lay := half;
      if v != Bool(false) {
        ghost var c := b;
        SetInsertPoint(thn);
        var t := EmitArm(s.thn, merge, merge);
        lay := SIf(half.to, half.c, half.thn, half.els, t, half.e);
        IfThenDone(b0, c, b, s, lay, merges);
      }
    }

    method IfElsePart(s: Stmt, v: Val, merge: Label, els: Label, ghost b0: Build, ghost half: StmtLay)
      returns (ghost lay: StmtLay)
      requires s.IfElse? && half.SIf? && half.c.v == v && half.to == Start(merge) && half.els == els
               && BranchOk(s.els, |merges| + 1)
      requires IfBetween(b0, b, s, half, merges, v != Bool(false), false)
               && (v != Bool(true) ==> Waits(b0, b, half, els))
      modifies this
      ensures lay.SIf? && lay == SIf(half.to, half.c, half.thn, half.els, half.t, lay.e) && merges == old(merges)
      ensures IfBetween(b0, b, s, lay, merges, v != Bool(false), v != Bool(true))
      decreases s.els, 2
    {
      lay := half;
      if v != Bool(true) {
        ghost var c := b;
        SetInsertPoint(els);
        var e := EmitArm(s.els, merge, merge);
        lay := SIf(half.to, half.c, half.thn, half.els, half.t, e);
        IfElseDone(b0, c, b, s, lay, merges, v != Bool(false));
      }
    }

    /** Ends the block `enter` that was left open, and goes on at `merge`. */
    method Close(enter: Label, t: Term, merge: Label)
      requires enter in b.g.blocks
      modifies this`b
      ensures b == Closed(old(b), enter, t, merge)
    {
      SetInsertPoint(enter);
      Terminate(t);
      SetInsertPoint(merge);
    }

    method EmitIf(s: Stmt) returns (ghost lay: StmtLay)
      requires Good(b) && s.IfElse? && BranchOk(s.thn, |merges| + 1) && BranchOk(s.els, |merges| + 1)
      modifies this
      ensures StmtDone(old(b), b, s, lay, merges) && merges == old(merges)
      decreases s, 0
    {
      ghost var b0 := b;
      var merge, v, tested := IfTestPart(s);
      var enter := b.cur;
      var thn, els, ready := IfBlocksPart(s, v, b0, tested);
      var half := IfThenPart(s, v, merge, thn, b0, ready);
      lay := IfElsePart(s, v, merge, els, b0, half);
      IfDone(b0, b, s, lay, merges);
      Close(enter, if v.Bool? then Br(if v.b then thn else els) else CondBr(v, thn, els), merge);
    }

    // -------------------------------------------------------------- while

    /** The blocks of a loop besides its body and its condition. */
    method CreateFour() returns (l1: Label, l2: Label, l3: Label, l4: Label)
      modifies this`b
      ensures b == FourBlocks(old(b)) && l1 == old(b).labels && l2 == l1 + 1 && l3 == l1 + 2 && l4 == l1 + 3
    {
      l1 := CreateBlock();
      l2 := CreateBlock();
      l3 := CreateBlock();
      l4 := CreateBlock();
    }

    /** The condition block with its two phis. */
    method EnterWhile() returns (thn: Label, cond: Label, must: Reg)
      requires Good(b)
      modifies this`b
      ensures b == WhileEntered(old(b)) && thn == old(b).labels && cond == thn + 1 && must == old(b).regs
    {
      ghost var b0 := b;
      var enter := b.cur;
      thn := CreateBlock();
      cond := CreateBlock();
      Terminate(Br(cond));
      SetInsertPoint(cond);
      must := CreatePhi();
      var saved := CreatePhi();
      AddIncoming(must, enter, Int(2));
      AddIncoming(saved, enter, Null);
      WhileEnteredSteps(b0);
    }

    /** Up to the condition. */
    method BeginWhile() returns (bs: LoopBlocks, must: Reg)
      requires Good(b)
      modifies this`b
      ensures b == WhileBegun(old(b)) && bs == LoopOf(old(b)) && must == old(b).regs
    {
      var thn, cond;
      thn, cond, must := EnterWhile();
      var els, merge, save, restore := CreateFour();
      bs := LoopBlocks(cond, els, save, restore, thn, merge);
    }

    /** The switch behind the condition, the stack blocks, and the head of the body. */
    method SwitchWhile(bs: LoopBlocks, must: Reg, v: Val, ghost b0: Build) returns (sw: Reg, saved1: Reg)
      requires Awaits(b0, b, bs)
      modifies this`b
      ensures sw == old(b).regs && saved1 == sw + 2 && b == WhileSwitched(old(b), bs, must, v)
    {
      ghost var b2 := b;
      sw := CreateReg();
      Insert(Or8(sw, Var(must), v));
      Terminate(Switch(Var(sw), bs.merge, bs.restore, bs.els, bs.save));
      var saved0 := CreateReg();
      EmitStackBlock(bs.save, StackSave(saved0), bs.thn);
      EmitStackBlock(bs.restore, StackRestore(Var(must + 1)), bs.thn);
      saved1 := b.regs;
      EmitMeeting(bs.thn, bs.save, saved0, bs.restore, must + 1);
      WhileSwitchedSteps(b0, b2, bs, must, v);
    }

    method WhileHeadPart(c: Cond) returns (bs: LoopBlocks, must: Reg, v: Val, ghost cl: CondLay)
      requires Good(b)
      modifies this`b
      ensures WhileTested(old(b), b, bs, must, c, cl) && cl.v == v
    {
      ghost var b0 := b;
      bs, must := BeginWhile();
      WhileBegunHas(b0);
      ghost var b1 := b;
      v, cl := EmitCond(c);
      WhileCondDone(b0, b1, b, bs, must, c, cl);
    }

    method WhileSwitchPart(bs: LoopBlocks, must: Reg, v: Val, ghost b0: Build, ghost c: Cond, ghost cl: CondLay)
      returns (saved1: Reg, ghost rs: LoopRegs)
      requires WhileTested(b0, b, bs, must, c, cl) && cl.v == v
      modifies this`b
      ensures WhileOpened(b0, b, bs, rs, c, cl) && rs.must == must && rs.saved1 == saved1
    {
      WhileSwitchDone(b0, b, bs, must, c, cl);
      var sw;
      sw, saved1 := SwitchWhile(bs, must, v, b0);
      rs := LoopRegs(must, must + 1, sw, sw + 1, saved1);
    }

    /** Up to the head of the body. */
    method WhileFrontPart(c: Cond)
      returns (bs: LoopBlocks, must: Reg, saved1: Reg, ghost rs: LoopRegs, ghost cl: CondLay)
      requires Good(b)
      modifies this`b
      ensures WhileOpened(old(b), b, bs, rs, c, cl) && rs.must == must && rs.saved1 == saved1
    {
      ghost var b0 := b;
      var v;
      bs, must, v, cl := WhileHeadPart(c);
      saved1, rs := WhileSwitchPart(bs, must, v, b0, c, cl);
    }

    /** The second incoming values of the phis at the head. */
    method CloseWhile(must: Reg, saved1: Reg, els: Label)
      modifies this`b
      ensures b == WhileClosed(old(b), must, saved1).(cur := els)
    {
      AddIncoming(must, b.cur, Int(0));
      AddIncoming(must + 1, b.cur, Var(saved1));
      SetInsertPoint(els);
    }

    method WhileBodyPart(body: Branch, bs: LoopBlocks, must: Reg, saved1: Reg, ghost b0: Build, ghost rs: LoopRegs,
                         ghost c: Cond, ghost cl: CondLay)
      returns (ghost bl: BranchLay)
      requires WhileOpened(b0, b, bs, rs, c, cl) && rs.must == must && rs.saved1 == saved1
               && BranchOk(body, |merges| + 1)
      modifies this
      ensures WhileLooped(b0, b, bs, rs, c, cl, body, bl, merges) && merges == old(merges)
      decreases body, 2
    {
      ghost var b3 := b;
      bl := EmitArm(body, bs.merge, bs.cond);
      WhileBodyDone(b0, b3, b, bs, rs, c, cl, body, bl, merges);
      CloseWhile(must, saved1, bs.els);
    }

    method WhileElsePart(s: Stmt, bs: LoopBlocks, ghost b0: Build, ghost rs: LoopRegs, ghost cl: CondLay,
                         ghost bl: BranchLay)
      returns (ghost lay: StmtLay)
      requires s.While? && WhileLooped(b0, b, bs, rs, s.c, cl, s.body, bl, merges) && BranchOk(s.els, |merges| + 1)
      modifies this
      ensures StmtDone(b0, b, s, lay, merges) && merges == old(merges)
      decreases s.els, 2
    {
      ghost var b5 := b;
      var e := EmitArm(s.els, bs.merge, bs.merge);
      lay := SWhile(Start(bs.merge), bs, rs, cl, bl, e);
      WhileElseDone(b0, b5, b, s, lay, merges);
      SetInsertPoint(bs.merge);
    }

    method EmitWhile(s: Stmt) returns (ghost lay: StmtLay)
      requires Good(b) && s.While? && BranchOk(s.body, |merges| + 1) && BranchOk(s.els, |merges| + 1)
      modifies this
      ensures StmtDone(old(b), b, s, lay, merges) && merges == old(merges)
      decreases s, 0
    {
      ghost var b0 := b;
      var bs, must, saved1, rs, cl := WhileFrontPart(s.c);
      var body := WhileBodyPart(s.body, bs, must, saved1, b0, rs, s.c, cl);
      lay := WhileElsePart(s, bs, b0, rs, cl, body);
    }

    // -------------------------------------------------------------- repeat

    method EnterRepeat() returns (bs: LoopBlocks)
      requires Good(b)
      modifies this`b
      ensures b == RepeatEntered(old(b)) && bs == RepeatOf(old(b))
    {
      ghost var b0 := b;
      var thn := CreateBlock();
      var cond, merge, save, restore := CreateFour();
      Terminate(Br(save));
      RepeatEnteredSteps(b0);
      bs := LoopBlocks(cond, 0, save, restore, thn, merge);
    }

    method StackRepeat() returns (bs: LoopBlocks, saved0: Reg, saved: Reg)
      requires Good(b)
      modifies this`b
      ensures b == RepeatStacked(old(b)) && bs == RepeatOf(old(b)) && saved0 == old(b).regs && saved == saved0 + 1
    {
      RepeatAwaits(b);
      bs := EnterRepeat();
      saved0 := CreateReg();
      saved := EmitStackBlocks(bs, saved0);
    }

    /** Up to the head of the body. */
    method BeginRepeat() returns (bs: LoopBlocks, saved0: Reg)
      requires Good(b)
      modifies this`b
      ensures b == RepeatBegun(old(b)) && bs == RepeatOf(old(b)) && saved0 == old(b).regs
    {
      ghost var b0 := b;
      RepeatAwaits(b);
      var saved;
      bs, saved0, saved := StackRepeat();
      EmitMeeting(bs.thn, bs.save, saved0, bs.restore, saved);
      RepeatBegunSteps(b0);
    }

    /** The blocks that save and restore the stack pointer. */
    method EmitStackBlocks(bs: LoopBlocks, saved0: Reg) returns (saved: Reg)
      requires IsOpen(b.g, bs.save) && IsOpen(b.g, bs.restore) && bs.save != bs.restore
      modifies this`b
      ensures b == WithRestoreBlock(WithStackBlock(old(b), bs.save, StackSave(saved0), bs.thn), bs.restore, bs.thn)
      ensures saved == old(b).regs
    {
      EmitStackBlock(bs.save, StackSave(saved0), bs.thn);
      saved := EmitRestoreBlock(bs.restore, bs.thn);
    }

    /** A phi of two registers at the start of block `l`. */
    method EmitMeeting(l: Label, from: Label, r: Reg, from': Label, r': Reg)
      requires l in b.g.blocks
      modifies this`b
      ensures var phi := old(b).regs;
              b == WithIncoming(WithIncoming(WithPhi(old(b).(cur := l)), phi, from, Var(r)), phi, from', Var(r'))
    {
      SetInsertPoint(l);
      var phi := CreatePhi();
      AddIncoming(phi, from, Var(r));
      AddIncoming(phi, from', Var(r'));
    }

    method RepeatBodyPart(body: Branch) returns (bs: LoopBlocks, saved0: Reg, ghost bl: BranchLay)
      requires Good(b) && BranchOk(body, |merges| + 1)
      modifies this
      ensures RepeatLooped(old(b), b, bs, saved0, body, bl, merges) && merges == old(merges)
      decreases body, 2
    {
      ghost var b0 := b;
      bs, saved0 := BeginRepeat();
      RepeatBegunHas(b0);
      ghost var b1 := b;
      bl := EmitArm(body, bs.merge, bs.cond);
      RepeatBodyDone(b0, b1, b, bs, saved0, body, bl, merges);
      SetInsertPoint(bs.cond);
    }

    method RepeatTestPart(s: Stmt, bs: LoopBlocks, saved0: Reg, ghost b0: Build, ghost bl: BranchLay)
      returns (ghost lay: StmtLay)
      requires s.Repeat? && RepeatLooped(b0, b, bs, saved0, s.body, bl, merges)
      modifies this`b
      ensures StmtDone(b0, b, s, lay, merges)
    {
      ghost var b3 := b;
      var v, cl := EmitCond(s.until);
      lay := SRepeat(Start(bs.merge), bs, LoopRegs(0, saved0 + 1, 0, saved0, saved0 + 2), bl, cl);
      RepeatTestDone(b0, b3, b, s, lay, merges);
      CloseRepeat(bs, saved0 + 1, v);
    }

    method EmitRepeat(s: Stmt) returns (ghost lay: StmtLay)
      requires Good(b) && s.Repeat? && BranchOk(s.body, |merges| + 1)
      modifies this
      ensures StmtDone(old(b), b, s, lay, merges) && merges == old(merges)
      decreases s, 0
    {
      ghost var b0 := b;
      var bs, saved0, body := RepeatBodyPart(s.body);
      lay := RepeatTestPart(s, bs, saved0, b0, body);
    }

    /** The exit test, and on to the merge block. */
    method CloseRepeat(bs: LoopBlocks, saved: Reg, v: Val)
      requires b.cur in b.g.blocks
      modifies this`b
      ensures b == RepeatClosed(old(b), bs, saved, v).(cur := bs.merge)
    {
      Terminate(CondBr(v, bs.merge, bs.restore));
      AddIncoming(saved, b.cur, Var(saved + 1));
      SetInsertPoint(bs.merge);
    }

    // -------------------------------------------------------------- for

    /** Up to the head of the body. */
    method BeginFor(init: nat, first: nat) returns (bs: LoopBlocks, r: Reg)
      requires Good(b)
      modifies this`b
      ensures b == ForBegun(old(b), init, first) && bs == ForOf(old(b)) && r == old(b).regs
    {
      ghost var b0 := b;
      var thn := CreateBlock();
      Insert(Act(init));
      var els, merge, save, restore := CreateFour();
      r := CreateReg();
      Insert(Probe(r, first));
      ForBegunSteps(b0, init, first);
      var saved0 := CreateReg();
      EmitStackBlock(save, StackSave(saved0), thn);
      EmitStackBlock(restore, StackRestore(Var(saved0)), thn);
      SetInsertPoint(thn);
      bs := LoopBlocks(0, els, save, restore, thn, merge);
    }

    /** Behind the body: the second test and the step. */
    method FinishFor(bs: LoopBlocks, more: nat, step: nat) returns (r: Reg, iter: Label)
      requires Good(b)
      modifies this`b
      ensures r == old(b).regs && iter == old(b).labels && b == ForTail(old(b), bs, more, step)
    {
      iter := CreateBlock();
      r := CreateReg();
      Insert(Probe(r, more));
      Terminate(CondBr(Var(r), iter, bs.merge));
      EmitStackBlock(iter, Act(step), bs.restore);
      SetInsertPoint(bs.els);
    }

    method EmitFor(s: Stmt) returns (ghost lay: StmtLay)
      requires Good(b) && s.For? && BranchOk(s.body, |merges| + 1) && BranchOk(s.els, |merges| + 1)
      modifies this
      ensures StmtDone(old(b), b, s, lay, merges) && merges == old(merges)
      decreases s, 0
    {
      ghost var b0 := b;
      var enter := b.cur;
      var bs, first := ForHeadPart(s.init, s.first);
      var half := ForBodyPart(s, bs, first, b0);
      ghost var b3 := b;
      var e := EmitArm(s.els, bs.merge, bs.merge);
      lay := SFor(half.to, bs, first, half.more, first + 1, half.iter, half.body, e);
      ForElseDone(b0, b3, b, s, lay, merges);
      Close(enter, CondBr(Var(first), bs.save, bs.els), bs.merge);
    }

    /** The initialisation and the first test, up to the head of the body. */
    method ForHeadPart(init: nat, first: nat) returns (bs: LoopBlocks, r: Reg)
      requires Good(b)
      modifies this`b
      ensures ForHead(old(b), b, bs, init, first, r)
    {
      ghost var b0 := b;
      bs, r := BeginFor(init, first);
      ForBegunHas(b0, init, first);
    }

    /** The body, with the second test and the step; the layout's `else` part is still to come. */
    method ForBodyPart(s: Stmt, bs: LoopBlocks, first: Reg, ghost b0: Build) returns (ghost lay: StmtLay)
      requires s.For? && ForHead(b0, b, bs, s.init, s.first, first) && BranchOk(s.body, |merges| + 1)
      modifies this
      ensures lay.SFor? && lay.to == Start(bs.merge) && lay.bs == bs && lay.first == first && lay.saved0 == first + 1
      ensures ForLooped(b0, b, s, lay, merges) && merges == old(merges)
      decreases s.body, 2
    {
      ghost var b1 := b;
      merges := merges + [bs.merge];
      var body := EmitBranch(s.body);
      merges := merges[..|merges| - 1];
      ghost var b2 := b;
      var more, iter := FinishFor(bs, s.more, s.step);
      lay := SFor(Start(bs.merge), bs, first, more, first + 1, iter, body, REnd(Start(0), KEmpty(Start(0))));
      ForBodyDone(b0, b1, b2, s, lay, merges);
    }

    // -------------------------------------------------------------- statements, blocks, branches

    method EmitStmt(s: Stmt) returns (ghost lay: StmtLay)
      requires Good(b) && StmtOk(s, |merges|)
      modifies this
      ensures StmtDone(old(b), b, s, lay, merges) && merges == old(merges)
      decreases s, 1
    {
      match s
      case Do(a) =>
        ghost var b0 := b;
        Insert(Act(a));
        InstrStep(b0, Act(a));
        lay := SDo(Here(b));
      case IfElse(_, _, _) => lay := EmitIf(s);
      case While(_, _, _) => lay := EmitWhile(s);
      case Repeat(_, _) => lay := EmitRepeat(s);
      case For(_, _, _, _, _, _) => lay := EmitFor(s);
    }

    method EmitBlock(k: Block) returns (ghost lay: BlockLay)
      requires Good(b) && BlockOk(k, |merges|)
      modifies this
      ensures BlockDone(old(b), b, k, lay, merges) && merges == old(merges)
      decreases k, 0
    {
      match k
      case Empty =>
        lay := KEmpty(Here(b));
      case Chain(s, rest) =>
        ghost var b0 := b;
        var first := EmitStmt(s);
        ghost var b1 := b;
        var others := EmitBlock(rest);
        lay := KChain(others.to, first, others);
        BlockJoined(b0, b1, b, k, first, others, merges);
    }

    /** The parts of a branch; a `brk` looks up its target on the stack of merge points. */
    method EmitBranch(br: Branch) returns (ghost lay: BranchLay)
      requires Good(b) && BranchOk(br, |merges|)
      modifies this
      ensures BranchDone(old(b), b, br, lay, merges) && merges == old(merges)
      decreases br, 0
    {
      ghost var b0 := b;
      var body := EmitBlock(br.body);
      match br
      case End(_) =>
        lay := REnd(body.to, body);
      case Brk(_, c, depth, rest) =>
        ghost var b1 := b;
        var brk, cl := EmitBrkTest(c, merges[|merges| - depth]);
        ghost var b2 := b;
        var others := EmitBranch(rest);
        lay := RBrk(others.to, body, cl, brk, brk + 1, others);
        BrkJoined(b0, b1, b2, b, br, body, cl, others, brk, merges);
    }

    method EmitBrkTest(c: Cond, target: Label) returns (brk: Label, ghost cl: CondLay)
      requires Good(b)
      modifies this`b
      ensures BrkTested(old(b), b, c, cl, target, brk)
    {
      ghost var b1 := b;
      var v;
      v, cl := EmitCond(c);
      BrkCond(b1, b, c, cl, target);
      brk := EmitBrk(v, target);
    }

    method EmitBrk(v: Val, target: Label) returns (brk: Label)
      requires Good(b)
      modifies this`b
      ensures brk == old(b).labels && b == Broken(old(b), v, target)
    {
      brk := CreateBlock();
      var cont := CreateBlock();
      Terminate(CondBr(v, brk, cont));
      SetInsertPoint(brk);
      Terminate(Br(target));
      SetInsertPoint(cont);
    }

    /** A branch of a construct with merge block `merge`, with the jump behind it. */
    method EmitArm(br: Branch, merge: Label, next: Label) returns (ghost lay: BranchLay)
      requires Good(b) && BranchOk(br, |merges| + 1)
      modifies this
      ensures ArmDone(old(b), b, br, lay, merges, merge, next) && merges == old(merges)
      decreases br, 1
    {
      ghost var b0 := b;
      merges := merges + [merge];
      lay := EmitBranch(br);
      merges := merges[..|merges| - 1];
      ArmJoined(b0, b, br, lay, merges, merge, next);
      Terminate(Br(next));
    }
  }

  lemma StillThere(b1: Build, b3: Build, enter: Label)
    requires Good(b1) && enter == b1.cur
    requires var b2 := WithBlock(b1).(cur := b1.labels); Good(b2) && Within(b2, b2, b3)
    ensures enter in b3.g.blocks && enter != b3.cur
  {
    BlockStep(b1);
  }
}
