/**
  * What a multi-level `brk` leaves (src/codegen.cc, BranchExprAST): stated on nested constructs with something to do
  * behind each of them, for the meaning of programs and for the blocks that they are lowered to.
  */
module CfgBreaks {
  import opened Options
  import opened CfgSource
  import opened CfgMachine
  import opened CfgSimulation
  import opened CfgCorrect

  /** A construct without one of its branches; of a loop body, which iteration is meant, counted from 0. */
  datatype Frame =
    | Then(c: Cond, els: Branch)
    | Else(c: Cond, thn: Branch)
    | WhileBody(c: Cond, els: Branch, iteration: nat)
    | WhileElse(c: Cond, body: Branch)
    | RepeatBody(until: Cond, iteration: nat)
    | ForBody(init: nat, first: nat, more: nat, step: nat, els: Branch, iteration: nat)
    | ForElse(init: nat, first: nat, more: nat, step: nat, body: Branch)

  /** Constructs inside each other; `tail` comes behind the construct, in the branch around it. */
  datatype Nest = Innermost(frame: Frame, core: Branch, tail: Block) | Around(frame: Frame, inner: Nest, tail: Block)

  function Fill(f: Frame, br: Branch): Stmt {
    match f
    case Then(c, e) => IfElse(c, br, e)
    case Else(c, t) => IfElse(c, t, br)
    case WhileBody(c, e, _) => While(c, br, e)
    case WhileElse(c, b) => While(c, b, br)
    case RepeatBody(c, _) => Repeat(br, c)
    case ForBody(init, first, more, step, e, _) => For(init, first, more, step, br, e)
    case ForElse(init, first, more, step, b) => For(init, first, more, step, b, br)
  }

  function BranchOf(n: Nest): Branch
    decreases n, 0
  {
    match n
    case Innermost(_, core, _) => core
    case Around(_, inner, _) => End(BlockOf(inner))
  }

  function BlockOf(n: Nest): Block
    decreases n, 1
  {
    Chain(Fill(n.frame, BranchOf(n)), n.tail)
  }

  function Depth(n: Nest): nat {
    match n
    case Innermost(_, _, _) => 1
    case Around(_, inner, _) => 1 + Depth(inner)
  }

  function Core(n: Nest): Branch {
    match n
    case Innermost(_, core, _) => core
    case Around(_, inner, _) => Core(inner)
  }

  // ---------------------------------------------------------------- where the nested branches start

  /** Behind a body: whether the loop goes on, and in which state. */
  function Again(sem: Sem, f: Frame, st: State): (bool, State) {
    match f
    case WhileBody(c, _, _) => Eval(sem, c, st)
    case RepeatBody(c, _) => var (b, st1) := Eval(sem, c, st); (!b, st1)
    case ForBody(_, _, more, step, _, _) =>
      var (b, st1) := sem.test(more, st); (b, if b then sem.act(step, st1) else st1)
    case _ => (false, st)
  }

  /** The state in which iteration `k` of a body starts, if the loop gets that far, and the fuel it has. */
  function Iteration(sem: Sem, fuel: nat, f: Frame, br: Branch, saved: int, st: State, k: nat): Option<(nat, State)>
    decreases k
  {
    if fuel == 0 then None
    else if k == 0 then Some((fuel - 1, st.(sp := saved)))
    else
      var r := ExecBranch(sem, fuel - 1, br, st.(sp := saved));
      if !r.Done? || !r.o.Normal? then None
      else
        var (b, st1) := Again(sem, f, r.st);
        if b then Iteration(sem, fuel - 1, f, br, saved, st1, k - 1) else None
  }

  /** The state and the fuel with which the branch `br` starts inside its construct, if it does. */
  function Enter(sem: Sem, fuel: nat, f: Frame, br: Branch, st: State): Option<(nat, State)> {
    match f
    case Then(c, _) => var (b, st1) := Eval(sem, c, st); if b then Some((fuel, st1)) else None
    case Else(c, _) => var (b, st1) := Eval(sem, c, st); if b then None else Some((fuel, st1))
    case WhileBody(c, _, k) =>
      var (b, st1) := Eval(sem, c, st); if b then Iteration(sem, fuel, f, br, st1.sp, st1, k) else None
    case WhileElse(c, _) => var (b, st1) := Eval(sem, c, st); if b then None else Some((fuel, st1))
    case RepeatBody(_, k) => Iteration(sem, fuel, f, br, st.sp, st, k)
    case ForBody(init, first, _, _, _, k) =>
      var (b, st1) := sem.test(first, sem.act(init, st));
      if b then Iteration(sem, fuel, f, br, st1.sp, st1, k) else None
    case ForElse(init, first, _, _, _) =>
      var (b, st1) := sem.test(first, sem.act(init, st)); if b then None else Some((fuel, st1))
  }

  /** The state and the fuel with which the innermost branch starts, if control gets there. */
  function Reach(sem: Sem, fuel: nat, n: Nest, st: State): Option<(nat, State)>
    decreases n
  {
    match Enter(sem, fuel, n.frame, BranchOf(n), st)
    case None => None
    case Some((fuel1, st1)) => if n.Innermost? then Some((fuel1, st1)) else Reach(sem, fuel1, n.inner, st1)
  }

  /** A branch runs up to a `brk` of depth `d` whose condition holds, and is in state `at` then. */
  predicate Takes(sem: Sem, fuel: nat, br: Branch, st: State, d: nat, at: State) {
    var r := ExecBlock(sem, fuel, br.body, st);
    br.Brk? && r.Done? && r.o.Normal? &&
    var (b, st1) := Eval(sem, br.c, r.st);
    if b then br.depth == d && st1 == at else Takes(sem, fuel, br.rest, st1, d, at)
  }

  /** Control reaches the innermost branch, which takes a `brk` of depth `d`. */
  predicate Breaks(sem: Sem, fuel: nat, n: Nest, st: State, d: nat, at: State) {
    match Reach(sem, fuel, n, st)
    case None => false
    case Some((fuel1, st1)) => Takes(sem, fuel1, Core(n), st1, d, at)
  }

  // ---------------------------------------------------------------- leaving

  lemma {:induction false} TakesBreak(sem: Sem, fuel: nat, br: Branch, st: State, d: nat, at: State)
    requires Takes(sem, fuel, br, st, d, at)
    ensures ExecBranch(sem, fuel, br, st) == Done(Break(d), at)
    decreases br
  {
    var (b, st1) := Eval(sem, br.c, ExecBlock(sem, fuel, br.body, st).st);
    if !b {
      TakesBreak(sem, fuel, br.rest, st1, d, at);
    }
  }

  predicate IsLoop(f: Frame) {
    f.WhileBody? || f.RepeatBody? || f.ForBody?
  }

  function Loop(sem: Sem, fuel: nat, f: Frame, br: Branch, saved: int, st: State): Result
    requires IsLoop(f)
  {
    match f
    case WhileBody(c, _, _) => WhileLoop(sem, fuel, c, br, saved, st)
    case RepeatBody(c, _) => RepeatLoop(sem, fuel, br, c, saved, st)
    case ForBody(_, _, more, step, _, _) => ForLoop(sem, fuel, more, step, br, saved, st)
  }

  /** A loop ends with the iteration that breaks, or behind which it does not go on. */
  lemma {:induction false} LoopEnds(sem: Sem, fuel: nat, f: Frame, br: Branch, saved: int, st: State, k: nat)
    requires IsLoop(f) && Iteration(sem, fuel, f, br, saved, st, k).Some?
    ensures var (fuel1, st1) := Iteration(sem, fuel, f, br, saved, st, k).value;
            var r := ExecBranch(sem, fuel1, br, st1);
            && (r.Done? && r.o.Break? ==> Loop(sem, fuel, f, br, saved, st) == r)
            && (r.Done? && r.o.Normal? && !Again(sem, f, r.st).0 ==>
                  Loop(sem, fuel, f, br, saved, st) == Done(Normal, Again(sem, f, r.st).1))
    decreases k
  {
    if k > 0 {
      var st1 := Again(sem, f, ExecBranch(sem, fuel - 1, br, st.(sp := saved)).st).1;
      LoopEnds(sem, fuel - 1, f, br, saved, st1, k - 1);
    }
  }

  /** The construct around a branch that breaks: one level less to leave. */
  lemma FrameBreaks(sem: Sem, fuel: nat, f: Frame, br: Branch, st: State, d: nat, at: State)
    requires d >= 1 && Enter(sem, fuel, f, br, st).Some?
    requires var (fuel1, st1) := Enter(sem, fuel, f, br, st).value;
             ExecBranch(sem, fuel1, br, st1) == Done(Break(d), at)
    ensures ExecStmt(sem, fuel, Fill(f, br), st) == Done(if d == 1 then Normal else Break(d - 1), at)
  {
    match f
    case WhileBody(c, _, k) =>
      var st1 := Eval(sem, c, st).1;
      LoopEnds(sem, fuel, f, br, st1.sp, st1, k);
    case RepeatBody(_, k) =>
      LoopEnds(sem, fuel, f, br, st.sp, st, k);
    case ForBody(init, first, _, _, _, k) =>
      var st1 := sem.test(first, sem.act(init, st)).1;
      LoopEnds(sem, fuel, f, br, st1.sp, st1, k);
    case _ =>
  }

  /** The construct around a branch that ends normally, the last time if it is a body. */
  lemma FrameEnds(sem: Sem, fuel: nat, f: Frame, br: Branch, st: State, t: State)
    requires Enter(sem, fuel, f, br, st).Some? && !Again(sem, f, t).0
    requires var (fuel1, st1) := Enter(sem, fuel, f, br, st).value;
             ExecBranch(sem, fuel1, br, st1) == Done(Normal, t)
    ensures ExecStmt(sem, fuel, Fill(f, br), st) == Done(Normal, Again(sem, f, t).1)
  {
    match f
    case WhileBody(c, _, k) =>
      var st1 := Eval(sem, c, st).1;
      LoopEnds(sem, fuel, f, br, st1.sp, st1, k);
    case RepeatBody(_, k) =>
      LoopEnds(sem, fuel, f, br, st.sp, st, k);
    case ForBody(init, first, _, _, _, k) =>
      var st1 := sem.test(first, sem.act(init, st)).1;
      LoopEnds(sem, fuel, f, br, st1.sp, st1, k);
    case _ =>
  }

  /** As long as there are levels to leave, nothing behind the inner constructs runs. */
  lemma {:induction false} NestBreaks(sem: Sem, fuel: nat, n: Nest, st: State, d: nat, at: State)
    requires Breaks(sem, fuel, n, st, d, at) && d >= Depth(n)
    ensures ExecStmt(sem, fuel, Fill(n.frame, BranchOf(n)), st)
         == Done(if d == Depth(n) then Normal else Break(d - Depth(n)), at)
    decreases n
  {
    var (fuel1, st1) := Enter(sem, fuel, n.frame, BranchOf(n), st).value;
    match n
    case Innermost(_, core, _) =>
      TakesBreak(sem, fuel1, core, st1, d, at);
      FrameBreaks(sem, fuel, n.frame, core, st, d, at);
    case Around(_, inner, _) =>
      NestBreaks(sem, fuel1, inner, st1, d, at);
      assert ExecBlock(sem, fuel1, BlockOf(inner), st1) == Done(Break(d - Depth(inner)), at);
      FrameBreaks(sem, fuel, n.frame, BranchOf(n), st, d - Depth(inner), at);
  }

  /**
    * A `brk` that counts all the constructs around it: what comes behind the outermost goes on in the state at the
    * `brk`, and nothing behind an inner one runs.
    */
  lemma BreakLeavesAll(sem: Sem, fuel: nat, n: Nest, st: State, at: State)
    requires Breaks(sem, fuel, n, st, Depth(n), at)
    ensures ExecStmt(sem, fuel, Fill(n.frame, BranchOf(n)), st) == Done(Normal, at)
    ensures ExecBlock(sem, fuel, BlockOf(n), st) == ExecBlock(sem, fuel, n.tail, at)
  {
    NestBreaks(sem, fuel, n, st, Depth(n), at);
  }

  /**
    * The state in which the outermost construct is left if a `brk` of depth `d` is taken in `at`: the tails outside
    * level `d` run one after the other, and loops out there must not go on.
    */
  function Left(sem: Sem, fuel: nat, n: Nest, st: State, d: nat, at: State): Option<State>
    decreases n
  {
    if d >= Depth(n) then Some(at)
    else
      match n
      case Innermost(_, _, _) => None
      case Around(frame, inner, _) =>
        match Enter(sem, fuel, frame, BranchOf(n), st)
        case None => None
        case Some((fuel1, st1)) =>
          match Left(sem, fuel1, inner, st1, d, at)
          case None => None
          case Some(st2) =>
            var r := ExecBlock(sem, fuel1, inner.tail, st2);
            if !r.Done? || !r.o.Normal? || Again(sem, frame, r.st).0 then None else Some(Again(sem, frame, r.st).1)
  }

  /** A `brk` of any depth within the nest: exactly the tails outside its level run. */
  lemma {:induction false} BreakLeaves(sem: Sem, fuel: nat, n: Nest, st: State, d: nat, at: State)
    requires Breaks(sem, fuel, n, st, d, at) && 1 <= d <= Depth(n) && Left(sem, fuel, n, st, d, at).Some?
    ensures ExecStmt(sem, fuel, Fill(n.frame, BranchOf(n)), st) == Done(Normal, Left(sem, fuel, n, st, d, at).value)
    ensures ExecBlock(sem, fuel, BlockOf(n), st)
         == ExecBlock(sem, fuel, n.tail, Left(sem, fuel, n, st, d, at).value)
    decreases n
  {
    if d == Depth(n) {
      BreakLeavesAll(sem, fuel, n, st, at);
    } else {
      var (fuel1, st1) := Enter(sem, fuel, n.frame, BranchOf(n), st).value;
      BreakLeaves(sem, fuel1, n.inner, st1, d, at);
      var st2 := Left(sem, fuel1, n.inner, st1, d, at).value;
      FrameEnds(sem, fuel, n.frame, BranchOf(n), st, ExecBlock(sem, fuel1, n.inner.tail, st2).st);
    }
  }

  /** The tail right behind the construct that a `brk` leaves decides how the branch around it ends, breaks included. */
  lemma BreakGoesOn(sem: Sem, fuel: nat, n: Nest, st: State, at: State)
    requires n.Around? && Enter(sem, fuel, n.frame, BranchOf(n), st).Some?
    requires var (fuel1, st1) := Enter(sem, fuel, n.frame, BranchOf(n), st).value;
             Breaks(sem, fuel1, n.inner, st1, Depth(n.inner), at)
    ensures var (fuel1, st1) := Enter(sem, fuel, n.frame, BranchOf(n), st).value;
            ExecBranch(sem, fuel1, BranchOf(n), st1) == ExecBlock(sem, fuel1, n.inner.tail, at)
  {
    var (fuel1, st1) := Enter(sem, fuel, n.frame, BranchOf(n), st).value;
    BreakLeavesAll(sem, fuel1, n.inner, st1, at);
  }

  // ---------------------------------------------------------------- the emitted blocks

  /** Two stops of one run are the same. */
  lemma StopsOnce(g: Graph, sem: Sem, cfg: Config, n: nat, st: State, m: nat, st': State)
    requires StopsWith(g, sem, cfg, n, st) && StopsWith(g, sem, cfg, m, st')
    ensures st == st'
  {
    var c :| Run(g, sem, cfg, n) == Go(c) && Open(g, c.at) && c.st == st;
    var c' :| Run(g, sem, cfg, m) == Go(c') && Open(g, c'.at) && c'.st == st';
    RunStopped(g, sem, cfg, n, c, m);
    RunStopped(g, sem, cfg, m, c', n);
  }

  /** The blocks of a program that is such a nest: the machine stops, and only in the state behind the last tail. */
  lemma CompiledBreak(g: Graph, sem: Sem, fuel: nat, n: Nest, cfg: Config, d: nat, at: State, end: State)
    requires Lowered(g, BlockOf(n)) && AtEntry(cfg)
    requires Breaks(sem, fuel, n, cfg.st, d, at) && 1 <= d <= Depth(n) && Left(sem, fuel, n, cfg.st, d, at).Some?
    requires ExecBlock(sem, fuel, n.tail, Left(sem, fuel, n, cfg.st, d, at).value) == Done(Normal, end)
    ensures exists k: nat :: StopsWith(g, sem, cfg, k, end)
    ensures forall k: nat, st :: StopsWith(g, sem, cfg, k, st) ==> st == end
  {
    BreakLeaves(sem, fuel, n, cfg.st, d, at);
    var k := Terminates(g, sem, BlockOf(n), cfg, fuel);
    forall m: nat, st | StopsWith(g, sem, cfg, m, st) ensures st == end {
      StopsOnce(g, sem, cfg, k, end, m, st);
    }
  }
}
