/** Laws of the structured statements: what constant conditions choose, and what holds when a loop has ended. */
module CfgLaws {
  import opened CfgSource
  import opened CfgMachine
  import opened CfgCorrect

  /** `s` is the result of a construct whose branch ended with `r`: a `brk` has one level less to leave. */
  predicate OneLevelOut(r: Result, s: Result) {
    match r
    case Timeout => s == Timeout
    case Done(Normal, st) => s == Done(Normal, st)
    case Done(Break(d), st) => if d > 1 then s == Done(Break(d - 1), st) else s == Done(Normal, st)
  }

  // ---------------------------------------------------------------- constant conditions

  /** Of `if` with a constant condition the selected branch runs, and nothing else. */
  lemma IfConst(sem: Sem, fuel: nat, t: Branch, e: Branch, st: State)
    ensures OneLevelOut(ExecBranch(sem, fuel, t, st), ExecStmt(sem, fuel, IfElse(Const(true), t, e), st))
    ensures OneLevelOut(ExecBranch(sem, fuel, e, st), ExecStmt(sem, fuel, IfElse(Const(false), t, e), st))
  {
  }

  /** The right side of a lazy operator runs exactly if the left one has not decided. */
  lemma LazyOperators(sem: Sem, r: Cond, st: State)
    ensures Eval(sem, Both(Const(false), r), st) == (false, st) && Eval(sem, Either(Const(true), r), st) == (true, st)
    ensures Eval(sem, Both(Const(true), r), st) == Eval(sem, r, st) == Eval(sem, Either(Const(false), r), st)
  {
  }

  lemma LazyTests(sem: Sem, p: nat, q: nat, st: State)
    ensures var (b, st1) := sem.test(p, st); var (b', st2) := sem.test(q, st1);
            && Eval(sem, Both(Test(p), Test(q)), st) == (if b then (b', st2) else (false, st1))
            && Eval(sem, Either(Test(p), Test(q)), st) == (if b then (true, st1) else (b', st2))
  {
  }

  /** `while false` is its `else` part; `repeat ... until true` is its body, once. */
  lemma LoopsNever(sem: Sem, fuel: nat, body: Branch, els: Branch, st: State)
    ensures OneLevelOut(ExecBranch(sem, fuel, els, st), ExecStmt(sem, fuel, While(Const(false), body, els), st))
    ensures fuel > 0 ==>
              OneLevelOut(ExecBranch(sem, fuel - 1, body, st), ExecStmt(sem, fuel, Repeat(body, Const(true)), st))
  {
    assert st.(sp := st.sp) == st;
  }

  /** The body ends normally wherever it ends. */
  ghost predicate Unbroken(sem: Sem, body: Branch) {
    forall fuel: nat, st :: var r := ExecBranch(sem, fuel, body, st); r.Done? ==> r.o.Normal?
  }

  lemma {:induction false} LoopsForEver(sem: Sem, fuel: nat, body: Branch, saved: int, st: State)
    requires Unbroken(sem, body)
    ensures WhileLoop(sem, fuel, Const(true), body, saved, st) == Timeout
    ensures RepeatLoop(sem, fuel, body, Const(false), saved, st) == Timeout
    decreases fuel
  {
    if fuel > 0 {
      var r := ExecBranch(sem, fuel - 1, body, st.(sp := saved));
      if r.Done? {
        LoopsForEver(sem, fuel - 1, body, saved, r.st);
      }
    }
  }

  /** `while true` and `repeat ... until false` do not end without a `brk`. */
  lemma LoopsEver(sem: Sem, fuel: nat, body: Branch, els: Branch, st: State)
    requires Unbroken(sem, body)
    ensures ExecStmt(sem, fuel, While(Const(true), body, els), st) == Timeout
    ensures ExecStmt(sem, fuel, Repeat(body, Const(false)), st) == Timeout
  {
    LoopsForEver(sem, fuel, body, st.sp, st);
  }

  // ---------------------------------------------------------------- behind a loop

  /** A state in which the condition has just given `b`. */
  ghost predicate JustTested(sem: Sem, c: Cond, b: bool, st: State) {
    exists st0 :: Eval(sem, c, st0) == (b, st)
  }

  lemma {:induction false} LoopExit(sem: Sem, fuel: nat, c: Cond, body: Branch, saved: int, st: State)
    requires Unbroken(sem, body)
    ensures var r := WhileLoop(sem, fuel, c, body, saved, st);
            r.Done? ==> r.o.Normal? && JustTested(sem, c, false, r.st)
    ensures var r := RepeatLoop(sem, fuel, body, c, saved, st);
            r.Done? ==> r.o.Normal? && JustTested(sem, c, true, r.st)
    decreases fuel
  {
    if fuel > 0 {
      var r := ExecBranch(sem, fuel - 1, body, st.(sp := saved));
      if r.Done? {
        var (b, st1) := Eval(sem, c, r.st);
        LoopExit(sem, fuel - 1, c, body, saved, st1);
        assert JustTested(sem, c, b, st1);
      }
    }
  }

  /**
    * Behind a `while` whose first test held the condition has just failed, and behind a `repeat` it has just held,
    * unless a `brk` was taken.
    */
  lemma LoopEndsTested(sem: Sem, fuel: nat, c: Cond, body: Branch, els: Branch, st: State)
    requires Unbroken(sem, body)
    ensures var r := ExecStmt(sem, fuel, While(c, body, els), st);
            Eval(sem, c, st).0 && r.Done? ==> r.o.Normal? && JustTested(sem, c, false, r.st)
    ensures var r := ExecStmt(sem, fuel, Repeat(body, c), st);
            r.Done? ==> r.o.Normal? && JustTested(sem, c, true, r.st)
  {
    var (b, st1) := Eval(sem, c, st);
    LoopExit(sem, fuel, c, body, st1.sp, st1);
    LoopExit(sem, fuel, c, body, st.sp, st);
  }

  // ---------------------------------------------------------------- the emitted blocks

  /** The machine ends `if` with a constant condition as its selected branch ends. */
  lemma CompiledIfConst(g: Graph, sem: Sem, fuel: nat, b: bool, t: Branch, e: Branch, cfg: Config)
    returns (n: nat)
    requires Lowered(g, Chain(IfElse(Const(b), t, e), Empty)) && AtEntry(cfg)
    requires var r := ExecBranch(sem, fuel, if b then t else e, cfg.st); r.Done? && r.o.Normal?
    ensures StopsWith(g, sem, cfg, n, ExecBranch(sem, fuel, if b then t else e, cfg.st).st)
  {
    IfConst(sem, fuel, t, e, cfg.st);
    n := Terminates(g, sem, Chain(IfElse(Const(b), t, e), Empty), cfg, fuel);
  }
}
