/**
  * The structured statements that BranchExprAST and ForExprAST (src/codegen.cc) lower to basic blocks, with their
  * meaning. Actions and tests are arbitrary functions on the machine state, which includes the stack pointer.
  */
module CfgSource {

  datatype State = State(store: map<nat, int>, sp: int)

  /** What the primitive actions and tests do; a test may have effects. */
  datatype Sem = Sem(act: (nat, State) -> State, test: (nat, State) -> (bool, State))

  /** Conditions: constants, primitive tests, lazy `&&` and `||`. */
  datatype Cond = Const(b: bool) | Test(t: nat) | Both(l: Cond, r: Cond) | Either(l: Cond, r: Cond)

  datatype Stmt =
    | Do(a: nat)
    | IfElse(c: Cond, thn: Branch, els: Branch)
    | While(c: Cond, body: Branch, els: Branch)
    | Repeat(body: Branch, until: Cond)
    | For(init: nat, first: nat, more: nat, step: nat, body: Branch, els: Branch)

  datatype Block = Empty | Chain(s: Stmt, rest: Block)

  /** A branch is a row of parts; every part but the last ends in `brk ... brk cond`, with `depth` times `brk`. */
  datatype Branch = End(body: Block) | Brk(body: Block, c: Cond, depth: nat, rest: Branch)

  datatype Outcome = Normal | Break(depth: nat)

  datatype Result = Timeout | Done(o: Outcome, st: State)

  // ---------------------------------------------------------------- breaks stay within the nesting

  predicate StmtOk(s: Stmt, nesting: nat) {
    match s
    case Do(_) => true
    case IfElse(_, t, e) => BranchOk(t, nesting + 1) && BranchOk(e, nesting + 1)
    case While(_, b, e) => BranchOk(b, nesting + 1) && BranchOk(e, nesting + 1)
    case Repeat(b, _) => BranchOk(b, nesting + 1)
    case For(_, _, _, _, b, e) => BranchOk(b, nesting + 1) && BranchOk(e, nesting + 1)
  }

  predicate BlockOk(b: Block, nesting: nat) {
    b.Chain? ==> StmtOk(b.s, nesting) && BlockOk(b.rest, nesting)
  }

  predicate BranchOk(br: Branch, nesting: nat) {
    BlockOk(br.body, nesting) && (br.Brk? ==> 1 <= br.depth <= nesting && BranchOk(br.rest, nesting))
  }

  // ---------------------------------------------------------------- meaning

  function Eval(sem: Sem, c: Cond, st: State): (bool, State) {
    match c
    case Const(b) => (b, st)
    case Test(t) => sem.test(t, st)
    case Both(l, r) => var (b, st1) := Eval(sem, l, st); if b then Eval(sem, r, st1) else (false, st1)
    case Either(l, r) => var (b, st1) := Eval(sem, l, st); if b then (true, st1) else Eval(sem, r, st1)
  }

  /** A `brk` counts the construct it leaves. */
  function Leave(r: Result): Result {
    if r.Done? && r.o.Break? then Done(if r.o.depth <= 1 then Normal else Break(r.o.depth - 1), r.st) else r
  }

  /** `fuel` bounds the number of nested loop iterations; with too little of it the result is Timeout. */
  function ExecBlock(sem: Sem, fuel: nat, b: Block, st: State): Result
    decreases fuel, b, 0
  {
    if b.Empty? then Done(Normal, st)
    else
      var r := ExecStmt(sem, fuel, b.s, st);
      if r.Done? && r.o.Normal? then ExecBlock(sem, fuel, b.rest, r.st) else r
  }

  function ExecBranch(sem: Sem, fuel: nat, br: Branch, st: State): Result
    decreases fuel, br, 0
  {
    var r := ExecBlock(sem, fuel, br.body, st);
    if br.Brk? && r.Done? && r.o.Normal? then
      var (b, st1) := Eval(sem, br.c, r.st);
      if b then Done(Break(br.depth), st1) else ExecBranch(sem, fuel, br.rest, st1)
    else r
  }

  function ExecStmt(sem: Sem, fuel: nat, s: Stmt, st: State): Result
    decreases fuel, s, 0
  {
    match s
    case Do(a) => Done(Normal, sem.act(a, st))
    case IfElse(c, t, e) =>
      var (b, st1) := Eval(sem, c, st);
      Leave(ExecBranch(sem, fuel, if b then t else e, st1))
    case While(c, body, e) =>
      var (b, st1) := Eval(sem, c, st);
      if b then Leave(WhileLoop(sem, fuel, c, body, st1.sp, st1)) else Leave(ExecBranch(sem, fuel, e, st1))
    case Repeat(body, c) => Leave(RepeatLoop(sem, fuel, body, c, st.sp, st))
    case For(init, first, more, step, body, e) =>
      var (b, st1) := sem.test(first, sem.act(init, st));
      if b then Leave(ForLoop(sem, fuel, more, step, body, st1.sp, st1)) else Leave(ExecBranch(sem, fuel, e, st1))
  }

  /** Every iteration starts with the stack pointer that was current before the first one. */
  function WhileLoop(sem: Sem, fuel: nat, c: Cond, body: Branch, saved: int, st: State): Result
    decreases fuel, body, 1
  {
    if fuel == 0 then Timeout
    else
      var r := ExecBranch(sem, fuel - 1, body, st.(sp := saved));
      if r.Done? && r.o.Normal? then
        var (b, st1) := Eval(sem, c, r.st);
        if b then WhileLoop(sem, fuel - 1, c, body, saved, st1) else Done(Normal, st1)
      else r
  }

  function RepeatLoop(sem: Sem, fuel: nat, body: Branch, c: Cond, saved: int, st: State): Result
    decreases fuel, body, 1
  {
    if fuel == 0 then Timeout
    else
      var r := ExecBranch(sem, fuel - 1, body, st.(sp := saved));
      if r.Done? && r.o.Normal? then
        var (b, st1) := Eval(sem, c, r.st);
        if b then Done(Normal, st1) else RepeatLoop(sem, fuel - 1, body, c, saved, st1)
      else r
  }

  function ForLoop(sem: Sem, fuel: nat, more: nat, step: nat, body: Branch, saved: int, st: State): Result
    decreases fuel, body, 1
  {
    if fuel == 0 then Timeout
    else
      var r := ExecBranch(sem, fuel - 1, body, st.(sp := saved));
      if r.Done? && r.o.Normal? then
        var (b, st1) := sem.test(more, r.st);
        if b then ForLoop(sem, fuel - 1, more, step, body, saved, sem.act(step, st1)) else Done(Normal, st1)
      else r
  }
}
