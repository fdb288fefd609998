/** What the machine does at every entry of a loop body: the stack pointer is the one saved before the first. */
module CfgEntries {
  import opened Options
  import opened CfgSource
  import opened CfgMachine
  import opened CfgLayout
  import opened CfgSimulation

  datatype Loop = WhileLoop(c: Cond) | UntilLoop(c: Cond) | ForLoop(more: nat, step: nat)

  /** From the end of a body: whether the loop goes on, and in which state. */
  function Turn(sem: Sem, l: Loop, st: State): (bool, State) {
    match l
    case WhileLoop(c) => Eval(sem, c, st)
    case UntilLoop(c) => var (b, st1) := Eval(sem, c, st); (!b, st1)
    case ForLoop(more, step) => var (b, st1) := sem.test(more, st); (b, if b then sem.act(step, st1) else st1)
  }

  /** The state after the end of the body and the turn, if the loop goes on. */
  function Next(sem: Sem, fuel: nat, l: Loop, body: Branch, st: State): Option<State> {
    var r := ExecBranch(sem, fuel, body, st);
    if r.Done? && r.o.Normal? && Turn(sem, l, r.st).0 then Some(Turn(sem, l, r.st).1) else None
  }

  /** The state of the source program at the start of iteration `k`, counted from 0, if the loop gets that far. */
  function AtIteration(sem: Sem, fuel: nat, l: Loop, body: Branch, st: State, k: nat): Option<State>
    decreases k
  {
    if k == 0 then Some(st)
    else
      match Next(sem, fuel, l, body, st)
      case None => None
      case Some(st1) => AtIteration(sem, fuel, l, body, st1.(sp := st.sp), k - 1)
  }

  /** The machine, started in `c`, enters the body at `at` after `n` steps, in the state `st`. */
  ghost predicate Enters(g: Graph, sem: Sem, c: Config, n: nat, at: Point, st: State) {
    exists c1 :: Run(g, sem, c, n) == Go(c1) && c1.at == at && c1.st == st
  }

  lemma EntersAfter(g: Graph, sem: Sem, c: Config, m: nat, c1: Config, n: nat, at: Point, st: State)
    requires Run(g, sem, c, m) == Go(c1) && Enters(g, sem, c1, n, at, st)
    ensures Enters(g, sem, c, m + n, at, st)
  {
    RunAdd(g, sem, c, m, c1, n);
  }

  lemma {:induction false} SameStack(sem: Sem, fuel: nat, l: Loop, body: Branch, st: State, k: nat)
    requires AtIteration(sem, fuel, l, body, st, k).Some?
    ensures AtIteration(sem, fuel, l, body, st, k).value.sp == st.sp
    decreases k
  {
    if k > 0 {
      SameStack(sem, fuel, l, body, Next(sem, fuel, l, body, st).value.(sp := st.sp), k - 1);
    }
  }

  /** From one entry of the body to the next. */
  lemma WhileTurn(g: Graph, sem: Sem, fuel: nat, s: Stmt, lay: StmtLay, from: Point, merges: seq<Label>, lo: Reg,
                 cfg: Config)
    returns (n: nat, cfg': Config)
    requires s.While? && WhileLaid(g, s, lay, from, merges, lo) && WhileReady(lay.bs, lay.rs, cfg.st.sp, cfg)
    requires Next(sem, fuel, WhileLoop(s.c), s.body, cfg.st).Some?
    ensures Run(g, sem, cfg, n) == Go(cfg') && WhileReady(lay.bs, lay.rs, cfg'.st.sp, cfg')
    ensures cfg'.st == Next(sem, fuel, WhileLoop(s.c), s.body, cfg.st).value.(sp := cfg.st.sp)
  {
    var bs, rs, sp := lay.bs, lay.rs, cfg.st.sp;
    var m, cfg1 := WhileBody(g, sem, fuel, s.body, bs, rs, from, lay.c, lay.body, merges, lo, sp, cfg);
    var m2;
    m2, cfg' := WhileAgain(g, sem, s.c, bs, rs, from, lay.c, lay.body.to, lo, sp, cfg1);
    RunAdd(g, sem, cfg, m, cfg1, m2);
    n := m + m2;
  }

  lemma {:induction false} WhileLater(g: Graph, sem: Sem, fuel: nat, s: Stmt, lay: StmtLay, from: Point,
                                      merges: seq<Label>, lo: Reg, cfg: Config, k: nat)
    returns (n: nat)
    requires s.While? && WhileLaid(g, s, lay, from, merges, lo) && WhileReady(lay.bs, lay.rs, cfg.st.sp, cfg)
    requires AtIteration(sem, fuel, WhileLoop(s.c), s.body, cfg.st, k).Some?
    ensures Enters(g, sem, cfg, n, Point(lay.bs.thn, 1),
              AtIteration(sem, fuel, WhileLoop(s.c), s.body, cfg.st, k).value)
    decreases k
  {
    if k == 0 {
      var cfg1 := WhileEnter(g, sem, lay.bs, lay.rs, from, lay.c, lay.body.to, lo, cfg.st.sp, cfg);
      n := 1;
    } else {
      var m, cfg1 := WhileTurn(g, sem, fuel, s, lay, from, merges, lo, cfg);
      n := WhileLater(g, sem, fuel, s, lay, from, merges, lo, cfg1, k - 1);
      EntersAfter(g, sem, cfg, m, cfg1, n, Point(lay.bs.thn, 1),
                  AtIteration(sem, fuel, WhileLoop(s.c), s.body, cfg.st, k).value);
      n := m + n;
    }
  }

  /**
    * `while`: the machine enters the body for every iteration of the source program, in the state of that iteration
    * and with the stack pointer that was current after the first test.
    */
  lemma WhileEntries(g: Graph, sem: Sem, fuel: nat, s: Stmt, lay: StmtLay, from: Point, merges: seq<Label>, lo: Reg,
                     cfg: Config, k: nat)
    returns (n: nat)
    requires s.While? && WhileLaid(g, s, lay, from, merges, lo) && cfg.at == from && Eval(sem, s.c, cfg.st).0
    requires AtIteration(sem, fuel, WhileLoop(s.c), s.body, Eval(sem, s.c, cfg.st).1, k).Some?
    ensures var st := AtIteration(sem, fuel, WhileLoop(s.c), s.body, Eval(sem, s.c, cfg.st).1, k).value;
            st.sp == Eval(sem, s.c, cfg.st).1.sp && Enters(g, sem, cfg, n, Point(lay.bs.thn, 1), st)
  {
    var m, cfg1 := WhileFirst(g, sem, s, lay, from, merges, lo, cfg);
    SameStack(sem, fuel, WhileLoop(s.c), s.body, cfg1.st, k);
    n := WhileLater(g, sem, fuel, s, lay, from, merges, lo, cfg1, k);
    EntersAfter(g, sem, cfg, m, cfg1, n, Point(lay.bs.thn, 1),
                AtIteration(sem, fuel, WhileLoop(s.c), s.body, cfg1.st, k).value);
    n := m + n;
  }

  /** From one entry of the body to the next. */
  lemma RepeatTurn(g: Graph, sem: Sem, fuel: nat, s: Stmt, lay: StmtLay, from: Point, merges: seq<Label>, lo: Reg,
                 cfg: Config)
    returns (n: nat, cfg': Config)
    requires s.Repeat? && RepeatLaid(g, s, lay, from, merges, lo) && WhileReady(lay.bs, lay.rs, cfg.st.sp, cfg)
    requires Next(sem, fuel, UntilLoop(s.until), s.body, cfg.st).Some?
    ensures Run(g, sem, cfg, n) == Go(cfg') && WhileReady(lay.bs, lay.rs, cfg'.st.sp, cfg')
    ensures cfg'.st == Next(sem, fuel, UntilLoop(s.until), s.body, cfg.st).value.(sp := cfg.st.sp)
  {
    var bs, rs, sp := lay.bs, lay.rs, cfg.st.sp;
    var m, cfg1 := RepeatBody(g, sem, fuel, s.body, bs, rs, from, lay.c, lay.body, merges, lo, sp, cfg);
    var m2;
    m2, cfg' := RepeatAgain(g, sem, s.until, bs, rs, from, lay.c, lo, sp, cfg1);
    RunAdd(g, sem, cfg, m, cfg1, m2);
    n := m + m2;
  }

  lemma {:induction false} RepeatLater(g: Graph, sem: Sem, fuel: nat, s: Stmt, lay: StmtLay, from: Point,
                                      merges: seq<Label>, lo: Reg, cfg: Config, k: nat)
    returns (n: nat)
    requires s.Repeat? && RepeatLaid(g, s, lay, from, merges, lo) && WhileReady(lay.bs, lay.rs, cfg.st.sp, cfg)
    requires AtIteration(sem, fuel, UntilLoop(s.until), s.body, cfg.st, k).Some?
    ensures Enters(g, sem, cfg, n, Point(lay.bs.thn, 1),
              AtIteration(sem, fuel, UntilLoop(s.until), s.body, cfg.st, k).value)
    decreases k
  {
    if k == 0 {
      var cfg1 := RepeatEnter(g, sem, lay.bs, lay.rs, from, lay.c, lo, cfg.st.sp, cfg);
      n := 1;
    } else {
      var m, cfg1 := RepeatTurn(g, sem, fuel, s, lay, from, merges, lo, cfg);
      n := RepeatLater(g, sem, fuel, s, lay, from, merges, lo, cfg1, k - 1);
      EntersAfter(g, sem, cfg, m, cfg1, n, Point(lay.bs.thn, 1),
                  AtIteration(sem, fuel, UntilLoop(s.until), s.body, cfg.st, k).value);
      n := m + n;
    }
  }

  /** The same for `repeat`, with the stack pointer that was current before the loop. */
  lemma RepeatEntries(g: Graph, sem: Sem, fuel: nat, s: Stmt, lay: StmtLay, from: Point, merges: seq<Label>, lo: Reg,
                      cfg: Config, k: nat)
    returns (n: nat)
    requires s.Repeat? && RepeatLaid(g, s, lay, from, merges, lo) && cfg.at == from
    requires AtIteration(sem, fuel, UntilLoop(s.until), s.body, cfg.st, k).Some?
    ensures var st := AtIteration(sem, fuel, UntilLoop(s.until), s.body, cfg.st, k).value;
            st.sp == cfg.st.sp && Enters(g, sem, cfg, n, Point(lay.bs.thn, 1), st)
  {
    var cfg1 := RepeatSave(g, sem, lay.bs, lay.rs, from, lay.c, lo, cfg);
    SameStack(sem, fuel, UntilLoop(s.until), s.body, cfg.st, k);
    n := RepeatLater(g, sem, fuel, s, lay, from, merges, lo, cfg1, k);
    EntersAfter(g, sem, cfg, 3, cfg1, n, Point(lay.bs.thn, 1),
                AtIteration(sem, fuel, UntilLoop(s.until), s.body, cfg.st, k).value);
    n := 3 + n;
  }

  /** From one entry of the body to the next. */
  lemma ForTurn(g: Graph, sem: Sem, fuel: nat, s: Stmt, lay: StmtLay, from: Point, merges: seq<Label>, lo: Reg,
                 cfg: Config)
    returns (n: nat, cfg': Config)
    requires s.For? && ForLaid(g, s, lay, from, merges, lo) && ForReady(lay, cfg.st.sp, cfg)
    requires Next(sem, fuel, ForLoop(s.more, s.step), s.body, cfg.st).Some?
    ensures Run(g, sem, cfg, n) == Go(cfg') && ForReady(lay, cfg'.st.sp, cfg')
    ensures cfg'.st == Next(sem, fuel, ForLoop(s.more, s.step), s.body, cfg.st).value.(sp := cfg.st.sp)
  {
    var sp := cfg.st.sp;
    var m, cfg1 := ForBody(g, sem, fuel, s, lay, from, merges, lo, sp, cfg);
    var m2;
    m2, cfg' := ForAgain(g, sem, s, lay, from, lo, sp, cfg1);
    RunAdd(g, sem, cfg, m, cfg1, m2);
    n := m + m2;
  }

  lemma {:induction false} ForLater(g: Graph, sem: Sem, fuel: nat, s: Stmt, lay: StmtLay, from: Point,
                                      merges: seq<Label>, lo: Reg, cfg: Config, k: nat)
    returns (n: nat)
    requires s.For? && ForLaid(g, s, lay, from, merges, lo) && ForReady(lay, cfg.st.sp, cfg)
    requires AtIteration(sem, fuel, ForLoop(s.more, s.step), s.body, cfg.st, k).Some?
    ensures Enters(g, sem, cfg, n, Start(lay.bs.thn),
              AtIteration(sem, fuel, ForLoop(s.more, s.step), s.body, cfg.st, k).value)
    decreases k
  {
    if k == 0 {
      var cfg1 := ForEnter(g, sem, s, lay, from, lo, cfg.st.sp, cfg);
      n := 1;
    } else {
      var m, cfg1 := ForTurn(g, sem, fuel, s, lay, from, merges, lo, cfg);
      n := ForLater(g, sem, fuel, s, lay, from, merges, lo, cfg1, k - 1);
      EntersAfter(g, sem, cfg, m, cfg1, n, Start(lay.bs.thn),
                  AtIteration(sem, fuel, ForLoop(s.more, s.step), s.body, cfg.st, k).value);
      n := m + n;
    }
  }

  /** The same for `for`, with the stack pointer that was current after the first test. */
  lemma ForEntries(g: Graph, sem: Sem, fuel: nat, s: Stmt, lay: StmtLay, from: Point, merges: seq<Label>, lo: Reg,
                   cfg: Config, k: nat)
    returns (n: nat)
    requires s.For? && ForLaid(g, s, lay, from, merges, lo) && cfg.at == from
    requires var (b, st1) := sem.test(s.first, sem.act(s.init, cfg.st));
             b && AtIteration(sem, fuel, ForLoop(s.more, s.step), s.body, st1, k).Some?
    ensures var (b, st1) := sem.test(s.first, sem.act(s.init, cfg.st));
            var st := AtIteration(sem, fuel, ForLoop(s.more, s.step), s.body, st1, k).value;
            st.sp == st1.sp && Enters(g, sem, cfg, n, Start(lay.bs.thn), st)
  {
    var m, cfg1 := ForFirst(g, sem, s, lay, from, merges, lo, cfg);
    SameStack(sem, fuel, ForLoop(s.more, s.step), s.body, cfg1.st, k);
    n := ForLater(g, sem, fuel, s, lay, from, merges, lo, cfg1, k);
    EntersAfter(g, sem, cfg, m, cfg1, n, Start(lay.bs.thn),
                AtIteration(sem, fuel, ForLoop(s.more, s.step), s.body, cfg1.st, k).value);
    n := m + n;
  }
}
