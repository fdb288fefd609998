/**
  * The integer `for` loop (src/codegen.cc, ForExprAST): its test, which compares before it counts, and its step, as
  * actions of the lowered loop; and that the loop runs over exactly the numbers of the range.
  */
module IntegerRanges {
  import opened Options
  import opened Bits
  import opened Words
  import IntegerOps
  import opened CfgSource
  import CfgMachine
  import CfgCorrect
  import CfgEntries

  /** A range of patterns of one width; `cell` is where the control variable lives. */
  datatype Range = Range(width: nat, isSigned: bool, descending: bool, min: nat, max: nat, cell: nat)

  predicate Proper(r: Range) {
    Fits(r.width, r.min) && Fits(r.width, r.max)
  }

  function Initial(r: Range): nat {
    if r.descending then r.max else r.min
  }

  function Limit(r: Range): nat {
    if r.descending then r.min else r.max
  }

  /** The test before the first iteration allows equality; the one at the end of an iteration does not. */
  predicate Condition(r: Range, atEnd: bool, ctrl: nat)
    requires Proper(r)
  {
    var op := if r.descending then (if atEnd then IntegerOps.Gt else IntegerOps.Ge) else if atEnd then IntegerOps.Lt
        else IntegerOps.Le;
    IntegerOps.ICmp(r.width, op, r.isSigned, ctrl, Limit(r))
  }

  function Iterate(r: Range, ctrl: nat): nat {
    if r.descending then Sub(r.width, ctrl, 1) else Add(r.width, ctrl, 1)
  }

  function Put(r: Range, st: State, b: nat): State {
    st.(store := st.store[r.cell := b])
  }

  predicate Has(r: Range, st: State, b: nat) {
    Fits(r.width, b) && r.cell in st.store && st.store[r.cell] == b
  }

  /** The actions and tests of the loop are those of the range. */
  ghost predicate Implements(sem: Sem, s: Stmt, r: Range) {
    && s.For? && Proper(r)
    && (forall st :: sem.act(s.init, st) == Put(r, st, Initial(r)))
    && (forall st, b: nat | Has(r, st, b) :: sem.test(s.first, st) == (Condition(r, false, b), st))
    && (forall st, b: nat | Has(r, st, b) :: sem.test(s.more, st) == (Condition(r, true, b), st))
    && (forall st, b: nat | Has(r, st, b) :: sem.act(s.step, st) == Put(r, st, Iterate(r, b)))
  }

  /** The control variable holds some pattern of its type. */
  predicate IsSet(r: Range, st: State) {
    r.cell in st.store && st.store[r.cell] >= 0 && Fits(r.width, st.store[r.cell])
  }

  function Value(r: Range, st: State): int
    requires IsSet(r, st)
  {
    Number(r.width, r.isSigned, st.store[r.cell])
  }

  /** What the body assigns to the control variable, if anything, is of its type. */
  ghost predicate Typed(sem: Sem, body: Branch, r: Range) {
    forall fuel: nat, st | IsSet(r, st) :: var res := ExecBranch(sem, fuel, body, st); res.Done? ==> IsSet(r, res.st)
  }

  /** The body does not assign to the control variable. */
  ghost predicate Keeps(sem: Sem, body: Branch, r: Range) {
    forall fuel: nat, st, b: nat | Has(r, st, b) ::
      var res := ExecBranch(sem, fuel, body, st); res.Done? ==> Has(r, res.st, b)
  }

  // ---------------------------------------------------------------- what the loop means

  function Upto(lo: int, hi: int): seq<int>
    decreases hi - lo
  {
    if lo > hi then [] else [lo] + Upto(lo + 1, hi)
  }

  function Downto(hi: int, lo: int): seq<int>
    decreases hi - lo
  {
    if lo > hi then [] else [hi] + Downto(hi - 1, lo)
  }

  function Low(r: Range): int
    requires Proper(r)
  {
    Number(r.width, r.isSigned, r.min)
  }

  function High(r: Range): int
    requires Proper(r)
  {
    Number(r.width, r.isSigned, r.max)
  }

  /** The numbers of the range from `x` on, in the order of the loop. */
  function From(r: Range, x: int): seq<int>
    requires Proper(r)
  {
    if r.descending then Downto(x, Low(r)) else Upto(x, High(r))
  }

  function Numbers(r: Range): seq<int>
    requires Proper(r)
  {
    From(r, if r.descending then High(r) else Low(r))
  }

  /** Runs the body once for every number of a list, with the stack pointer that was current before the loop. */
  function ForEach(sem: Sem, fuel: nat, r: Range, body: Branch, saved: int, xs: seq<int>, st: State): Result
    decreases |xs|
  {
    if xs == [] then Done(Normal, st)
    else if fuel == 0 then Timeout
    else
      var res := ExecBranch(sem, fuel - 1, body, Put(r, st, Wrap(r.width, xs[0])).(sp := saved));
      if res.Done? && res.o.Normal? then ForEach(sem, fuel - 1, r, body, saved, xs[1..], res.st) else res
  }

  /** Whether the loop goes on behind the number `x`, and with which one. */
  predicate GoesOn(r: Range, x: int)
    requires Proper(r)
  {
    if r.descending then x > Low(r) else x < High(r)
  }

  function Following(r: Range, x: int): int {
    if r.descending then x - 1 else x + 1
  }

  /**
    * Runs the body from the number `x` on, for bodies that may assign to the control variable: counting goes on from
    * there.
    */
  function Count(sem: Sem, fuel: nat, r: Range, body: Branch, saved: int, x: int, st: State): Result
    requires Proper(r)
    decreases fuel
  {
    if fuel == 0 then Timeout
    else
      var res := ExecBranch(sem, fuel - 1, body, Put(r, st, Wrap(r.width, x)).(sp := saved));
      if res.Done? && res.o.Normal? then
        if IsSet(r, res.st) && GoesOn(r, Value(r, res.st)) then
          Count(sem, fuel - 1, r, body, saved, Following(r, Value(r, res.st)), res.st)
        else Done(Normal, res.st)
      else res
  }

  lemma {:induction false} UptoAt(lo: int, hi: int)
    ensures |Upto(lo, hi)| == if lo > hi then 0 else hi - lo + 1
    ensures forall i :: 0 <= i < |Upto(lo, hi)| ==> Upto(lo, hi)[i] == lo + i
    decreases hi - lo
  {
    if lo <= hi {
      UptoAt(lo + 1, hi);
    }
  }

  lemma {:induction false} DowntoAt(hi: int, lo: int)
    ensures |Downto(hi, lo)| == if lo > hi then 0 else hi - lo + 1
    ensures forall i :: 0 <= i < |Downto(hi, lo)| ==> Downto(hi, lo)[i] == hi - i
    decreases hi - lo
  {
    if lo <= hi {
      DowntoAt(hi - 1, lo);
    }
  }

  /** The list holds every number between the bounds once, in order, and each of them has a pattern of its own. */
  lemma NumbersAt(r: Range)
    requires Proper(r)
    ensures |Numbers(r)| == if Low(r) > High(r) then 0 else High(r) - Low(r) + 1
    ensures forall i :: 0 <= i < |Numbers(r)| ==> Numbers(r)[i] == if r.descending then High(r) - i else Low(r) + i
    ensures forall x <- Numbers(r) :: Number(r.width, r.isSigned, Wrap(r.width, x)) == x
    ensures Numbers(r) != [] ==> Numbers(r)[0] == Number(r.width, r.isSigned, Initial(r))
                                 && Numbers(r)[|Numbers(r)| - 1] == Number(r.width, r.isSigned, Limit(r))
  {
    UptoAt(Low(r), High(r));
    DowntoAt(High(r), Low(r));
    NumberInRange(r.width, r.isSigned, r.min);
    NumberInRange(r.width, r.isSigned, r.max);
    forall x | x in Numbers(r) ensures Number(r.width, r.isSigned, Wrap(r.width, x)) == x {
      NumberOfWrap(r.width, r.isSigned, x);
    }
  }

  // ---------------------------------------------------------------- what the code does

  /** The test and the step are those of the numbers: as long as the test holds, counting does not wrap. */
  lemma CountsOn(r: Range, b: nat)
    requires Proper(r) && Fits(r.width, b)
    ensures var x := Number(r.width, r.isSigned, b);
            && (Condition(r, false, b) <==> if r.descending then x >= Low(r) else x <= High(r))
            && (Condition(r, true, b) <==> GoesOn(r, x))
            && Iterate(r, b) == Wrap(r.width, Following(r, x))
            && (GoesOn(r, x) ==> Number(r.width, r.isSigned, Iterate(r, b)) == Following(r, x))
  {
    var x := Number(r.width, r.isSigned, b);
    NumberInRange(r.width, r.isSigned, r.min);
    NumberInRange(r.width, r.isSigned, r.max);
    NumberInRange(r.width, r.isSigned, b);
    CountWraps(r.width, r.isSigned, b);
    if GoesOn(r, x) {
      NumberOfWrap(r.width, r.isSigned, Following(r, x));
    }
  }

  lemma CountWraps(w: nat, isSigned: bool, b: nat)
    requires Fits(w, b)
    ensures Add(w, b, 1) == Wrap(w, Number(w, isSigned, b) + 1)
    ensures Sub(w, b, 1) == Wrap(w, Number(w, isSigned, b) - 1)
  {
    if isSigned && Negative(w, b) {
      WrapShift(w, Number(w, isSigned, b) + 1, 1);
      WrapShift(w, Number(w, isSigned, b) - 1, 1);
    }
  }

  /** The loop from the number `x` on. */
  lemma {:induction false} LoopCounts(sem: Sem, fuel: nat, s: Stmt, r: Range, saved: int, x: int, st: State)
    requires Implements(sem, s, r) && Typed(sem, s.body, r)
    ensures ForLoop(sem, fuel, s.more, s.step, s.body, saved, Put(r, st, Wrap(r.width, x)))
         == Count(sem, fuel, r, s.body, saved, x, st)
    decreases fuel
  {
    if fuel > 0 {
      var st0 := Put(r, st, Wrap(r.width, x)).(sp := saved);
      assert IsSet(r, st0);
      var res := ExecBranch(sem, fuel - 1, s.body, st0);
      if res.Done? && res.o.Normal? {
        var b: nat := res.st.store[r.cell];
        assert Has(r, res.st, b);
        CountsOn(r, b);
        if GoesOn(r, Value(r, res.st)) {
          LoopCounts(sem, fuel - 1, s, r, saved, Following(r, Value(r, res.st)), res.st);
        }
      }
    }
  }

  /** What a range loop means: counting from one bound to the other, or the `else` part. */
  function RangeResult(sem: Sem, fuel: nat, s: Stmt, r: Range, st: State): Result
    requires s.For? && Proper(r)
  {
    if Low(r) <= High(r) then Count(sem, fuel, r, s.body, st.sp, if r.descending then High(r) else Low(r), st)
    else ExecBranch(sem, fuel, s.els, Put(r, st, Initial(r)))
  }

  /**
    * For every width and either signedness: the `for` loop counts from one bound to the other without ever wrapping,
    * also where a bound is the last number of the type; it runs its `else` part exactly when the lower bound is
    * greater.
    */
  lemma RangeLoop(sem: Sem, fuel: nat, s: Stmt, r: Range, st: State)
    requires Implements(sem, s, r) && Typed(sem, s.body, r)
    ensures ExecStmt(sem, fuel, s, st) == Leave(RangeResult(sem, fuel, s, r, st))
  {
    assert Has(r, Put(r, st, Initial(r)), Initial(r));
    WrapOfNumber(r.width, r.isSigned, Initial(r));
    CountsOn(r, Initial(r));
    if Low(r) <= High(r) {
      LoopCounts(sem, fuel, s, r, st.sp, if r.descending then High(r) else Low(r), st);
    }
  }

  lemma KeepsTyped(sem: Sem, body: Branch, r: Range)
    requires Keeps(sem, body, r)
    ensures Typed(sem, body, r)
  {
    forall fuel: nat, st | IsSet(r, st)
      ensures var res := ExecBranch(sem, fuel, body, st); res.Done? ==> IsSet(r, res.st)
    {
      var b: nat := st.store[r.cell];
      assert Has(r, st, b);
      var res := ExecBranch(sem, fuel, body, st);
      assert res.Done? ==> Has(r, res.st, b);
    }
  }

  /** Without assignments to the control variable, counting runs over the rest of the range. */
  lemma {:induction false} CountRunsOver(sem: Sem, fuel: nat, r: Range, body: Branch, saved: int, x: int, st: State)
    requires Proper(r) && Keeps(sem, body, r) && Low(r) <= x <= High(r)
    ensures Count(sem, fuel, r, body, saved, x, st) == ForEach(sem, fuel, r, body, saved, From(r, x), st)
    decreases fuel
  {
    assert From(r, x)[0] == x && From(r, x)[1..] == From(r, Following(r, x));
    if fuel > 0 {
      var b := Wrap(r.width, x);
      var st0 := Put(r, st, b).(sp := saved);
      NumberInRange(r.width, r.isSigned, r.min);
      NumberInRange(r.width, r.isSigned, r.max);
      NumberOfWrap(r.width, r.isSigned, x);
      assert Has(r, st0, b);
      var res := ExecBranch(sem, fuel - 1, body, st0);
      if res.Done? && res.o.Normal? {
        assert Has(r, res.st, b) && Value(r, res.st) == x;
        if GoesOn(r, x) {
          CountRunsOver(sem, fuel - 1, r, body, saved, Following(r, x), res.st);
        } else {
          assert From(r, Following(r, x)) == [];
        }
      }
    }
  }

  /**
    * The body then runs for exactly the numbers from the lower to the upper bound, downwards if the loop is descending.
    */
  lemma RangeVisits(sem: Sem, fuel: nat, s: Stmt, r: Range, st: State)
    requires Implements(sem, s, r) && Keeps(sem, s.body, r) && Low(r) <= High(r)
    ensures ExecStmt(sem, fuel, s, st) == Leave(ForEach(sem, fuel, r, s.body, st.sp, Numbers(r), st))
  {
    KeepsTyped(sem, s.body, r);
    RangeLoop(sem, fuel, s, r, st);
    CountRunsOver(sem, fuel, r, s.body, st.sp, if r.descending then High(r) else Low(r), st);
  }

  // ---------------------------------------------------------------- the other variables

  /** The two stores have the same value, or none, in `x`. */
  predicate SameAt(x: nat, st: State, st': State) {
    (x in st.store <==> x in st'.store) && (x in st.store ==> st'.store[x] == st.store[x])
  }

  /** From `st` to `st'` only the cell `x` has been stored to. */
  ghost predicate OnlyAt(x: nat, st: State, st': State) {
    forall y: nat | y != x :: SameAt(y, st, st')
  }

  ghost predicate LeavesAlone(sem: Sem, br: Branch, x: nat) {
    forall fuel: nat, st :: var res := ExecBranch(sem, fuel, br, st); res.Done? ==> SameAt(x, st, res.st)
  }

  lemma {:induction false} LoopLeavesAlone(sem: Sem, fuel: nat, s: Stmt, r: Range, saved: int, st: State, x: nat)
    requires Implements(sem, s, r) && Typed(sem, s.body, r) && IsSet(r, st)
    requires x != r.cell && LeavesAlone(sem, s.body, x)
    ensures var res := ForLoop(sem, fuel, s.more, s.step, s.body, saved, st); res.Done? ==> SameAt(x, st, res.st)
    decreases fuel
  {
    if fuel > 0 {
      var st0 := st.(sp := saved);
      assert IsSet(r, st0);
      var res := ExecBranch(sem, fuel - 1, s.body, st0);
      if res.Done? && res.o.Normal? {
        var b: nat := res.st.store[r.cell];
        assert Has(r, res.st, b);
        CountsOn(r, b);
        if sem.test(s.more, res.st).0 {
          LoopLeavesAlone(sem, fuel - 1, s, r, saved, sem.act(s.step, res.st), x);
        }
      }
    }
  }

  /** A variable that neither the body nor the `else` part assigns to has its value behind the loop, however it ends. */
  lemma RangeLeavesAlone(sem: Sem, fuel: nat, s: Stmt, r: Range, st: State, x: nat)
    requires Implements(sem, s, r) && Typed(sem, s.body, r)
    requires x != r.cell && LeavesAlone(sem, s.body, x) && LeavesAlone(sem, s.els, x)
    ensures var res := ExecStmt(sem, fuel, s, st); res.Done? ==> SameAt(x, st, res.st)
  {
    var st1 := sem.act(s.init, st);
    assert Has(r, st1, Initial(r));
    LoopLeavesAlone(sem, fuel, s, r, st.sp, st1, x);
  }

  /** The same for the emitted blocks, wherever they stop. */
  lemma CompiledLeavesAlone(g: CfgMachine.Graph, sem: Sem, s: Stmt, r: Range, cfg: CfgMachine.Config, x: nat, n: nat,
                            st: State)
    requires Implements(sem, s, r) && Typed(sem, s.body, r)
    requires x != r.cell && LeavesAlone(sem, s.body, x) && LeavesAlone(sem, s.els, x)
    requires CfgCorrect.Lowered(g, Chain(s, Empty)) && CfgCorrect.AtEntry(cfg)
    requires CfgCorrect.StopsWith(g, sem, cfg, n, st)
    ensures SameAt(x, cfg.st, st)
  {
    CfgCorrect.EndsAlike(g, sem, Chain(s, Empty), cfg, st);
    var fuel: nat :| ExecBlock(sem, fuel, Chain(s, Empty), cfg.st) == Done(Normal, st);
    var res := ExecStmt(sem, fuel, s, cfg.st);
    assert res.Done? && res.o.Normal? ==> ExecBlock(sem, fuel, Empty, res.st) == Done(Normal, res.st);
    RangeLeavesAlone(sem, fuel, s, r, cfg.st, x);
  }

  /** The state in which iteration `k` starts, counted from 0, if there is one. */
  function StartOf(sem: Sem, fuel: nat, s: Stmt, st: State, k: nat): Option<State>
    requires s.For?
  {
    var (b, st1) := sem.test(s.first, sem.act(s.init, st));
    if b then CfgEntries.AtIteration(sem, fuel, CfgEntries.ForLoop(s.more, s.step), s.body, st1, k) else None
  }

  /** The state in which the body is left before iteration `k` starts; before the first it is the loop's own. */
  function EndBefore(sem: Sem, fuel: nat, s: Stmt, st: State, k: nat): State
    requires s.For? && (k > 0 ==> StartOf(sem, fuel, s, st, k - 1).Some?)
  {
    if k == 0 then st
    else
      var res := ExecBranch(sem, fuel, s.body, StartOf(sem, fuel, s, st, k - 1).value);
      if res.Done? then res.st else st
  }

  /** Iteration `k` starts behind a normal end of the one before it. */
  lemma {:induction false} IterationBefore(sem: Sem, fuel: nat, l: CfgEntries.Loop, body: Branch, st: State, k: nat)
    requires k > 0 && CfgEntries.AtIteration(sem, fuel, l, body, st, k).Some?
    ensures var before := CfgEntries.AtIteration(sem, fuel, l, body, st, k - 1);
            && before.Some? && CfgEntries.Next(sem, fuel, l, body, before.value).Some?
            && CfgEntries.AtIteration(sem, fuel, l, body, st, k).value
                 == CfgEntries.Next(sem, fuel, l, body, before.value).value.(sp := before.value.sp)
    decreases k
  {
    if k > 1 {
      IterationBefore(sem, fuel, l, body, CfgEntries.Next(sem, fuel, l, body, st).value.(sp := st.sp), k - 1);
    }
  }

  /**
    * For every body: between the end of one iteration and the start of the next, and between the loop's start and the
    * first, only the control variable is stored to.
    */
  lemma IterationsStoreControl(sem: Sem, fuel: nat, s: Stmt, r: Range, st: State, k: nat)
    requires Implements(sem, s, r) && Typed(sem, s.body, r) && StartOf(sem, fuel, s, st, k).Some?
    ensures k > 0 ==> StartOf(sem, fuel, s, st, k - 1).Some?
    ensures OnlyAt(r.cell, EndBefore(sem, fuel, s, st, k), StartOf(sem, fuel, s, st, k).value)
    ensures IsSet(r, StartOf(sem, fuel, s, st, k).value)
    decreases k
  {
    var st1 := sem.act(s.init, st);
    assert Has(r, st1, Initial(r));
    if k > 0 {
      var l := CfgEntries.ForLoop(s.more, s.step);
      IterationBefore(sem, fuel, l, s.body, st1, k);
      IterationsStoreControl(sem, fuel, s, r, st, k - 1);
      var res := ExecBranch(sem, fuel, s.body, StartOf(sem, fuel, s, st, k - 1).value);
      var b: nat := res.st.store[r.cell];
      assert Has(r, res.st, b);
      CountsOn(r, b);
    }
  }

  /** The emitted blocks of a program that is one range loop end as the range loop does, its `else` part included. */
  lemma CompiledRange(g: CfgMachine.Graph, sem: Sem, fuel: nat, s: Stmt, r: Range, cfg: CfgMachine.Config)
    returns (n: nat)
    requires Implements(sem, s, r) && Typed(sem, s.body, r)
    requires CfgCorrect.Lowered(g, Chain(s, Empty)) && CfgCorrect.AtEntry(cfg)
    requires RangeResult(sem, fuel, s, r, cfg.st).Done?
    ensures CfgCorrect.StopsWith(g, sem, cfg, n, RangeResult(sem, fuel, s, r, cfg.st).st)
  {
    RangeLoop(sem, fuel, s, r, cfg.st);
    n := CfgCorrect.Terminates(g, sem, Chain(s, Empty), cfg, fuel);
  }

  /** If the body always ends normally, the emitted blocks end, having run it for every number of the range. */
  lemma CompiledRangeEnds(g: CfgMachine.Graph, sem: Sem, s: Stmt, r: Range, cfg: CfgMachine.Config, k: nat)
    returns (n: nat)
    requires Implements(sem, s, r) && Keeps(sem, s.body, r) && Low(r) <= High(r)
    requires CfgCorrect.Lowered(g, Chain(s, Empty)) && CfgCorrect.AtEntry(cfg)
    requires forall f: nat, t | f >= k :: var res := ExecBranch(sem, f, s.body, t); res.Done? && res.o.Normal?
    ensures var res := ForEach(sem, k + |Numbers(r)|, r, s.body, cfg.st.sp, Numbers(r), cfg.st);
            res.Done? && CfgCorrect.StopsWith(g, sem, cfg, n, res.st)
  {
    var fuel := k + |Numbers(r)|;
    ForEachEnds(sem, fuel, r, s.body, cfg.st.sp, Numbers(r), cfg.st, k);
    RangeVisits(sem, fuel, s, r, cfg.st);
    n := CfgCorrect.Terminates(g, sem, Chain(s, Empty), cfg, fuel);
  }

  /** A loop whose body ends normally with `k` units of fuel ends, too. */
  lemma {:induction false} ForEachEnds(sem: Sem, fuel: nat, r: Range, body: Branch, saved: int, xs: seq<int>,
                                       st: State, k: nat)
    requires forall f: nat, t | f >= k :: var res := ExecBranch(sem, f, body, t); res.Done? && res.o.Normal?
    requires fuel >= k + |xs|
    ensures var res := ForEach(sem, fuel, r, body, saved, xs, st); res.Done? && res.o.Normal?
    decreases |xs|
  {
    if xs != [] {
      var res := ExecBranch(sem, fuel - 1, body, Put(r, st, Wrap(r.width, xs[0])).(sp := saved));
      ForEachEnds(sem, fuel - 1, r, body, saved, xs[1..], res.st, k);
    }
  }

  function Control(r: Range, st: State): nat {
    if r.cell in st.store && st.store[r.cell] >= 0 then st.store[r.cell] else 0
  }

  function Act(s: Stmt, r: Range, a: nat, st: State): State
    requires s.For?
  {
    Put(r, st, if a == s.init then Initial(r) else Iterate(r, Control(r, st)))
  }

  function Look(s: Stmt, r: Range, t: nat, st: State): (bool, State)
    requires s.For? && Proper(r)
  {
    (Condition(r, t == s.more, Control(r, st)), st)
  }

  /** There are such actions. */
  lemma Implementable(s: Stmt, r: Range) returns (sem: Sem)
    requires s.For? && Proper(r) && s.init != s.step && s.first != s.more
    ensures Implements(sem, s, r)
  {
    sem := Sem((a: nat, st) => Act(s, r, a, st), (t: nat, st) => Look(s, r, t, st));
    forall st ensures sem.act(s.init, st) == Put(r, st, Initial(r)) {
      assert sem.act(s.init, st) == Act(s, r, s.init, st);
    }
    forall st, b: nat | Has(r, st, b)
      ensures sem.test(s.first, st) == (Condition(r, false, b), st)
              && sem.test(s.more, st) == (Condition(r, true, b), st)
      ensures sem.act(s.step, st) == Put(r, st, Iterate(r, b))
    {
      assert Control(r, st) == b;
      assert sem.test(s.first, st) == Look(s, r, s.first, st) && sem.test(s.more, st) == Look(s, r, s.more, st);
      assert sem.act(s.step, st) == Act(s, r, s.step, st);
    }
  }
}
