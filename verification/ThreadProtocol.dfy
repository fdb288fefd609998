/**
  * The control block of a thread (src/threads.cc, clib/threads_c.c; the variant with an event file descriptor): a
  * reference counter, a descriptor that signals the end of the thread, and the thread function's result. Owner and
  * thread take turns in any order; addresses and descriptors that were given back may be handed out again.
  */
module ThreadProtocol {
  import opened Options

  type Addr = nat
  type Fd = nat
  type Id = nat

  /** The control block; `count` is the number of references minus one. */
  datatype Cell = Cell(count: int, fd: Fd, ret: Option<int>)

  /** The steps of giving up a reference (CreateReleaseRefC). */
  datatype Release = Drop | FreeFd | Close(fd: Fd) | Free | KeepFd | Write(fd: Fd) | Released

  datatype Thread = LoadArgs | Call | Leaving(r: Release) | Ended

  datatype Owner = Waiting | Poll(fd: Fd) | Read(fd: Fd) | Join | Load | Holding(v: int) | Dropping(v: int, r: Release)

  /** What the owner does with its handle. */
  datatype Script = WaitOnly | WaitThenRelease | ReleaseOnly

  /** `result` is what the thread function returns. */
  datatype Handle = Handle(addr: Addr, script: Script, result: int, owner: Owner, thread: Thread, frees: nat)

  /** The live control blocks, and the open descriptors with their event counts. */
  datatype World = World(heap: map<Addr, Cell>, events: map<Fd, nat>)

  datatype Sys = Sys(world: World, handles: map<Id, Handle>)

  datatype Action =
    | Create(id: Id, addr: Addr, fd: Fd, script: Script, result: int)
    | OwnerStep(id: Id)
    | ThreadStep(id: Id)

  /** A fault is an access to a block or a descriptor that is not there. */
  datatype Outcome<T> = Blocked | Fault | Next(s: T)

  // ---------------------------------------------------------------- giving up a reference

  datatype AfterRelease = AfterRelease(world: World, r: Release, freed: bool)

  function ReleaseStep(w: World, a: Addr, r: Release): Outcome<AfterRelease> {
    match r
    case Drop =>
      if a !in w.heap then Fault
      else
        var c := w.heap[a];
        var less := w.(heap := w.heap[a := c.(count := c.count - 1)]);
        Next(AfterRelease(less, if c.count == 0 then FreeFd else KeepFd, false))
    case FreeFd => if a !in w.heap then Fault else Next(AfterRelease(w, Close(w.heap[a].fd), false))
    case Close(fd) => if fd !in w.events then Fault else Next(AfterRelease(w.(events := w.events - {fd}), Free, false))
    case Free => if a !in w.heap then Fault else Next(AfterRelease(w.(heap := w.heap - {a}), Released, true))
    case KeepFd => if a !in w.heap then Fault else Next(AfterRelease(w, Write(w.heap[a].fd), false))
    case Write(fd) => if fd !in w.events then Fault
        else Next(AfterRelease(w.(events := w.events[fd := w.events[fd] + 1]), Released, false))
    case Released => Blocked
  }

  // ---------------------------------------------------------------- the thread

  datatype Moved = Moved(world: World, h: Handle)

  function ThreadMove(w: World, h: Handle): Outcome<Moved> {
    match h.thread
    case LoadArgs => if h.addr !in w.heap then Fault else Next(Moved(w, h.(thread := Call)))
    case Call =>
      if h.addr !in w.heap then Fault
      else Next(Moved(w.(heap := w.heap[h.addr := w.heap[h.addr].(ret := Some(h.result))]),
          h.(thread := Leaving(Drop))))
    case Leaving(r) =>
      if r.Released? then Next(Moved(w, h.(thread := Ended)))
      else
        var o := ReleaseStep(w, h.addr, r);
        if o.Next? then Next(Moved(o.s.world,
            h.(thread := Leaving(o.s.r), frees := if o.s.freed then h.frees + 1 else h.frees)))
        else if o.Fault? then Fault else Blocked
    case Ended => Blocked
  }

  // ---------------------------------------------------------------- the owner

  /** Waiting: poll and read the descriptor until the event is there, join, and load the result. */
  function OwnerMove(w: World, h: Handle): Outcome<Moved> {
    match h.owner
    case Waiting => if h.addr !in w.heap then Fault else Next(Moved(w, h.(owner := Poll(w.heap[h.addr].fd))))
    case Poll(fd) =>
      if fd !in w.events then Fault else if w.events[fd] == 0 then Blocked else Next(Moved(w, h.(owner := Read(fd))))
    case Read(fd) =>
      if fd !in w.events then Fault
      else if w.events[fd] == 0 then Next(Moved(w, h.(owner := Poll(fd))))
      else Next(Moved(w.(events := w.events[fd := 0]), h.(owner := Join)))
    case Join => if h.thread.Ended? then Next(Moved(w, h.(owner := Load))) else Blocked
    case Load =>
      if h.addr !in w.heap || w.heap[h.addr].ret.None? then Fault
      else Next(Moved(w, h.(owner := Holding(w.heap[h.addr].ret.value))))
    case Holding(v) => if h.script.WaitThenRelease? then Next(Moved(w, h.(owner := Dropping(v, Drop)))) else Blocked
    case Dropping(v, r) =>
      var o := ReleaseStep(w, h.addr, r);
      if o.Next? then Next(Moved(o.s.world,
          h.(owner := Dropping(v, o.s.r), frees := if o.s.freed then h.frees + 1 else h.frees)))
      else if o.Fault? then Fault else Blocked
  }

  // ---------------------------------------------------------------- the system

  /** Creation takes an address and a descriptor that are not in use. */
  function Step(s: Sys, a: Action): Outcome<Sys> {
    match a
    case Create(id, addr, fd, script, result) =>
      if id in s.handles || addr in s.world.heap || fd in s.world.events then Blocked
      else
        var start := if script.ReleaseOnly? then Dropping(0, Drop) else Waiting;
        Next(Sys(World(s.world.heap[addr := Cell(1, fd, None)], s.world.events[fd := 0]),
                 s.handles[id := Handle(addr, script, result, start, LoadArgs, 0)]))
    case OwnerStep(id) => if id in s.handles then Applied(s, id, OwnerMove(s.world, s.handles[id])) else Blocked
    case ThreadStep(id) => if id in s.handles then Applied(s, id, ThreadMove(s.world, s.handles[id])) else Blocked
  }

  function Applied(s: Sys, id: Id, o: Outcome<Moved>): Outcome<Sys> {
    match o
    case Next(m) => Next(Sys(m.world, s.handles[id := m.h]))
    case Fault => Fault
    case Blocked => Blocked
  }

  const INIT := Sys(World(map[], map[]), map[])

  /** Blocked actions are simply not taken. */
  function Run(s: Sys, acts: seq<Action>): Outcome<Sys>
    decreases |acts|
  {
    if acts == [] then Next(s)
    else
      var o := Step(s, acts[0]);
      if o.Fault? then Fault else Run(if o.Next? then o.s else s, acts[1..])
  }

  // ---------------------------------------------------------------- the invariant

  /** References that have not been given up. */
  function Holders(h: Handle): nat {
    (if h.thread.LoadArgs? || h.thread.Call? || h.thread == Leaving(Drop) then 1 else 0) +
    (if h.owner.Dropping? && !h.owner.r.Drop? then 0 else 1)
  }

  predicate HasBlock(h: Handle) {
    !(h.owner.Dropping? && h.owner.r.Released?)
  }

  predicate HasEvent(h: Handle) {
    !(h.owner.Dropping? && (h.owner.r.Free? || h.owner.r.Released?))
  }

  /** The owner has not yet seen the event. */
  predicate Before(h: Handle) {
    h.owner.Waiting? || h.owner.Poll? || h.owner.Read?
  }

  /** The thread has signalled its end. */
  predicate Signalled(h: Handle) {
    h.thread.Ended? || h.thread == Leaving(Released)
  }

  predicate ThreadOk(h: Handle, fd: Fd) {
    h.thread.Leaving? ==> h.thread.r in {Drop, KeepFd, Write(fd), Released}
  }

  predicate OwnerOk(h: Handle, fd: Fd, signals: nat) {
    && (h.owner.Poll? || h.owner.Read? ==> h.owner.fd == fd)
    && (h.owner.Read? ==> signals == 1)
    && (!Before(h) ==> Signalled(h))
    && (!Before(h) && !h.owner.Join? ==> h.thread.Ended?)
    && (h.owner.Holding? ==> h.owner.v == h.result)
    && (h.owner.Dropping? ==>
        h.script.WaitThenRelease? && h.owner.v == h.result && h.owner.r in {Drop, FreeFd, Close(fd), Free, Released})
  }

  predicate HandleOk(w: World, h: Handle, fd: Fd) {
    && !h.script.ReleaseOnly?
    && ThreadOk(h, fd) && OwnerOk(h, fd, if Before(h) && Signalled(h) then 1 else 0)
    && h.frees == (if HasBlock(h) then 0 else 1)
    && (HasBlock(h) ==> h.addr in w.heap && CellOk(w.heap[h.addr], h, fd))
    && (HasEvent(h) ==> fd in w.events && w.events[fd] == if Before(h) && Signalled(h) then 1 else 0)
  }

  /** The counter is the number of live holders minus one, and the result is there once the function has returned. */
  predicate CellOk(c: Cell, h: Handle, fd: Fd) {
    c.count == Holders(h) - 1 && c.fd == fd && (h.thread.Leaving? || h.thread.Ended? ==> c.ret == Some(h.result))
  }

  /** `fds` tells each handle's descriptor; live blocks and open descriptors belong to one handle each. */
  ghost predicate Inv(s: Sys, fds: map<Id, Fd>) {
    && fds.Keys == s.handles.Keys
    && (forall i | i in s.handles :: HandleOk(s.world, s.handles[i], fds[i]))
    && (forall i, j | i in s.handles && j in s.handles && i != j :: Apart(s.handles[i], s.handles[j], fds[i], fds[j]))
  }

  predicate Apart(h: Handle, k: Handle, f: Fd, g: Fd) {
    (HasBlock(h) && HasBlock(k) ==> h.addr != k.addr) && (HasEvent(h) && HasEvent(k) ==> f != g)
  }

  /** A move of `h` touches its own block and descriptor at most, and those only while it has them. */
  ghost predicate Elsewhere(w: World, w': World, h: Handle, fd: Fd) {
    && (forall b | b != h.addr || !HasBlock(h) ::
        (b in w.heap <==> b in w'.heap) && (b in w.heap ==> w'.heap[b] == w.heap[b]))
    && (forall g | g != fd || !HasEvent(h) ::
        (g in w.events <==> g in w'.events) && (g in w.events ==> w'.events[g] == w.events[g]))
  }

  /** A handle keeps its block's address, script and result, and never gets back what it gave up. */
  predicate Same(h: Handle, k: Handle) {
    k.addr == h.addr && k.script == h.script && k.result == h.result && (HasBlock(k) ==> HasBlock(h))
        && (HasEvent(k) ==> HasEvent(h))
  }

  ghost predicate GoodMove(w: World, h: Handle, fd: Fd, o: Outcome<Moved>) {
    !o.Fault? && (o.Next? ==>
        HandleOk(o.s.world, o.s.h, fd) && Elsewhere(w, o.s.world, h, fd) && Same(h, o.s.h) && Rank(o.s.h) < Rank(h))
  }

  lemma ThreadMoves(w: World, h: Handle, fd: Fd)
    requires HandleOk(w, h, fd)
    ensures GoodMove(w, h, fd, ThreadMove(w, h))
  {
  }

  lemma OwnerMoves(w: World, h: Handle, fd: Fd)
    requires HandleOk(w, h, fd)
    ensures GoodMove(w, h, fd, OwnerMove(w, h))
  {
    if h.owner.Dropping? {
      ReleaseMoves(w, h, fd);
    }
  }

  lemma ReleaseMoves(w: World, h: Handle, fd: Fd)
    requires HandleOk(w, h, fd) && h.owner.Dropping?
    ensures GoodMove(w, h, fd, OwnerMove(w, h))
  {
  }

  // ---------------------------------------------------------------- every run

  lemma MoveKeeps(s: Sys, fds: map<Id, Fd>, id: Id, o: Outcome<Moved>)
    requires Inv(s, fds) && id in s.handles && GoodMove(s.world, s.handles[id], fds[id], o)
    ensures !Applied(s, id, o).Fault?
    ensures Applied(s, id, o).Next? ==> Inv(Applied(s, id, o).s, fds)
  {
    if o.Next? {
      var w', h, h' := o.s.world, s.handles[id], o.s.h;
      forall j | j in s.handles && j != id ensures HandleOk(w', s.handles[j], fds[j]) {
        assert Apart(h, s.handles[j], fds[id], fds[j]);
      }
      forall j | j in s.handles && j != id
        ensures Apart(h', s.handles[j], fds[id], fds[j]) && Apart(s.handles[j], h', fds[j], fds[id])
      {
        assert Apart(h, s.handles[j], fds[id], fds[j]);
      }
    }
  }

  lemma CreateKeeps(s: Sys, fds: map<Id, Fd>, a: Action)
    requires Inv(s, fds) && a.Create? && !a.script.ReleaseOnly? && Step(s, a).Next?
    ensures Inv(Step(s, a).s, fds[a.id := a.fd])
  {
    var s', fds' := Step(s, a).s, fds[a.id := a.fd];
    var k := s'.handles[a.id];
    forall j | j in s.handles
      ensures HandleOk(s'.world, s.handles[j], fds[j]) && Apart(k, s.handles[j], a.fd, fds[j])
              && Apart(s.handles[j], k, fds[j], a.fd)
    {
      assert HandleOk(s.world, s.handles[j], fds[j]);
    }
  }

  predicate WaitsFirst(a: Action) {
    a.Create? ==> !a.script.ReleaseOnly?
  }

  /** No step faults, and every step keeps the invariant. */
  lemma StepKeeps(s: Sys, fds: map<Id, Fd>, a: Action) returns (fds': map<Id, Fd>)
    requires Inv(s, fds) && WaitsFirst(a)
    ensures !Step(s, a).Fault? && (Step(s, a).Next? ==> Inv(Step(s, a).s, fds'))
  {
    fds' := fds;
    match a
    case Create(_, _, _, _, _) =>
      if Step(s, a).Next? {
        CreateKeeps(s, fds, a);
        fds' := fds[a.id := a.fd];
      }
    case OwnerStep(id) =>
      if id in s.handles {
        OwnerMoves(s.world, s.handles[id], fds[id]);
        MoveKeeps(s, fds, id, OwnerMove(s.world, s.handles[id]));
      }
    case ThreadStep(id) =>
      if id in s.handles {
        ThreadMoves(s.world, s.handles[id], fds[id]);
        MoveKeeps(s, fds, id, ThreadMove(s.world, s.handles[id]));
      }
  }

  /** Whatever the interleaving, nobody touches a block that was freed or a descriptor that was closed. */
  lemma {:induction false} RunKeeps(s: Sys, fds: map<Id, Fd>, acts: seq<Action>) returns (fds': map<Id, Fd>)
    requires Inv(s, fds) && forall a | a in acts :: WaitsFirst(a)
    ensures Run(s, acts).Next? && Inv(Run(s, acts).s, fds')
    decreases |acts|
  {
    fds' := fds;
    if acts != [] {
      assert acts[0] in acts;
      var fds1 := StepKeeps(s, fds, acts[0]);
      var o := Step(s, acts[0]);
      fds' := RunKeeps(if o.Next? then o.s else s, if o.Next? then fds1 else fds, acts[1..]);
    }
  }

  // ---------------------------------------------------------------- progress

  /** An upper bound on the steps that a handle can still see. */
  function Rank(h: Handle): (r: nat)
    ensures r <= 17
  {
    var t := match h.thread
      case LoadArgs => 6
      case Call => 5
      case Leaving(r) => (match r case Drop => 4 case KeepFd => 3 case Write(_) => 2 case _ => 1)
      case Ended => 0;
    var o := match h.owner
      case Waiting => 11
      case Poll(_) => 10
      case Read(_) => 9
      case Join => 8
      case Load => 7
      case Holding(_) => 6
      case Dropping(_, r) => (match r case Drop => 5 case FreeFd => 4 case Close(_) => 3 case Free => 2 case _ => 0);
    t + o
  }

  /** The owner has done all that its script says. */
  predicate Finished(h: Handle) {
    h.thread.Ended? && (if h.script.WaitOnly? then h.owner.Holding? else h.owner.Dropping? && h.owner.r.Released?)
  }

  /** No deadlock: as long as a handle is not finished, its owner or its thread can move. */
  lemma Progress(s: Sys, fds: map<Id, Fd>, id: Id)
    requires Inv(s, fds) && id in s.handles
    ensures (Step(s, OwnerStep(id)).Next? || Step(s, ThreadStep(id)).Next?) <==> !Finished(s.handles[id])
  {
    var h := s.handles[id];
    OwnerMoves(s.world, h, fds[id]);
    ThreadMoves(s.world, h, fds[id]);
  }

  /**
    * The end of a handle: the wait gave what the thread function returned, and with a release the block is freed,
    * exactly once, and the descriptor closed.
    */
  lemma HandleEnds(s: Sys, fds: map<Id, Fd>, id: Id)
    requires Inv(s, fds) && id in s.handles && Finished(s.handles[id])
    ensures var h := s.handles[id];
            && h.owner.v == h.result
            && (h.script.WaitThenRelease? ==> h.frees == 1)
            && (h.script.WaitOnly? ==>
                h.frees == 0 && h.addr in s.world.heap && s.world.heap[h.addr].count == 0 && fds[id] in s.world.events)
  {
  }

  /** How many steps a run takes with one handle. */
  function Moves(s: Sys, acts: seq<Action>, id: Id): nat
    decreases |acts|
  {
    if acts == [] || Step(s, acts[0]).Fault? then 0
    else
      var o := Step(s, acts[0]);
      (if o.Next? && (acts[0] == OwnerStep(id) || acts[0] == ThreadStep(id)) then 1 else 0)
          + Moves(if o.Next? then o.s else s, acts[1..], id)
  }

  lemma StepRanks(s: Sys, fds: map<Id, Fd>, a: Action, id: Id)
    requires Inv(s, fds) && id in s.handles && Step(s, a).Next?
    ensures var t := Step(s, a).s;
            id in t.handles && Rank(t.handles[id])
                + (if a == OwnerStep(id) || a == ThreadStep(id) then 1 else 0) <= Rank(s.handles[id])
  {
    assert HandleOk(s.world, s.handles[id], fds[id]);
    if a == OwnerStep(id) {
      OwnerMoves(s.world, s.handles[id], fds[id]);
    } else if a == ThreadStep(id) {
      ThreadMoves(s.world, s.handles[id], fds[id]);
    }
  }

  /**
    * No livelock: polling and reading cannot go round in circles, so every handle is finished after at most 17 steps.
    */
  lemma {:induction false} MovesBounded(s: Sys, fds: map<Id, Fd>, acts: seq<Action>, id: Id)
    requires Inv(s, fds) && id in s.handles && forall a | a in acts :: WaitsFirst(a)
    ensures Moves(s, acts, id) <= Rank(s.handles[id])
    decreases |acts|
  {
    if acts != [] {
      var a, o := acts[0], Step(s, acts[0]);
      assert a in acts;
      var fds1 := StepKeeps(s, fds, a);
      if o.Next? {
        StepRanks(s, fds, a, id);
        MovesBounded(o.s, fds1, acts[1..], id);
      } else {
        MovesBounded(s, fds, acts[1..], id);
      }
    }
  }

  // ---------------------------------------------------------------- which scripts are safe

  predicate AllUse(acts: seq<Action>, script: Script) {
    forall a | a in acts && a.Create? :: a.script == script
  }

  ghost predicate Safe(script: Script) {
    forall acts: seq<Action> :: AllUse(acts, script) ==> !Run(INIT, acts).Fault?
  }

  /** At any point of any run: the counter, at most one free, and the value that the owner holds. */
  lemma EveryRun(acts: seq<Action>, id: Id)
    requires forall a | a in acts :: WaitsFirst(a)
    requires Run(INIT, acts).Next? && id in Run(INIT, acts).s.handles
    ensures var s := Run(INIT, acts).s; var h := s.handles[id];
            && h.frees <= 1 && (h.frees == 1 <==> h.owner.Dropping? && h.owner.r.Released?)
            && (h.frees == 0 ==> h.addr in s.world.heap && s.world.heap[h.addr].count == Holders(h) - 1)
            && (h.owner.Holding? || h.owner.Dropping? ==> h.owner.v == h.result)
  {
    var fds := RunKeeps(INIT, map[], acts);
  }

  lemma WaitingIsSafe(script: Script, acts: seq<Action>)
    requires !script.ReleaseOnly? && AllUse(acts, script)
    ensures !Run(INIT, acts).Fault?
  {
    var fds := RunKeeps(INIT, map[], acts);
  }

  lemma RunFirst(s: Sys, a: Action, rest: seq<Action>)
    requires Step(s, a).Next?
    ensures Run(s, [a] + rest) == Run(Step(s, a).s, rest)
  {
    assert ([a] + rest)[1..] == rest;
  }

  const O := OwnerStep(0)
  const T := ThreadStep(0)

  /**
    * The owner drops its reference, the thread runs to its end and frees the block, and the owner, which still has to
    * signal, reads the descriptor from it.
    */
  lemma ReleaseOnlyFaults()
    ensures var acts := [Create(0, 0, 0, ReleaseOnly, 7), O, T, T, T, T, T, T, O];
            AllUse(acts, ReleaseOnly) && Run(INIT, acts).Fault?
  {
    var c := Create(0, 0, 0, ReleaseOnly, 7);
    assert [c, O, T, T, T, T, T, T, O] == [c, O, T, T] + [T, T, T, T, O];
    var s := UpToRelease([T, T, T, T, O]);
    ReleasedFaults(s);
  }

  /** Both have gone on to give up their references, the owner first. */
  ghost predicate BothLeaving(s: Sys) {
    && 0 in s.handles && s.handles[0] == Handle(0, ReleaseOnly, 7, Dropping(0, KeepFd), Leaving(Drop), 0)
    && 0 in s.world.heap && s.world.heap[0] == Cell(0, 0, Some(7)) && 0 in s.world.events
  }

  lemma UpToRelease(rest: seq<Action>) returns (s: Sys)
    ensures Run(INIT, [Create(0, 0, 0, ReleaseOnly, 7), O, T, T] + rest) == Run(s, rest) && BothLeaving(s)
  {
    var c := Create(0, 0, 0, ReleaseOnly, 7);
    assert [c, O, T, T] + rest == [c] + ([O] + ([T] + ([T] + rest)));
    RunFirst(INIT, c, [O] + ([T] + ([T] + rest)));
    var s1 := Step(INIT, c).s;
    RunFirst(s1, O, [T] + ([T] + rest));
    var s2 := Step(s1, O).s;
    RunFirst(s2, T, [T] + rest);
    var s3 := Step(s2, T).s;
    RunFirst(s3, T, rest);
    s := Step(s3, T).s;
  }

  lemma ReleasedFaults(s: Sys)
    requires BothLeaving(s)
    ensures Run(s, [T, T, T, T, O]).Fault?
  {
    RunFirst(s, T, [T, T, T, O]);
    var s1 := Step(s, T).s;
    RunFirst(s1, T, [T, T, O]);
    var s2 := Step(s1, T).s;
    RunFirst(s2, T, [T, O]);
    var s3 := Step(s2, T).s;
    RunFirst(s3, T, [O]);
    assert Step(Step(s3, T).s, O).Fault?;
  }

  /** A release is safe exactly when it follows a wait. */
  lemma SafeIffWaits(script: Script)
    ensures Safe(script) <==> !script.ReleaseOnly?
  {
    if script.ReleaseOnly? {
      ReleaseOnlyFaults();
    } else {
      forall acts: seq<Action> | AllUse(acts, script) ensures !Run(INIT, acts).Fault? {
        WaitingIsSafe(script, acts);
      }
    }
  }
}
