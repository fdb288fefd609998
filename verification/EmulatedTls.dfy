/**
  * Emulated thread-local storage (clib/emutls.c): every control gets an index once, under a lock after an unlocked
  * first look; every thread has an array of object addresses that grows on demand. Any number of threads and controls,
  * in any interleaving; the allocator may hand out any free region.
  */
module EmulatedTls {
  import opened Options
  import opened Bits

  type Addr = nat
  type Tid = nat
  type Ctl = nat

  const WORD := 8
  const HEADER_WORDS := 2

  /** `index` is 0 until the control has got one. */
  datatype Control = Control(size: nat, align: nat, index: nat)

  /** A thread's array; `data[index - 1]` is the address of an object, or 0. */
  datatype Array = Array(block: Addr, data: seq<Addr>)

  /** Where a thread is in `__emutls_get_address`. */
  datatype Pc =
    | Idle
    | Look(c: Ctl)
    | Lock(c: Ctl)
    | LookAgain(c: Ctl)
    | Count(c: Ctl)
    | Publish(c: Ctl, index: nat)
    | Unlock(c: Ctl, index: nat)
    | NeedArray(c: Ctl, index: nat)
    | Fetch(c: Ctl, index: nat)
    | Return(c: Ctl, a: Addr)

  datatype Thread = Thread(pc: Pc, slots: Option<Array>)

  /**
    * The blocks handed out by the allocator with their lengths, and the words before the objects, which point to the
    * start of their blocks.
    */
  datatype Memory = Memory(heap: map<Addr, nat>, before: map<Addr, Addr>)

  datatype State = State(controls: map<Ctl, Control>, count: nat, lock: Option<Tid>, threads: map<Tid, Thread>,
      memory: Memory)

  /** A fault is an access outside an array or to a block that is not there. */
  datatype Outcome = Blocked | Abort | Fault | Next(s: State)

  datatype Action = Call(t: Tid, c: Ctl) | Go(t: Tid, given: Addr) | Exit(t: Tid)

  // ---------------------------------------------------------------- sizes and alignment

  /** emutls_new_data_array_size: enough for the index, and with the header a multiple of 16 words. */
  function NewSize(index: nat): (r: nat)
    requires index > 0
    ensures index <= r <= index + 15 && (r + HEADER_WORDS) % 16 == 0
  {
    assert Pow2(4) == 16;
    ClearLow(index + HEADER_WORDS + 15, 4);
    AndNot(index + HEADER_WORDS + 15, 15) - HEADER_WORDS
  }

  /** emutls_asize */
  function ArrayBytes(n: nat): nat {
    n * WORD + HEADER_WORDS * WORD
  }

  /** The alignment actually used, at least that of a pointer. */
  function Align(c: Control): nat {
    if c.align < WORD then WORD else c.align
  }

  function ObjectBytes(c: Control): nat {
    Align(c) - 1 + WORD + c.size
  }

  /** emutls_memalign_alloc: where the object starts in a block at `start`. */
  function Base(c: Control, start: Addr): Addr {
    AndNot(start + (Align(c) - 1 + WORD), Align(c) - 1)
  }

  predicate AlignOk(c: Control) {
    And(Align(c), Align(c) - 1) == 0
  }

  /**
    * Aligned as asked for, and always to eight bytes; alignments of 3, 5, 6 and 7 are not checked and are raised to
    * eight.
    */
  predicate AlignedFor(align: nat, a: Addr) {
    a % 8 == 0 && (align in {1, 2, 4} || align >= 8 ==> a % align == 0)
  }

  /** The object at `base` is aligned and, with the word before it, inside a block at `start`. */
  predicate Inside(c: Control, start: Addr, base: Addr) {
    && Align(c) > 0 && base % Align(c) == 0 && base % WORD == 0
    && start <= base - WORD && base + c.size <= start + ObjectBytes(c)
  }

  /**
    * With a power of two as alignment, the object is aligned, and it fits into its block together with the word before
    * it.
    */
  lemma BaseInside(c: Control, start: Addr)
    requires AlignOk(c)
    ensures Inside(c, start, Base(c, start)) && AlignedFor(c.align, Base(c, start))
  {
    RoundedInside(c, start);
    AlignedMeans(c, Base(c, start));
  }

  lemma RoundedInside(c: Control, start: Addr)
    requires AlignOk(c)
    ensures Inside(c, start, Base(c, start))
  {
    PowerTest(Align(c));
    var k: nat :| Align(c) == Pow2(k);
    var x := start + (Align(c) - 1 + WORD);
    ClearLow(x, k);
    RoundDown(x, Align(c));
    WordAligned(Base(c, start), k);
  }

  lemma AlignedMeans(c: Control, base: Addr)
    requires base % Align(c) == 0 && base % WORD == 0
    ensures AlignedFor(c.align, base)
  {
    var q := base / 8;
    ModUnique(base, 4, 2 * q, 0);
    ModUnique(base, 2, 4 * q, 0);
  }

  /** The alignment asked for is met wherever the block is exactly if it is 1, 2, 4 or at least that of a pointer. */
  lemma AlignmentIff(c: Control)
    requires AlignOk(c) && c.align > 0
    ensures (forall start: Addr :: Base(c, start) % c.align == 0) <==> c.align in {1, 2, 4} || c.align >= 8
  {
    if c.align in {1, 2, 4} || c.align >= 8 {
      forall start: Addr ensures Base(c, start) % c.align == 0 {
        BaseInside(c, start);
      }
    } else {
      assert Pow2(3) == 8;
      ClearLow(16, 3);
      assert Base(c, 1) == 16;
    }
  }

  lemma RoundDown(x: nat, m: nat)
    requires m > 0
    ensures (x - x % m) % m == 0 && x - m < x - x % m <= x
  {
    var q := x / m;
    assert x == q * m + x % m;
    ModUnique(q * m, m, q, 0);
  }

  lemma {:induction false} WordAligned(a: nat, k: nat)
    requires Pow2(k) >= WORD && a % Pow2(k) == 0
    ensures a % WORD == 0
    decreases k
  {
    assert Pow2(2) == 4 && Pow2(3) == 8;
    if k < 3 {
      Pow2Monotone(k, 2);
    } else if k > 3 {
      Pow2Monotone(3, k - 1);
      Pow2Positive(k - 1);
      HalfMod(a, Pow2(k - 1));
      var p := Pow2(k - 1);
      assert a / 2 % p == 0 && a % 2 == 0;
      Doubled(a, p);
      WordAligned(a, k - 1);
    }
  }

  lemma Doubled(a: nat, p: nat)
    requires p > 0 && a / 2 % p == 0 && a % 2 == 0
    ensures a % p == 0
  {
    var q := a / 2 / p;
    assert a / 2 == q * p && a == 2 * q * p + 0;
    ModUnique(a, p, 2 * q, 0);
  }

  // ---------------------------------------------------------------- steps

  /** The allocator may return any region that is free. */
  predicate FreeAt(heap: map<Addr, nat>, a: Addr, len: nat) {
    a > 0 && len > 0 && forall b | b in heap :: a + len <= b || b + heap[b] <= a
  }

  function Zeros(n: nat): (z: seq<Addr>)
    ensures |z| == n && forall k | 0 <= k < n :: z[k] == 0
  {
    seq(n, _ => 0)
  }

  function At(s: State, t: Tid, pc: Pc): State
    requires t in s.threads
  {
    s.(threads := s.threads[t := s.threads[t].(pc := pc)])
  }

  /** emutls_get_index, one shared access at a time. */
  function IndexStep(s: State, t: Tid): Outcome
    requires t in s.threads
  {
    match s.threads[t].pc
    case Look(c) =>
      if c !in s.controls then Fault
      else if s.controls[c].index != 0 then Next(At(s, t, NeedArray(c, s.controls[c].index)))
      else Next(At(s, t, Lock(c)))
    case Lock(c) => if s.lock.Some? then Blocked else Next(At(s.(lock := Some(t)), t, LookAgain(c)))
    case LookAgain(c) =>
      if c !in s.controls then Fault
      else if s.controls[c].index != 0 then Next(At(s, t, Unlock(c, s.controls[c].index)))
      else Next(At(s, t, Count(c)))
    case Count(c) => Next(At(s.(count := s.count + 1), t, Publish(c, s.count + 1)))
    case Publish(c, i) =>
      if c !in s.controls then Fault
      else Next(At(s.(controls := s.controls[c := s.controls[c].(index := i)]), t, Unlock(c, i)))
    case Unlock(c, i) => Next(At(s.(lock := None), t, NeedArray(c, i)))
    case _ => Blocked
  }

  /** The heap without the thread's array, which realloc gives back. */
  function HeapLess(s: State, t: Tid): map<Addr, nat>
    requires t in s.threads
  {
    if s.threads[t].slots.Some? then s.memory.heap - {s.threads[t].slots.value.block} else s.memory.heap
  }

  /** The state with a new array for thread `t`, in place of the old one if there was one. */
  function WithArray(s: State, t: Tid, pc: Pc, arr: Array): State
    requires t in s.threads
  {
    s.(threads := s.threads[t := Thread(pc, Some(arr))],
        memory := s.memory.(heap := HeapLess(s, t)[arr.block := ArrayBytes(|arr.data|)]))
  }

  /** The new array keeps the old addresses, and the rest of it is empty. */
  predicate Extends(was: Option<Array>, arr: Array) {
    && (was.Some? ==> |was.value.data| <= |arr.data|)
    && forall k | 0 <= k < |arr.data| :: arr.data[k] == if was.Some? && k < |was.value.data| then was.value.data[k]
        else 0
  }

  predicate TooSmall(was: Option<Array>, index: nat) {
    was.None? || index > |was.value.data|
  }

  function NewArray(was: Option<Array>, index: nat, given: Addr): (arr: Array)
    requires index > 0 && TooSmall(was, index)
    ensures arr.block == given && index <= |arr.data| && Extends(was, arr)
  {
    var data := if was.Some? then was.value.data else [];
    Array(given, data + Zeros(NewSize(index) - |data|))
  }

  /** emutls_get_address_array */
  function ArrayStep(s: State, t: Tid, c: Ctl, index: nat, given: Addr): Outcome
    requires t in s.threads && index > 0
  {
    var was := s.threads[t].slots;
    if !TooSmall(was, index) then Next(At(s, t, Fetch(c, index)))
    else
      var arr := NewArray(was, index, given);
      if was.Some? && was.value.block !in s.memory.heap then Fault
      else if !FreeAt(HeapLess(s, t), given, ArrayBytes(|arr.data|)) then Blocked
      else Next(WithArray(s, t, Fetch(c, index), arr))
  }

  /** The state with a new object for control `c` at `base`, in a block at `given`. */
  function WithObject(s: State, t: Tid, c: Ctl, index: nat, given: Addr, base: Addr): State
    requires t in s.threads && c in s.controls && s.threads[t].slots.Some?
             && 1 <= index <= |s.threads[t].slots.value.data|
  {
    var arr := s.threads[t].slots.value;
    s.(threads := s.threads[t := Thread(Return(c, base), Some(arr.(data := arr.data[index - 1 := base])))],
       memory := Memory(s.memory.heap[given := ObjectBytes(s.controls[c])], s.memory.before[base := given]))
  }

  /** The object, allocated on the thread's first access. */
  function FetchStep(s: State, t: Tid, c: Ctl, index: nat, given: Addr): Outcome
    requires t in s.threads
  {
    var th := s.threads[t];
    if c !in s.controls || th.slots.None? || !(1 <= index <= |th.slots.value.data|) then Fault
    else if th.slots.value.data[index - 1] != 0 then Next(At(s, t, Return(c, th.slots.value.data[index - 1])))
    else if !AlignOk(s.controls[c]) then Abort
    else if !FreeAt(s.memory.heap, given, ObjectBytes(s.controls[c])) then Blocked
    else Next(WithObject(s, t, c, index, given, Base(s.controls[c], given)))
  }

  /** emutls_shutdown: every object's block is freed through the word before it. */
  function FreeObjects(m: Memory, data: seq<Addr>): Option<map<Addr, nat>>
    decreases |data|
  {
    if data == [] then Some(m.heap)
    else if data[0] == 0 then FreeObjects(m, data[1..])
    else if data[0] !in m.before || m.before[data[0]] !in m.heap then None
    else FreeObjects(m.(heap := m.heap - {m.before[data[0]]}), data[1..])
  }

  function ExitStep(s: State, t: Tid): Outcome
    requires t in s.threads
  {
    var th := s.threads[t];
    if !th.pc.Idle? then Blocked
    else if th.slots.None? then Next(s.(threads := s.threads - {t}))
    else
      var heap := FreeObjects(s.memory, th.slots.value.data);
      if heap.None? || th.slots.value.block !in heap.value then Fault
      else Next(s.(threads := s.threads - {t}, memory := s.memory.(heap := heap.value - {th.slots.value.block})))
  }

  function Step(s: State, a: Action): Outcome {
    match a
    case Call(t, c) =>
      if c !in s.controls then Blocked
      else if t !in s.threads then Next(s.(threads := s.threads[t := Thread(Look(c), None)]))
      else if s.threads[t].pc.Idle? then Next(At(s, t, Look(c)))
      else Blocked
    case Go(t, given) =>
      if t !in s.threads then Blocked
      else
        (match s.threads[t].pc
         case NeedArray(c, i) => if i == 0 then Fault else ArrayStep(s, t, c, i, given)
         case Fetch(c, i) => FetchStep(s, t, c, i, given)
         case Return(_, _) => Next(At(s, t, Idle))
         case _ => IndexStep(s, t))
    case Exit(t) => if t in s.threads then ExitStep(s, t) else Blocked
  }

  // ---------------------------------------------------------------- the invariant

  /** Whom an allocated block belongs to. */
  datatype Owner = ArrayOf(t: Tid) | ObjectOf(t: Tid, k: nat)

  /** `names` is the inverse of the controls' indices. */
  ghost predicate IndicesOk(s: State, names: map<nat, Ctl>) {
    && (forall c | c in s.controls && s.controls[c].index != 0 ::
        s.controls[c].index in names && names[s.controls[c].index] == c)
    && (forall i | i in names :: 1 <= i <= s.count && names[i] in s.controls && s.controls[names[i]].index == i)
  }

  predicate Holds(pc: Pc) {
    pc.LookAgain? || pc.Count? || pc.Publish? || pc.Unlock?
  }

  ghost predicate LockOk(s: State) {
    && (s.lock.Some? ==> s.lock.value in s.threads)
    && forall t | t in s.threads :: Holds(s.threads[t].pc) <==> s.lock == Some(t)
  }

  ghost predicate PcOk(s: State, names: map<nat, Ctl>, th: Thread) {
    match th.pc
    case Idle => true
    case Look(c) => c in s.controls
    case Lock(c) => c in s.controls
    case LookAgain(c) => c in s.controls
    case Count(c) => c in s.controls && s.controls[c].index == 0
    case Publish(c, i) => c in s.controls && s.controls[c].index == 0 && i == s.count && i > 0 && i !in names
    case Unlock(c, i) => c in s.controls && i > 0 && s.controls[c].index == i
    case NeedArray(c, i) => c in s.controls && i > 0 && s.controls[c].index == i
    case Fetch(c, i) => c in s.controls && i > 0 && s.controls[c].index == i && th.slots.Some?
        && i <= |th.slots.value.data|
    case Return(c, a) => c in s.controls && AddressOf(s, th, c) == a && a != 0
  }

  /** The address that a thread has for a control, or 0. */
  function AddressOf(s: State, th: Thread, c: Ctl): Addr
    requires c in s.controls
  {
    var i := s.controls[c].index;
    if i != 0 && th.slots.Some? && i <= |th.slots.value.data| then th.slots.value.data[i - 1] else 0
  }

  /** An object for control `c` at `base`: in a block of its own, with the block's address in the word before it. */
  ghost predicate ObjectOk(m: Memory, owners: map<Addr, Owner>, c: Control, base: Addr, t: Tid, k: nat) {
    && base in m.before && m.before[base] in m.heap && m.heap[m.before[base]] == ObjectBytes(c)
    && Inside(c, m.before[base], base)
    && m.before[base] in owners && owners[m.before[base]] == ObjectOf(t, k)
  }

  ghost predicate ArrayOk(s: State, names: map<nat, Ctl>, owners: map<Addr, Owner>, t: Tid, arr: Array) {
    && arr.block in s.memory.heap && s.memory.heap[arr.block] == ArrayBytes(|arr.data|)
    && arr.block in owners && owners[arr.block] == ArrayOf(t)
    && forall k | 0 <= k < |arr.data| && arr.data[k] != 0 ::
         k + 1 in names && names[k + 1] in s.controls
             && ObjectOk(s.memory, owners, s.controls[names[k + 1]], arr.data[k], t, k)
  }

  ghost predicate ThreadOk(s: State, names: map<nat, Ctl>, owners: map<Addr, Owner>, t: Tid, th: Thread) {
    PcOk(s, names, th) && (th.slots.Some? ==> ArrayOk(s, names, owners, t, th.slots.value))
  }

  predicate Apart(a: int, m: int, b: int, n: int) {
    a + m <= b || b + n <= a
  }

  predicate Block(heap: map<Addr, nat>, a: Addr) {
    a in heap
  }

  ghost predicate Disjoint(heap: map<Addr, nat>) {
    && (forall a: Addr {:trigger Block(heap, a)} | Block(heap, a) :: heap[a] > 0)
    && forall a: Addr, b: Addr {:trigger Block(heap, a), Block(heap, b)} | Block(heap, a) && Block(heap, b)
        && a != b :: Apart(a, heap[a], b, heap[b])
  }

  /** Blocks do not overlap, and each has an owner that still refers to it. */
  ghost predicate HeapOk(s: State, owners: map<Addr, Owner>) {
    && s.memory.heap.Keys == owners.Keys && Disjoint(s.memory.heap)
    && forall a | a in owners :: Referred(s, owners[a], a)
  }

  predicate Referred(s: State, o: Owner, a: Addr) {
    && o.t in s.threads && s.threads[o.t].slots.Some?
    && var arr := s.threads[o.t].slots.value;
       match o
       case ArrayOf(_) => arr.block == a
       case ObjectOf(_, k) =>
         && k < |arr.data| && arr.data[k] != 0 && arr.data[k] in s.memory.before
         && s.memory.before[arr.data[k]] == a
  }

  ghost predicate Inv(s: State, names: map<nat, Ctl>, owners: map<Addr, Owner>) {
    && IndicesOk(s, names) && LockOk(s) && HeapOk(s, owners)
    && forall t | t in s.threads :: ThreadOk(s, names, owners, t, s.threads[t])
  }

  // ---------------------------------------------------------------- index steps

  /** A step of one thread on the shared indices leaves the other threads as they are. */
  lemma OthersKeep(s: State, s': State, names: map<nat, Ctl>, names': map<nat, Ctl>, owners: map<Addr, Owner>, u: Tid,
                   th: Thread)
    requires ThreadOk(s, names, owners, u, th) && IndicesOk(s, names)
    requires s'.memory == s.memory && s'.controls.Keys == s.controls.Keys
    requires forall c | c in s.controls && s.controls[c].index != 0 :: s'.controls[c] == s.controls[c]
    requires forall i | i in names :: i in names' && names'[i] == names[i]
    requires Holds(th.pc) ==> s'.controls == s.controls && names' == names && s'.count == s.count
    ensures ThreadOk(s', names', owners, u, th)
  {
    if th.slots.Some? {
      var arr := th.slots.value;
      forall k | 0 <= k < |arr.data| && arr.data[k] != 0
        ensures k + 1 in names' && names'[k + 1] in s'.controls
                && ObjectOk(s'.memory, owners, s'.controls[names'[k + 1]], arr.data[k], u, k)
      {
        assert k + 1 in names;
      }
    }
  }

  /** The step's effect on the indices and on the lock. */
  lemma IndexStepIndices(s: State, names: map<nat, Ctl>, t: Tid) returns (names': map<nat, Ctl>)
    requires IndicesOk(s, names) && t in s.threads && PcOk(s, names, s.threads[t])
    ensures var o := IndexStep(s, t);
            !o.Fault? && !o.Abort? && (o.Next? ==>
                IndicesOk(o.s, names') && IndexEffect(s, o.s, names, names', t) && PcOk(o.s, names', o.s.threads[t]))
  {
    var pc := s.threads[t].pc;
    names' := if pc.Publish? then names[pc.index := pc.c] else names;
  }

  ghost predicate IndexEffect(s: State, s': State, names: map<nat, Ctl>, names': map<nat, Ctl>, t: Tid) {
    && t in s.threads && s'.threads.Keys == s.threads.Keys && s'.memory == s.memory
    && s'.controls.Keys == s.controls.Keys
    && (forall u | u in s.threads && u != t :: s'.threads[u] == s.threads[u])
    && s'.threads[t].slots == s.threads[t].slots
    && (forall c | c in s.controls && s.controls[c].index != 0 :: s'.controls[c] == s.controls[c])
    && (forall i | i in names :: i in names' && names'[i] == names[i])
    && (!Holds(s.threads[t].pc) ==> s'.controls == s.controls && names' == names && s'.count == s.count)
  }

  lemma IndexStepLock(s: State, t: Tid)
    requires LockOk(s) && t in s.threads && IndexStep(s, t).Next?
    ensures LockOk(IndexStep(s, t).s)
  {
    var s' := IndexStep(s, t).s;
    forall u | u in s'.threads ensures Holds(s'.threads[u].pc) <==> s'.lock == Some(u) {
      assert Holds(s.threads[u].pc) <==> s.lock == Some(u);
    }
  }

  lemma IndexEffectKeeps(s: State, s': State, names: map<nat, Ctl>, names': map<nat, Ctl>, owners: map<Addr, Owner>,
                         t: Tid)
    requires Inv(s, names, owners) && IndexEffect(s, s', names, names', t) && PcOk(s', names', s'.threads[t])
    ensures HeapOk(s', owners) && forall u | u in s'.threads :: ThreadOk(s', names', owners, u, s'.threads[u])
  {
    forall u | u in s'.threads ensures ThreadOk(s', names', owners, u, s'.threads[u]) {
      var th := if u == t then s.threads[t].(pc := Idle) else s.threads[u];
      assert ThreadOk(s, names, owners, u, s.threads[u]);
      assert Holds(s.threads[u].pc) <==> s.lock == Some(u);
      assert Holds(s.threads[t].pc) <==> s.lock == Some(t);
      OthersKeep(s, s', names, names', owners, u, th);
    }
    forall a | a in owners ensures Referred(s', owners[a], a) {
      assert Referred(s, owners[a], a);
    }
  }

  lemma IndexStepKeeps(s: State, names: map<nat, Ctl>, owners: map<Addr, Owner>, t: Tid) returns (names': map<nat, Ctl>)
    requires Inv(s, names, owners) && t in s.threads
    ensures var o := IndexStep(s, t); !o.Fault? && !o.Abort? && (o.Next? ==> Inv(o.s, names', owners))
  {
    assert ThreadOk(s, names, owners, t, s.threads[t]);
    names' := IndexStepIndices(s, names, t);
    if IndexStep(s, t).Next? {
      IndexStepLock(s, t);
      IndexEffectKeeps(s, IndexStep(s, t).s, names, names', owners, t);
    }
  }

  // ---------------------------------------------------------------- memory steps

  /** What belongs to other threads stays in place. */
  ghost predicate OthersStay(s: State, m: Memory, owners: map<Addr, Owner>, owners': map<Addr, Owner>, t: Tid) {
    && (forall a | a in owners && owners[a].t != t ::
          a in owners' && owners'[a] == owners[a]
              && (a in s.memory.heap ==> a in m.heap && m.heap[a] == s.memory.heap[a]))
    && (forall u, k: nat | HasObject(s, u, k) && u != t :: SameWord(s.memory, m, s.threads[u].slots.value.data[k]))
  }

  predicate HasObject(s: State, u: Tid, k: nat) {
    u in s.threads && s.threads[u].slots.Some? && k < |s.threads[u].slots.value.data|
        && s.threads[u].slots.value.data[k] != 0
  }

  predicate SameWord(m: Memory, m': Memory, b: Addr) {
    b in m.before ==> b in m'.before && m'.before[b] == m.before[b]
  }

  /** Only the thread's own part of the state changes. */
  ghost predicate OwnEffect(s: State, s': State, t: Tid) {
    && t in s.threads && t in s'.threads && s'.threads.Keys == s.threads.Keys
    && (forall u | u in s.threads && u != t :: s'.threads[u] == s.threads[u])
    && s'.controls == s.controls && s'.count == s.count && s'.lock == s.lock
  }

  lemma OtherThreads(s: State, s': State, names: map<nat, Ctl>, owners: map<Addr, Owner>, owners': map<Addr, Owner>,
                     t: Tid, u: Tid)
    requires u in s.threads && u != t && ThreadOk(s, names, owners, u, s.threads[u])
    requires u in s'.threads && s'.threads[u] == s.threads[u] && s'.controls == s.controls && s'.count == s.count
    requires OthersStay(s, s'.memory, owners, owners', t)
    ensures ThreadOk(s', names, owners', u, s'.threads[u])
  {
    var th := s.threads[u];
    if th.slots.Some? {
      var arr := th.slots.value;
      forall k | 0 <= k < |arr.data| && arr.data[k] != 0
        ensures k + 1 in names && names[k + 1] in s'.controls
                && ObjectOk(s'.memory, owners', s'.controls[names[k + 1]], arr.data[k], u, k)
      {
        assert ObjectOk(s.memory, owners, s.controls[names[k + 1]], arr.data[k], u, k);
        assert HasObject(s, u, k);
      }
    }
  }

  /** The owners after a step of thread `t`: they know the blocks that there are, and the others' are as before. */
  ghost predicate OwnersFollow(s: State, s': State, owners: map<Addr, Owner>, owners': map<Addr, Owner>, t: Tid) {
    && s'.memory.heap.Keys == owners'.Keys && OthersStay(s, s'.memory, owners, owners', t)
    && forall a | a in owners' :: if owners'[a].t == t then Referred(s', owners'[a], a)
         else a in owners && owners[a] == owners'[a]
  }

  /** Enough to re-establish the invariant after a thread has worked on its own array. */
  lemma OwnStepKeeps(s: State, s': State, names: map<nat, Ctl>, owners: map<Addr, Owner>, owners': map<Addr, Owner>,
                     t: Tid)
    requires Inv(s, names, owners) && OwnEffect(s, s', t) && OwnersFollow(s, s', owners, owners', t)
    requires !Holds(s.threads[t].pc) && !Holds(s'.threads[t].pc) && ThreadOk(s', names, owners', t, s'.threads[t])
    requires Disjoint(s'.memory.heap)
    ensures Inv(s', names, owners')
  {
    forall u | u in s'.threads ensures ThreadOk(s', names, owners', u, s'.threads[u]) {
      if u != t {
        OtherThreads(s, s', names, owners, owners', t, u);
      }
    }
    forall u | u in s'.threads ensures Holds(s'.threads[u].pc) <==> s'.lock == Some(u) {
      assert Holds(s.threads[u].pc) <==> s.lock == Some(u);
    }
    forall a | a in owners' && owners'[a].t != t ensures Referred(s', owners'[a], a) {
      assert Referred(s, owners[a], a);
      if owners[a].ObjectOf? {
        assert HasObject(s, owners[a].t, owners[a].k);
      }
    }
  }

  lemma AddBlock(heap: map<Addr, nat>, a: Addr, len: nat)
    requires Disjoint(heap) && FreeAt(heap, a, len)
    ensures a !in heap && Disjoint(heap[a := len])
  {
    var heap' := heap[a := len];
    if a in heap {
      assert Block(heap, a);
    }
    forall b: Addr | Block(heap', b) ensures heap'[b] > 0 {
      assert b == a || Block(heap, b);
    }
    forall b: Addr, d: Addr | Block(heap', b) && Block(heap', d) && b != d ensures Apart(b, heap'[b], d, heap'[d]) {
      assert (b == a || Block(heap, b)) && (d == a || Block(heap, d));
    }
  }

  lemma FewerBlocks(heap: map<Addr, nat>, heap': map<Addr, nat>)
    requires Disjoint(heap) && forall a | a in heap' :: a in heap && heap[a] == heap'[a]
    ensures Disjoint(heap')
  {
    forall b: Addr | Block(heap', b) ensures heap'[b] > 0 {
      assert Block(heap, b);
    }
    forall b: Addr, d: Addr | Block(heap', b) && Block(heap', d) && b != d ensures Apart(b, heap'[b], d, heap'[d]) {
      assert Block(heap, b) && Block(heap, d);
    }
  }

  function WithArrayOwner(s: State, owners: map<Addr, Owner>, t: Tid, given: Addr): map<Addr, Owner>
    requires t in s.threads
  {
    (if s.threads[t].slots.Some? then owners - {s.threads[t].slots.value.block} else owners)[given := ArrayOf(t)]
  }

  ghost predicate CanPlace(s: State, names: map<nat, Ctl>, owners: map<Addr, Owner>, t: Tid, pc: Pc, arr: Array) {
    && t in s.threads && Extends(s.threads[t].slots, arr)
    && (arr.block in owners ==> s.threads[t].slots.Some? && arr.block == s.threads[t].slots.value.block)
    && Disjoint(WithArray(s, t, pc, arr).memory.heap)
    && (s.threads[t].slots.Some? ==>
        s.threads[t].slots.value.block in owners && owners[s.threads[t].slots.value.block] == ArrayOf(t))
  }

  lemma PlacedArrayOk(s: State, names: map<nat, Ctl>, owners: map<Addr, Owner>, t: Tid, pc: Pc, arr: Array)
    requires Inv(s, names, owners) && CanPlace(s, names, owners, t, pc, arr)
    ensures ArrayOk(WithArray(s, t, pc, arr), names, WithArrayOwner(s, owners, t, arr.block), t, arr)
  {
    assert ThreadOk(s, names, owners, t, s.threads[t]);
    var s', owners' := WithArray(s, t, pc, arr), WithArrayOwner(s, owners, t, arr.block);
    forall k | 0 <= k < |arr.data| && arr.data[k] != 0
      ensures k + 1 in names && names[k + 1] in s'.controls
              && ObjectOk(s'.memory, owners', s'.controls[names[k + 1]], arr.data[k], t, k)
    {
      assert arr.data[k] == s.threads[t].slots.value.data[k];
    }
  }

  lemma PlacedReferred(s: State, names: map<nat, Ctl>, owners: map<Addr, Owner>, t: Tid, pc: Pc, arr: Array)
    requires Inv(s, names, owners) && CanPlace(s, names, owners, t, pc, arr)
    ensures var s', owners' := WithArray(s, t, pc, arr), WithArrayOwner(s, owners, t, arr.block);
            forall a | a in owners' && owners'[a].t == t :: Referred(s', owners'[a], a)
  {
    var s', owners' := WithArray(s, t, pc, arr), WithArrayOwner(s, owners, t, arr.block);
    forall a | a in owners' && owners'[a].t == t ensures Referred(s', owners'[a], a) {
      if a != arr.block {
        assert Referred(s, owners[a], a);
        if owners[a].ObjectOf? {
          assert arr.data[owners[a].k] == s.threads[t].slots.value.data[owners[a].k];
        }
      }
    }
  }

  lemma PlacedOthers(s: State, owners: map<Addr, Owner>, t: Tid, pc: Pc, arr: Array)
    requires t in s.threads && s.memory.heap.Keys == owners.Keys
    requires s.threads[t].slots.Some? ==>
               s.threads[t].slots.value.block in owners && owners[s.threads[t].slots.value.block] == ArrayOf(t)
    requires arr.block in owners ==> s.threads[t].slots.Some? && arr.block == s.threads[t].slots.value.block
    ensures var s', owners' := WithArray(s, t, pc, arr), WithArrayOwner(s, owners, t, arr.block);
            && OthersStay(s, s'.memory, owners, owners', t) && s'.memory.heap.Keys == owners'.Keys
            && forall a | a in owners' && owners'[a].t != t :: a in owners && owners[a] == owners'[a]
  {
  }

  lemma PlacedOwners(s: State, names: map<nat, Ctl>, owners: map<Addr, Owner>, t: Tid, pc: Pc, arr: Array)
    requires Inv(s, names, owners) && CanPlace(s, names, owners, t, pc, arr)
    ensures OwnersFollow(s, WithArray(s, t, pc, arr), owners, WithArrayOwner(s, owners, t, arr.block), t)
  {
    PlacedReferred(s, names, owners, t, pc, arr);
    PlacedOthers(s, owners, t, pc, arr);
  }

  lemma PlacedKeeps(s: State, names: map<nat, Ctl>, owners: map<Addr, Owner>, t: Tid, pc: Pc, arr: Array)
    requires Inv(s, names, owners) && CanPlace(s, names, owners, t, pc, arr) && !Holds(s.threads[t].pc) && !Holds(pc)
    requires PcOk(WithArray(s, t, pc, arr), names, Thread(pc, Some(arr)))
    ensures Inv(WithArray(s, t, pc, arr), names, WithArrayOwner(s, owners, t, arr.block))
  {
    PlacedArrayOk(s, names, owners, t, pc, arr);
    PlacedOwners(s, names, owners, t, pc, arr);
    OwnStepKeeps(s, WithArray(s, t, pc, arr), names, owners, WithArrayOwner(s, owners, t, arr.block), t);
  }

  lemma NewArrayKeeps(s: State, names: map<nat, Ctl>, owners: map<Addr, Owner>, t: Tid, arr: Array)
    requires Inv(s, names, owners) && t in s.threads && s.threads[t].pc.NeedArray? && Extends(s.threads[t].slots, arr)
    requires s.threads[t].pc.index <= |arr.data| && FreeAt(HeapLess(s, t), arr.block, ArrayBytes(|arr.data|))
    ensures Inv(WithArray(s, t, Fetch(s.threads[t].pc.c, s.threads[t].pc.index), arr), names,
              WithArrayOwner(s, owners, t, arr.block))
  {
    assert ThreadOk(s, names, owners, t, s.threads[t]);
    FewerBlocks(s.memory.heap, HeapLess(s, t));
    AddBlock(HeapLess(s, t), arr.block, ArrayBytes(|arr.data|));
    PlacedKeeps(s, names, owners, t, Fetch(s.threads[t].pc.c, s.threads[t].pc.index), arr);
  }

  lemma OldArrayKeeps(s: State, names: map<nat, Ctl>, owners: map<Addr, Owner>, t: Tid)
    requires Inv(s, names, owners) && t in s.threads && s.threads[t].pc.NeedArray?
             && !TooSmall(s.threads[t].slots, s.threads[t].pc.index)
    ensures Inv(At(s, t, Fetch(s.threads[t].pc.c, s.threads[t].pc.index)), names, owners)
  {
    PcKeeps(s, names, owners, t, Fetch(s.threads[t].pc.c, s.threads[t].pc.index));
  }

  /** A step that only moves the thread on. */
  lemma PcKeeps(s: State, names: map<nat, Ctl>, owners: map<Addr, Owner>, t: Tid, pc: Pc)
    requires Inv(s, names, owners) && t in s.threads && !Holds(s.threads[t].pc) && !Holds(pc)
             && PcOk(s, names, s.threads[t].(pc := pc))
    ensures Inv(At(s, t, pc), names, owners)
  {
    IndexEffectKeeps(s, At(s, t, pc), names, names, owners, t);
    PcLock(s, t, pc);
    SameIndices(s, names, t, pc);
  }

  lemma PcLock(s: State, t: Tid, pc: Pc)
    requires LockOk(s) && t in s.threads && !Holds(s.threads[t].pc) && !Holds(pc)
    ensures LockOk(At(s, t, pc))
  {
    var s' := At(s, t, pc);
    forall u | u in s'.threads ensures Holds(s'.threads[u].pc) <==> s'.lock == Some(u) {
      assert Holds(s.threads[u].pc) <==> s.lock == Some(u);
    }
  }

  lemma SameIndices(s: State, names: map<nat, Ctl>, t: Tid, pc: Pc)
    requires IndicesOk(s, names) && t in s.threads
    ensures IndicesOk(At(s, t, pc), names)
  {
  }

  lemma ArrayStepKeeps(s: State, names: map<nat, Ctl>, owners: map<Addr, Owner>, t: Tid, given: Addr)
    returns (owners': map<Addr, Owner>)
    requires Inv(s, names, owners) && t in s.threads && s.threads[t].pc.NeedArray?
    ensures s.threads[t].pc.index > 0
    ensures var o := ArrayStep(s, t, s.threads[t].pc.c, s.threads[t].pc.index, given);
            !o.Fault? && !o.Abort? && (o.Next? ==> Inv(o.s, names, owners'))
  {
    var pc, was := s.threads[t].pc, s.threads[t].slots;
    assert ThreadOk(s, names, owners, t, s.threads[t]);
    owners' := owners;
    if !TooSmall(was, pc.index) {
      OldArrayKeeps(s, names, owners, t);
    } else {
      var arr := NewArray(was, pc.index, given);
      if FreeAt(HeapLess(s, t), given, ArrayBytes(|arr.data|)) {
        owners' := WithArrayOwner(s, owners, t, given);
        NewArrayKeeps(s, names, owners, t, arr);
      }
    }
  }

  // ---------------------------------------------------------------- objects

  /** Objects in different blocks are at different addresses. */
  lemma BasesDiffer(heap: map<Addr, nat>, a: Addr, c: Control, x: Addr, b: Addr, d: Control, y: Addr)
    requires Disjoint(heap) && a in heap && b in heap && a != b && heap[a] == ObjectBytes(c)
             && heap[b] == ObjectBytes(d)
    requires Inside(c, a, x) && Inside(d, b, y)
    ensures x != y
  {
    BlocksApart(heap, a, b);
  }

  /** The thread at `Fetch` has no object for the control yet, and the allocator has a block for one at `base`. */
  ghost predicate CanCreate(s: State, names: map<nat, Ctl>, owners: map<Addr, Owner>, t: Tid, given: Addr, base: Addr) {
    && Inv(s, names, owners) && t in s.threads && s.threads[t].pc.Fetch? && ThreadOk(s, names, owners, t, s.threads[t])
    && s.threads[t].slots.value.data[s.threads[t].pc.index - 1] == 0
    && FreeAt(s.memory.heap, given, ObjectBytes(s.controls[s.threads[t].pc.c]))
    && Inside(s.controls[s.threads[t].pc.c], given, base)
  }

  /** The new object's address is nobody else's. */
  lemma NewBase(s: State, names: map<nat, Ctl>, owners: map<Addr, Owner>, t: Tid, given: Addr, base: Addr, u: Tid,
                k: nat)
    requires CanCreate(s, names, owners, t, given, base) && HasObject(s, u, k)
    ensures base != s.threads[u].slots.value.data[k]
  {
    var c := s.controls[s.threads[t].pc.c];
    assert ThreadOk(s, names, owners, u, s.threads[u]);
    var d, b := s.controls[names[k + 1]], s.threads[u].slots.value.data[k];
    assert ObjectOk(s.memory, owners, d, b, u, k);
    AddBlock(s.memory.heap, given, ObjectBytes(c));
    BasesDiffer(s.memory.heap[given := ObjectBytes(c)], given, c, base, s.memory.before[b], d, b);
  }

  lemma CreatedOthers(s: State, names: map<nat, Ctl>, owners: map<Addr, Owner>, t: Tid, given: Addr, base: Addr)
    requires CanCreate(s, names, owners, t, given, base)
    ensures var c, i := s.threads[t].pc.c, s.threads[t].pc.index;
            OthersStay(s, WithObject(s, t, c, i, given, base).memory, owners, owners[given := ObjectOf(t, i - 1)], t)
                && given !in owners
  {
    var c, i := s.threads[t].pc.c, s.threads[t].pc.index;
    assert given !in owners by { AddBlock(s.memory.heap, given, ObjectBytes(s.controls[c])); }
    forall u, k: nat | HasObject(s, u, k) && u != t
      ensures SameWord(s.memory, WithObject(s, t, c, i, given, base).memory, s.threads[u].slots.value.data[k])
    {
      NewBase(s, names, owners, t, given, base, u, k);
    }
  }

  lemma CreatedArrayOk(s: State, names: map<nat, Ctl>, owners: map<Addr, Owner>, t: Tid, given: Addr, base: Addr)
    requires CanCreate(s, names, owners, t, given, base)
    ensures var c, i := s.threads[t].pc.c, s.threads[t].pc.index;
            var s' := WithObject(s, t, c, i, given, base);
            ArrayOk(s', names, owners[given := ObjectOf(t, i - 1)], t, s'.threads[t].slots.value)
  {
    var c, i := s.threads[t].pc.c, s.threads[t].pc.index;
    var s', owners' := WithObject(s, t, c, i, given, base), owners[given := ObjectOf(t, i - 1)];
    AddBlock(s.memory.heap, given, ObjectBytes(s.controls[c]));
    var data, data' := s.threads[t].slots.value.data, s'.threads[t].slots.value.data;
    forall k | 0 <= k < |data'| && data'[k] != 0
      ensures k + 1 in names && names[k + 1] in s'.controls
              && ObjectOk(s'.memory, owners', s'.controls[names[k + 1]], data'[k], t, k)
    {
      if k != i - 1 {
        assert HasObject(s, t, k);
        NewBase(s, names, owners, t, given, base, t, k);
      }
    }
  }

  lemma CreatedReferred(s: State, names: map<nat, Ctl>, owners: map<Addr, Owner>, t: Tid, given: Addr, base: Addr)
    requires CanCreate(s, names, owners, t, given, base)
    ensures var c, i := s.threads[t].pc.c, s.threads[t].pc.index;
            var s', owners' := WithObject(s, t, c, i, given, base), owners[given := ObjectOf(t, i - 1)];
            forall a | a in owners' && owners'[a].t == t :: Referred(s', owners'[a], a)
  {
    var c, i := s.threads[t].pc.c, s.threads[t].pc.index;
    var s', owners' := WithObject(s, t, c, i, given, base), owners[given := ObjectOf(t, i - 1)];
    forall a | a in owners' && owners'[a].t == t ensures Referred(s', owners'[a], a) {
      if a != given {
        assert Referred(s, owners[a], a);
        if owners[a].ObjectOf? {
          assert HasObject(s, t, owners[a].k);
          NewBase(s, names, owners, t, given, base, t, owners[a].k);
        }
      }
    }
  }

  lemma CreatedThreadOk(s: State, names: map<nat, Ctl>, owners: map<Addr, Owner>, t: Tid, given: Addr, base: Addr)
    requires CanCreate(s, names, owners, t, given, base)
    ensures var c, i := s.threads[t].pc.c, s.threads[t].pc.index;
            var s', owners' := WithObject(s, t, c, i, given, base), owners[given := ObjectOf(t, i - 1)];
            ThreadOk(s', names, owners', t, s'.threads[t]) && Disjoint(s'.memory.heap)
  {
    CreatedArrayOk(s, names, owners, t, given, base);
    AddBlock(s.memory.heap, given, ObjectBytes(s.controls[s.threads[t].pc.c]));
  }

  lemma CreatedOwners(s: State, names: map<nat, Ctl>, owners: map<Addr, Owner>, t: Tid, given: Addr, base: Addr)
    requires CanCreate(s, names, owners, t, given, base)
    ensures var c, i := s.threads[t].pc.c, s.threads[t].pc.index;
            OwnersFollow(s, WithObject(s, t, c, i, given, base), owners, owners[given := ObjectOf(t, i - 1)], t)
  {
    CreatedOthers(s, names, owners, t, given, base);
    CreatedReferred(s, names, owners, t, given, base);
  }

  lemma CreatedKeeps(s: State, names: map<nat, Ctl>, owners: map<Addr, Owner>, t: Tid, given: Addr, base: Addr)
    requires CanCreate(s, names, owners, t, given, base)
    ensures var c, i := s.threads[t].pc.c, s.threads[t].pc.index;
            Inv(WithObject(s, t, c, i, given, base), names, owners[given := ObjectOf(t, i - 1)])
  {
    var c, i := s.threads[t].pc.c, s.threads[t].pc.index;
    CreatedOwners(s, names, owners, t, given, base);
    CreatedThreadOk(s, names, owners, t, given, base);
    OwnStepKeeps(s, WithObject(s, t, c, i, given, base), names, owners, owners[given := ObjectOf(t, i - 1)], t);
  }

  /** Only an alignment that is not a power of two makes the program abort. */
  lemma FetchStepKeeps(s: State, names: map<nat, Ctl>, owners: map<Addr, Owner>, t: Tid, given: Addr)
    returns (owners': map<Addr, Owner>)
    requires Inv(s, names, owners) && t in s.threads && s.threads[t].pc.Fetch?
    ensures var o := FetchStep(s, t, s.threads[t].pc.c, s.threads[t].pc.index, given);
            !o.Fault? && (o.Next? ==> Inv(o.s, names, owners'))
  {
    var pc := s.threads[t].pc;
    assert ThreadOk(s, names, owners, t, s.threads[t]);
    owners' := owners;
    var a := s.threads[t].slots.value.data[pc.index - 1];
    if a != 0 {
      assert FetchStep(s, t, pc.c, pc.index, given) == Next(At(s, t, Return(pc.c, a)));
      PcKeeps(s, names, owners, t, Return(pc.c, a));
    } else if AlignOk(s.controls[pc.c]) && FreeAt(s.memory.heap, given, ObjectBytes(s.controls[pc.c])) {
      owners' := owners[given := ObjectOf(t, pc.index - 1)];
      FetchCreates(s, names, owners, t, given);
      CreatedKeeps(s, names, owners, t, given, Base(s.controls[pc.c], given));
    }
  }

  lemma FetchCreates(s: State, names: map<nat, Ctl>, owners: map<Addr, Owner>, t: Tid, given: Addr)
    requires Inv(s, names, owners) && t in s.threads && s.threads[t].pc.Fetch?
    requires ThreadOk(s, names, owners, t, s.threads[t])
    requires s.threads[t].slots.value.data[s.threads[t].pc.index - 1] == 0
    requires var c := s.controls[s.threads[t].pc.c]; AlignOk(c) && FreeAt(s.memory.heap, given, ObjectBytes(c))
    ensures CanCreate(s, names, owners, t, given, Base(s.controls[s.threads[t].pc.c], given))
  {
    RoundedInside(s.controls[s.threads[t].pc.c], given);
  }

  // ---------------------------------------------------------------- the end of a thread

  /** Every object that is freed is a live block of thread `t`; `from` is the place of `data[0]` in the array. */
  ghost predicate CanFree(m: Memory, owners: map<Addr, Owner>, t: Tid, data: seq<Addr>, from: nat) {
    forall k | 0 <= k < |data| && data[k] != 0 ::
      data[k] in m.before && m.before[data[k]] in m.heap && m.before[data[k]] in owners
          && owners[m.before[data[k]]] == ObjectOf(t, from + k)
  }

  ghost predicate IsFreed(m: Memory, data: seq<Addr>, a: Addr) {
    exists k :: 0 <= k < |data| && data[k] != 0 && data[k] in m.before && m.before[data[k]] == a
  }

  lemma {:induction false} FreesExactly(m: Memory, owners: map<Addr, Owner>, t: Tid, data: seq<Addr>, from: nat)
    requires CanFree(m, owners, t, data, from)
    ensures var r := FreeObjects(m, data);
            r.Some? && forall a ::
                (a in r.value <==> a in m.heap && !IsFreed(m, data, a)) && (a in r.value ==> r.value[a] == m.heap[a])
    decreases |data|
  {
    if data != [] {
      var rest := data[1..];
      assert forall k | 0 <= k < |rest| :: rest[k] == data[k + 1];
      var m' := if data[0] == 0 then m else m.(heap := m.heap - {m.before[data[0]]});
      assert CanFree(m', owners, t, rest, from + 1) by {
        forall k | 0 <= k < |rest| && rest[k] != 0
          ensures rest[k] in m'.before && m'.before[rest[k]] in m'.heap && m'.before[rest[k]] in owners
                  && owners[m'.before[rest[k]]] == ObjectOf(t, from + 1 + k)
        {
          assert data[k + 1] != 0;
        }
      }
      FreesExactly(m', owners, t, rest, from + 1);
      forall a ensures IsFreed(m, data, a) <==> (data[0] != 0 && m.before[data[0]] == a) || IsFreed(m', rest, a) {
        FreedSplit(m, m', data, a);
      }
    }
  }

  lemma FreedSplit(m: Memory, m': Memory, data: seq<Addr>, a: Addr)
    requires data != [] && m'.before == m.before && (data[0] != 0 ==> data[0] in m.before)
    ensures IsFreed(m, data, a) <==> (data[0] != 0 && m.before[data[0]] == a) || IsFreed(m', data[1..], a)
  {
    var rest := data[1..];
    if IsFreed(m, data, a) {
      var k :| 0 <= k < |data| && data[k] != 0 && data[k] in m.before && m.before[data[k]] == a;
      assert k > 0 ==> rest[k - 1] == data[k];
    }
    if IsFreed(m', rest, a) {
      var k :| 0 <= k < |rest| && rest[k] != 0 && rest[k] in m'.before && m'.before[rest[k]] == a;
      assert data[k + 1] == rest[k];
    }
  }

  function WithoutOwner(owners: map<Addr, Owner>, t: Tid): map<Addr, Owner> {
    map a | a in owners && owners[a].t != t :: owners[a]
  }

  /** The blocks that a thread owns are its array and those found through the words before its objects. */
  lemma OwnedBlocks(s: State, names: map<nat, Ctl>, owners: map<Addr, Owner>, t: Tid)
    requires Inv(s, names, owners) && t in s.threads && s.threads[t].slots.Some?
    ensures var arr := s.threads[t].slots.value;
            && CanFree(s.memory, owners, t, arr.data, 0) && arr.block in owners && owners[arr.block] == ArrayOf(t)
            && forall a | a in owners :: owners[a].t == t <==> a == arr.block || IsFreed(s.memory, arr.data, a)
  {
    assert ThreadOk(s, names, owners, t, s.threads[t]);
    var arr, m := s.threads[t].slots.value, s.memory;
    forall k | 0 <= k < |arr.data| && arr.data[k] != 0
      ensures arr.data[k] in m.before && m.before[arr.data[k]] in m.heap && m.before[arr.data[k]] in owners
              && owners[m.before[arr.data[k]]] == ObjectOf(t, 0 + k)
    {
      assert ObjectOk(m, owners, s.controls[names[k + 1]], arr.data[k], t, k);
    }
    forall a | a in owners ensures owners[a].t == t <==> a == arr.block || IsFreed(m, arr.data, a) {
      assert Referred(s, owners[a], a);
    }
  }

  /** At the end of a thread exactly its own blocks are freed. */
  ghost predicate ExitEffect(s: State, s': State, owners: map<Addr, Owner>, t: Tid) {
    && t in s.threads && s'.threads == s.threads - {t} && s'.controls == s.controls && s'.count == s.count
    && s'.lock == s.lock
    && s'.memory.before == s.memory.before && s'.memory.heap.Keys == WithoutOwner(owners, t).Keys
    && forall a | a in s'.memory.heap :: a in s.memory.heap && s'.memory.heap[a] == s.memory.heap[a]
  }

  lemma FreesRest(m: Memory, owners: map<Addr, Owner>, t: Tid, arr: Array)
    requires CanFree(m, owners, t, arr.data, 0) && arr.block in owners && owners[arr.block] == ArrayOf(t)
             && m.heap.Keys == owners.Keys
    requires forall a | a in owners :: owners[a].t == t <==> a == arr.block || IsFreed(m, arr.data, a)
    ensures var r := FreeObjects(m, arr.data);
            && r.Some? && arr.block in r.value && (r.value - {arr.block}).Keys == WithoutOwner(owners, t).Keys
            && forall a | a in r.value :: a in m.heap && r.value[a] == m.heap[a]
  {
    FreesExactly(m, owners, t, arr.data, 0);
    var r := FreeObjects(m, arr.data).value;
    forall a ensures a in r - {arr.block} <==> a in WithoutOwner(owners, t) {}
  }

  lemma ExitFrees(s: State, names: map<nat, Ctl>, owners: map<Addr, Owner>, t: Tid)
    requires Inv(s, names, owners) && t in s.threads && s.threads[t].pc.Idle?
    ensures ExitStep(s, t).Next? && ExitEffect(s, ExitStep(s, t).s, owners, t)
  {
    if s.threads[t].slots.Some? {
      var arr := s.threads[t].slots.value;
      OwnedBlocks(s, names, owners, t);
      FreesRest(s.memory, owners, t, arr);
      var heap := FreeObjects(s.memory, arr.data).value - {arr.block};
      assert ExitStep(s, t) == Next(s.(threads := s.threads - {t}, memory := s.memory.(heap := heap)));
    } else {
      forall a | a in owners ensures owners[a].t != t {
        assert Referred(s, owners[a], a);
      }
    }
  }

  lemma ExitThreads(s: State, s': State, names: map<nat, Ctl>, owners: map<Addr, Owner>, t: Tid)
    requires Inv(s, names, owners) && ExitEffect(s, s', owners, t)
    ensures forall u | u in s'.threads :: ThreadOk(s', names, WithoutOwner(owners, t), u, s'.threads[u])
  {
    var owners' := WithoutOwner(owners, t);
    forall u | u in s'.threads ensures ThreadOk(s', names, owners', u, s'.threads[u]) {
      assert ThreadOk(s, names, owners, u, s.threads[u]);
      OtherThreads(s, s', names, owners, owners', t, u);
    }
  }

  lemma ExitKeeps(s: State, s': State, names: map<nat, Ctl>, owners: map<Addr, Owner>, t: Tid)
    requires Inv(s, names, owners) && ExitEffect(s, s', owners, t) && s.threads[t].pc.Idle?
    ensures Inv(s', names, WithoutOwner(owners, t))
  {
    ExitThreads(s, s', names, owners, t);
    ExitLock(s, s', owners, t);
    ExitReferred(s, s', owners, t);
    FewerBlocks(s.memory.heap, s'.memory.heap);
  }

  lemma ExitLock(s: State, s': State, owners: map<Addr, Owner>, t: Tid)
    requires LockOk(s) && t in s.threads && ExitEffect(s, s', owners, t) && s.threads[t].pc.Idle?
    ensures LockOk(s')
  {
    forall u | u in s'.threads ensures Holds(s'.threads[u].pc) <==> s'.lock == Some(u) {
      assert Holds(s.threads[u].pc) <==> s.lock == Some(u);
    }
    assert Holds(s.threads[t].pc) <==> s.lock == Some(t);
  }

  lemma ExitReferred(s: State, s': State, owners: map<Addr, Owner>, t: Tid)
    requires HeapOk(s, owners) && t in s.threads && ExitEffect(s, s', owners, t)
    ensures forall a | a in WithoutOwner(owners, t) :: Referred(s', WithoutOwner(owners, t)[a], a)
  {
    forall a | a in WithoutOwner(owners, t) ensures Referred(s', WithoutOwner(owners, t)[a], a) {
      assert Referred(s, owners[a], a);
    }
  }

  // ---------------------------------------------------------------- every run

  lemma NewThreadOthers(s: State, s': State, names: map<nat, Ctl>, owners: map<Addr, Owner>, t: Tid, pc: Pc)
    requires Inv(s, names, owners) && t !in s.threads && s' == s.(threads := s.threads[t := Thread(pc, None)])
             && PcOk(s, names, Thread(pc, None))
    ensures forall u | u in s'.threads :: ThreadOk(s', names, owners, u, s'.threads[u])
  {
    forall u | u in s'.threads ensures ThreadOk(s', names, owners, u, s'.threads[u]) {
      if u != t {
        assert ThreadOk(s, names, owners, u, s.threads[u]);
        OtherThreads(s, s', names, owners, owners, t, u);
      }
    }
  }

  lemma NewThreadKeeps(s: State, s': State, names: map<nat, Ctl>, owners: map<Addr, Owner>, t: Tid, c: Ctl)
    requires Inv(s, names, owners) && t !in s.threads && c in s.controls
             && s' == s.(threads := s.threads[t := Thread(Look(c), None)])
    ensures Inv(s', names, owners)
  {
    NewThreadOthers(s, s', names, owners, t, Look(c));
    forall u | u in s'.threads ensures Holds(s'.threads[u].pc) <==> s'.lock == Some(u) {}
    forall a | a in owners ensures Referred(s', owners[a], a) {
      assert Referred(s, owners[a], a);
    }
  }

  lemma GoKeeps(s: State, names: map<nat, Ctl>, owners: map<Addr, Owner>, t: Tid, given: Addr)
    returns (names': map<nat, Ctl>, owners': map<Addr, Owner>)
    requires Inv(s, names, owners) && t in s.threads
    ensures var o := Step(s, Go(t, given)); !o.Fault? && (o.Next? ==> Inv(o.s, names', owners'))
  {
    names', owners' := names, owners;
    var pc := s.threads[t].pc;
    if pc.NeedArray? {
      owners' := ArrayStepKeeps(s, names, owners, t, given);
    } else if pc.Fetch? {
      owners' := FetchStepKeeps(s, names, owners, t, given);
    } else if pc.Return? {
      PcKeeps(s, names, owners, t, Idle);
    } else {
      names' := IndexStepKeeps(s, names, owners, t);
    }
  }

  /** No step faults, and every step keeps the invariant. */
  lemma StepKeeps(s: State, names: map<nat, Ctl>, owners: map<Addr, Owner>, a: Action)
    returns (names': map<nat, Ctl>, owners': map<Addr, Owner>)
    requires Inv(s, names, owners)
    ensures var o := Step(s, a); !o.Fault? && (o.Next? ==> Inv(o.s, names', owners'))
  {
    names', owners' := names, owners;
    match a
    case Call(t, c) =>
      if c in s.controls && t !in s.threads {
        NewThreadKeeps(s, s.(threads := s.threads[t := Thread(Look(c), None)]), names, owners, t, c);
      } else if c in s.controls && s.threads[t].pc.Idle? {
        PcKeeps(s, names, owners, t, Look(c));
      }
    case Go(t, given) =>
      if t in s.threads {
        names', owners' := GoKeeps(s, names, owners, t, given);
      }
    case Exit(t) =>
      if t in s.threads && s.threads[t].pc.Idle? {
        ExitFrees(s, names, owners, t);
        owners' := WithoutOwner(owners, t);
        ExitKeeps(s, ExitStep(s, t).s, names, owners, t);
      }
  }

  /** Before any thread has asked for anything. */
  predicate Fresh(s: State) {
    && (forall c | c in s.controls :: s.controls[c].index == 0)
    && s.count == 0 && s.lock == None && s.threads == map[] && s.memory.heap == map[]
  }

  /** Blocked steps are not taken; an abort ends the run. */
  function Run(s: State, acts: seq<Action>): Outcome
    decreases |acts|
  {
    if acts == [] then Next(s)
    else
      var o := Step(s, acts[0]);
      if o.Fault? || o.Abort? then o else Run(if o.Next? then o.s else s, acts[1..])
  }

  /**
    * In every run from the start the invariant holds, and there is no access outside an array or to a block that is not
    * there.
    */
  lemma {:induction false} RunKeeps(s: State, names: map<nat, Ctl>, owners: map<Addr, Owner>, acts: seq<Action>)
    returns (names': map<nat, Ctl>, owners': map<Addr, Owner>)
    requires Inv(s, names, owners)
    ensures !Run(s, acts).Fault? && (Run(s, acts).Next? ==> Inv(Run(s, acts).s, names', owners'))
    decreases |acts|
  {
    names', owners' := names, owners;
    if acts != [] {
      var names1, owners1 := StepKeeps(s, names, owners, acts[0]);
      var o := Step(s, acts[0]);
      if o.Next? {
        names', owners' := RunKeeps(o.s, names1, owners1, acts[1..]);
      } else if o.Blocked? {
        names', owners' := RunKeeps(s, names, owners, acts[1..]);
      }
    }
  }

  lemma FreshInv(s: State)
    requires Fresh(s)
    ensures Inv(s, map[], map[])
  {
  }

  // ---------------------------------------------------------------- what the threads see

  /** An index that is set does not change, and a thread keeps the address it has for a control. */
  predicate Kept(s: State, s': State, t: Tid, c: Ctl) {
    c in s.controls && s.controls[c].index != 0 ==>
      && c in s'.controls && s'.controls[c] == s.controls[c]
      && (t in s.threads && AddressOf(s, s.threads[t], c) != 0 ==>
          t in s'.threads && AddressOf(s', s'.threads[t], c) == AddressOf(s, s.threads[t], c))
  }

  lemma IndexStepStable(s: State, names: map<nat, Ctl>, u: Tid, t: Tid, c: Ctl)
    requires IndicesOk(s, names) && u in s.threads && PcOk(s, names, s.threads[u]) && IndexStep(s, u).Next?
    ensures Kept(s, IndexStep(s, u).s, t, c)
  {
    var names' := IndexStepIndices(s, names, u);
  }

  lemma ArrayStepStable(s: State, u: Tid, d: Ctl, index: nat, given: Addr, t: Tid, c: Ctl)
    requires u in s.threads && index > 0 && ArrayStep(s, u, d, index, given).Next?
    ensures Kept(s, ArrayStep(s, u, d, index, given).s, t, c)
  {
  }

  lemma FetchStepStable(s: State, u: Tid, d: Ctl, index: nat, given: Addr, t: Tid, c: Ctl)
    requires u in s.threads && FetchStep(s, u, d, index, given).Next?
    ensures Kept(s, FetchStep(s, u, d, index, given).s, t, c)
  {
  }

  lemma StepStable(s: State, names: map<nat, Ctl>, a: Action, t: Tid, c: Ctl)
    requires IndicesOk(s, names) && forall u | u in s.threads :: PcOk(s, names, s.threads[u])
    requires Step(s, a).Next? && a != Exit(t)
    ensures Kept(s, Step(s, a).s, t, c)
  {
    if a.Go? && a.t in s.threads {
      var pc := s.threads[a.t].pc;
      assert PcOk(s, names, s.threads[a.t]);
      match pc
      case NeedArray(d, i) => ArrayStepStable(s, a.t, d, i, a.given, t, c);
      case Fetch(d, i) => FetchStepStable(s, a.t, d, i, a.given, t, c);
      case Return(_, _) =>
      case _ => IndexStepStable(s, names, a.t, t, c);
    }
  }

  lemma PcsOk(s: State, names: map<nat, Ctl>, owners: map<Addr, Owner>)
    requires Inv(s, names, owners)
    ensures forall u | u in s.threads :: PcOk(s, names, s.threads[u])
  {
    forall u | u in s.threads ensures PcOk(s, names, s.threads[u]) {
      assert ThreadOk(s, names, owners, u, s.threads[u]);
    }
  }

  /**
    * The address of a thread's object for a control is the same at the end of a run, however often the array has grown.
    */
  lemma {:induction false} RunStable(s: State, names: map<nat, Ctl>, owners: map<Addr, Owner>, acts: seq<Action>,
                                     t: Tid, c: Ctl)
    requires Inv(s, names, owners) && c in s.controls && t in s.threads && AddressOf(s, s.threads[t], c) != 0
    requires Exit(t) !in acts && Run(s, acts).Next?
    ensures var s' := Run(s, acts).s;
            && t in s'.threads && c in s'.controls && s'.controls[c] == s.controls[c]
            && AddressOf(s', s'.threads[t], c) == AddressOf(s, s.threads[t], c)
    decreases |acts|
  {
    if acts != [] {
      assert acts[0] in acts;
      var names1, owners1 := StepKeeps(s, names, owners, acts[0]);
      var o := Step(s, acts[0]);
      if o.Next? {
        PcsOk(s, names, owners);
        StepStable(s, names, acts[0], t, c);
        RunStable(o.s, names1, owners1, acts[1..], t, c);
      } else {
        RunStable(s, names, owners, acts[1..], t, c);
      }
    }
  }

  /** Distinct controls never share an index. */
  lemma IndicesDistinct(s: State, names: map<nat, Ctl>, owners: map<Addr, Owner>, c: Ctl, d: Ctl)
    requires Inv(s, names, owners) && c in s.controls && d in s.controls && c != d
    ensures s.controls[c].index == s.controls[d].index ==> s.controls[c].index == 0
  {
  }

  /** Where the object at a thread's address for a control is. */
  lemma InsideBlock(s: State, names: map<nat, Ctl>, owners: map<Addr, Owner>, t: Tid, c: Ctl)
    requires Inv(s, names, owners) && t in s.threads && c in s.controls && AddressOf(s, s.threads[t], c) != 0
    ensures var a := AddressOf(s, s.threads[t], c);
            && AlignedFor(s.controls[c].align, a) && a in s.memory.before
            && var start := s.memory.before[a];
               start in s.memory.heap && start <= a - WORD && a + s.controls[c].size <= start + s.memory.heap[start]
               && start in owners && owners[start] == ObjectOf(t, s.controls[c].index - 1)
  {
    assert ThreadOk(s, names, owners, t, s.threads[t]);
    var a := AddressOf(s, s.threads[t], c);
    assert ObjectOk(s.memory, owners, s.controls[c], a, t, s.controls[c].index - 1);
    AlignedMeans(s.controls[c], a);
  }

  /**
    * What a call returns is the thread's object for the control: aligned, and inside a live block that is at least as
    * long.
    */
  lemma ReturnedObject(s: State, names: map<nat, Ctl>, owners: map<Addr, Owner>, t: Tid)
    requires Inv(s, names, owners) && t in s.threads && s.threads[t].pc.Return?
    ensures var c, a := s.threads[t].pc.c, s.threads[t].pc.a;
            && c in s.controls && a == AddressOf(s, s.threads[t], c) && a != 0
            && AlignedFor(s.controls[c].align, a) && a in s.memory.before
            && var start := s.memory.before[a];
               start in s.memory.heap && start <= a - WORD && a + s.controls[c].size <= start + s.memory.heap[start]
  {
    assert ThreadOk(s, names, owners, t, s.threads[t]);
    InsideBlock(s, names, owners, t, s.threads[t].pc.c);
  }

  /** A thread's array has room for its two words and all its addresses, and no other block reaches into it. */
  lemma ArrayInside(s: State, names: map<nat, Ctl>, owners: map<Addr, Owner>, t: Tid)
    requires Inv(s, names, owners) && t in s.threads && s.threads[t].slots.Some?
    ensures var arr := s.threads[t].slots.value; var end := arr.block + 8 * (2 + |arr.data|);
            && arr.block in s.memory.heap && end <= arr.block + s.memory.heap[arr.block]
            && forall b | b in s.memory.heap && b != arr.block :: end <= b || b + s.memory.heap[b] <= arr.block
  {
    assert ThreadOk(s, names, owners, t, s.threads[t]);
    var arr := s.threads[t].slots.value;
    forall b | b in s.memory.heap && b != arr.block
      ensures Apart(arr.block, s.memory.heap[arr.block], b, s.memory.heap[b])
    {
      assert Block(s.memory.heap, arr.block) && Block(s.memory.heap, b);
    }
  }

  /** The objects of different threads or different controls do not overlap. */
  lemma ObjectsApart(s: State, names: map<nat, Ctl>, owners: map<Addr, Owner>, t: Tid, c: Ctl, u: Tid, d: Ctl)
    requires Inv(s, names, owners) && t in s.threads && u in s.threads && c in s.controls && d in s.controls
             && (t != u || c != d)
    requires AddressOf(s, s.threads[t], c) != 0 && AddressOf(s, s.threads[u], d) != 0
    ensures var a, b := AddressOf(s, s.threads[t], c), AddressOf(s, s.threads[u], d);
            a + s.controls[c].size <= b - 8 || b + s.controls[d].size <= a - 8
  {
    InsideBlock(s, names, owners, t, c);
    InsideBlock(s, names, owners, u, d);
    if t == u {
      IndicesDistinct(s, names, owners, c, d);
    }
    var a, b := s.memory.before[AddressOf(s, s.threads[t], c)], s.memory.before[AddressOf(s, s.threads[u], d)];
    BlocksApart(s.memory.heap, a, b);
  }

  lemma BlocksApart(heap: map<Addr, nat>, a: Addr, b: Addr)
    requires Disjoint(heap) && a in heap && b in heap && a != b
    ensures Apart(a, heap[a], b, heap[b])
  {
    assert Block(heap, a) && Block(heap, b);
  }

  /** At any point of any run from the start: what the threads see. */
  lemma EveryRun(s0: State, acts: seq<Action>, t: Tid, c: Ctl, u: Tid, d: Ctl)
    requires Fresh(s0) && Run(s0, acts).Next?
    requires var s := Run(s0, acts).s;
             c in s.controls && d in s.controls && t in s.threads && u in s.threads && (t != u || c != d)
    ensures var s := Run(s0, acts).s; c != d && s.controls[c].index == s.controls[d].index ==> s.controls[c].index == 0
    ensures var s := Run(s0, acts).s;
            var a, b := AddressOf(s, s.threads[t], c), AddressOf(s, s.threads[u], d);
            a != 0 && b != 0 ==> a + s.controls[c].size <= b - 8 || b + s.controls[d].size <= a - 8
    ensures var s := Run(s0, acts).s; var pc := s.threads[t].pc;
            pc.Return? ==>
              && pc.c in s.controls && pc.a == AddressOf(s, s.threads[t], pc.c) && pc.a != 0
              && AlignedFor(s.controls[pc.c].align, pc.a)
  {
    FreshInv(s0);
    var names, owners := RunKeeps(s0, map[], map[], acts);
    var s := Run(s0, acts).s;
    if c != d {
      IndicesDistinct(s, names, owners, c, d);
    }
    if AddressOf(s, s.threads[t], c) != 0 && AddressOf(s, s.threads[u], d) != 0 {
      ObjectsApart(s, names, owners, t, c, u, d);
    }
    if s.threads[t].pc.Return? {
      ReturnedObject(s, names, owners, t);
    }
  }

  /**
    * The program aborts exactly when an object is to be created whose alignment is more than that of a pointer and no
    * power of two.
    */
  lemma AbortsIff(s: State, names: map<nat, Ctl>, owners: map<Addr, Owner>, t: Tid, given: Addr)
    requires Inv(s, names, owners) && t in s.threads
    ensures Step(s, Go(t, given)).Abort? <==>
              s.threads[t].pc.Fetch? && AddressOf(s, s.threads[t], s.threads[t].pc.c) == 0
                  && s.controls[s.threads[t].pc.c].align > 8 && !IsPow2(s.controls[s.threads[t].pc.c].align)
  {
    assert ThreadOk(s, names, owners, t, s.threads[t]);
    if s.threads[t].pc.Fetch? {
      PowerTest(Align(s.controls[s.threads[t].pc.c]));
      assert Pow2(3) == 8;
    }
  }

  predicate Covers(a: Addr, len: nat, x: nat) {
    a <= x < a + len
  }

  /** A region is free exactly if none of its bytes is in a block. */
  lemma FreeMeans(heap: map<Addr, nat>, a: Addr, len: nat)
    requires a > 0 && len > 0 && forall b | b in heap :: heap[b] > 0
    ensures FreeAt(heap, a, len) <==> forall b: Addr, x: nat | b in heap && Covers(b, heap[b], x) :: !Covers(a, len, x)
  {
    if !FreeAt(heap, a, len) {
      var b: Addr :| b in heap && !(a + len <= b || b + heap[b] <= a);
      var x := if a <= b then b else a;
      assert Covers(b, heap[b], x) && Covers(a, len, x);
    } else {
      forall b: Addr, x: nat | b in heap && Covers(b, heap[b], x) ensures !Covers(a, len, x) {
      }
    }
  }

  /** There is always a free region, behind all blocks. */
  lemma {:induction false} FreeSomewhere(heap: map<Addr, nat>) returns (a: Addr)
    ensures a > 0 && forall b | b in heap :: b + heap[b] <= a
    decreases |heap|
  {
    if heap == map[] {
      a := 1;
    } else {
      var c :| c in heap;
      var less := heap - {c};
      assert |less.Keys| < |heap.Keys| by { assert less.Keys == heap.Keys - {c}; }
      var a' := FreeSomewhere(less);
      a := if a' < c + heap[c] then c + heap[c] else a';
      forall b | b in heap ensures b + heap[b] <= a {
        assert b == c || b in less;
      }
    }
  }

  /**
    * No deadlock: a thread inside a call goes on, unless another one holds the lock that it waits for, or the alignment
    * makes the program abort; and who holds the lock does not wait.
    */
  lemma GoesOn(s: State, names: map<nat, Ctl>, owners: map<Addr, Owner>, t: Tid) returns (given: Addr)
    requires Inv(s, names, owners) && t in s.threads && !s.threads[t].pc.Idle?
    ensures if s.threads[t].pc.Lock? && s.lock.Some? then
              && s.lock.value in s.threads && s.lock.value != t
              && !s.threads[s.lock.value].pc.Lock? && !s.threads[s.lock.value].pc.Idle?
            else Step(s, Go(t, given)).Next? || Step(s, Go(t, given)).Abort?
  {
    assert ThreadOk(s, names, owners, t, s.threads[t]);
    given := FreeSomewhere(s.memory.heap);
    if s.lock.Some? {
      assert Holds(s.threads[s.lock.value].pc);
    }
    if s.threads[t].pc.NeedArray? {
      NeedGoesOn(s, names, owners, t, given);
    } else if s.threads[t].pc.Fetch? {
      assert ObjectBytes(s.controls[s.threads[t].pc.c]) > 0;
    }
  }

  lemma NeedGoesOn(s: State, names: map<nat, Ctl>, owners: map<Addr, Owner>, t: Tid, given: Addr)
    requires Inv(s, names, owners) && t in s.threads && s.threads[t].pc.NeedArray?
    requires given > 0 && forall b | b in s.memory.heap :: b + s.memory.heap[b] <= given
    ensures Step(s, Go(t, given)).Next?
  {
    assert ThreadOk(s, names, owners, t, s.threads[t]);
    assert forall b | b in HeapLess(s, t) :: b in s.memory.heap;
  }

  /** When all threads have ended, nothing is left allocated. */
  lemma NothingLeaks(s: State, names: map<nat, Ctl>, owners: map<Addr, Owner>)
    requires Inv(s, names, owners) && s.threads == map[]
    ensures s.memory.heap == map[]
  {
    forall a | a in s.memory.heap ensures false {
      OwnerIsThere(s, names, owners, a);
    }
    assert s.memory.heap.Keys == {};
  }

  lemma OwnerIsThere(s: State, names: map<nat, Ctl>, owners: map<Addr, Owner>, a: Addr)
    requires Inv(s, names, owners) && a in s.memory.heap
    ensures a in owners && owners[a].t in s.threads
  {
    assert a in owners;
    assert Referred(s, owners[a], a);
  }
}
