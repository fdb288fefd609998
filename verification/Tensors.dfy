/** Storing array literals (src/arrays.cc: StoreArray, StoreArrayValue, expandArrayInitializer). */
module Tensors {
  import opened Bits

  /** A literal of some rank: the bytes of one element, or rows of lower rank. */
  datatype Lit = Elem(bytes: seq<Byte>) | Rows(rows: seq<Lit>)

  /** Products as repeated sums, which keeps the proofs linear. */
  function Times(k: nat, n: nat): nat {
    if k == 0 then 0 else Times(k - 1, n) + n
  }

  lemma {:induction false} TimesIsProduct(k: nat, n: nat)
    ensures Times(k, n) == k * n
  {
    if k > 0 {
      TimesIsProduct(k - 1, n);
    }
  }

  lemma {:induction false} TimesMonotone(a: nat, b: nat, n: nat)
    requires a <= b
    ensures Times(a, n) <= Times(b, n)
  {
    if a < b {
      TimesMonotone(a, b - 1, n);
    }
  }

  lemma {:induction false} Distribute(a: nat, b: nat, n: nat)
    ensures Times(a + b, n) == Times(a, n) + Times(b, n)
  {
    if b > 0 {
      Distribute(a, b - 1, n);
    }
  }

  lemma {:induction false} Associate(a: nat, b: nat, c: nat)
    ensures Times(a, Times(b, c)) == Times(Times(a, b), c)
  {
    if a > 0 {
      Associate(a - 1, b, c);
      Distribute(Times(a - 1, b), b, c);
    }
  }

  /** The number of bytes of a tensor with these dimensions and this element size. */
  function Size(dims: seq<nat>, es: nat): nat {
    if dims == [] then es else Times(dims[0], Size(dims[1..], es))
  }

  /** The literal has the target's rank and is nowhere larger than the target. */
  predicate FitsIn(lit: Lit, dims: seq<nat>, es: nat) {
    match lit
    case Elem(b) => dims == [] && |b| == es
    case Rows(rows) => dims != [] && |rows| <= dims[0] && forall i | 0 <= i < |rows| :: FitsIn(rows[i], dims[1..], es)
  }

  function Zeros(n: nat): (z: seq<Byte>)
    ensures |z| == n && forall k | 0 <= k < n :: z[k] == 0
  {
    seq(n, _ => 0)
  }

  /** What memory is to hold: the rows one after the other, and zeros for the missing ones. */
  function Image(lit: Lit, dims: seq<nat>, es: nat): (r: seq<Byte>)
    requires FitsIn(lit, dims, es)
    ensures |r| == Size(dims, es)
    decreases lit, 1
  {
    match lit
    case Elem(b) => b
    case Rows(rows) =>
      var n := Size(dims[1..], es);
      TimesMonotone(|rows|, dims[0], n);
      RowImages(lit, |rows|, dims, es) + Zeros(Times(dims[0], n) - Times(|rows|, n))
  }

  /** The images of the first `k` rows. */
  function RowImages(lit: Lit, k: nat, dims: seq<nat>, es: nat): (r: seq<Byte>)
    requires FitsIn(lit, dims, es) && lit.Rows? && k <= |lit.rows|
    ensures |r| == Times(k, Size(dims[1..], es))
    decreases lit, 0, k
  {
    if k == 0 then []
    else
      var n := Size(dims[1..], es);
      RowImages(lit, k - 1, dims, es) + Image(lit.rows[k - 1], dims[1..], es)
  }

  // ---------------------------------------------------------------- storing

  /** Memory that counts the writes to each byte. */
  class Memory {
    const bytes: array<Byte>
    ghost var writes: seq<nat>

    constructor (n: nat)
      ensures fresh(bytes) && bytes.Length == n == |writes| && forall k | 0 <= k < n :: writes[k] == 0
    {
      bytes := new Byte[n];
      writes := seq(n, _ => 0);
    }

    ghost predicate Valid()
      reads this
    {
      |writes| == bytes.Length
    }

    /** The bytes `w` have been written to `[adr..]`, each of them once. */
    twostate predicate Wrote(adr: nat, w: seq<Byte>)
      reads this, bytes
    {
      && |old(writes)| == |writes| == bytes.Length && adr + |w| <= bytes.Length
      && (forall k | 0 <= k < bytes.Length :: bytes[k] == if adr <= k < adr + |w| then w[k - adr] else old(bytes[k]))
      && (forall k | 0 <= k < bytes.Length :: writes[k] == if adr <= k < adr + |w| then old(writes)[k] + 1
          else old(writes)[k])
    }

    method Store(adr: nat, w: seq<Byte>)
      requires Valid() && adr + |w| <= bytes.Length
      modifies this, bytes
      ensures Wrote(adr, w)
    {
      forall k | 0 <= k < |w| {
        bytes[adr + k] := w[k];
      }
      writes := seq(bytes.Length, k requires 0 <= k < |old(writes)| => if adr <= k < adr + |w| then old(writes)[k] + 1
          else old(writes)[k]);
    }

    method Memset(adr: nat, n: nat)
      requires Valid() && adr + n <= bytes.Length
      modifies this, bytes
      ensures Wrote(adr, Zeros(n))
    {
      Store(adr, Zeros(n));
    }

    /** The bytes of a row of elements as one value. */
    method StoreRow(adr: nat, lit: Lit, ghost es: nat, ghost dims: seq<nat>)
      requires Valid() && lit.Rows? && FitsIn(lit, dims, es) && |dims| == 1
               && adr + Times(|lit.rows|, es) <= bytes.Length
      modifies this, bytes
      ensures Wrote(adr, RowImages(lit, |lit.rows|, dims, es))
    {
      var w: seq<Byte> := [];
      for i := 0 to |lit.rows|
        invariant w == RowImages(lit, i, dims, es)
      {
        assert FitsIn(lit.rows[i], dims[1..], es);
        w := w + lit.rows[i].bytes;
      }
      Store(adr, w);
    }

    /** `sizes[depth]` is the size of a tensor of the last dimensions from `depth` on. */
    method StoreArray(adr: nat, lit: Lit, sizes: seq<nat>, depth: nat, ghost dims: seq<nat>, ghost es: nat)
      requires Valid() && |sizes| == |dims| + 1 && (forall j | 0 <= j <= |dims| :: sizes[j] == Size(dims[j..], es))
      requires depth < |dims| && lit.Rows? && FitsIn(lit, dims[depth..], es) && adr + sizes[depth] <= bytes.Length
      modifies this, bytes
      ensures Wrote(adr, Image(lit, dims[depth..], es))
      decreases lit, 1
    {
      var nelem := |lit.rows|;
      var sz := sizes[depth];
      var sz2 := nelem * sizes[depth + 1];
      ghost var here := dims[depth..];
      assert here[1..] == dims[depth + 1..];
      TimesIsProduct(nelem, sizes[depth + 1]);
      TimesMonotone(nelem, here[0], sizes[depth + 1]);
      if depth + 1 < |sizes| - 1 {
        StoreRows(adr, lit, sizes, depth, dims, es);
      } else {
        assert here == [here[0]] && sizes[depth + 1] == es;
        StoreRow(adr, lit, es, here);
      }
      Memset(adr + sz2, sz - sz2);
      assert Image(lit, here, es) == RowImages(lit, nelem, here, es) + Zeros(sz - sz2);
    }

    /** The rows one after the other, each as a tensor of lower rank. */
    method StoreRows(adr: nat, lit: Lit, sizes: seq<nat>, depth: nat, ghost dims: seq<nat>, ghost es: nat)
      requires Valid() && |sizes| == |dims| + 1 && (forall j | 0 <= j <= |dims| :: sizes[j] == Size(dims[j..], es))
      requires depth + 1 < |dims| && lit.Rows? && FitsIn(lit, dims[depth..], es)
               && adr + Times(|lit.rows|, sizes[depth + 1]) <= bytes.Length
      modifies this, bytes
      ensures Wrote(adr, RowImages(lit, |lit.rows|, dims[depth..], es))
      decreases lit, 0
    {
      ghost var here := dims[depth..];
      assert here[1..] == dims[depth + 1..];
      var at := adr;
      var depth' := depth + 1;
      for j := 0 to |lit.rows|
        invariant at == adr + Times(j, sizes[depth'])
        invariant Wrote(adr, RowImages(lit, j, here, es))
      {
        TimesMonotone(j + 1, |lit.rows|, sizes[depth']);
        assert FitsIn(lit.rows[j], dims[depth'..], es);
        StoreArray(at, lit.rows[j], sizes, depth', dims, es);
        at := at + sizes[depth'];
      }
    }
  }

  /** StoreArrayValue: the sizes of the partial tensors, from the last dimension on. */
  method ComputeSizes(dims: seq<nat>, es: nat) returns (sizes: seq<nat>)
    ensures |sizes| == |dims| + 1 && forall j | 0 <= j <= |dims| :: sizes[j] == Size(dims[j..], es)
  {
    sizes := [es];
    var j := |dims|;
    while j > 0
      invariant 0 <= j <= |dims| && SizesFrom(sizes, dims, j, es)
    {
      j := j - 1;
      var size := RowsSize(dims[j], sizes[0]);
      SizesStep(sizes, dims, j, es);
      sizes := [size] + sizes;
    }
  }

  ghost predicate SizesFrom(sizes: seq<nat>, dims: seq<nat>, j: nat, es: nat) {
    j <= |dims| && |sizes| == |dims| + 1 - j && forall k | 0 <= k < |sizes| :: sizes[k] == Size(dims[j + k..], es)
  }

  lemma SizesStep(sizes: seq<nat>, dims: seq<nat>, j: nat, es: nat)
    requires j < |dims| && SizesFrom(sizes, dims, j + 1, es)
    ensures SizesFrom([Times(dims[j], sizes[0])] + sizes, dims, j, es)
  {
    FirstSize(dims, j, es);
    assert sizes[0] == Size(dims[j + 1 + 0..], es);
    var all := [Times(dims[j], sizes[0])] + sizes;
    assert forall k | 1 <= k < |all| :: all[k] == sizes[k - 1] && j + 1 + (k - 1) == j + k;
  }

  lemma FirstSize(dims: seq<nat>, j: nat, es: nat)
    requires j < |dims|
    ensures Size(dims[j..], es) == Times(dims[j], Size(dims[j + 1..], es))
  {
    assert dims[j..][1..] == dims[j + 1..];
  }

  method RowsSize(rows: nat, size: nat) returns (r: nat)
    ensures r == Times(rows, size)
  {
    TimesIsProduct(rows, size);
    r := rows * size;
  }

  /** StoreArrayValue: a fresh allocation of exactly the tensor's size, every byte of which is written exactly once. */
  method StoreArrayValue(lit: Lit, dims: seq<nat>, es: nat) returns (mem: Memory)
    requires dims != [] && FitsIn(lit, dims, es)
    ensures mem.bytes[..] == Image(lit, dims, es)
    ensures |mem.writes| == mem.bytes.Length && forall k | 0 <= k < mem.bytes.Length :: mem.writes[k] == 1
  {
    var sizes := ComputeSizes(dims, es);
    assert dims[0..] == dims;
    mem := new Memory(sizes[0]);
    mem.StoreArray(0, lit, sizes, 0, dims, es);
  }

  // ---------------------------------------------------------------- reading an element

  predicate InBounds(idx: seq<nat>, dims: seq<nat>) {
    |idx| == |dims| && forall i | 0 <= i < |dims| :: idx[i] < dims[i]
  }

  /** The number of elements. */
  function Count(dims: seq<nat>): nat {
    if dims == [] then 1 else Times(dims[0], Count(dims[1..]))
  }

  /** The row-major number of an element. */
  function RowMajor(idx: seq<nat>, dims: seq<nat>): nat
    requires |idx| == |dims|
  {
    if dims == [] then 0 else Times(idx[0], Count(dims[1..])) + RowMajor(idx[1..], dims[1..])
  }

  /** The literal's element if there is one, else zero. */
  function ElementAt(lit: Lit, idx: seq<nat>, es: nat): seq<Byte> {
    match lit
    case Elem(b) => b
    case Rows(rows) => if idx != [] && idx[0] < |rows| then ElementAt(rows[idx[0]], idx[1..], es) else Zeros(es)
  }

  lemma {:induction false} SizeInBytes(dims: seq<nat>, es: nat)
    ensures Size(dims, es) == Times(Count(dims), es)
  {
    if dims != [] {
      SizeInBytes(dims[1..], es);
      Associate(dims[0], Count(dims[1..]), es);
    }
  }

  /** A row of the image is the image of the row. */
  lemma {:induction false} RowImage(lit: Lit, i: nat, k: nat, dims: seq<nat>, es: nat)
    requires FitsIn(lit, dims, es) && lit.Rows? && i < k <= |lit.rows|
    ensures var n := Size(dims[1..], es);
            Times(i, n) + n <= Times(k, n)
                && RowImages(lit, k, dims, es)[Times(i, n)..Times(i, n) + n] == Image(lit.rows[i], dims[1..], es)
    decreases k
  {
    var n := Size(dims[1..], es);
    if i < k - 1 {
      RowImage(lit, i, k - 1, dims, es);
    }
  }

  lemma Slice(s: seq<Byte>, a: nat, n: nat, b: nat, m: nat)
    requires a + n <= |s| && b + m <= n
    ensures s[a..a + n][b..b + m] == s[a + b..a + b + m]
  {
    var r := s[a..a + n];
    assert forall k | 0 <= k < n :: r[k] == s[a + k];
  }

  /** The `i`-th of `k` rows of `n` bytes. */
  lemma RowFits(i: nat, k: nat, n: nat)
    requires i < k
    ensures Times(i, n) + n <= Times(k, n)
  {
    TimesMonotone(i + 1, k, n);
  }

  lemma TailSlice(a: seq<Byte>, m: nat, p: nat, n: nat)
    requires |a| <= p && p + n <= |a| + m
    ensures (a + Zeros(m))[p..p + n] == Zeros(n)
  {
  }

  lemma HeadSlice(a: seq<Byte>, z: seq<Byte>, p: nat, n: nat)
    requires p + n <= |a|
    ensures (a + z)[p..p + n] == a[p..p + n]
  {
  }

  /** Behind the rows that the literal has, everything is zero. */
  lemma ZeroRow(lit: Lit, i: nat, dims: seq<nat>, es: nat)
    requires FitsIn(lit, dims, es) && lit.Rows? && |lit.rows| <= i < dims[0]
    ensures var n := Size(dims[1..], es);
            Times(i, n) + n <= Size(dims, es) && Image(lit, dims, es)[Times(i, n)..Times(i, n) + n] == Zeros(n)
  {
    var n := Size(dims[1..], es);
    RowFits(i, dims[0], n);
    TimesMonotone(|lit.rows|, i, n);
    TailSlice(RowImages(lit, |lit.rows|, dims, es), Times(dims[0], n) - Times(|lit.rows|, n), Times(i, n), n);
  }

  /** The place of an element in bytes: that of its row, and that within the row. */
  lemma PlaceInBytes(dims: seq<nat>, idx: seq<nat>, es: nat)
    requires |idx| == |dims| && dims != []
    ensures Times(RowMajor(idx, dims), es)
              == Times(idx[0], Size(dims[1..], es)) + Times(RowMajor(idx[1..], dims[1..]), es)
  {
    var i, c, r := idx[0], Count(dims[1..]), RowMajor(idx[1..], dims[1..]);
    SizeInBytes(dims[1..], es);
    PlaceLaw(i, c, r, es);
    assert RowMajor(idx, dims) == Times(i, c) + r;
  }

  lemma PlaceLaw(i: nat, c: nat, r: nat, es: nat)
    ensures Times(Times(i, c) + r, es) == Times(i, Times(c, es)) + Times(r, es)
  {
    Associate(i, c, es);
    Distribute(Times(i, c), r, es);
  }

  /**
    * At its row-major place every element of the tensor reads as the literal's element, or as zero where the literal
    * has none.
    */
  lemma {:induction false} ReadsElement(lit: Lit, dims: seq<nat>, idx: seq<nat>, es: nat)
    requires FitsIn(lit, dims, es) && InBounds(idx, dims)
    ensures var at := Times(RowMajor(idx, dims), es);
            at + es <= Size(dims, es) && Image(lit, dims, es)[at..at + es] == ElementAt(lit, idx, es)
    decreases dims
  {
    if dims == [] {
      assert lit.bytes[0..es] == lit.bytes;
    } else {
      assert InBounds(idx[1..], dims[1..]);
      PlaceFits(dims[1..], idx[1..], es);
      if idx[0] < |lit.rows| {
        ReadsElement(lit.rows[idx[0]], dims[1..], idx[1..], es);
        ReadsInRow(lit, dims, idx, es, Size(dims[1..], es), Times(RowMajor(idx[1..], dims[1..]), es));
      } else {
        ReadsZero(lit, dims, idx, es, Size(dims[1..], es), Times(RowMajor(idx[1..], dims[1..]), es));
      }
    }
  }

  lemma ReadsInRow(lit: Lit, dims: seq<nat>, idx: seq<nat>, es: nat, n: nat, at: nat)
    requires FitsIn(lit, dims, es) && lit.Rows? && |idx| == |dims| && idx[0] < |lit.rows|
    requires n == Size(dims[1..], es) && at == Times(RowMajor(idx[1..], dims[1..]), es) && at + es <= n
    ensures var q := Times(RowMajor(idx, dims), es);
            && q + es <= Size(dims, es)
            && Image(lit, dims, es)[q..q + es] == Image(lit.rows[idx[0]], dims[1..], es)[at..at + es]
  {
    PlaceInBytes(dims, idx, es);
    FirstRows(lit, dims, idx[0], es);
    InPart(Image(lit, dims, es), Times(idx[0], n), Image(lit.rows[idx[0]], dims[1..], es), at, es,
           Times(RowMajor(idx, dims), es));
  }

  lemma ReadsZero(lit: Lit, dims: seq<nat>, idx: seq<nat>, es: nat, n: nat, at: nat)
    requires FitsIn(lit, dims, es) && lit.Rows? && |idx| == |dims| && |lit.rows| <= idx[0] < dims[0]
    requires n == Size(dims[1..], es) && at == Times(RowMajor(idx[1..], dims[1..]), es) && at + es <= n
    ensures var q := Times(RowMajor(idx, dims), es);
            q + es <= Size(dims, es) && Image(lit, dims, es)[q..q + es] == Zeros(es)
  {
    PlaceInBytes(dims, idx, es);
    ZeroRow(lit, idx[0], dims, es);
    ZeroSlice(n, at, es);
    InPart(Image(lit, dims, es), Times(idx[0], n), Zeros(n), at, es, Times(RowMajor(idx, dims), es));
  }

  /** What stands at a place within a part stands at the same place in the whole. */
  lemma InPart(s: seq<Byte>, p: nat, r: seq<Byte>, at: nat, m: nat, q: nat)
    requires p + |r| <= |s| && s[p..p + |r|] == r && at + m <= |r| && q == p + at
    ensures q + m <= |s| && s[q..q + m] == r[at..at + m]
  {
    Slice(s, p, |r|, at, m);
  }

  lemma ZeroSlice(n: nat, at: nat, m: nat)
    requires at + m <= n
    ensures Zeros(n)[at..at + m] == Zeros(m)
  {
  }

  lemma FirstRows(lit: Lit, dims: seq<nat>, i: nat, es: nat)
    requires FitsIn(lit, dims, es) && lit.Rows? && i < |lit.rows|
    ensures var n := Size(dims[1..], es);
            Times(i, n) + n <= Size(dims, es)
            && Image(lit, dims, es)[Times(i, n)..Times(i, n) + n] == Image(lit.rows[i], dims[1..], es)
  {
    var n := Size(dims[1..], es);
    RowImage(lit, i, |lit.rows|, dims, es);
    TimesMonotone(|lit.rows|, dims[0], n);
    HeadSlice(RowImages(lit, |lit.rows|, dims, es), Zeros(Times(dims[0], n) - Times(|lit.rows|, n)), Times(i, n), n);
  }

  lemma {:induction false} PlaceFits(dims: seq<nat>, idx: seq<nat>, es: nat)
    requires InBounds(idx, dims)
    ensures Times(RowMajor(idx, dims), es) + es <= Size(dims, es)
    decreases dims
  {
    if dims != [] {
      var n := Size(dims[1..], es);
      PlaceInBytes(dims, idx, es);
      assert InBounds(idx[1..], dims[1..]);
      PlaceFits(dims[1..], idx[1..], es);
      TimesMonotone(idx[0] + 1, dims[0], n);
    }
  }

  // ---------------------------------------------------------------- expanded constants

  /** An array constant in full: its elements are of the same shape. */
  datatype Full = Scalar(bytes: seq<Byte>) | Array(elems: seq<Full>)

  predicate HasShape(v: Full, dims: seq<nat>, es: nat) {
    match v
    case Scalar(b) => dims == [] && |b| == es
    case Array(elems) => dims != [] && |elems| == dims[0] && forall i | 0 <= i < |elems| ::
        HasShape(elems[i], dims[1..], es)
  }

  /** What the constant looks like in memory. */
  function Flat(v: Full): seq<Byte>
    decreases v, 1
  {
    match v
    case Scalar(b) => b
    case Array(elems) => FlatFirst(v, |elems|)
  }

  function FlatFirst(v: Full, k: nat): seq<Byte>
    requires v.Array? && k <= |v.elems|
    decreases v, 0, k
  {
    if k == 0 then [] else FlatFirst(v, k - 1) + Flat(v.elems[k - 1])
  }

  /** The null value of an array type. */
  function Null(dims: seq<nat>, es: nat): (v: Full)
    ensures HasShape(v, dims, es)
  {
    if dims == [] then Scalar(Zeros(es)) else Array(seq(dims[0], _ => Null(dims[1..], es)))
  }

  lemma {:induction false} NullIsZeros(dims: seq<nat>, es: nat)
    ensures Flat(Null(dims, es)) == Zeros(Size(dims, es))
    decreases dims
  {
    if dims != [] {
      NullIsZeros(dims[1..], es);
      NullRows(Null(dims, es), dims[0], dims, es);
    }
  }

  lemma {:induction false} NullRows(v: Full, k: nat, dims: seq<nat>, es: nat)
    requires dims != [] && v == Null(dims, es) && k <= dims[0]
             && Flat(Null(dims[1..], es)) == Zeros(Size(dims[1..], es))
    ensures FlatFirst(v, k) == Zeros(Times(k, Size(dims[1..], es)))
    decreases k
  {
    if k > 0 {
      var n := Size(dims[1..], es);
      NullRows(v, k - 1, dims, es);
      assert Zeros(Times(k - 1, n)) + Zeros(n) == Zeros(Times(k, n));
    }
  }

  /** The expanded constant has the literal's rows first and null values behind them. */
  predicate ExpandedUpTo(v: Full, lit: Lit, k: nat, dims: seq<nat>, es: nat)
    requires FitsIn(lit, dims, es) && lit.Rows?
  {
    && v.Array? && |v.elems| == dims[0] && k <= dims[0]
    && forall i | 0 <= i < k ::
         HasShape(v.elems[i], dims[1..], es) &&
         Flat(v.elems[i]) == if i < |lit.rows| then Image(lit.rows[i], dims[1..], es) else Zeros(Size(dims[1..], es))
  }

  lemma {:induction false} ExpandedRows(v: Full, lit: Lit, k: nat, dims: seq<nat>, es: nat)
    requires FitsIn(lit, dims, es) && lit.Rows? && ExpandedUpTo(v, lit, k, dims, es) && k <= |lit.rows|
    ensures FlatFirst(v, k) == RowImages(lit, k, dims, es)
    decreases k
  {
    if k > 0 {
      ExpandedRows(v, lit, k - 1, dims, es);
    }
  }

  lemma {:induction false} ExpandedNulls(v: Full, lit: Lit, k: nat, dims: seq<nat>, es: nat)
    requires FitsIn(lit, dims, es) && lit.Rows? && ExpandedUpTo(v, lit, k, dims, es) && k >= |lit.rows|
    ensures FlatFirst(v, k) == RowImages(lit, |lit.rows|, dims, es) + Zeros(Times(k - |lit.rows|, Size(dims[1..], es)))
    decreases k
  {
    if k == |lit.rows| {
      ExpandedRows(v, lit, k, dims, es);
    } else {
      var n, m := Size(dims[1..], es), k - 1 - |lit.rows|;
      ExpandedNulls(v, lit, k - 1, dims, es);
      assert Flat(v.elems[k - 1]) == Zeros(n);
      MoreZeros(RowImages(lit, |lit.rows|, dims, es), Times(m, n), n);
    }
  }

  lemma MoreZeros(a: seq<Byte>, m: nat, n: nat)
    ensures a + Zeros(m) + Zeros(n) == a + Zeros(m + n)
  {
  }

  /** expandArrayInitializer: the same contents as storing the literal. */
  method Expand(lit: Lit, dims: seq<nat>, es: nat) returns (v: Full)
    requires FitsIn(lit, dims, es)
    ensures HasShape(v, dims, es) && Flat(v) == Image(lit, dims, es)
    decreases dims
  {
    if lit.Elem? {
      return Scalar(lit.bytes);
    }
    var expanded: seq<Full> := seq(dims[0], _ => Scalar([]));
    for i := 0 to |lit.rows|
      invariant |expanded| == dims[0] && ExpandedUpTo(Array(expanded), lit, i, dims, es)
    {
      var elem := Expand(lit.rows[i], dims[1..], es);
      expanded := expanded[i := elem];
    }
    NullIsZeros(dims[1..], es);
    for i := |lit.rows| to dims[0]
      invariant |expanded| == dims[0] && ExpandedUpTo(Array(expanded), lit, i, dims, es)
    {
      expanded := expanded[i := Null(dims[1..], es)];
    }
    v := Array(expanded);
    ExpandedNulls(v, lit, dims[0], dims, es);
    Distribute(dims[0] - |lit.rows|, |lit.rows|, Size(dims[1..], es));
  }
}
