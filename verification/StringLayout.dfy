/**
  * The layout of a Volvox string (clib/str.h, clib/str_c.c). A string pointer leads behind the text, to a word with
  * the size of the text including its terminator; the next word holds the capacity of the block, or 0 if the block
  * is not on the heap. The start of the text is found by subtracting the size and rounding down.
  */
module StringLayout {
  import opened Bits

  const WORD := 8

  const MEMORY := 0x1_0000_0000_0000_0000

  /** The number of bytes of `k` words. */
  function Bytes(k: nat): nat {
    WORD * k
  }

  /** A multiple of the word size. */
  ghost predicate Aligned(x: nat) {
    exists k :: x == Bytes(k)
  }

  lemma AlignedIff(x: nat)
    ensures Aligned(x) <==> x % WORD == 0
  {
    if x % WORD == 0 {
      assert x == Bytes(x / WORD);
    }
  }

  lemma AlignedTimes(k: nat)
    ensures Aligned(WORD * k)
  {
    assert WORD * k == Bytes(k);
  }

  lemma RoundedDown(x: nat)
    ensures x - x % WORD >= 0 && Aligned(x - x % WORD) && x < x - x % WORD + WORD
  {
    assert x - x % WORD == Bytes(x / WORD);
  }

  /** `x & ~7` rounds down to a multiple of the word size. */
  lemma MaskRoundsDown(x: nat)
    ensures var r := AndNot(x, WORD - 1); Aligned(r) && r <= x < r + WORD
  {
    MaskClears(x);
    RoundedDown(x);
  }

  lemma MaskClears(x: nat)
    ensures AndNot(x, WORD - 1) == x - x % WORD
  {
    assert Pow2(3) == WORD;
    ClearLow(x, 3);
  }

  lemma RoundedUnique(x: nat, r: nat, s: nat)
    requires Aligned(r) && r <= x < r + WORD && Aligned(s) && s <= x < s + WORD
    ensures r == s
  {
    AlignedIff(r);
    AlignedIff(s);
  }

  /** Where the size word of a text of `len` bytes is: the first aligned place behind the terminator. */
  ghost function SizeAt(len: nat): (r: nat)
    ensures Aligned(r) && len < r <= len + WORD
  {
    MaskRoundsDown(len + WORD);
    var r: nat :| Aligned(r) && len < r <= len + WORD;
    r
  }

  /** __string_allocsize: the block for a text of `len` bytes. */
  ghost function AllocSize(len: nat): nat {
    SizeAt(len) + 2 * WORD
  }

  lemma AlignedSum(a: nat, b: nat)
    requires Aligned(a)
    ensures Aligned(a + b) <==> Aligned(b)
  {
    AlignedIff(a);
    AlignedIff(b);
    AlignedIff(a + b);
  }

  lemma SizeAtLeast(len: nat)
    ensures SizeAt(len) >= WORD
  {
    AlignedIff(SizeAt(len));
  }

  lemma AllocSizeMask(len: nat)
    ensures AndNot(len + 3 * WORD, WORD - 1) == AllocSize(len)
  {
    MaskRoundsDown(len + 3 * WORD);
    AlignedTimes(2);
    AlignedSum(SizeAt(len), 2 * WORD);
    RoundedUnique(len + 3 * WORD, AndNot(len + 3 * WORD, WORD - 1), AllocSize(len));
  }

  /** __string_allocsize and, from the size with the terminator, __string_min_cap. */
  method ComputeAlloc(len: nat) returns (r: nat)
    ensures r == AllocSize(len)
  {
    AllocSizeMask(len);
    r := AndNot(len + 3 * WORD, WORD - 1);
  }

  method ComputeMinCap(raw: nat) returns (r: nat)
    requires raw > 0
    ensures r == AllocSize(raw - 1)
  {
    AllocSizeMask(raw - 1);
    r := AndNot(raw + 3 * WORD - 1, WORD - 1);
  }

  /** Sizes fit into a word. */
  predicate Fits(n: nat) {
    n < MEMORY
  }

  ghost function Load(bs: seq<Byte>, at: nat): nat
    requires at + WORD <= |bs|
  {
    WordOf(bs[at..at + WORD])
  }

  /** The size word at `off` lies at or behind the terminator, and both words are inside the block. */
  ghost predicate Layout(bs: seq<Byte>, off: nat) {
    && off + 2 * WORD <= |bs| && Fits(|bs|)
    && 0 < Load(bs, off) && off == SizeAt(Load(bs, off) - 1)
    && bs[Load(bs, off) - 1] == 0
    && Load(bs, off + WORD) in {0, |bs|}
  }

  ghost function Text(bs: seq<Byte>, off: nat): seq<Byte>
    requires Layout(bs, off)
  {
    bs[..Load(bs, off) - 1]
  }

  ghost function Cap(bs: seq<Byte>, off: nat): nat
    requires Layout(bs, off)
  {
    Load(bs, off + WORD)
  }

  /** Subtracting the size from the address of the size word and rounding down gives the start of the block. */
  lemma StartRecovered(base: nat, raw: nat)
    requires Aligned(base) && raw > 0
    ensures AndNot(base + SizeAt(raw - 1) - raw, WORD - 1) == base
  {
    var x := base + SizeAt(raw - 1) - raw;
    MaskRoundsDown(x);
    RoundedUnique(x, AndNot(x, WORD - 1), base);
  }

  /** Rounding up the address behind the terminator gives the place of the size word. */
  lemma SizeWordAddress(base: nat, raw: nat)
    requires Aligned(base) && raw > 0
    ensures AndNot(base + raw + WORD - 1, WORD - 1) == base + SizeAt(raw - 1)
  {
    var x := base + raw + WORD - 1;
    MaskRoundsDown(x);
    AlignedSum(base, SizeAt(raw - 1));
    RoundedUnique(x, AndNot(x, WORD - 1), base + SizeAt(raw - 1));
  }

  lemma PrefixSlice(s: seq<Byte>, t: seq<Byte>, n: nat, i: nat, j: nat)
    requires i <= j <= n <= |s| && n <= |t| && s[..n] == t[..n]
    ensures s[i..j] == t[i..j]
  {
    assert s[i..j] == s[..n][i..j] && t[i..j] == t[..n][i..j];
  }

  lemma SuffixSlice(s: seq<Byte>, t: seq<Byte>, n: nat, i: nat, j: nat)
    requires n <= i <= j <= |s| == |t| && s[n..] == t[n..]
    ensures s[i..j] == t[i..j]
  {
    forall k | 0 <= k < j - i ensures s[i..j][k] == t[i..j][k] {
      assert s[n..][i - n + k] == t[n..][i - n + k];
    }
  }

  /** `bs` is `was` with the two words of a string written at `off`; what follows them does not matter. */
  ghost predicate Sealed(was: seq<Byte>, bs: seq<Byte>, off: nat, len: nat, cap: nat) {
    off + 2 * WORD <= |bs| == |was| && bs[..off] == was[..off] && Load(bs, off) == len + 1
        && Load(bs, off + WORD) == cap
  }

  /** A text with its terminator becomes a string by its two words. */
  lemma SealedIsString(was: seq<Byte>, bs: seq<Byte>, text: seq<Byte>, off: nat, cap: nat)
    requires Sealed(was, bs, off, |text|, cap) && off == SizeAt(|text|) && Fits(|bs|) && cap in {0, |bs|}
    requires was[..|text|] == text && was[|text|] == 0
    ensures Layout(bs, off) && Text(bs, off) == text && Cap(bs, off) == cap
  {
    var n := |text|;
    assert bs[..n] == bs[..off][..n] && was[..n] == was[..off][..n];
    assert bs[n] == bs[..off][n] && was[n] == was[..off][n];
  }

  /** A word that was stored can be loaded. */
  lemma StoredWord(bs: seq<Byte>, at: nat, n: nat)
    requires at + WORD <= |bs| && Fits(n) && bs[at..at + WORD] == WordBytes(n, WORD)
    ensures Load(bs, at) == n
  {
    assert Pow256(8) == MEMORY;
    WordRoundTrip(n, WORD);
  }

  // ---------------------------------------------------------------- growth

  /**
    * The capacity after an append that leads to a text of `len` bytes: half as much again and 32 bytes when the block
    * is too small.
    */
  ghost function GrownCap(cap: nat, len: nat): nat {
    var min := AllocSize(len);
    if cap < min then min + min / 2 + 32 else cap
  }

  lemma GrownEnough(cap: nat, len: nat)
    ensures AllocSize(len) <= GrownCap(cap, len)
            && (cap < AllocSize(len) ==> 2 * GrownCap(cap, len) <= 3 * (len + 24) + 64)
    ensures cap < AllocSize(len) ==> 3 * cap <= 2 * GrownCap(cap, len) && cap < GrownCap(cap, len)
  {
  }

  /**
    * A string that is appended to again and again: its length, its capacity, the capacities given up, and the bytes
    * copied by growing.
    */
  datatype History = History(len: nat, cap: nat, abandoned: nat, copied: nat, grown: bool)

  ghost function Append(h: History, more: nat): History {
    var cap := GrownCap(h.cap, h.len + more);
    if h.cap < AllocSize(h.len + more) then
      History(h.len + more, cap, h.abandoned + h.cap, h.copied + (if h.cap == 0 then h.len else h.cap), true)
    else h.(len := h.len + more)
  }

  ghost function Appends(h: History, mores: seq<nat>): History
    decreases |mores|
  {
    if mores == [] then h else Appends(Append(h, mores[0]), mores[1..])
  }

  /** All that growing ever gave up is at most twice the capacity, which after growing is linear in the length. */
  predicate Amortised(h: History, start: History) {
    && h.abandoned <= 2 * h.cap && h.copied <= start.len + h.abandoned && start.len <= h.len
    && (h.grown ==> 2 * h.cap <= 3 * (h.len + 24) + 64)
    && (!h.grown ==> h.copied == 0) && (h.cap == 0 ==> !h.grown && h.len == start.len)
  }

  lemma AppendAmortised(h: History, start: History, more: nat)
    requires Amortised(h, start)
    ensures Amortised(Append(h, more), start)
  {
    GrownEnough(h.cap, h.len + more);
  }

  /** Over any sequence of appends. */
  lemma {:induction false} AppendsAmortised(h: History, start: History, mores: seq<nat>)
    requires Amortised(h, start)
    ensures Amortised(Appends(h, mores), start)
    decreases |mores|
  {
    if mores != [] {
      AppendAmortised(h, start, mores[0]);
      AppendsAmortised(Append(h, mores[0]), start, mores[1..]);
    }
  }

  /** All copying done by growing is linear in the final length. */
  lemma CopyingLinear(len: nat, cap: nat, mores: seq<nat>)
    ensures var h := Appends(History(len, cap, 0, 0, false), mores); h.copied <= 4 * h.len + 136
  {
    var start := History(len, cap, 0, 0, false);
    AppendsAmortised(start, start, mores);
  }
}
