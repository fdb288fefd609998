/** String operations on blocks of bytes (clib/str_c.c, clib/str.h), for eight-byte words. */
module VolvoxStrings {
  import opened Bits
  import opened StringLayout
  import opened Options

  /** A block from the allocator; its address is aligned. */
  class Block {
    const base: nat
    const bytes: array<Byte>

    constructor (n: nat)
      ensures Aligned(base) && bytes.Length == n && fresh(bytes)
    {
      var k: nat :| k >= 0;
      AlignedTimes(k);
      base := WORD * k;
      bytes := new Byte[n];
    }
  }

  /** The pointer to a string's size word; the null pointer is an empty string too. */
  datatype Str = Null | At(b: Block, off: nat)

  ghost function Footprint(s: Str): set<object> {
    if s.At? then {s.b.bytes} else {}
  }

  ghost predicate IsString(s: Str)
    reads Footprint(s)
  {
    s.At? ==> Aligned(s.b.base) && Layout(s.b.bytes[..], s.off)
  }

  ghost function TextOf(s: Str): seq<Byte>
    requires IsString(s)
    reads Footprint(s)
  {
    if s.Null? then [] else Text(s.b.bytes[..], s.off)
  }

  ghost function CapOf(s: Str): nat
    requires s.At? && IsString(s)
    reads Footprint(s)
  {
    Cap(s.b.bytes[..], s.off)
  }

  // ---------------------------------------------------------------- memory

  method Memcpy(dst: array<Byte>, at: nat, src: array<Byte>, from: nat, n: nat)
    requires dst != src && at + n <= dst.Length && from + n <= src.Length
    modifies dst
    ensures dst[..at] == old(dst[..at]) && dst[at..at + n] == src[from..from + n] && dst[at + n..] == old(dst[at + n..])
  {
    var i := 0;
    while i < n
      invariant 0 <= i <= n
      invariant forall k | 0 <= k < dst.Length :: dst[k] == if at <= k < at + i then src[from + (k - at)]
                  else old(dst[k])
    {
      dst[at + i] := src[from + i];
      i := i + 1;
    }
  }

  /** The bytes of a number from the lowest. */
  method StoreBytes(a: array<Byte>, at: nat, n: nat, k: nat)
    requires at + k <= a.Length
    modifies a
    ensures a[..at] == old(a[..at]) && a[at..at + k] == WordBytes(n, k) && a[at + k..] == old(a[at + k..])
  {
    var i, rest := 0, n;
    ghost var done: seq<Byte> := [];
    while i < k
      invariant 0 <= i <= k && |done| == i && WordBytes(n, k) == done + WordBytes(rest, k - i)
      invariant forall j | 0 <= j < a.Length :: a[j] == if at <= j < at + i then done[j - at] else old(a[j])
    {
      a[at + i] := rest % 256;
      done := done + [rest % 256];
      rest := rest / 256;
      i := i + 1;
    }
    assert done + WordBytes(rest, 0) == done;
  }

  method StoreWord(a: array<Byte>, at: nat, n: nat)
    requires at + WORD <= a.Length && Fits(n)
    modifies a
    ensures a[..at] == old(a[..at]) && Load(a[..], at) == n && a[at + WORD..] == old(a[at + WORD..])
  {
    StoreBytes(a, at, n, WORD);
    assert a[..][at..at + WORD] == a[at..at + WORD];
    StoredWord(a[..], at, n);
  }

  method LoadWord(a: array<Byte>, at: nat) returns (n: nat)
    requires at + WORD <= a.Length
    ensures n == Load(a[..], at)
  {
    var i := WORD;
    n := 0;
    while i > 0
      invariant 0 <= i <= WORD && n == WordOf(a[at + i..at + WORD])
    {
      i := i - 1;
      assert a[at + i..at + WORD] == [a[at + i]] + a[at + i + 1..at + WORD];
      n := a[at + i] + 256 * n;
    }
    assert a[..][at..at + WORD] == a[at..at + WORD];
  }

  /** The two words that make a string of a text. */
  method Seal(b: Block, off: nat, len: nat, cap: nat)
    requires off + 2 * WORD <= b.bytes.Length && Fits(len + 1) && Fits(cap)
    modifies b.bytes
    ensures Sealed(old(b.bytes[..]), b.bytes[..], off, len, cap)
  {
    StoreWord(b.bytes, off, len + 1);
    ghost var was := b.bytes[..];
    StoreWord(b.bytes, off + WORD, cap);
    assert b.bytes[..off + WORD][off..off + WORD] == b.bytes[..][off..off + WORD];
    assert was[off..off + WORD] == was[..off + WORD][off..off + WORD];
    assert b.bytes[..][..off] == b.bytes[..off + WORD][..off];
  }

  // ---------------------------------------------------------------- reading

  /** volvox_string_len */
  method Len(s: Str) returns (n: nat)
    requires IsString(s)
    ensures n == |TextOf(s)|
  {
    if s.Null? {
      return 0;
    }
    var raw := LoadWord(s.b.bytes, s.off);
    n := raw - 1;
  }

  /** volvox2cstr: the text starts at this place of the block. */
  method CStr(s: Str) returns (start: nat)
    requires s.At? && IsString(s)
    ensures start == 0
  {
    var raw := LoadWord(s.b.bytes, s.off);
    StartRecovered(s.b.base, raw);
    start := AndNot(s.b.base + s.off - raw, WORD - 1) - s.b.base;
  }

  // ---------------------------------------------------------------- concatenation

  ghost function Footprints(a: seq<Str>): set<object> {
    set i | 0 <= i < |a| && a[i].At? :: a[i].b.bytes
  }

  /** The texts of the strings `a` are `ts`. */
  ghost predicate TextsAre(a: seq<Str>, ts: seq<seq<Byte>>)
    reads Footprints(a)
  {
    |ts| == |a| && forall i | 0 <= i < |a| :: IsString(a[i]) && TextOf(a[i]) == ts[i]
  }

  /** The first `n` texts, one after the other. */
  ghost function Concat(ts: seq<seq<Byte>>, n: nat): seq<Byte>
    requires n <= |ts|
  {
    if n == 0 then [] else Concat(ts, n - 1) + ts[n - 1]
  }

  lemma {:induction false} ConcatGrows(ts: seq<seq<Byte>>, i: nat, n: nat)
    requires i <= n <= |ts|
    ensures |Concat(ts, i)| <= |Concat(ts, n)|
  {
    if i < n {
      ConcatGrows(ts, i, n - 1);
    }
  }

  /** A new heap string with this text, in a block of exactly the size that the text needs. */
  twostate predicate NewString(new r: Str, text: seq<Byte>)
    reads Footprint(r)
  {
    && r.At? && fresh(r.b) && fresh(r.b.bytes) && IsString(r) && TextOf(r) == text
    && CapOf(r) == r.b.bytes.Length == AllocSize(|text|)
  }

  /** The lengths add up; null pointers count as empty. */
  method TotalLen(a: seq<Str>, ghost ts: seq<seq<Byte>>) returns (l: nat)
    requires TextsAre(a, ts)
    ensures l == |Concat(ts, |a|)|
  {
    l := 0;
    for i := 0 to |a|
      invariant l == |Concat(ts, i)|
    {
      assert ts[i] == TextOf(a[i]) && Concat(ts, i + 1) == Concat(ts, i) + ts[i];
      if a[i].At? {
        var n := Len(a[i]);
        l := l + n;
      }
    }
  }

  /** Copies a string's text behind the `offset` bytes that are there; a null pointer adds nothing. */
  method AppendText(n: array<Byte>, offset: nat, s: Str) returns (end: nat)
    requires IsString(s) && (s.At? ==> n != s.b.bytes) && offset + |TextOf(s)| <= n.Length
    modifies n
    ensures end == old(offset + |TextOf(s)|) && n[..end] == old(n[..offset]) + old(TextOf(s))
  {
    if s.Null? {
      return offset;
    }
    var start := CStr(s);
    var len := Len(s);
    ghost var text := TextOf(s);
    assert text == s.b.bytes[start..start + len];
    Memcpy(n, offset, s.b.bytes, start, len);
    end := offset + len;
    assert n[..end] == n[..offset] + n[offset..end];
  }

  /** All texts into one block. */
  method CopyTexts(a: seq<Str>, n: array<Byte>, ghost ts: seq<seq<Byte>>) returns (offset: nat)
    requires TextsAre(a, ts) && n !in Footprints(a) && |Concat(ts, |a|)| <= n.Length
    modifies n
    ensures offset == |Concat(ts, |a|)| && n[..offset] == Concat(ts, |a|)
  {
    offset := 0;
    for i := 0 to |a|
      invariant offset == |Concat(ts, i)| <= n.Length && n[..offset] == Concat(ts, i)
    {
      ConcatGrows(ts, i + 1, |a|);
      assert a[i].At? ==> a[i].b.bytes in Footprints(a);
      assert IsString(a[i]) && TextOf(a[i]) == ts[i];
      offset := AppendText(n, offset, a[i]);
    }
  }

  method Accumulate(a: seq<Str>, ghost ts: seq<seq<Byte>>) returns (r: Str)
    requires TextsAre(a, ts) && Fits(|Concat(ts, |a|)| + 3 * WORD)
    ensures if Concat(ts, |a|) == [] then r == Null else NewString(r, Concat(ts, |a|))
  {
    ghost var text := Concat(ts, |a|);
    var l := TotalLen(a, ts);
    if l == 0 {
      assert text == [];
      return Null;
    }
    var n := TextBlock(a, ts, text, l);
    r := Finish(n, text, l, n.bytes.Length);
  }

  /** A new block with all texts and the terminator. */
  method TextBlock(a: seq<Str>, ghost ts: seq<seq<Byte>>, ghost text: seq<Byte>, l: nat) returns (n: Block)
    requires TextsAre(a, ts) && text == Concat(ts, |a|) && l == |text|
    ensures fresh(n) && fresh(n.bytes) && Aligned(n.base) && n.bytes.Length == AllocSize(l)
    ensures n.bytes[..l] == text && n.bytes[l] == 0
  {
    var alloc := ComputeAlloc(l);
    n := new Block(alloc);
    var offset := CopyTexts(a, n.bytes, ts);
    n.bytes[offset] := 0;
  }

  /** Puts the two words behind a text that fills a new block. */
  method Finish(n: Block, ghost text: seq<Byte>, l: nat, alloc: nat) returns (r: Str)
    requires Aligned(n.base) && n.bytes.Length == alloc == AllocSize(l) && l == |text| && Fits(alloc)
    requires n.bytes[..l] == text && n.bytes[l] == 0
    modifies n.bytes
    ensures r == At(n, alloc - 2 * WORD) && IsString(r) && TextOf(r) == text && CapOf(r) == alloc
  {
    ghost var was := n.bytes[..];
    Seal(n, alloc - 2 * WORD, l, alloc);
    SealedIsString(was, n.bytes[..], text, alloc - 2 * WORD, alloc);
    r := At(n, alloc - 2 * WORD);
  }

  method Add(a: Str, b: Str) returns (r: Str)
    requires IsString(a) && IsString(b) && Fits(|TextOf(a)| + |TextOf(b)| + 3 * WORD)
    ensures var text := old(TextOf(a) + TextOf(b)); if text == [] then r == Null else NewString(r, text)
  {
    var x := [a, b];
    ghost var ts := [TextOf(a), TextOf(b)];
    assert Concat(ts, 0) == [] && Concat(ts, 1) == ts[0] && Concat(ts, 2) == ts[0] + ts[1];
    r := Accumulate(x, ts);
  }

  // ---------------------------------------------------------------- copies

  method Dup(s: Str) returns (r: Str)
    requires IsString(s)
    ensures if s.Null? then r == Null else NewString(r, TextOf(s))
  {
    if s.Null? {
      return Null;
    }
    var n := DupBlock(s);
    r := At(n, n.bytes.Length - 2 * WORD);
    DupIsString(s.b.bytes[..], n.bytes[..], s.off, n.bytes.Length);
    assert AllocSize(|Text(s.b.bytes[..], s.off)|) == n.bytes.Length;
  }

  /** The text, the padding and the size word in one go, then the capacity. */
  method DupBlock(s: Str) returns (n: Block)
    requires s.At? && IsString(s)
    ensures fresh(n) && fresh(n.bytes) && Aligned(n.base) && n.bytes.Length == s.off + 2 * WORD <= s.b.bytes.Length
    ensures n.bytes[..][..s.off + WORD] == s.b.bytes[..][..s.off + WORD]
    ensures Load(n.bytes[..], s.off + WORD) == n.bytes.Length
  {
    var raw := LoadWord(s.b.bytes, s.off);
    var start := CStr(s);
    var cap := ComputeMinCap(raw);
    n := new Block(cap);
    Memcpy(n.bytes, 0, s.b.bytes, start, cap - WORD);
    assert n.bytes[..][..cap - WORD] == s.b.bytes[..][..cap - WORD];
    StoreWord(n.bytes, cap - WORD, cap);
    assert n.bytes[..][..cap - WORD] == s.b.bytes[..][..cap - WORD];
  }

  lemma DupIsString(src: seq<Byte>, bs: seq<Byte>, off: nat, cap: nat)
    requires Layout(src, off) && |bs| == cap == off + 2 * WORD && bs[..off + WORD] == src[..off + WORD]
             && Load(bs, off + WORD) == cap
    ensures Layout(bs, off) && Text(bs, off) == Text(src, off) && Cap(bs, off) == cap
  {
    var n := Load(src, off) - 1;
    assert bs[off..off + WORD] == bs[..off + WORD][off..off + WORD]
           && src[off..off + WORD] == src[..off + WORD][off..off + WORD];
    assert bs[n] == bs[..off + WORD][n] && src[n] == src[..off + WORD][n];
    assert bs[..n] == bs[..off + WORD][..n] && src[..n] == src[..off + WORD][..n];
  }

  /** __string_make_writable: a heap copy of a string that may be a constant. */
  method MakeWritable(s: Str) returns (r: Str)
    requires s.At? && IsString(s)
    ensures NewString(r, TextOf(s))
  {
    var raw := LoadWord(s.b.bytes, s.off);
    var alloc := ComputeAlloc(raw - 1);
    var n := new Block(alloc);
    var offset := alloc - 2 * WORD;
    Memcpy(n.bytes, 0, s.b.bytes, s.off - offset, raw);
    ghost var text := TextOf(s);
    assert n.bytes[..raw] == n.bytes[..][..raw] == s.b.bytes[..raw];
    assert n.bytes[..raw - 1] == n.bytes[..raw][..raw - 1] && n.bytes[raw - 1] == n.bytes[..raw][raw - 1];
    assert text == s.b.bytes[..raw][..raw - 1];
    r := Finish(n, text, raw - 1, alloc);
  }

  // ---------------------------------------------------------------- appending

  method Realloc(b: Block, n: nat) returns (r: Block)
    requires b.bytes.Length <= n
    ensures fresh(r) && fresh(r.bytes) && Aligned(r.base) && r.bytes.Length == n
            && r.bytes[..b.bytes.Length] == b.bytes[..]
  {
    r := new Block(n);
    Memcpy(r.bytes, 0, b.bytes, 0, b.bytes.Length);
    assert r.bytes[..][..b.bytes.Length] == b.bytes[0..b.bytes.Length];
  }

  /**
    * Makes room for a text of `len` bytes: the block stays if its capacity is enough, else the first `keep` bytes go to
    * a larger one.
    */
  method Grow(b: Block, cap: nat, keep: nat, len: nat) returns (r: Block, cap': nat)
    requires Aligned(b.base) && cap in {0, b.bytes.Length} && keep <= b.bytes.Length && keep <= len
    ensures Aligned(r.base) && cap' == GrownCap(cap, len) == r.bytes.Length
    ensures r.bytes[..keep] == b.bytes[..keep]
    ensures if cap < AllocSize(len) then fresh(r) && fresh(r.bytes) else r == b
  {
    r, cap' := b, cap;
    var min := ComputeMinCap(len + 1);
    if cap < min {
      min := min + min / 2 + 32;
      if cap != 0 {
        r := Realloc(b, min);
        assert r.bytes[..keep] == r.bytes[..b.bytes.Length][..keep];
      } else {
        r := new Block(min);
        Memcpy(r.bytes, 0, b.bytes, 0, keep);
        assert r.bytes[..][..keep] == b.bytes[0..keep];
      }
      cap' := min;
    }
  }

  /** Puts `size - 1` bytes and their terminator behind a text, in a block that is large enough. */
  method PutTail(b: Block, ghost text: seq<Byte>, raw: nat, src: array<Byte>, from: nat, size: nat, cap: nat)
    returns (r: Str)
    requires Aligned(b.base) && raw == |text| + 1 <= b.bytes.Length && b.bytes[..raw - 1] == text && src != b.bytes
    requires size > 0 && from + size <= src.Length && src[from + size - 1] == 0
    requires AllocSize(|text| + size - 1) <= cap == b.bytes.Length && Fits(cap)
    modifies b.bytes
    ensures r.At? && r.b == b && IsString(r) && TextOf(r) == text + src[from..from + size - 1] && CapOf(r) == cap
  {
    var raw' := raw + size - 1;
    SizeWordAddress(b.base, raw');
    var off := AndNot(b.base + raw' + WORD - 1, WORD - 1) - b.base;
    ghost var tail := src[from..from + size - 1];
    assert b.bytes[..][..raw - 1] == text;
    Memcpy(b.bytes, raw - 1, src, from, size);
    Appended(text, src[from..from + size], tail, b.bytes[..], raw - 1, size);
    ghost var was := b.bytes[..];
    Seal(b, off, raw' - 1, cap);
    SealedIsString(was, b.bytes[..], text + tail, off, cap);
    r := At(b, off);
  }

  /** The block in which `a` is extended to `len` bytes holds its text, and is its own or a new one. */
  ghost predicate Roomy(a: Str, text: seq<Byte>, cap: nat, len: nat, b: Block, cap': nat)
    reads b.bytes
  {
    && a.At? && Aligned(b.base) && cap' == GrownCap(cap, len) == b.bytes.Length && |text| <= cap'
    && b.bytes[..|text|] == text && AllocSize(len) <= cap' && Fits(cap') && (b == a.b <==> cap >= AllocSize(len))
  }

  /** Reads the string's words and makes room for `more` further bytes. */
  method GrowFor(a: Str, more: nat) returns (raw: nat, b: Block, cap': nat)
    requires a.At? && IsString(a) && Fits(2 * (|TextOf(a)| + more) + 130)
    ensures raw == |TextOf(a)| + 1 && Roomy(a, TextOf(a), CapOf(a), |TextOf(a)| + more, b, cap')
    ensures b == a.b || (fresh(b) && fresh(b.bytes))
  {
    raw := LoadWord(a.b.bytes, a.off);
    var start := CStr(a);
    var cap := LoadWord(a.b.bytes, a.off + WORD);
    var len := raw + more - 1;
    b, cap' := Grow(a.b, cap, raw - 1, len);
    GrownEnough(cap, len);
  }

  /** Appends `size - 1` bytes and their terminator, which are not in the string's own block. */
  method AddAssignGen(a: Str, src: array<Byte>, from: nat, size: nat) returns (r: Str)
    requires a.At? && IsString(a) && src != a.b.bytes && size > 0 && from + size <= src.Length
             && src[from + size - 1] == 0
    requires Fits(2 * (|TextOf(a)| + size) + 128)
    modifies a.b.bytes
    ensures r.At? && IsString(r) && TextOf(r) == old(TextOf(a)) + old(src[from..from + size - 1])
    ensures CapOf(r) == GrownCap(old(CapOf(a)), |TextOf(r)|)
    ensures if old(CapOf(a)) < AllocSize(|TextOf(r)|) then fresh(r.b) && fresh(r.b.bytes) && unchanged(a.b.bytes)
              else r.b == a.b
  {
    ghost var text := TextOf(a);
    var raw, b, cap' := GrowFor(a, size - 1);
    ghost var len := |text| + (size - 1);
    assert Roomy(a, text, CapOf(a), len, b, cap');
    r := PutTail(b, text, raw, src, from, size, cap');
    assert |TextOf(r)| == len;
  }

  lemma Appended(text: seq<Byte>, s: seq<Byte>, tail: seq<Byte>, bs: seq<Byte>, n: nat, size: nat)
    requires |text| == n && |s| == size > 0 && tail == s[..size - 1] && s[size - 1] == 0
    requires n + size <= |bs| && bs[..n + size] == text + s
    ensures bs[..n + size - 1] == text + tail && bs[n + size - 1] == 0
  {
    assert bs[n + size - 1] == bs[..n + size][n + size - 1];
    assert bs[..n + size - 1] == bs[..n + size][..n + size - 1];
  }

  /** `a += b` for different strings. */
  method AddAssign(a: Str, b: Str) returns (r: Str)
    requires IsString(a) && IsString(b) && (a.At? && b.At? ==> a.b.bytes != b.b.bytes)
    requires Fits(2 * (|TextOf(a)| + |TextOf(b)|) + 130)
    modifies Footprint(a)
    ensures IsString(r) && TextOf(r) == old(TextOf(a)) + old(TextOf(b))
    ensures b.Null? ==> r == a && (a.At? ==> unchanged(a.b.bytes))
    ensures a.Null? && b.At? ==> NewString(r, old(TextOf(b)))
    ensures a.At? && b.At? ==> r.At? && CapOf(r) == GrownCap(old(CapOf(a)), |TextOf(r)|)
  {
    if b.Null? {
      return a;
    }
    if a.Null? {
      r := Dup(b);
      return;
    }
    var raw := LoadWord(b.b.bytes, b.off);
    var start := CStr(b);
    assert b.b.bytes[start..start + raw - 1] == TextOf(b);
    r := AddAssignGen(a, b.b.bytes, start, raw);
  }

  /** Two runs of `n` bytes of one block that share no byte, as memcpy demands. */
  predicate Apart(from: nat, to: nat, n: nat) {
    from + n <= to || to + n <= from
  }

  /**
    * `a += a`; none where the copy is undefined: from a block that realloc has given back, or between overlapping
    * places. That leaves the strings that are not on the heap.
    */
  method AddAssignSelf(a: Str) returns (r: Option<Str>)
    requires a.At? && IsString(a) && Fits(4 * |TextOf(a)| + 130)
    ensures r.Some? <==> CapOf(a) == 0
    ensures r.Some? ==> r.value.At? && fresh(r.value.b) && fresh(r.value.b.bytes) && IsString(r.value)
    ensures r.Some? ==> TextOf(r.value) == TextOf(a) + TextOf(a) && CapOf(r.value) == GrownCap(0, 2 * |TextOf(a)|)
  {
    var size := LoadWord(a.b.bytes, a.off);
    var cap := LoadWord(a.b.bytes, a.off + WORD);
    var start := CStr(a);
    ghost var text, len := TextOf(a), 2 * |TextOf(a)|;
    assert a.b.bytes[start..start + size - 1] == text;
    var raw, b, cap' := GrowFor(a, size - 1);
    if if b == a.b then !Apart(start, raw - 1, size) else cap != 0 {
      return None;
    }
    assert Roomy(a, text, cap, len, b, cap');
    var t := PutTail(b, text, raw, a.b.bytes, start, size, cap');
    assert |TextOf(t)| == len;
    r := Some(t);
  }

  /** The length of a C string. */
  method Strlen(c: array<Byte>) returns (l: nat)
    requires exists i :: 0 <= i < c.Length && c[i] == 0
    ensures l < c.Length && c[l] == 0 && 0 !in c[..l]
  {
    l := 0;
    while c[l] != 0
      invariant l < c.Length && 0 !in c[..l] && exists i :: l <= i < c.Length && c[i] == 0
      decreases c.Length - l
    {
      assert c[..l + 1] == c[..l] + [c[l]];
      l := l + 1;
    }
  }

  method AddCAssign(a: Str, c: array<Byte>) returns (r: Str)
    requires IsString(a) && (a.At? ==> a.b.bytes != c) && (exists i :: 0 <= i < c.Length && c[i] == 0)
    requires Fits(2 * (|TextOf(a)| + c.Length) + 130)
    modifies Footprint(a)
    ensures IsString(r) && r.At?
    ensures exists l :: 0 <= l < c.Length && c[l] == 0 && 0 !in old(c[..l]) && TextOf(r) == old(TextOf(a)) + old(c[..l])
  {
    var l := Strlen(c);
    assert c[0..l + 1 - 1] == c[..l];
    if a.Null? {
      r := CstrToVolvox(c, l, true);
    } else {
      r := AddAssignGen(a, c, 0, l + 1);
    }
    assert TextOf(r) == old(TextOf(a)) + old(c[..l]);
  }

  // ---------------------------------------------------------------- from C strings

  /** cstr2volvoxstr_l: the words first, with zeros before them, then the text. */
  method CstrToVolvox(c: array<Byte>, l: nat, heap: bool) returns (r: Str)
    requires l <= c.Length && Fits(l + 3 * WORD)
    ensures r.At? && fresh(r.b) && fresh(r.b.bytes) && IsString(r) && TextOf(r) == c[..l]
    ensures r.b.bytes.Length == AllocSize(l) && CapOf(r) == if heap then AllocSize(l) else 0
  {
    var alloc := ComputeAlloc(l);
    var n := new Block(alloc);
    var off := alloc - 2 * WORD;
    SizeAtLeast(l);
    StoreWord(n.bytes, off - WORD, 0);
    ghost var zero := n.bytes[..];
    Seal(n, off, l, if heap then alloc else 0);
    ghost var words := n.bytes[..];
    Memcpy(n.bytes, 0, c, 0, l);
    TextLast(zero, words, n.bytes[..], c[..l], off, if heap then alloc else 0);
    r := At(n, off);
  }

  lemma TextLast(zero: seq<Byte>, words: seq<Byte>, bs: seq<Byte>, text: seq<Byte>, off: nat, cap: nat)
    requires off == SizeAt(|text|) && off + 2 * WORD <= |zero| && Fits(|zero|) && off >= WORD && cap in {0, |zero|}
    requires Load(zero, off - WORD) == 0 && Sealed(zero, words, off, |text|, cap)
    requires |bs| == |words| && bs[..|text|] == text && bs[|text|..] == words[|text|..]
    ensures Layout(bs, off) && Text(bs, off) == text && Cap(bs, off) == cap
  {
    var n := |text|;
    SuffixSlice(bs, words, n, n, n + 1);
    SuffixSlice(bs, words, n, off, off + WORD);
    SuffixSlice(bs, words, n, off + WORD, off + 2 * WORD);
    PrefixSlice(words, zero, off, n, n + 1);
    ZeroPadding(zero[off - WORD..off]);
    assert bs[n] == bs[n..n + 1][0] && zero[n] == zero[n..n + 1][0]
           && zero[n] == zero[off - WORD..off][n - (off - WORD)];
  }

  lemma ZeroPadding(w: seq<Byte>)
    requires WordOf(w) == 0
    ensures forall i | 0 <= i < |w| :: w[i] == 0
  {
    ZeroWord(w);
  }

  lemma {:induction false} ZeroWord(w: seq<Byte>)
    requires WordOf(w) == 0
    ensures forall i | 0 <= i < |w| :: w[i] == 0
  {
    if w != [] {
      ZeroWord(w[1..]);
      assert forall i | 1 <= i < |w| :: w[i] == w[1..][i - 1];
    }
  }

  /**
    * __transformcstr2volvox_l: the two words are added behind a C string, in place if its buffer of `cap` bytes has
    * room.
    */
  method Transform(c: Block, l: nat, cap: nat) returns (r: Str)
    requires Aligned(c.base) && cap == c.bytes.Length && l < cap && c.bytes[l] == 0 && Fits(cap) && Fits(l + 3 * WORD)
    modifies c.bytes
    ensures r.At? && IsString(r) && TextOf(r) == old(c.bytes[..l])
    ensures if AllocSize(l) <= cap then r.b == c && CapOf(r) == cap
              else fresh(r.b) && fresh(r.b.bytes) && CapOf(r) == AllocSize(l)
  {
    ghost var text := c.bytes[..l];
    var min := ComputeAlloc(l);
    var targ, cap' := c, cap;
    if min > cap {
      cap' := min;
      targ := Realloc(c, cap');
      assert targ.bytes[..l] == targ.bytes[..c.bytes.Length][..l] && targ.bytes[l] == targ.bytes[..c.bytes.Length][l];
      assert c.bytes[..l] == c.bytes[..][..l] && c.bytes[l] == c.bytes[..][l];
    }
    ghost var was := targ.bytes[..];
    assert was[..l] == targ.bytes[..l];
    Seal(targ, min - 2 * WORD, l, cap');
    SealedIsString(was, targ.bytes[..], text, min - 2 * WORD, cap');
    r := At(targ, min - 2 * WORD);
  }

  // ---------------------------------------------------------------- repetition

  ghost function Repeat(t: seq<Byte>, m: nat): (r: seq<Byte>)
  {
    if m == 0 then [] else Repeat(t, m - 1) + t
  }

  lemma {:induction false} RepeatLength(t: seq<Byte>, m: nat)
    ensures |Repeat(t, m)| == |t| * m
  {
    if m > 0 {
      RepeatLength(t, m - 1);
      assert |t| * m == |t| * (m - 1) + |t|;
    }
  }

  /** Copy `i` of the text is at the `i`-th place. */
  lemma {:induction false} RepeatedAt(t: seq<Byte>, m: nat, i: nat)
    requires i < m
    ensures var p := |t| * i; 0 <= p && p + |t| <= |Repeat(t, m)| && Repeat(t, m)[p..p + |t|] == t
  {
    RepeatLength(t, m - 1);
    RepeatLength(t, i);
    if i < m - 1 {
      RepeatedAt(t, m - 1, i);
      var p := |t| * i;
      assert Repeat(t, m)[p..p + |t|] == Repeat(t, m - 1)[p..p + |t|];
    }
  }

  lemma {:induction false} RepeatGrows(t: seq<Byte>, i: nat, m: nat)
    requires i <= m
    ensures |Repeat(t, i)| <= |Repeat(t, m)|
  {
    if i < m {
      RepeatGrows(t, i, m - 1);
    }
  }

  /** The text `m` times, in a block that has room for it. */
  method CopyRepeated(a: Str, m: nat, n: array<Byte>, ghost text: seq<Byte>) returns (offset: nat)
    requires IsString(a) && TextOf(a) == text && (a.At? ==> n != a.b.bytes) && |Repeat(text, m)| <= n.Length
    modifies n
    ensures offset == |Repeat(text, m)| && n[..offset] == Repeat(text, m)
  {
    offset := 0;
    for i := 0 to m
      invariant offset == |Repeat(text, i)| <= n.Length && n[..offset] == Repeat(text, i)
    {
      RepeatGrows(text, i + 1, m);
      assert IsString(a) && TextOf(a) == text;
      offset := AppendText(n, offset, a);
    }
  }

  /** `m * a`; the result is never a null pointer. */
  method Mult(m: nat, a: Str) returns (r: Str)
    requires IsString(a) && Fits(|TextOf(a)| * m + 3 * WORD)
    ensures NewString(r, old(Repeat(TextOf(a), m)))
  {
    ghost var text := TextOf(a);
    var len := Len(a);
    var l := len * m;
    var alloc := ComputeAlloc(l);
    var n := new Block(alloc);
    RepeatLength(text, m);
    var offset := CopyRepeated(a, m, n.bytes, text);
    n.bytes[l] := 0;
    assert n.bytes[..l] == Repeat(text, m);
    r := Finish(n, Repeat(text, m), l, alloc);
  }
}
