/** UTF-8 coding (clib/str_c.c, utf8_decode and utf8_encode). */
module Utf8 {
  import opened Bits

  /** -1 as an unsigned 32-bit number. */
  const ERROR: nat := 0xffff_ffff

  const LIMIT := 0x11_0000

  // ---------------------------------------------------------------- the code

  function Cont(x: nat): Byte {
    0x80 + x % 64
  }

  function Encoding(cp: nat): (s: seq<Byte>)
    requires cp < LIMIT
  {
    if cp < 0x80 then [cp]
    else if cp < 0x800 then [0xc0 + cp / 64, Cont(cp)]
    else if cp < 0x1_0000 then [0xe0 + cp / 64 / 64, Cont(cp / 64), Cont(cp)]
    else [0xf0 + cp / 64 / 64 / 64, Cont(cp / 64 / 64), Cont(cp / 64), Cont(cp)]
  }

  // ---------------------------------------------------------------- encoding

  /** The bytes of a word from the lowest, up to the first zero byte: what a C string made of the word holds. */
  function Chars(w: nat): seq<Byte> {
    if w % 256 == 0 then [] else [w % 256] + Chars(w / 256)
  }

  lemma {:induction false} CharsOf(s: seq<Byte>)
    requires 0 !in s
    ensures Chars(WordOf(s)) == s
  {
    if s != [] {
      assert s[0] in s && forall b | b in s[1..] :: b in s;
      CharsOf(s[1..]);
      ByteSplit(s[0], WordOf(s[1..]));
      CharsStep(s[0], WordOf(s[1..]));
      assert s == [s[0]] + s[1..];
    }
  }

  lemma ByteSplit(b: nat, w: nat)
    requires b < 256
    ensures (b + 256 * w) % 256 == b && (b + 256 * w) / 256 == w
  {
  }

  lemma CharsStep(b: nat, w: nat)
    requires 0 < b < 256
    ensures Chars(b + 256 * w) == [b] + Chars(w)
  {
    ByteSplit(b, w);
  }

  lemma Words(a: Byte, b: Byte, c: Byte, d: Byte)
    ensures WordOf([a]) == a && WordOf([a, b]) == a + 256 * b
    ensures WordOf([a, b, c]) == a + 256 * (b + 256 * c)
    ensures WordOf([a, b, c, d]) == a + 256 * (b + 256 * (c + 256 * d))
  {
    WordCons(a, []);
    WordCons(b, []);
    WordCons(c, []);
    WordCons(d, []);
    WordCons(a, [b]);
    WordCons(b, [c]);
    WordCons(c, [d]);
    WordCons(a, [b, c]);
    WordCons(b, [c, d]);
    WordCons(a, [b, c, d]);
  }

  lemma WordCons(b: Byte, s: seq<Byte>)
    ensures [b] + s != [] && WordOf([b] + s) == b + 256 * WordOf(s)
  {
    assert ([b] + s)[1..] == s;
  }

  /** `w` with its lowest byte, which is zero, set to `b`. */
  function SetLow(w: nat, b: nat): nat {
    w - w % 256 + b % 256
  }

  /**
    * The encoder after `k` rounds: `k` continuation bytes are in the word `w`, with room for the next byte at its low
    * end.
    */
  predicate Encoder(codepoint: nat, k: nat, cp: nat, w: nat, low: nat, lead: nat) {
    match k
    case 0 => cp == codepoint && w == 0 && low == 0x3f
    case 1 => cp == codepoint / 64 && w == 256 * Cont(codepoint) && low == 0x1f && lead == 0xc0
    case 2 => cp == codepoint / 64 / 64 && w == 256 * (Cont(codepoint / 64) + 256 * Cont(codepoint)) && low == 0xf
        && lead == 0xe0
    case 3 =>
      cp == codepoint / 64 / 64 / 64 &&
      w == 256 * (Cont(codepoint / 64 / 64) + 256 * (Cont(codepoint / 64) + 256 * Cont(codepoint))) &&
      low == 7 && lead == 0xf0
    case _ => false
  }

  /** The highest code point plus one that fits with `k` continuation bytes. */
  function Room(k: nat): nat {
    match k
    case 0 => 0x80
    case 1 => 0x800
    case 2 => 0x1_0000
    case _ => LIMIT
  }

  lemma ContBits(cp: nat)
    ensures Or(0x80, And(cp, 0x3f)) == Cont(cp)
  {
    assert Pow2(6) == 64;
    AndLow(cp, 6);
    assert 0x80 % 64 == 0;
    OrIsSum(0x80, cp % 64, 6);
  }

  lemma SetLowZero(w: nat, b: nat)
    requires w % 256 == 0 && b < 256
    ensures SetLow(w, b) == w + b
  {
  }

  lemma EncoderRound(codepoint: nat, k: nat, cp: nat, w: nat, low: nat, lead: nat)
    requires k < 3 && Encoder(codepoint, k, cp, w, low, lead) && codepoint < LIMIT
    ensures Encoder(codepoint, k + 1, cp / 64, SetLow(w, Or(0x80, And(cp, 0x3f))) * 256, low / 2, 0xff - low)
  {
    ContBits(cp);
    SetLowZero(w, Cont(cp));
  }

  lemma EncoderMore(codepoint: nat, k: nat, cp: nat, w: nat, low: nat, lead: nat)
    requires 1 <= k <= 3 && Encoder(codepoint, k, cp, w, low, lead) && codepoint < LIMIT
    ensures AndNot(cp, low) != 0 <==> codepoint >= Room(k)
  {
    assert Pow2(5) == 32 && Pow2(4) == 16 && Pow2(3) == 8;
    HighBits(cp, 6 - k);
  }

  lemma EncoderEnd(codepoint: nat, k: nat, cp: nat, w: nat, low: nat, lead: nat)
    requires 1 <= k <= 3 && Encoder(codepoint, k, cp, w, low, lead) && Room(k - 1) <= codepoint < Room(k)
    ensures SetLow(w, Or(lead, cp)) == WordOf(Encoding(codepoint))
  {
    match k
    case 1 => EncodedIn2(codepoint);
    case 2 => EncodedIn3(codepoint);
    case _ => EncodedIn4(codepoint);
  }

  lemma EncodedIn2(cp: nat)
    requires 0x80 <= cp < 0x800
    ensures SetLow(256 * Cont(cp), Or(0xc0, cp / 64)) == WordOf(Encoding(cp))
  {
    LeadBits(0xc0, cp / 64, 5);
    SetLowZero(256 * Cont(cp), 0xc0 + cp / 64);
    Words(0xc0 + cp / 64, Cont(cp), 0, 0);
  }

  lemma Packed3(a: nat, b: Byte, c: Byte)
    requires a < 16
    ensures SetLow(256 * (b + 256 * c), Or(0xe0, a)) == WordOf([0xe0 + a, b, c])
  {
    LeadBits(0xe0, a, 4);
    SetLowZero(256 * (b + 256 * c), 0xe0 + a);
    Words(0xe0 + a, b, c, 0);
  }

  lemma Packed4(a: nat, b: Byte, c: Byte, d: Byte)
    requires a < 8
    ensures SetLow(256 * (b + 256 * (c + 256 * d)), Or(0xf0, a)) == WordOf([0xf0 + a, b, c, d])
  {
    LeadBits(0xf0, a, 3);
    SetLowZero(256 * (b + 256 * (c + 256 * d)), 0xf0 + a);
    Words(0xf0 + a, b, c, d);
  }

  lemma EncodedIn3(cp: nat)
    requires 0x800 <= cp < 0x1_0000
    ensures SetLow(256 * (Cont(cp / 64) + 256 * Cont(cp)), Or(0xe0, cp / 64 / 64)) == WordOf(Encoding(cp))
  {
    Packed3(cp / 64 / 64, Cont(cp / 64), Cont(cp));
  }

  lemma EncodedIn4(cp: nat)
    requires 0x1_0000 <= cp < LIMIT
    ensures SetLow(256 * (Cont(cp / 64 / 64) + 256 * (Cont(cp / 64) + 256 * Cont(cp))), Or(0xf0, cp / 64 / 64 / 64))
              == WordOf(Encoding(cp))
  {
    Packed4(cp / 64 / 64 / 64, Cont(cp / 64 / 64), Cont(cp / 64), Cont(cp));
  }

  lemma LeadBits(lead: nat, cp: nat, k: nat)
    requires (k == 5 && lead == 0xc0 && cp < 32) || (k == 4 && lead == 0xe0 && cp < 16)
               || (k == 3 && lead == 0xf0 && cp < 8)
    ensures Or(lead, cp) == lead + cp
  {
    assert Pow2(5) == 32 && Pow2(4) == 16 && Pow2(3) == 8;
    OrIsSum(lead, cp, k);
  }

  /** The last byte is below 0xc0, so no word of an encoding looks like the error. */
  lemma EncodedNoError(cp: nat)
    requires cp < LIMIT
    ensures WordOf(Encoding(cp)) < 0xc000_0000
  {
    if cp < 0x80 {
      Words(cp, 0, 0, 0);
    } else if cp < 0x800 {
      Words(0xc0 + cp / 64, Cont(cp), 0, 0);
    } else if cp < 0x1_0000 {
      Words(0xe0 + cp / 64 / 64, Cont(cp / 64), Cont(cp), 0);
    } else {
      Words(0xf0 + cp / 64 / 64 / 64, Cont(cp / 64 / 64), Cont(cp / 64), Cont(cp));
    }
  }

  /** The masks of utf8_encode are kept as their complements: a one shifted in from the left is a zero here. */
  method Encode(codepoint: nat) returns (w: nat)
    requires codepoint < 0x1_0000_0000
    ensures w == if codepoint < LIMIT then WordOf(Encoding(codepoint)) else ERROR
    ensures w == 0xffff_ffff <==> codepoint >= 0x11_0000
  {
    if codepoint < LIMIT {
      EncodedNoError(codepoint);
    }
    w := 0;
    assert Pow2(7) == 128;
    HighBits(codepoint, 7);
    if AndNot(codepoint, 0x7f) == 0 {
      Words(codepoint, 0, 0, 0);
      return SetLow(w, codepoint);
    }
    if codepoint >= LIMIT {
      return ERROR;
    }
    var cp: nat, low: nat, lead: nat, more := codepoint, 0x3f, 0, true;
    ghost var k := 0;
    while more
      invariant k <= 3 && Encoder(codepoint, k, cp, w, low, lead)
      invariant (more <==> codepoint >= Room(k)) && (k > 0 ==> codepoint >= Room(k - 1)) && Room(0) <= codepoint < LIMIT
      decreases 3 - k
    {
      EncoderRound(codepoint, k, cp, w, low, lead);
      w := SetLow(w, Or(0x80, And(cp, 0x3f))) * 256;
      cp := cp / 64;
      lead := 0xff - low;
      low := low / 2;
      more := AndNot(cp, low) != 0;
      k := k + 1;
      EncoderMore(codepoint, k, cp, w, low, lead);
    }
    EncoderEnd(codepoint, k, cp, w, low, lead);
    w := SetLow(w, Or(lead, cp));
  }

  // ---------------------------------------------------------------- decoding

  /** A C string with its terminator. */
  predicate Terminated(s: seq<Byte>) {
    |s| > 0 && s[|s| - 1] == 0
  }

  /** The position behind the last byte that was read comes with the result. */
  datatype Decoded = Char(cp: nat, next: nat) | Illegal(next: nat)

  /** The number of continuation bytes that a lead byte announces. */
  function Announced(c: Byte): nat {
    if c < 0xc0 then 0 else if c < 0xe0 then 1 else if c < 0xf0 then 2 else if c < 0xf8 then 3 else 0
  }

  function DecodeAt(s: seq<Byte>, p: nat): (d: Decoded)
    requires Terminated(s) && p < |s|
    ensures p < d.next <= |s|
  {
    var c := s[p];
    if c < 0x80 then Char(c, p + 1)
    else if Announced(c) == 0 then Illegal(p + 1)
    else Continue(s, p + 1, Announced(c), LeadPart(c))
  }

  /** The bits of the code point in a lead byte. */
  function LeadPart(c: Byte): nat {
    if c < 0xe0 then c % 32 else if c < 0xf0 then c % 16 else c % 8
  }

  /** `k` continuation bytes are still to be read. */
  function Continue(s: seq<Byte>, p: nat, k: nat, cp: nat): (d: Decoded)
    requires Terminated(s) && p <= |s| && (k > 0 ==> p < |s|)
    ensures p <= d.next <= |s|
    decreases k
  {
    if k == 0 then Char(cp, p)
    else if !(0x80 <= s[p] < 0xc0) then Illegal(p + 1)
    else Continue(s, p + 1, k - 1, cp * 64 + s[p] % 64)
  }

  /** Comparing the high bits of a byte. */
  lemma HighTest(c: Byte, k: nat, m: nat, v: nat)
    requires m == Pow2(k) && m > 0 && v % m == 0
    ensures AndNot(c, m - 1) == v <==> v <= c < v + m
    ensures And(c, m - 1) == c % m
  {
    ClearLow(c, k);
    AndLow(c, k);
    SameBlock(c, m, v);
  }

  lemma SameBlock(c: nat, m: nat, v: nat)
    requires m > 0 && v % m == 0
    ensures c - c % m == v <==> v <= c < v + m
  {
    var q := v / m;
    assert v == q * m;
    if v <= c < v + m {
      ModUnique(c, m, q, c - v);
    }
  }

  /** What the bit tests on a byte say. */
  lemma Tests(c: Byte)
    ensures AndNot(c, 0x1f) == 0xc0 <==> 0xc0 <= c < 0xe0
    ensures AndNot(c, 0x0f) == 0xe0 <==> 0xe0 <= c < 0xf0
    ensures AndNot(c, 0x07) == 0xf0 <==> 0xf0 <= c < 0xf8
    ensures AndNot(c, 0x3f) == 0x80 <==> 0x80 <= c < 0xc0
    ensures And(c, 0x1f) == c % 32 && And(c, 0x0f) == c % 16 && And(c, 0x07) == c % 8 && And(c, 0x3f) == c % 64
  {
    assert Pow2(6) == 64 && Pow2(5) == 32 && Pow2(4) == 16 && Pow2(3) == 8;
    HighTest(c, 5, 32, 0xc0);
    HighTest(c, 4, 16, 0xe0);
    HighTest(c, 3, 8, 0xf0);
    HighTest(c, 6, 64, 0x80);
  }

  lemma SixMore(cp: nat, x: nat)
    requires x < 64
    ensures Or(cp * 64, x) == cp * 64 + x
  {
    assert Pow2(6) == 64;
    OrIsSum(cp * 64, x, 6);
  }

  /** Reads one character of the string `s` from `start`. */
  method Decode(s: seq<Byte>, start: nat) returns (cp: nat, next: nat)
    requires Terminated(s) && start < |s|
    ensures var d := DecodeAt(s, start); next == d.next && cp == if d.Char? then d.cp else ERROR
    ensures cp == 0xffff_ffff <==> !IsSequence(s, start)
  {
    SequenceIff(s, start);
    var c := s[start];
    next := start + 1;
    if c < 0x80 {
      return c, next;
    }
    var k;
    cp, k := DecodeLead(c);
    if k == 0 {
      return ERROR, next;
    }
    cp, next := DecodeTail(s, next, k, cp);
  }

  lemma ContinueStep(s: seq<Byte>, p: nat, k: nat, cp: nat)
    requires Terminated(s) && p < |s| && k > 0
    ensures 0x80 <= s[p] < 0xc0 ==>
              p + 1 < |s| && Continue(s, p, k, cp) == Continue(s, p + 1, k - 1, cp * 64 + s[p] % 64)
    ensures !(0x80 <= s[p] < 0xc0) ==> Continue(s, p, k, cp) == Illegal(p + 1)
  {
  }

  /** The loop over the continuation bytes. */
  method DecodeTail(s: seq<Byte>, start: nat, k: nat, lead: nat) returns (cp: nat, next: nat)
    requires Terminated(s) && start < |s| && k > 0
    ensures var d := Continue(s, start, k, lead); next == d.next && cp == if d.Char? then d.cp else ERROR
  {
    cp, next := lead, start;
    var end, more := start + k, true;
    while more
      invariant start <= next <= end && next <= |s| && (more <==> next < end) && (more ==> next < |s|)
      invariant Continue(s, next, end - next, cp) == Continue(s, start, k, lead)
      decreases end - next
    {
      ContinueStep(s, next, end - next, cp);
      var ok;
      ok, cp := TakeSix(cp, s[next]);
      next := next + 1;
      if !ok {
        return ERROR, next;
      }
      more := next < end;
    }
  }

  /** One continuation byte gives six more bits. */
  method TakeSix(cp: nat, c: Byte) returns (ok: bool, r: nat)
    ensures ok <==> 0x80 <= c < 0xc0
    ensures r == cp * 64 + c % 64
  {
    Tests(c);
    SixMore(cp, c % 64);
    ok := AndNot(c, 0x3f) == 0x80;
    r := Or(cp * 64, And(c, 0x3f));
  }

  /**
    * The lead byte of a sequence: its bits of the code point, and the number of continuation bytes, or 0 if it is not a
    * lead byte.
    */
  method DecodeLead(c: Byte) returns (cp: nat, k: nat)
    requires c >= 0x80
    ensures k == Announced(c) && (k > 0 ==> cp == LeadPart(c))
  {
    Tests(c);
    if AndNot(c, 0x1f) == 0xc0 {
      cp, k := And(c, 0x1f), 1;
    } else if AndNot(c, 0x0f) == 0xe0 {
      cp, k := And(c, 0x0f), 2;
    } else if AndNot(c, 0x07) == 0xf0 {
      cp, k := And(c, 0x07), 3;
    } else {
      cp, k := 0, 0;
    }
  }

  // ---------------------------------------------------------------- round trips

  /** Code points other than the terminator; surrogates are not excluded. */
  predicate Encodable(cps: seq<nat>) {
    forall i | 0 <= i < |cps| :: 0 < cps[i] < LIMIT
  }

  function Encodings(cps: seq<nat>): (es: seq<seq<Byte>>)
    requires Encodable(cps)
    ensures |es| == |cps| && forall i | 0 <= i < |es| :: es[i] == Encoding(cps[i])
  {
    seq(|cps|, i requires 0 <= i < |cps| => Encoding(cps[i]))
  }

  function Flatten(es: seq<seq<Byte>>): seq<Byte> {
    if es == [] then [] else es[0] + Flatten(es[1..])
  }

  function EncodeAll(cps: seq<nat>): seq<Byte>
    requires Encodable(cps)
  {
    Flatten(Encodings(cps))
  }

  /**
    * Decoding up to the end of the string: the characters read and where reading stopped, or the first illegal
    * position.
    */
  datatype Text = Text(cps: seq<nat>, stop: nat) | Broken(at: nat)

  function DecodeAll(s: seq<Byte>, p: nat): Text
    requires Terminated(s) && p < |s|
    decreases |s| - p
  {
    if s[p] == 0 then Text([], p)
    else
      var d := DecodeAt(s, p);
      if d.Illegal? || d.next >= |s| then Broken(p)
      else
        var rest := DecodeAll(s, d.next);
        if rest.Text? then Text([d.cp] + rest.cps, rest.stop) else rest
  }

  lemma Decode2(s: seq<Byte>, p: nat, a: nat, x: nat)
    requires Terminated(s) && p + 2 <= |s| && a < 32 && x < 64 && s[p] == 0xc0 + a && s[p + 1] == 0x80 + x
    ensures DecodeAt(s, p) == Char(a * 64 + x, p + 2)
  {
    Unrolled(s, p);
  }

  lemma Decode3(s: seq<Byte>, p: nat, a: nat, x: nat, y: nat)
    requires Terminated(s) && p + 3 <= |s| && a < 16 && x < 64 && y < 64
    requires s[p] == 0xe0 + a && s[p + 1] == 0x80 + x && s[p + 2] == 0x80 + y
    ensures DecodeAt(s, p) == Char((a * 64 + x) * 64 + y, p + 3)
  {
    Unrolled(s, p);
  }

  lemma Decode4(s: seq<Byte>, p: nat, a: nat, x: nat, y: nat, z: nat)
    requires Terminated(s) && p + 4 <= |s| && a < 8 && x < 64 && y < 64 && z < 64
    requires s[p] == 0xf0 + a && s[p + 1] == 0x80 + x && s[p + 2] == 0x80 + y && s[p + 3] == 0x80 + z
    ensures DecodeAt(s, p) == Char(((a * 64 + x) * 64 + y) * 64 + z, p + 4)
  {
    Unrolled(s, p);
  }

  lemma Same(s: seq<Byte>, p: nat, e: seq<Byte>)
    requires p + |e| <= |s| && s[p..p + |e|] == e
    ensures forall i | 0 <= i < |e| :: s[p + i] == e[i]
  {
    var r := s[p..p + |e|];
    assert forall i | 0 <= i < |e| :: r[i] == s[p + i];
  }

  /** An encoding in front of anything decodes to its code point. */
  lemma RoundTripAt(s: seq<Byte>, p: nat, cp: nat)
    requires Terminated(s) && cp < LIMIT && p + |Encoding(cp)| <= |s| && s[p..p + |Encoding(cp)|] == Encoding(cp)
    ensures DecodeAt(s, p) == Char(cp, p + |Encoding(cp)|)
  {
    var e := Encoding(cp);
    Same(s, p, e);
    assert s[p + 0] == e[0];
    if |e| == 2 {
      assert s[p + 1] == e[1];
      Decode2(s, p, cp / 64, cp % 64);
    } else if |e| == 3 {
      assert s[p + 1] == e[1] && s[p + 2] == e[2];
      Decode3(s, p, cp / 64 / 64, cp / 64 % 64, cp % 64);
    } else if |e| == 4 {
      assert s[p + 1] == e[1] && s[p + 2] == e[2] && s[p + 3] == e[3];
      Decode4(s, p, cp / 64 / 64 / 64, cp / 64 / 64 % 64, cp / 64 % 64, cp % 64);
    }
  }

  lemma LeadNotZero(cp: nat)
    requires 0 < cp < LIMIT
    ensures Encoding(cp) != [] && Encoding(cp)[0] != 0
  {
  }

  /** The bytes `e` stand at `p` and are read as the character `cp`. */
  ghost predicate ReadsAs(s: seq<Byte>, p: nat, e: seq<Byte>, cp: nat) {
    Terminated(s) && e != [] && e[0] != 0 && p + |e| < |s| && s[p] == e[0] && DecodeAt(s, p) == Char(cp, p + |e|)
  }

  lemma FirstReads(s: seq<Byte>, p: nat, cp: nat)
    requires 0 < cp < LIMIT && Terminated(s) && p + |Encoding(cp)| < |s| && s[p..p + |Encoding(cp)|] == Encoding(cp)
    ensures ReadsAs(s, p, Encoding(cp), cp)
  {
    LeadNotZero(cp);
    RoundTripAt(s, p, cp);
    assert s[p] == s[p..p + |Encoding(cp)|][0];
  }

  predicate StandsAt(s: seq<Byte>, p: nat, e: seq<Byte>) {
    p + |e| < |s| && s[p..p + |e|] == e
  }

  /** Wherever one of the sequences `es` stands in `s`, it is read as its character. */
  ghost predicate AllRead(s: seq<Byte>, es: seq<seq<Byte>>, cps: seq<nat>) {
    |es| == |cps| && forall i, p: nat | 0 <= i < |es| && StandsAt(s, p, es[i]) :: ReadsAs(s, p, es[i], cps[i])
  }

  lemma {:induction false} RoundTripFrom(s: seq<Byte>, p: nat, es: seq<seq<Byte>>, cps: seq<nat>, i: nat)
    requires AllRead(s, es, cps) && Terminated(s) && i <= |es| && p <= |s| && s[p..] == Flatten(es[i..]) + [0]
    ensures p < |s| && DecodeAll(s, p) == Text(cps[i..], |s| - 1)
    decreases |es| - i
  {
    if i == |es| {
      assert s[p] == s[p..][0];
    } else {
      var e := es[i];
      CutFirst(s, p, es, i);
      RoundTripFrom(s, p + |e|, es, cps, i + 1);
      OneMore(s, p, e, cps[i], cps[i + 1..]);
      assert [cps[i]] + cps[i + 1..] == cps[i..];
    }
  }

  lemma CutFirst(s: seq<Byte>, p: nat, es: seq<seq<Byte>>, i: nat)
    requires i < |es| && p <= |s| && s[p..] == Flatten(es[i..]) + [0]
    ensures StandsAt(s, p, es[i]) && s[p + |es[i]|..] == Flatten(es[i + 1..]) + [0]
  {
    var e, rest := es[i], Flatten(es[i + 1..]);
    assert es[i..][0] == e && es[i..][1..] == es[i + 1..];
    assert (e + rest) + [0] == e + (rest + [0]);
    Cut(s, p, e, rest + [0]);
  }

  lemma OneMore(s: seq<Byte>, p: nat, e: seq<Byte>, cp: nat, rest: seq<nat>)
    requires ReadsAs(s, p, e, cp) && DecodeAll(s, p + |e|) == Text(rest, |s| - 1)
    ensures DecodeAll(s, p) == Text([cp] + rest, |s| - 1)
  {
  }

  lemma Cut(s: seq<Byte>, p: nat, e: seq<Byte>, rest: seq<Byte>)
    requires p <= |s| && s[p..] == e + rest
    ensures p + |e| + |rest| == |s| && s[p..p + |e|] == e && s[p + |e|..] == rest
  {
    assert s[p..][..|e|] == s[p..p + |e|] && s[p..][|e|..] == s[p + |e|..];
  }

  /** Decoding the encodings of any code points gives these back and uses every byte up to the terminator. */
  lemma RoundTrip(cps: seq<nat>)
    requires Encodable(cps)
    ensures var s := EncodeAll(cps) + [0]; DecodeAll(s, 0) == Text(cps, |s| - 1)
  {
    var s := EncodeAll(cps) + [0];
    var es := Encodings(cps);
    forall i, p: nat | 0 <= i < |es| && StandsAt(s, p, es[i]) ensures ReadsAs(s, p, es[i], cps[i]) {
      FirstReads(s, p, cps[i]);
    }
    assert s[0..] == s && es[0..] == es && cps[0..] == cps;
    RoundTripFrom(s, 0, es, cps, 0);
  }

  /** No encoding is a prefix of another one. */
  lemma PrefixFree(a: nat, b: nat)
    requires a < LIMIT && b < LIMIT && Encoding(a) <= Encoding(b)
    ensures a == b
  {
    var s := Encoding(b) + [0];
    assert s[0..|Encoding(b)|] == Encoding(b) && s[0..|Encoding(a)|] == Encoding(a);
    RoundTripAt(s, 0, a);
    RoundTripAt(s, 0, b);
  }

  /** The smallest code point that needs `n` bytes. */
  function Least(n: nat): nat {
    match n
    case 1 => 0
    case 2 => 0x80
    case 3 => 0x800
    case _ => 0x1_0000
  }

  lemma Digits(a: nat, b: nat)
    requires b < 64
    ensures (a * 64 + b) / 64 == a && (a * 64 + b) % 64 == b
  {
  }

  lemma LeadDigit(c: Byte)
    requires Announced(c) > 0
    ensures c == (match Announced(c) case 1 => 0xc0 case 2 => 0xe0 case _ => 0xf0) + LeadPart(c)
  {
  }

  lemma Canonical2(a: nat, x: nat)
    requires a < 32 && x < 64
    ensures var cp := a * 64 + x; cp < LIMIT && (Encoding(cp) == [0xc0 + a, 0x80 + x] <==> cp >= 0x80)
  {
    Digits(a, x);
  }

  lemma Canonical3(a: nat, x: nat, y: nat)
    requires a < 16 && x < 64 && y < 64
    ensures var cp := (a * 64 + x) * 64 + y;
            cp < LIMIT && (Encoding(cp) == [0xe0 + a, 0x80 + x, 0x80 + y] <==> cp >= 0x800)
  {
    Digits(a, x);
    Digits(a * 64 + x, y);
  }

  lemma Canonical4(a: nat, x: nat, y: nat, z: nat)
    requires a < 8 && x < 64 && y < 64 && z < 64
    ensures var cp := ((a * 64 + x) * 64 + y) * 64 + z;
            cp < LIMIT ==> (Encoding(cp) == [0xf0 + a, 0x80 + x, 0x80 + y, 0x80 + z] <==> cp >= 0x1_0000)
  {
    Digits(a, x);
    Digits(a * 64 + x, y);
    Digits((a * 64 + x) * 64 + y, z);
  }

  lemma CanonicalNumber(s: seq<Byte>, p: nat)
    requires Terminated(s) && p < |s| && DecodeAt(s, p).Char?
    ensures var d := DecodeAt(s, p);
            (d.cp < LIMIT && Encoding(d.cp) == s[p..d.next]) <==> Least(d.next - p) <= d.cp < LIMIT
  {
    if s[p] < 0x80 {
      assert s[p..p + 1] == [s[p]];
    } else {
      CanonicalLong(s, p);
    }
  }

  /** No lead byte of an overlong or too large character, nor a second byte that makes it one. */
  predicate ShortestBytes(s: seq<Byte>, p: nat)
    requires p < |s|
  {
    && s[p] != 0xc0 && s[p] != 0xc1 && s[p] < 0xf5
    && (s[p] == 0xe0 ==> p + 1 < |s| && s[p + 1] >= 0xa0)
    && (s[p] == 0xf0 ==> p + 1 < |s| && s[p + 1] >= 0x90)
    && (s[p] == 0xf4 ==> p + 1 < |s| && s[p + 1] < 0x90)
  }

  lemma Least2(a: nat, x: nat)
    requires a < 32 && x < 64
    ensures a * 64 + x < LIMIT
    ensures a * 64 + x >= 0x80 <==> a >= 2
  {
  }

  lemma Least3(a: nat, x: nat, y: nat)
    requires a < 16 && x < 64 && y < 64
    ensures (a * 64 + x) * 64 + y < LIMIT
    ensures (a * 64 + x) * 64 + y >= 0x800 <==> a > 0 || x >= 0x20
  {
  }

  lemma Least4(a: nat, x: nat, y: nat, z: nat)
    requires a < 8 && x < 64 && y < 64 && z < 64
    ensures ((a * 64 + x) * 64 + y) * 64 + z >= 0x1_0000 <==> a > 0 || x >= 0x10
    ensures ((a * 64 + x) * 64 + y) * 64 + z < LIMIT <==> a < 4 || (a == 4 && x < 0x10)
  {
  }

  /** What is decoded encodes to the bytes that were read exactly if the first two of them allow it. */
  lemma Canonical(s: seq<Byte>, p: nat)
    requires Terminated(s) && p < |s| && DecodeAt(s, p).Char?
    ensures var d := DecodeAt(s, p); (d.cp < LIMIT && Encoding(d.cp) == s[p..d.next]) <==> ShortestBytes(s, p)
  {
    CanonicalNumber(s, p);
    if s[p] >= 0x80 {
      ShortestLong(s, p);
    }
  }

  lemma ShortestLong(s: seq<Byte>, p: nat)
    requires Terminated(s) && p < |s| && s[p] >= 0x80 && DecodeAt(s, p).Char?
    ensures var d := DecodeAt(s, p); d.next >= p && (Least(d.next - p) <= d.cp < LIMIT <==> ShortestBytes(s, p))
  {
    Continued(s, p);
    LeadDigit(s[p]);
    var a, n := LeadPart(s[p]), Announced(s[p]);
    var x := s[p + 1] - 0x80;
    if n == 1 {
      Decode2(s, p, a, x);
      Least2(a, x);
    } else if n == 2 {
      Decode3(s, p, a, x, s[p + 2] - 0x80);
      Least3(a, x, s[p + 2] - 0x80);
    } else {
      Decode4(s, p, a, x, s[p + 2] - 0x80, s[p + 3] - 0x80);
      Least4(a, x, s[p + 2] - 0x80, s[p + 3] - 0x80);
    }
  }

  lemma Continued(s: seq<Byte>, p: nat)
    requires Terminated(s) && p < |s| && s[p] >= 0x80 && DecodeAt(s, p).Char?
    ensures var n := Announced(s[p]); 1 <= n <= 3 && IsCont(s, p + 1)
    ensures Announced(s[p]) >= 2 ==> IsCont(s, p + 2)
    ensures Announced(s[p]) == 3 ==> IsCont(s, p + 3)
  {
    Unrolled(s, p);
  }

  /** The code point 1 in two bytes: read as if it were in one. */
  lemma OverlongIsRead()
    ensures var s := [0xc0, 0x81, 0]; Terminated(s) && DecodeAt(s, 0) == Char(1, 2) && Encoding(1) == [1]
  {
    var s: seq<Byte> := [0xc0, 0x81, 0];
    assert Announced(s[0]) == 1 && IsCont(s, 1);
    Unrolled(s, 0);
  }

  lemma CanonicalLong(s: seq<Byte>, p: nat)
    requires Terminated(s) && p < |s| && s[p] >= 0x80 && DecodeAt(s, p).Char?
    ensures var d := DecodeAt(s, p); d.next - p >= 2
    ensures var d := DecodeAt(s, p); d.cp < LIMIT ==> (Encoding(d.cp) == s[p..d.next] <==> Least(d.next - p) <= d.cp)
  {
    Continued(s, p);
    LeadDigit(s[p]);
    var a, n := LeadPart(s[p]), Announced(s[p]);
    if n == 1 {
      assert s[p..p + 2] == [s[p], s[p + 1]];
      Canonical2(a, s[p + 1] - 0x80);
      Decode2(s, p, a, s[p + 1] - 0x80);
    } else if n == 2 {
      assert s[p..p + 3] == [s[p], s[p + 1], s[p + 2]];
      Canonical3(a, s[p + 1] - 0x80, s[p + 2] - 0x80);
      Decode3(s, p, a, s[p + 1] - 0x80, s[p + 2] - 0x80);
    } else {
      assert s[p..p + 4] == [s[p], s[p + 1], s[p + 2], s[p + 3]];
      Canonical4(a, s[p + 1] - 0x80, s[p + 2] - 0x80, s[p + 3] - 0x80);
      Decode4(s, p, a, s[p + 1] - 0x80, s[p + 2] - 0x80, s[p + 3] - 0x80);
    }
  }

  predicate IsCont(s: seq<Byte>, p: nat) {
    p < |s| && 0x80 <= s[p] < 0xc0
  }

  /** One byte below 0x80, or a lead byte with one, two or three continuation bytes behind it. */
  predicate IsSequence(s: seq<Byte>, p: nat)
    requires p < |s|
  {
    || s[p] < 0x80
    || (0xc0 <= s[p] < 0xe0 && IsCont(s, p + 1))
    || (0xe0 <= s[p] < 0xf0 && IsCont(s, p + 1) && IsCont(s, p + 2))
    || (0xf0 <= s[p] < 0xf8 && IsCont(s, p + 1) && IsCont(s, p + 2) && IsCont(s, p + 3))
  }

  lemma SequenceIff(s: seq<Byte>, p: nat)
    requires Terminated(s) && p < |s|
    ensures DecodeAt(s, p).Char? <==> IsSequence(s, p)
    ensures DecodeAt(s, p).Char? ==> DecodeAt(s, p).cp < 0x20_0000
  {
    if s[p] >= 0x80 {
      Unrolled(s, p);
    }
  }

  /** The characters that stand for the four lengths. */
  lemma Samples()
    ensures Encoding(0x24) == [0x24] && Encoding(0xa2) == [0xc2, 0xa2]
    ensures Encoding(0x20ac) == [0xe2, 0x82, 0xac] && Encoding(0x1_f600) == [0xf0, 0x9f, 0x98, 0x80]
  {
  }

  /** A character of several bytes, written out. */
  lemma Unrolled(s: seq<Byte>, p: nat)
    requires Terminated(s) && p < |s| && s[p] >= 0x80
    ensures var d, c: nat := DecodeAt(s, p), s[p];
            match Announced(s[p])
            case 0 => d.Illegal?
            case 1 => d == if IsCont(s, p + 1) then Char(c % 32 * 64 + s[p + 1] % 64, p + 2) else Illegal(p + 2)
            case 2 =>
              (d.Char? <==> IsCont(s, p + 1) && IsCont(s, p + 2)) &&
              (d.Char? ==> d == Char((c % 16 * 64 + s[p + 1] % 64) * 64 + s[p + 2] % 64, p + 3))
            case _ =>
              (d.Char? <==> IsCont(s, p + 1) && IsCont(s, p + 2) && IsCont(s, p + 3)) &&
              (d.Char? ==> d == Char(((c % 8 * 64 + s[p + 1] % 64) * 64 + s[p + 2] % 64) * 64 + s[p + 3] % 64, p + 4))
  {
    var c: nat := s[p];
    if IsCont(s, p + 1) && Announced(s[p]) >= 2 {
      var cp1 := LeadPart(s[p]) * 64 + s[p + 1] % 64;
      assert DecodeAt(s, p) == Continue(s, p + 2, Announced(s[p]) - 1, cp1);
      if IsCont(s, p + 2) && Announced(s[p]) == 3 {
        assert DecodeAt(s, p) == Continue(s, p + 3, 1, cp1 * 64 + s[p + 2] % 64);
      }
    }
  }
}
