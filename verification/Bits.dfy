/** Bitwise operations on unsigned words, as functions on natural numbers, and what they compute for masks. */
module Bits {

  function Pow2(n: nat): nat {
    if n == 0 then 1 else 2 * Pow2(n - 1)
  }

  /** `a & b` */
  function And(a: nat, b: nat): nat {
    if a == 0 || b == 0 then 0 else 2 * And(a / 2, b / 2) + (if a % 2 == 1 && b % 2 == 1 then 1 else 0)
  }

  /** `a & ~b` */
  function AndNot(a: nat, b: nat): nat {
    if a == 0 then 0 else 2 * AndNot(a / 2, b / 2) + (if a % 2 == 1 && b % 2 == 0 then 1 else 0)
  }

  lemma {:induction false} Pow2Positive(k: nat)
    ensures Pow2(k) > 0 && (k > 0 ==> Pow2(k) % 2 == 0)
  {
    if k > 0 {
      Pow2Positive(k - 1);
      assert Pow2(k) == 2 * Pow2(k - 1);
    }
  }

  lemma {:induction false} Pow2Monotone(a: nat, b: nat)
    requires a <= b
    ensures Pow2(a) <= Pow2(b)
  {
    if a < b {
      Pow2Monotone(a, b - 1);
    }
  }

  lemma HalfMod(x: nat, p: nat)
    requires p > 0
    ensures x % (2 * p) == 2 * (x / 2 % p) + x % 2
  {
    var q, r := x / 2 / p, x / 2 % p;
    assert x / 2 == q * p + r;
    assert x == q * (2 * p) + (2 * r + x % 2);
    ModUnique(x, 2 * p, q, 2 * r + x % 2);
  }

  lemma AtLeastOnce(d: int, m: nat)
    requires d >= 1
    ensures d * m >= m
  {
  }

  lemma ModUnique(x: int, m: nat, q: int, r: nat)
    requires r < m && x == q * m + r
    ensures x % m == r && x / m == q
  {
    var q', r' := x / m, x % m;
    assert x == q' * m + r';
    assert (q' - q) * m == r - r' && (q - q') * m == r' - r;
    if q' > q {
      AtLeastOnce(q' - q, m);
    } else if q' < q {
      AtLeastOnce(q - q', m);
    }
  }

  lemma {:induction false} ClearNone(x: nat)
    ensures AndNot(x, 0) == x
  {
    if x > 0 {
      ClearNone(x / 2);
    }
  }

  /** Clearing the low `k` bits rounds down to a multiple of two to the power `k`. */
  lemma {:induction false} ClearLow(x: nat, k: nat)
    ensures Pow2(k) > 0 && AndNot(x, Pow2(k) - 1) == x - x % Pow2(k)
  {
    Pow2Positive(k);
    if k == 0 {
      ClearNone(x);
      assert Pow2(k) == 1 && x % 1 == 0;
    } else if x == 0 {
      assert 0 % Pow2(k) == 0;
    } else {
      var p := Pow2(k - 1);
      ClearLow(x / 2, k - 1);
      ClearLowStep(x, p);
      assert Pow2(k) == 2 * p;
    }
  }

  lemma ClearLowStep(x: nat, p: nat)
    requires x > 0 && p > 0 && AndNot(x / 2, p - 1) == x / 2 - x / 2 % p
    ensures AndNot(x, 2 * p - 1) == x - x % (2 * p)
  {
    assert (2 * p - 1) / 2 == p - 1 && (2 * p - 1) % 2 == 1;
    HalfMod(x, p);
  }

  ghost predicate IsPow2(n: nat) {
    exists k: nat :: n == Pow2(k)
  }

  /** The test `(n & (n - 1)) != 0` finds exactly the numbers that are not powers of two. */
  lemma {:induction false} PowerTest(n: nat)
    requires n > 0
    ensures And(n, n - 1) == 0 <==> IsPow2(n)
  {
    if n == 1 {
      assert n == Pow2(0);
    } else if n % 2 == 0 {
      PowerTest(n / 2);
      assert (n - 1) / 2 == n / 2 - 1 && (n - 1) % 2 == 1;
      if IsPow2(n / 2) {
        var k: nat :| n / 2 == Pow2(k);
        assert n == Pow2(k + 1);
      }
      if IsPow2(n) {
        var k: nat :| n == Pow2(k);
        assert n / 2 == Pow2(k - 1);
      }
    } else {
      // n and n - 1 share their top bit
      assert (n - 1) / 2 == n / 2;
      AndSelf(n / 2);
      if IsPow2(n) {
        var k: nat :| n == Pow2(k);
        Pow2Positive(k);
      }
    }
  }

  lemma {:induction false} AndSelf(n: nat)
    ensures And(n, n) == n
  {
    if n > 0 {
      AndSelf(n / 2);
    }
  }

  /** `a | b` */
  function Or(a: nat, b: nat): nat {
    if a == 0 then b else if b == 0 then a else 2 * Or(a / 2, b / 2) + (if a % 2 == 1 || b % 2 == 1 then 1 else 0)
  }

  /** With no common bits, or is addition. */
  lemma {:induction false} OrIsSum(a: nat, b: nat, k: nat)
    requires b < Pow2(k) && Pow2(k) > 0 && a % Pow2(k) == 0
    ensures Or(a, b) == a + b
    decreases k
  {
    if a > 0 && b > 0 && k > 0 {
      var p := Pow2(k - 1);
      Pow2Positive(k - 1);
      HalfMod(a, p);
      OrIsSum(a / 2, b / 2, k - 1);
    }
  }

  /** Masking with `2^k - 1` keeps the low `k` bits. */
  lemma {:induction false} AndLow(x: nat, k: nat)
    ensures Pow2(k) > 0 && And(x, Pow2(k) - 1) == x % Pow2(k)
    decreases k
  {
    Pow2Positive(k);
    if x == 0 {
      assert 0 % Pow2(k) == 0;
    } else if k == 0 {
      assert Pow2(k) == 1 && x % 1 == 0;
    } else {
      var p := Pow2(k - 1);
      AndLow(x / 2, k - 1);
      AndLowStep(x, p, x / 2 % p);
      HalfMod(x, p);
      assert Pow2(k) == 2 * p;
    }
  }

  lemma AndLowStep(x: nat, p: nat, r: nat)
    requires x > 0 && p > 0 && And(x / 2, p - 1) == r
    ensures And(x, 2 * p - 1) == 2 * r + x % 2
  {
    var m := 2 * p - 1;
    assert m / 2 == p - 1 && m % 2 == 1 && m > 0;
  }

  /** Some bit from the `k`-th up is set exactly in numbers of that size. */
  lemma HighBits(x: nat, k: nat)
    ensures Pow2(k) > 0 && (AndNot(x, Pow2(k) - 1) != 0 <==> x >= Pow2(k))
  {
    ClearLow(x, k);
    RoundsDown(x, Pow2(k));
  }

  lemma RoundsDown(x: nat, m: nat)
    requires m > 0
    ensures x - x % m > 0 <==> x >= m
  {
    if x < m {
      ModUnique(x, m, 0, x);
    }
  }

  type Byte = b: nat | b < 256

  /** The value that a sequence of bytes has as a little-endian word. */
  function WordOf(s: seq<Byte>): nat {
    if s == [] then 0 else s[0] + 256 * WordOf(s[1..])
  }

  /** A number as a little-endian word of `k` bytes. */
  function WordBytes(n: nat, k: nat): (s: seq<Byte>)
    ensures |s| == k
  {
    if k == 0 then [] else [n % 256] + WordBytes(n / 256, k - 1)
  }

  function Pow256(k: nat): nat {
    if k == 0 then 1 else 256 * Pow256(k - 1)
  }

  lemma {:induction false} WordRoundTrip(n: nat, k: nat)
    requires n < Pow256(k)
    ensures WordOf(WordBytes(n, k)) == n
    decreases k
  {
    if k > 0 {
      WordRoundTrip(n / 256, k - 1);
      assert WordBytes(n, k)[1..] == WordBytes(n / 256, k - 1);
    }
  }
}
