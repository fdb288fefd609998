/** Integer registers of any width: bit patterns, the numbers they stand for, and LLVM's operations on them. */
module Words {
  import opened Bits

  /** A bit pattern of width `w`. */
  predicate Fits(w: nat, b: nat) {
    w >= 1 && b < Pow2(w)
  }

  predicate Negative(w: nat, b: nat)
    requires w >= 1
  {
    b >= Pow2(w - 1)
  }

  /** The number that a pattern stands for. */
  function Number(w: nat, isSigned: bool, b: nat): int
    requires w >= 1
  {
    if isSigned && Negative(w, b) then b - Pow2(w) else b
  }

  function Min(w: nat, isSigned: bool): int
    requires w >= 1
  {
    if isSigned then 0 - Pow2(w - 1) else 0
  }

  function Max(w: nat, isSigned: bool): int
    requires w >= 1
  {
    (if isSigned then Pow2(w - 1) else Pow2(w)) - 1
  }

  /** The pattern of a number, cut to the width. */
  function Wrap(w: nat, x: int): (b: nat)
    ensures b < Pow2(w)
  {
    Pow2Positive(w);
    x % Pow2(w)
  }

  function Add(w: nat, a: nat, b: nat): nat {
    Wrap(w, a + b)
  }

  function Sub(w: nat, a: nat, b: nat): nat {
    Wrap(w, a - b)
  }

  function Xor(a: nat, b: nat): nat {
    if a == 0 then b else if b == 0 then a else 2 * Xor(a / 2, b / 2) + (if a % 2 != b % 2 then 1 else 0)
  }

  /** Arithmetic shift to the right. */
  function AShr(w: nat, b: nat, k: nat): nat
    requires w >= 1
  {
    Pow2Positive(k);
    Wrap(w, Number(w, true, b) / Pow2(k))
  }

  // ---------------------------------------------------------------- numbers and patterns

  lemma NumberInRange(w: nat, isSigned: bool, b: nat)
    requires Fits(w, b)
    ensures Min(w, isSigned) <= Number(w, isSigned, b) <= Max(w, isSigned)
  {
  }

  lemma ModShift(x: int, m: int, q: int)
    requires m > 0
    ensures (x + q * m) % m == x % m
  {
    var r, d := (x + q * m) % m, x % m;
    var k := x / m + q - (x + q * m) / m;
    assert x == x / m * m + d && x + q * m == (x + q * m) / m * m + r;
    assert r - d == (x / m + q - (x + q * m) / m) * m;
    if k >= 1 {
      AtLeastOnce(k, m);
    } else if k <= -1 {
      AtLeastOnce(-k, m);
    }
  }

  /** Numbers that differ by a multiple of the modulus have one pattern. */
  lemma WrapShift(w: nat, x: int, q: int)
    ensures Wrap(w, x + q * Pow2(w)) == Wrap(w, x)
  {
    Pow2Positive(w);
    ModShift(x, Pow2(w), q);
  }

  lemma WrapSmall(w: nat, x: int)
    requires 0 <= x < Pow2(w)
    ensures Wrap(w, x) == x
  {
    ModUnique(x, Pow2(w), 0, x);
  }

  lemma WrapBelow(w: nat, x: int)
    requires 0 - Pow2(w) <= x < 0
    ensures Wrap(w, x) == x + Pow2(w)
  {
    WrapShift(w, x, 1);
    WrapSmall(w, x + Pow2(w));
  }

  lemma WrapOfNumber(w: nat, isSigned: bool, b: nat)
    requires Fits(w, b)
    ensures Wrap(w, Number(w, isSigned, b)) == b
  {
    if isSigned && Negative(w, b) {
      WrapBelow(w, b - Pow2(w));
    } else {
      WrapSmall(w, b);
    }
  }

  lemma NumberOfWrap(w: nat, isSigned: bool, x: int)
    requires w >= 1 && Min(w, isSigned) <= x <= Max(w, isSigned)
    ensures Number(w, isSigned, Wrap(w, x)) == x
  {
    Pow2Positive(w - 1);
    if x < 0 {
      WrapBelow(w, x);
    } else {
      WrapSmall(w, x);
    }
  }

  lemma SameNumber(w: nat, isSigned: bool, a: nat, b: nat)
    requires Fits(w, a) && Fits(w, b)
    ensures a == b <==> Number(w, isSigned, a) == Number(w, isSigned, b)
  {
    WrapOfNumber(w, isSigned, a);
    WrapOfNumber(w, isSigned, b);
  }

  /** Sums and differences of patterns are those of the numbers, cut to the width. */
  lemma AddWraps(w: nat, isSigned: bool, a: nat, b: nat)
    requires Fits(w, a) && Fits(w, b)
    ensures Add(w, a, b) == Wrap(w, Number(w, isSigned, a) + Number(w, isSigned, b))
    ensures Sub(w, a, b) == Wrap(w, Number(w, isSigned, a) - Number(w, isSigned, b))
  {
    var x, y := Number(w, isSigned, a), Number(w, isSigned, b);
    if isSigned && Negative(w, a) {
      if Negative(w, b) {
        WrapShift(w, x + y, 2);
      } else {
        WrapShift(w, x + y, 1);
        WrapShift(w, x - y, 1);
      }
    } else if isSigned && Negative(w, b) {
      WrapShift(w, x + y, 1);
      WrapShift(w, x - y, -1);
    }
  }

  // ---------------------------------------------------------------- sign bits

  lemma {:induction false} XorSign(w: nat, a: nat, b: nat)
    requires Fits(w, a) && Fits(w, b)
    ensures Fits(w, Xor(a, b)) && (Negative(w, Xor(a, b)) <==> Negative(w, a) != Negative(w, b))
    decreases w
  {
    Pow2Positive(w - 1);
    if w > 1 && a > 0 && b > 0 {
      XorSign(w - 1, a / 2, b / 2);
    }
  }

  /** Shifting the sign bit through gives all ones or all zeros. */
  lemma SignMask(w: nat, b: nat)
    requires Fits(w, b)
    ensures AShr(w, b, w - 1) == if Negative(w, b) then Pow2(w) - 1 else 0
  {
    var h := Pow2(w - 1);
    var x := Number(w, true, b);
    Pow2Positive(w - 1);
    if x < 0 {
      assert -h <= x;
      HalfBelow(x, h);
      WrapBelow(w, -1);
    } else {
      ModUnique(x, h, 0, x);
      WrapSmall(w, 0);
    }
  }

  lemma HalfBelow(x: int, h: int)
    requires 0 < h && -h <= x < 0
    ensures x / h == -1
  {
    ModShift(x, h, 1);
    ModUnique(x + h, h, 0, x + h);
    assert x == x / h * h + (x + h);
    assert (x / h + 1) * h == 0;
  }
}
