/**
  * Floored division and mixed comparisons, as sequences of machine operations (src/codegen.cc,
  * BinaryExprAST::codegen_raw).
  */
module IntegerOps {
  import opened Bits
  import opened Words

  // ---------------------------------------------------------------- what division means

  function Abs(x: int): nat {
    if x < 0 then -x else x
  }

  /** The quotient towards zero, and the remainder that goes with it. */
  function Trunc(l: int, r: int): int
    requires r != 0
  {
    if (l < 0) == (r < 0) then Abs(l) / Abs(r) else -(Abs(l) / Abs(r))
  }

  function Rem(l: int, r: int): int
    requires r != 0
  {
    l - Trunc(l, r) * r
  }

  /** The quotient rounded down, and the remainder that goes with it. */
  function Floor(l: int, r: int): int
    requires r != 0
  {
    if r > 0 then l / r else (-l) / (-r)
  }

  function Mod(l: int, r: int): int
    requires r != 0
  {
    l - Floor(l, r) * r
  }

  /** The remainder of floored division has the sign of the divisor. */
  lemma ModBounds(l: int, r: int)
    requires r != 0
    ensures l == Floor(l, r) * r + Mod(l, r)
    ensures if r > 0 then 0 <= Mod(l, r) < r else r < Mod(l, r) <= 0
  {
    if r > 0 {
      assert l == l / r * r + l % r;
    } else {
      assert -l == (-l) / (-r) * (-r) + (-l) % (-r);
    }
  }

  lemma RemBounds(l: int, r: int)
    requires r != 0
    ensures Abs(Rem(l, r)) < Abs(r) && Abs(Rem(l, r)) == Abs(l) % Abs(r)
    ensures Rem(l, r) != 0 ==> (Rem(l, r) < 0) == (l < 0)
  {
    var a, b := Abs(l), Abs(r);
    assert a == a / b * b + a % b;
    if (l < 0) == (r < 0) {
      assert l < 0 ==> a / b * r == -(a / b * b);
    } else {
      assert l < 0 ==> -(a / b) * r == -(a / b * b);
      assert r < 0 ==> -(a / b) * r == a / b * b;
    }
  }

  /** Rounding down and towards zero differ by one where the signs differ and the division is not exact. */
  lemma FloorTrunc(l: int, r: int)
    requires r != 0
    ensures Floor(l, r) == Trunc(l, r) - (if (l < 0) != (r < 0) && Rem(l, r) != 0 then 1 else 0)
  {
    RemBounds(l, r);
    if (l < 0) != (r < 0) {
      NegativeQuotient(Abs(l), Abs(r));
    }
  }

  lemma NegativeQuotient(a: int, b: int)
    requires a >= 0 && b > 0
    ensures (-a) / b == -(a / b) - (if a % b == 0 then 0 else 1)
  {
    var q, m := a / b, a % b;
    assert a == q * b + m;
    if m == 0 {
      ModUnique(-a, b, -q, 0);
    } else {
      assert (-q - 1) * b == -(q * b) - b;
      ModUnique(-a, b, -q - 1, b - m);
    }
  }

  /** The same for the remainders. */
  lemma ModRem(l: int, r: int)
    requires r != 0
    ensures Mod(l, r) == Rem(l, r) + (if (l < 0) != (r < 0) && Rem(l, r) != 0 then r else 0)
  {
    FloorTrunc(l, r);
    assert (Trunc(l, r) - 1) * r == Trunc(l, r) * r - r;
  }

  // ---------------------------------------------------------------- what is emitted

  /** Division is undefined by zero, and where the quotient is out of range. */
  predicate Divisible(w: nat, l: nat, r: nat) {
    Fits(w, l) && Fits(w, r) && r != 0 && !(Number(w, true, l) == Min(w, true) && Number(w, true, r) == -1)
  }

  function SDiv(w: nat, l: nat, r: nat): nat
    requires Divisible(w, l, r)
  {
    Wrap(w, Trunc(Number(w, true, l), Number(w, true, r)))
  }

  function SRem(w: nat, l: nat, r: nat): nat
    requires Divisible(w, l, r)
  {
    Wrap(w, Rem(Number(w, true, l), Number(w, true, r)))
  }

  /** `/` on signed operands in the floored mode. */
  function EmittedDiv(w: nat, l: nat, r: nat): nat
    requires Divisible(w, l, r)
  {
    var c := SDiv(w, l, r);
    var x := Xor(r, l);
    var xx := AShr(w, x, w - 1);
    Add(w, c, xx)
  }

  /** `%` on signed operands in the floored mode. */
  function EmittedMod(w: nat, l: nat, r: nat): nat
    requires Divisible(w, l, r)
  {
    var c := SRem(w, l, r);
    var x := Xor(r, c);
    var xx := AShr(w, x, w - 1);
    var r0 := And(r, xx);
    Add(w, c, r0)
  }

  // ---------------------------------------------------------------- when it is right

  lemma QuotientBound(a: nat, b: nat)
    requires b > 0
    ensures a / b <= a && (b >= 2 ==> 2 * (a / b) <= a)
  {
    var q, m := a / b, a % b;
    assert a == q * b + m;
    ProductBound(q, b, q * b);
  }

  lemma {:induction false} ProductBound(q: nat, b: nat, p: nat)
    requires b > 0 && p == q * b
    ensures q <= p && (b >= 2 ==> 2 * q <= p)
  {
    if q > 0 {
      assert p - b == (q - 1) * b;
      ProductBound(q - 1, b, p - b);
    }
  }

  /** The size of the quotient, and whether the division is inexact. */
  lemma TruncParts(x: int, y: int) returns (q: nat, inexact: bool)
    requires y != 0
    ensures Trunc(x, y) == (if (x < 0) == (y < 0) then q else 0 - q) && inexact == (Rem(x, y) != 0)
    ensures q <= Abs(x) && (Abs(y) >= 2 ==> 2 * q <= Abs(x)) && (inexact ==> Abs(y) >= 2)
  {
    q := TruncSize(x, y);
    inexact := Rem(x, y) != 0;
    if inexact {
      InexactDivisor(x, y);
    }
  }

  lemma TruncSize(x: int, y: int) returns (q: nat)
    requires y != 0
    ensures Trunc(x, y) == if (x < 0) == (y < 0) then q else 0 - q
    ensures q <= Abs(x) && (Abs(y) >= 2 ==> 2 * q <= Abs(x))
  {
    var a, b := Abs(x), Abs(y);
    QuotientBound(a, b);
    q := a / b;
  }

  lemma InexactDivisor(x: int, y: int)
    requires y != 0 && Rem(x, y) != 0
    ensures Abs(y) >= 2
  {
    RemBounds(x, y);
  }

  lemma TruncBound(x: int, y: int, h: int)
    requires -h <= x < h && -h <= y < h && y != 0 && !(x == -h && y == -1)
    ensures -h <= Trunc(x, y) < h && ((x < 0) != (y < 0) && Rem(x, y) != 0 ==> -h <= Trunc(x, y) - 1)
  {
    var q, inexact := TruncParts(x, y);
  }

  lemma TruncRange(w: nat, l: nat, r: nat)
    requires Divisible(w, l, r)
    ensures var x, y := Number(w, true, l), Number(w, true, r);
            Min(w, true) <= Trunc(x, y) <= Max(w, true)
            && ((x < 0) != (y < 0) && Rem(x, y) != 0 ==> Min(w, true) <= Trunc(x, y) - 1)
  {
    NumberInRange(w, true, l);
    NumberInRange(w, true, r);
    TruncBound(Number(w, true, l), Number(w, true, r), Pow2(w - 1));
  }

  /** The emitted quotient, before it is cut to the width. */
  lemma EmittedDivIs(w: nat, l: nat, r: nat)
    requires Divisible(w, l, r)
    ensures var x, y := Number(w, true, l), Number(w, true, r);
            EmittedDiv(w, l, r) == Wrap(w, Trunc(x, y) + if (x < 0) != (y < 0) then -1 else 0)
  {
    var x, y := Number(w, true, l), Number(w, true, r);
    var c, mask := SDiv(w, l, r), AShr(w, Xor(r, l), w - 1);
    XorSign(w, r, l);
    SignMask(w, Xor(r, l));
    TruncRange(w, l, r);
    NumberOfWrap(w, true, Trunc(x, y));
    Pow2Positive(w - 1);
    AddWraps(w, true, c, mask);
  }

  /**
    * The quotient is rounded down, except where the signs differ and the division is exact: there it is one less, cut
    * to the width.
    */
  lemma DivIsFloor(w: nat, l: nat, r: nat)
    requires Divisible(w, l, r)
    ensures var x, y := Number(w, true, l), Number(w, true, r);
            Number(w, true, EmittedDiv(w, l, r)) == Floor(x, y) <==> !((x < 0) != (y < 0) && Rem(x, y) == 0)
    ensures var x, y := Number(w, true, l), Number(w, true, r);
            (x < 0) != (y < 0) && Rem(x, y) == 0 ==> EmittedDiv(w, l, r) == Wrap(w, Floor(x, y) - 1)
  {
    var x, y := Number(w, true, l), Number(w, true, r);
    EmittedDivIs(w, l, r);
    FloorTrunc(x, y);
    TruncRange(w, l, r);
    if (x < 0) != (y < 0) && Rem(x, y) == 0 {
      OneLess(w, Trunc(x, y));
    } else {
      NumberOfWrap(w, true, Floor(x, y));
    }
  }

  /** In eight bits the emitted -4 / 2 is -3. */
  lemma ExactQuotient()
    ensures Divisible(8, 252, 2) && Number(8, true, 252) == -4 && Number(8, true, 2) == 2 && Floor(-4, 2) == -2
    ensures Number(8, true, EmittedDiv(8, 252, 2)) == -3
  {
    EightBits();
    assert (-4) / 2 == -2;
    assert 4 / 2 == 2;
    DivIsFloor(8, 252, 2);
    NumberOfWrap(8, true, -3);
  }

  /** And -128 / 1 is 127. */
  lemma LeastQuotient()
    ensures Divisible(8, 128, 1) && Number(8, true, 128) == -128 && Number(8, true, 1) == 1 && Floor(-128, 1) == -128
    ensures Number(8, true, EmittedDiv(8, 128, 1)) == 127
  {
    EightBits();
    assert 128 / 1 == 128;
    DivIsFloor(8, 128, 1);
    WrapBelow(8, -129);
  }

  lemma OneLess(w: nat, q: int)
    requires w >= 1 && Min(w, true) <= q <= Max(w, true)
    ensures Number(w, true, Wrap(w, q - 1)) != q
  {
    Pow2Positive(w - 1);
    if q == Min(w, true) {
      WrapBelow(w, q - 1);
    } else {
      NumberOfWrap(w, true, q - 1);
    }
  }

  lemma RemRange(w: nat, l: nat, r: nat)
    requires Divisible(w, l, r)
    ensures var x, y := Number(w, true, l), Number(w, true, r);
            Min(w, true) <= Rem(x, y) <= Max(w, true)
  {
    RemBounds(Number(w, true, l), Number(w, true, r));
    NumberInRange(w, true, r);
  }

  lemma AndMask(w: nat, r: nat)
    requires Fits(w, r)
    ensures And(r, Pow2(w) - 1) == r && And(r, 0) == 0
  {
    AndLow(r, w);
    ModUnique(r, Pow2(w), 0, r);
  }

  lemma EmittedModIs(w: nat, l: nat, r: nat)
    requires Divisible(w, l, r)
    ensures var x, y := Number(w, true, l), Number(w, true, r); var m := Rem(x, y);
            EmittedMod(w, l, r) == Wrap(w, m + if (y < 0) != (m < 0) then y else 0)
  {
    var x, y := Number(w, true, l), Number(w, true, r);
    var c := SRem(w, l, r);
    RemRange(w, l, r);
    NumberOfWrap(w, true, Rem(x, y));
    XorSign(w, r, c);
    SignMask(w, Xor(r, c));
    AndMask(w, r);
    Pow2Positive(w - 1);
    AddWraps(w, true, c, And(r, AShr(w, Xor(r, c), w - 1)));
  }

  /**
    * The remainder is that of floored division, except where it should be zero and the divisor is negative: there it is
    * the divisor.
    */
  lemma ModIsFloored(w: nat, l: nat, r: nat)
    requires Divisible(w, l, r)
    ensures var x, y := Number(w, true, l), Number(w, true, r);
            Number(w, true, EmittedMod(w, l, r)) == Mod(x, y) <==> !(y < 0 && Rem(x, y) == 0)
    ensures var x, y := Number(w, true, l), Number(w, true, r);
            y < 0 && Rem(x, y) == 0 ==> Number(w, true, EmittedMod(w, l, r)) == y
  {
    var x, y := Number(w, true, l), Number(w, true, r);
    var m := Rem(x, y);
    EmittedModIs(w, l, r);
    ModRem(x, y);
    RemBounds(x, y);
    NumberInRange(w, true, r);
    NumberOfWrap(w, true, m + if (y < 0) != (m < 0) then y else 0);
  }

  /** In eight bits the remainder of 4 divided by -2 is -2. */
  lemma ExactRemainder()
    ensures Divisible(8, 4, 254) && Mod(Number(8, true, 4), Number(8, true, 254)) == 0
    ensures Number(8, true, EmittedMod(8, 4, 254)) == -2
  {
    EightBits();
    FourByMinusTwo();
    ModIsFloored(8, 4, 254);
  }

  lemma FourByMinusTwo()
    ensures Rem(4, -2) == 0 && Mod(4, -2) == 0
  {
    assert 4 / 2 == 2 && (-4) / 2 == -2;
    assert Trunc(4, -2) == -2 && Floor(4, -2) == -2;
  }

  /** Inexact divisions keep the law of division with the sign of the divisor. */
  lemma DivisionLaw(w: nat, l: nat, r: nat)
    requires Divisible(w, l, r) && Rem(Number(w, true, l), Number(w, true, r)) != 0
    ensures var x, y := Number(w, true, l), Number(w, true, r);
            var q, m := Number(w, true, EmittedDiv(w, l, r)), Number(w, true, EmittedMod(w, l, r));
            x == q * y + m && m != 0 && Abs(m) < Abs(y) && (m < 0) == (y < 0)
  {
    var x, y := Number(w, true, l), Number(w, true, r);
    DivIsFloor(w, l, r);
    ModIsFloored(w, l, r);
    ModBounds(x, y);
    ModRem(x, y);
    RemBounds(x, y);
  }

  // ---------------------------------------------------------------- comparisons

  datatype Order = Lt | Le | Gt | Ge

  predicate Holds(op: Order, x: int, y: int) {
    match op
    case Lt => x < y
    case Le => x <= y
    case Gt => x > y
    case Ge => x >= y
  }

  /** A comparison of two patterns, both read as signed or both as unsigned. */
  predicate ICmp(w: nat, op: Order, isSigned: bool, a: nat, b: nat)
    requires w >= 1
  {
    Holds(op, Number(w, isSigned, a), Number(w, isSigned, b))
  }

  /** An operand: whether its type is signed, and whether it is a literal without a type of its own. */
  datatype Kind = Kind(isSigned: bool, untyped: bool)

  /** A signed operand counts unless it is an untyped literal beside an unsigned operand. */
  predicate OperandSigned(l: Kind, r: Kind) {
    (l.isSigned && !l.untyped) || (r.isSigned && !r.untyped) || (l.isSigned && r.isSigned)
  }

  /** The comparison of two patterns of one width. */
  predicate EmittedCompare(w: nat, op: Order, l: nat, left: Kind, r: nat, right: Kind)
    requires w >= 1
  {
    if OperandSigned(left, right) then
      if !right.isSigned then
        match op
        case Lt => ICmp(w, Lt, true, l, 0) || ICmp(w, Lt, false, l, r)
        case Le => ICmp(w, Lt, true, l, 0) || ICmp(w, Le, false, l, r)
        case Gt => ICmp(w, Ge, true, l, 0) && ICmp(w, Gt, false, l, r)
        case Ge => ICmp(w, Ge, true, l, 0) && ICmp(w, Ge, false, l, r)
      else if !left.isSigned then
        match op
        case Lt => ICmp(w, Lt, false, l, r) && ICmp(w, Ge, true, r, 0)
        case Le => ICmp(w, Le, false, l, r) && ICmp(w, Ge, true, r, 0)
        case Gt => ICmp(w, Gt, false, l, r) || ICmp(w, Lt, true, r, 0)
        case Ge => ICmp(w, Ge, false, l, r) || ICmp(w, Lt, true, r, 0)
      else ICmp(w, op, true, l, r)
    else ICmp(w, op, false, l, r)
  }

  /** A negative untyped literal beside an unsigned operand: its pattern is read as an unsigned number. */
  predicate Misread(w: nat, a: nat, kind: Kind, other: Kind)
    requires w >= 1
  {
    kind.isSigned && kind.untyped && !other.isSigned && Negative(w, a)
  }

  /** Whether the order of the patterns contradicts that a misread literal is below all unsigned numbers. */
  predicate Contradicts(op: Order, literal: nat, other: nat, literalFirst: bool) {
    match op
    case Lt => if literalFirst then other <= literal else literal > other
    case Ge => if literalFirst then other <= literal else literal > other
    case Le => if literalFirst then other < literal else literal >= other
    case Gt => if literalFirst then other < literal else literal >= other
  }

  /**
    * Orderings compare the numbers that the operands stand for, whatever their signedness, except for a misread literal
    * whose pattern is not below the other one.
    */
  lemma CompareNumbers(w: nat, op: Order, l: nat, left: Kind, r: nat, right: Kind)
    requires Fits(w, l) && Fits(w, r)
    ensures var holds := Holds(op, Number(w, left.isSigned, l), Number(w, right.isSigned, r));
            EmittedCompare(w, op, l, left, r, right) == holds <==>
              !(Misread(w, l, left, right) && Contradicts(op, l, r, true))
              && !(Misread(w, r, right, left) && Contradicts(op, r, l, false))
  {
    Pow2Positive(w - 1);
    NumberInRange(w, left.isSigned, l);
    NumberInRange(w, right.isSigned, r);
  }

  /** `-1 < 3U`: the literal is the greatest unsigned number, and the comparison is false. */
  lemma MinusOneNotBelowThree(w: nat, l: nat)
    requires w >= 2 && l + 1 == Pow2(w)
    ensures Fits(w, l) && Fits(w, 3) && Number(w, true, l) == -1
    ensures !EmittedCompare(w, Lt, l, Kind(true, true), 3, Kind(false, false))
    ensures EmittedCompare(w, Lt, l, Kind(true, false), 3, Kind(false, false))
  {
    Pow2Positive(w - 1);
    Pow2Monotone(2, w);
    assert Pow2(1) == 2 && Pow2(2) == 4;
  }

  /**
   * `==` and `!=` compare patterns. That is equality of the numbers, except for operands of different signedness with
   * one pattern that has the top bit set.
   */
  lemma EqualPatterns(w: nat, l: nat, leftSigned: bool, r: nat, rightSigned: bool)
    requires Fits(w, l) && Fits(w, r)
    ensures ((l == r) <==> (Number(w, leftSigned, l) == Number(w, rightSigned, r)))
       <==> !(leftSigned != rightSigned && l == r && Negative(w, l))
  {
    NumberInRange(w, leftSigned, l);
    NumberInRange(w, rightSigned, r);
    if leftSigned == rightSigned {
      SameNumber(w, leftSigned, l, r);
    }
  }

  /** -1 and 255, in eight bits. */
  lemma MinusOneEqualsLast()
    ensures Fits(8, 255) && Number(8, true, 255) == -1 && Number(8, false, 255) == 255
  {
    EightBits();
  }

  lemma EightBits()
    ensures Pow2(7) == 128 && Pow2(8) == 256
  {
    assert Pow2(2) == 4 && Pow2(4) == 16;
    assert Pow2(6) == 64;
  }
}
