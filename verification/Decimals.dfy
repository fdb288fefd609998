/** Decimal numbers in front of other text: the lengths and dimensions in mangled names. */
module Decimals {

  predicate IsDigit(c: char) {
    '0' <= c <= '9'
  }

  function Digit(d: nat): (c: char)
    requires d < 10
    ensures IsDigit(c) && c as int - '0' as int == d
  {
    (d + '0' as int) as char
  }

  /** What `<<` prints for an unsigned number. */
  function Decimal(n: nat): string {
    if n < 10 then [Digit(n)] else Decimal(n / 10) + [Digit(n % 10)]
  }

  predicate AllDigits(s: string) {
    forall i :: 0 <= i < |s| ==> IsDigit(s[i])
  }

  /** The number that a string of digits stands for. */
  function Value(s: string): nat
    requires AllDigits(s)
  {
    if s == "" then 0
    else
      var front := s[..|s| - 1];
      assert forall i :: 0 <= i < |front| ==> front[i] == s[i];
      10 * Value(front) + (s[|s| - 1] as int - '0' as int)
  }

  /** How many digits a text starts with. */
  function Span(s: string): (k: nat)
    ensures k <= |s|
    ensures AllDigits(s[..k])
  {
    if s == "" || !IsDigit(s[0]) then 0
    else
      var k := Span(s[1..]);
      assert forall i :: 1 <= i <= k ==> s[i] == s[1..][..k][i - 1];
      k + 1
  }

  predicate StartsWithDigit(s: string) {
    s != "" && IsDigit(s[0])
  }

  /** One more digit at the end is ten times the number and that digit. */
  lemma DigitsInOrder(n: nat, d: nat)
    requires d < 10
    ensures n > 0 ==> Decimal(10 * n + d) == Decimal(n) + Decimal(d)
    ensures Decimal(d) == ["0123456789"[d]]
  {
    assert (10 * n + d) / 10 == n && (10 * n + d) % 10 == d;
  }

  lemma {:induction false} DecimalDigits(n: nat)
    ensures AllDigits(Decimal(n)) && Decimal(n) != "" && Value(Decimal(n)) == n
  {
    if n < 10 {
      assert Decimal(n)[..0] == "";
    } else {
      DecimalDigits(n / 10);
      assert Decimal(n)[..|Decimal(n)| - 1] == Decimal(n / 10);
    }
  }

  lemma {:induction false} SpanOf(d: string, rest: string)
    requires AllDigits(d) && !StartsWithDigit(rest)
    ensures Span(d + rest) == |d|
  {
    if d == "" {
      assert d + rest == rest;
    } else {
      SpanOf(d[1..], rest);
      assert (d + rest)[1..] == d[1..] + rest;
    }
  }

  /** A number that no digit follows is read back. */
  lemma NumberReadBack(n: nat, rest: string)
    requires !StartsWithDigit(rest)
    ensures var s := Decimal(n) + rest;
            Span(s) > 0 && s[..Span(s)] == Decimal(n) && s[Span(s)..] == rest && Value(s[..Span(s)]) == n
    ensures StartsWithDigit(Decimal(n) + rest)
  {
    DecimalDigits(n);
    SpanOf(Decimal(n), rest);
  }
}
