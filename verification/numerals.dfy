/** Decimal text for integers: Python's `str(n)` and the digit-string reading
    used when a textual number is turned back into a value. */
module Numerals {
  import opened Ascii
  import opened Arith

  function DigitChar(d: nat): (c: char)
    requires d < 10
    ensures IsDigit(c)
  {
    ('0' as int + d) as char
  }

  function DigitValue(c: char): (d: nat)
    requires IsDigit(c)
    ensures d < 10 && DigitChar(d) == c
  {
    c as int - '0' as int
  }

  /** The number a string of decimal digits denotes (most significant first). */
  function ParseDigits(s: string): nat
    requires AllDigits(s)
  {
    if s == [] then 0
    else 10 * ParseDigits(s[..|s| - 1]) + DigitValue(s[|s| - 1])
  }

  /** `str(n)` for a non-negative integer: the canonical decimal numeral, which
      reads back as `n` and has no leading zero. */
  function NatToString(n: nat): (r: string)
    ensures IsDigitString(r)
    ensures ParseDigits(r) == n
    ensures |r| > 1 ==> r[0] != '0'
    decreases n
  {
    if n < 10 then [DigitChar(n)]
    else
      var p := NatToString(n / 10);
      var r := p + [DigitChar(n % 10)];
      assert r[..|r| - 1] == p;
      r
  }

  /** `str(i)` for any integer: a minus sign before the numeral of `|i|`. */
  function IntToString(i: int): (r: string)
    ensures i >= 0 ==> r == NatToString(i)
    ensures i < 0 ==> r == "-" + NatToString(-i)
  {
    if i < 0 then "-" + NatToString(-i) else NatToString(i)
  }

  function Pow10(n: nat): (p: nat)
    ensures p >= 1
  {
    if n == 0 then 1 else 10 * Pow10(n - 1)
  }

  function Abs(x: int): nat { if x < 0 then -x else x }

  /** Python's `int(Decimal)`: the quotient rounded toward zero. */
  function TruncDiv(d: int, p: nat): (q: int)
    requires p > 0
    ensures Abs(q) * p <= Abs(d) < (Abs(q) + 1) * p
    ensures q == 0 || (q > 0 <==> d > 0)
  {
    DivBounds(Abs(d), p);
    var a := Abs(d) / p;
    if d >= 0 then a else -a
  }

  lemma DivBounds(n: nat, p: nat)
    requires p > 0
    ensures n / p >= 0
    ensures (n / p) * p <= n < (n / p + 1) * p
  {
    var q, r := n / p, n % p;
    assert n == q * p + r;
    assert (q + 1) * p == q * p + p;
  }

  lemma ExactQuotient(d: int, p: nat)
    requires p > 0 && d % p == 0
    ensures TruncDiv(d, p) * p == d
  {
    var n := Abs(d);
    var a := n / p;
    assert n % p == 0 by {
      if d < 0 {
        DivModIdentity(d, p);
        assert n == p * (-(d / p));
        DivModUnique(n, p, -(d / p), 0);
      }
    }
    DivModIdentity(n, p);
    assert a * p == n;
    if d < 0 {
      assert TruncDiv(d, p) == -a;
      assert (-a) * p == -(a * p);
    }
  }
}
