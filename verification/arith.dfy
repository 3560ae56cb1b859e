/** Small facts about integer division and multiplication that the solver
    does not find on its own. */
module Arith {

  lemma DivModUnique(x: int, d: int, q: int, r: int)
    requires d > 0 && 0 <= r < d && x == d * q + r
    ensures x / d == q && x % d == r
  {
    var q', r' := x / d, x % d;
    assert x == d * q' + r';
    if q' < q {
      assert d * q - d * q' == d * (q - q');
      MulAtLeast(d, q - q');
    } else if q' > q {
      assert d * q' - d * q == d * (q' - q);
      MulAtLeast(d, q' - q);
    }
  }

  lemma DivModIdentity(y: int, h: int)
    requires h > 0
    ensures y == h * (y / h) + y % h
  {
  }

  lemma MulTwice(h: int, k: int)
    ensures 2 * (h * k) == (2 * h) * k
  {
  }

  lemma MulAtLeast(d: int, k: int)
    requires d > 0 && k >= 1
    ensures d * k >= d
  {
  }
}
