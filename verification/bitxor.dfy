/** Python's `^` on non-negative integers, defined bit by bit, and the facts
    the token codec needs: it undoes itself, and a key below 2^n leaves every
    bit from n upward untouched. */
module BitXor {
  import opened Arith

  function Pow2(n: nat): (p: nat)
    ensures p >= 1
  {
    if n == 0 then 1 else 2 * Pow2(n - 1)
  }

  function Xor(a: nat, b: nat): nat
    decreases a + b
  {
    if a == 0 && b == 0 then 0
    else 2 * Xor(a / 2, b / 2) + (a % 2 + b % 2) % 2
  }

  lemma XorZero(a: nat)
    ensures Xor(a, 0) == a
    decreases a
  {
    if a != 0 {
      XorZero(a / 2);
    }
  }

  /** The lowest bit and the remaining bits of `a ^ b`. */
  lemma XorHalves(a: nat, b: nat)
    ensures Xor(a, b) % 2 == (a % 2 + b % 2) % 2
    ensures Xor(a, b) / 2 == Xor(a / 2, b / 2)
  {
  }

  /** Adding the same bit twice modulo 2 gives the first bit back. */
  lemma ParityCancels(x: nat, y: nat)
    requires x < 2 && y < 2
    ensures ((x + y) % 2 + y) % 2 == x
  {
  }

  /** `(a ^ b) ^ b == a` */
  lemma {:induction false} XorInvolutive(a: nat, b: nat)
    ensures Xor(Xor(a, b), b) == a
    decreases a + b
  {
    var c := Xor(a, b);
    if a == 0 && b == 0 {
    } else if b == 0 {
      XorZero(a);
      XorZero(a);
    } else {
      XorHalves(a, b);
      XorInvolutive(a / 2, b / 2);
      assert c / 2 == Xor(a / 2, b / 2);
      ParityCancels(a % 2, b % 2);
      assert (c % 2 + b % 2) % 2 == a % 2;
      assert Xor(c, b) == 2 * Xor(c / 2, b / 2) + (c % 2 + b % 2) % 2;
      DivModIdentity(a, 2);
    }
  }

  /** Splitting off the lowest bit commutes with splitting at 2^(n+1). */
  lemma DivModTwice(a: nat, p: nat)
    requires p > 0
    ensures a / (2 * p) == (a / 2) / p
    ensures (a % (2 * p)) / 2 == (a / 2) % p
    ensures (a % (2 * p)) % 2 == a % 2
  {
    var q, r, b := (a / 2) / p, (a / 2) % p, a % 2;
    assert a / 2 == p * q + r;
    assert a == (2 * p) * q + (2 * r + b);
    DivModUnique(a, 2 * p, q, 2 * r + b);
  }

  /** A key below 2^n changes only the lowest n bits. */
  lemma {:induction false} XorLowBits(a: nat, b: nat, n: nat)
    requires b < Pow2(n)
    ensures Xor(a, b) / Pow2(n) == a / Pow2(n)
    ensures Xor(a, b) % Pow2(n) == Xor(a % Pow2(n), b)
  {
    var p := Pow2(n);
    if n == 0 {
      XorZero(a);
      XorZero(a % p);
    } else {
      var h := Pow2(n - 1);
      assert p == 2 * h;
      assert b / 2 < h;
      XorLowBits(a / 2, b / 2, n - 1);
      var c := Xor(a, b);
      var m := a % p;
      var x := Xor(m, b);
      XorHalves(a, b);
      XorHalves(m, b);
      DivModTwice(a, h);
      var hi := (a / 2) / h;
      var lo := Xor((a / 2) % h, b / 2);
      assert c / 2 == h * hi + lo by {
        var y := Xor(a / 2, b / 2);
        DivModIdentity(y, h);
      }
      assert x / 2 == lo;
      assert x % 2 == c % 2;
      assert x < p by {
        XorBound(m, b, n);
      }
      assert c == p * hi + x by {
        assert c == 2 * (c / 2) + c % 2;
        assert x == 2 * (x / 2) + x % 2;
        MulTwice(h, hi);
      }
      DivModUnique(c, p, hi, x);
    }
  }

  /** `a ^ b` stays below 2^n when both operands do. */
  lemma {:induction false} XorBound(a: nat, b: nat, n: nat)
    requires a < Pow2(n) && b < Pow2(n)
    ensures Xor(a, b) < Pow2(n)
  {
    if n == 0 {
      assert a == 0 && b == 0;
    } else if a == 0 && b == 0 {
    } else {
      XorBound(a / 2, b / 2, n - 1);
    }
  }
}
