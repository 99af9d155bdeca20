/**
 * Python's bitwise operators on non-negative integers.
 *
 * Python integers are unbounded, so `&`, `|`, `^`, `<<` and `>>` are
 * modelled on `nat` by recursion over the binary digits rather than on a
 * fixed-width bit-vector.  The lemmas connect them to `%`, `/` and `+`,
 * which is the form in which the predictors' index and history bounds
 * are proved.
 */
module Bits {

  /** 2 to the power n, i.e. Python's `1 << n` or `2**n`. */
  function Pow2(n: nat): (r: nat)
    ensures r >= 1
  {
    if n == 0 then 1 else 2 * Pow2(n - 1)
  }

  /** `2**n - 1`, the mask of the n low bits. */
  function Mask(n: nat): nat
  {
    Pow2(n) - 1
  }

  /** A Python bool used as an integer. */
  function Bit(b: bool): nat
  {
    if b then 1 else 0
  }

  /** Python's `a & b`. */
  function And(a: nat, b: nat): nat
  {
    if a == 0 || b == 0 then 0
    else 2 * And(a / 2, b / 2) + (if a % 2 == 1 && b % 2 == 1 then 1 else 0)
  }

  /** Python's `a | b`. */
  function Or(a: nat, b: nat): nat
    decreases a + b
  {
    if a == 0 then b
    else if b == 0 then a
    else 2 * Or(a / 2, b / 2) + (if a % 2 == 1 || b % 2 == 1 then 1 else 0)
  }

  /** Python's `a ^ b`. */
  function Xor(a: nat, b: nat): nat
    decreases a + b
  {
    if a == 0 then b
    else if b == 0 then a
    else 2 * Xor(a / 2, b / 2) + (if a % 2 != b % 2 then 1 else 0)
  }

  /** Python's `a << k`. */
  function Shl(a: nat, k: nat): nat
  {
    a * Pow2(k)
  }

  /** Python's `a >> k`. */
  function Shr(a: nat, k: nat): nat
  {
    Quotient(a, Pow2(k))
  }

  /** Division of a natural number by a positive one. */
  function Quotient(a: nat, d: nat): nat
    requires d >= 1
  {
    a / d
  }

  // ---------------------------------------------------------------------
  // Arithmetic helpers
  // ---------------------------------------------------------------------

  /** Quotient and remainder are determined by any decomposition x == q*d + r. */
  lemma DivModUnique(x: int, d: int, q: int, r: int)
    requires d > 0 && 0 <= r < d && x == q * d + r
    ensures x / d == q && x % d == r
  {
    var e := x / d - q;
    assert e * d == r - x % d by {
      assert x == (x / d) * d + x % d;
      assert (x / d) * d - q * d == e * d;
    }
    assert e == 0;
  }

  lemma Pow2Add(a: nat, b: nat)
    ensures Pow2(a + b) == Pow2(a) * Pow2(b)
  {
    if a > 0 {
      Pow2Add(a - 1, b);
    }
  }

  /** Dividing first by 2 and then by k is dividing by 2k. */
  lemma HalveThenDiv(x: nat, k: nat)
    requires k > 0
    ensures x % (2 * k) == 2 * ((x / 2) % k) + x % 2
    ensures x / (2 * k) == (x / 2) / k
  {
    var q, s := (x / 2) / k, (x / 2) % k;
    assert x / 2 == q * k + s;
    assert x == q * (2 * k) + (2 * s + x % 2);
    DivModUnique(x, 2 * k, q, 2 * s + x % 2);
  }

  // ---------------------------------------------------------------------
  // Masks, bounds and disjoint unions
  // ---------------------------------------------------------------------

  /** `x & (2**n - 1)` keeps the n low bits: it is `x mod 2**n`. */
  lemma {:induction false} AndMask(x: nat, n: nat)
    ensures And(x, Mask(n)) == x % Pow2(n)
  {
    if n > 0 && x > 0 {
      var p := Pow2(n - 1);
      assert Mask(n) % 2 == 1 && Mask(n) / 2 == Mask(n - 1) by {
        assert Pow2(n) == 2 * p;
      }
      assert And(x, Mask(n)) == 2 * And(x / 2, Mask(n - 1)) + x % 2;
      AndMask(x / 2, n - 1);
      assert x % Pow2(n) == 2 * ((x / 2) % p) + x % 2 by {
        HalveThenDiv(x, p);
        assert Pow2(n) == 2 * p;
      }
    } else if n == 0 {
      assert Mask(0) == 0 && Pow2(0) == 1;
    } else {
      DivModUnique(x, Pow2(n), 0, 0);
    }
  }

  /** The mask of n bits is below 2**n. */
  lemma MaskBound(x: nat, n: nat)
    ensures And(x, Mask(n)) < Pow2(n)
  {
    AndMask(x, n);
  }

  lemma {:induction false} XorBound(a: nat, b: nat, n: nat)
    requires a < Pow2(n) && b < Pow2(n)
    ensures Xor(a, b) < Pow2(n)
  {
    if a != 0 && b != 0 {
      XorBound(a / 2, b / 2, n - 1);
    }
  }

  lemma {:induction false} OrBound(a: nat, b: nat, n: nat)
    requires a < Pow2(n) && b < Pow2(n)
    ensures Or(a, b) < Pow2(n)
  {
    if a != 0 && b != 0 {
      OrBound(a / 2, b / 2, n - 1);
    }
  }

  /** Or-ing a value below 2**k into a multiple of 2**k is addition. */
  lemma {:induction false} OrDisjoint(a: nat, b: nat, k: nat)
    requires b < Pow2(k)
    ensures Or(a * Pow2(k), b) == a * Pow2(k) + b
  {
    if k > 0 && a != 0 && b != 0 {
      var y := a * Pow2(k - 1);
      assert a * Pow2(k) == 2 * y;
      assert (2 * y) / 2 == y && (2 * y) % 2 == 0;
      OrDisjoint(a, b / 2, k - 1);
    }
  }

  /** The low bit of an exclusive or. */
  lemma XorLowBit(a: nat, b: nat)
    ensures Xor(a, b) % 2 == (a % 2 + b % 2) % 2
  {
  }

  /** Shifting right by k is halving and then shifting right by k - 1. */
  lemma ShrStep(y: nat, k: nat)
    requires k > 0
    ensures Shr(y, k) == Shr(y / 2, k - 1)
  {
    var p := Pow2(k - 1);
    assert y / Pow2(k) == (y / 2) / p by {
      HalveThenDiv(y, p);
      assert Pow2(k) == 2 * p;
    }
  }

  /** Shifting right commutes with exclusive or. */
  lemma {:induction false} XorShr(a: nat, b: nat, k: nat)
    ensures Shr(Xor(a, b), k) == Xor(Shr(a, k), Shr(b, k))
  {
    if k > 0 && a != 0 && b != 0 {
      ShrStep(Xor(a, b), k);
      ShrStep(a, k);
      ShrStep(b, k);
      assert Xor(a, b) / 2 == Xor(a / 2, b / 2);
      XorShr(a / 2, b / 2, k - 1);
    } else if k == 0 {
      assert Pow2(0) == 1;
    } else if a == 0 {
      DivModUnique(a, Pow2(k), 0, 0);
    } else {
      DivModUnique(b, Pow2(k), 0, 0);
    }
  }
}
