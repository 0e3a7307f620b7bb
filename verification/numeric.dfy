/**
 * Exact-arithmetic stand-ins for the JavaScript numeric built-ins the
 * calculators use: Math.pow with a whole exponent, Math.min, Math.max,
 * Math.ceil, and the non-finite values a division by zero produces.
 */
module Numeric {

  /** Math.pow(b, n) for a whole exponent n. */
  function Pow(b: real, n: nat): real
  {
    if n == 0 then 1.0 else b * Pow(b, n - 1)
  }

  function Min(x: real, y: real): (m: real)
    ensures m <= x && m <= y && (m == x || m == y)
  {
    if x <= y then x else y
  }

  function Max(x: real, y: real): (m: real)
    ensures m >= x && m >= y && (m == x || m == y)
  {
    if x >= y then x else y
  }

  /** Math.ceil: the least integer that is at least x. */
  function Ceil(x: real): (c: int)
    ensures c as real >= x && (c - 1) as real < x
  {
    -((-x).Floor)
  }

  /**
   * A JavaScript number as the solvers can return it: a finite value,
   * Infinity, or NaN (the result of 0 / 0).
   */
  datatype Extended = Finite(value: real) | Infinite | NotANumber

  /** What the model assumes of Math.log: its sign on either side of 1. */
  ghost predicate LogSigns(ln: real -> real)
  {
    && (forall x :: x > 1.0 ==> ln(x) > 0.0)
    && (forall x :: 0.0 < x < 1.0 ==> ln(x) < 0.0)
  }

  lemma PowNext(b: real, n: nat)
    ensures Pow(b, n + 1) == b * Pow(b, n)
  {
  }

  lemma {:induction false} PowAtLeastOne(b: real, n: nat)
    requires b >= 1.0
    ensures Pow(b, n) >= 1.0
    decreases n
  {
    if n > 0 {
      PowAtLeastOne(b, n - 1);
      assert b * Pow(b, n - 1) >= Pow(b, n - 1);
    }
  }

  lemma {:induction false} PowAboveOne(b: real, n: nat)
    requires b > 1.0 && n >= 1
    ensures Pow(b, n) > 1.0
  {
    PowAtLeastOne(b, n - 1);
    assert b * Pow(b, n - 1) > Pow(b, n - 1);
  }

  lemma {:induction false} PowOfOne(n: nat)
    ensures Pow(1.0, n) == 1.0
    decreases n
  {
    if n > 0 {
      PowOfOne(n - 1);
    }
  }

  /** For r >= 0, (1 + r)^n - 1 is zero exactly when r = 0 or n = 0. */
  lemma PowGrowthZero(r: real, n: nat)
    requires r >= 0.0
    ensures Pow(1.0 + r, n) == 1.0 <==> (r == 0.0 || n == 0)
  {
    if r == 0.0 {
      PowOfOne(n);
    } else if n > 0 {
      PowAboveOne(1.0 + r, n);
    }
  }

  /** Halving a positive quantity above 1 strictly lowers its floor (termination of bisection). */
  lemma HalfFloorDecreases(x: real)
    requires x > 1.0
    ensures 0 <= (x / 2.0).Floor < x.Floor
  {
    assert x.Floor >= 1;
    if x < 2.0 {
      assert (x / 2.0).Floor == 0;
    } else {
      assert (x / 2.0).Floor as real <= x / 2.0 <= x - 1.0 < x.Floor as real;
    }
  }
}
