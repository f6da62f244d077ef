/**
 * Positional notation over natural numbers, shared by the models that
 * render and parse numbers digit by digit (hex bytes, hex digits), and the
 * little non-linear arithmetic their proofs need.
 */
module Numbers {

  /** Multiplication by a non-negative number is monotone. */
  lemma {:induction false} MulMonotone(x: nat, y: nat, g: nat)
    ensures x <= y ==> x * g <= y * g
    decreases y
  {
    if x < y {
      MulMonotone(x, y - 1, g);
      assert y * g == (y - 1) * g + g;
    }
  }

  /** A number is its quotient times the divisor plus its remainder. */
  lemma DivModSplit(u: nat, b: nat)
    requires b > 0
    ensures u == (u / b) * b + u % b
  {
  }

  /** A number below p * b has a quotient by b below p. */
  lemma QuotientBound(u: nat, b: nat, p: nat)
    requires b > 0 && u < p * b
    ensures u / b < p
  {
    DivModSplit(u, b);
    MulMonotone(p, u / b, b);
  }

  /** A number at least q * b has a quotient by b at least q. */
  lemma QuotientLower(u: nat, b: nat, q: nat)
    requires b > 0 && q * b <= u
    ensures q <= u / b
  {
    DivModSplit(u, b);
    BelowNextMultiple(u, b, q, u / b);
  }

  /** u below (d + 1) * b and at least q * b means q <= d. */
  lemma BelowNextMultiple(u: nat, b: nat, q: nat, d: nat)
    requires b > 0 && u < d * b + b && q * b <= u
    ensures q <= d
  {
    MulMonotone(d + 1, q, b);
    assert (d + 1) * b == d * b + b;
  }

  /** Division and remainder are determined by a decomposition. */
  lemma DivModOf(a: nat, g: nat, q: nat, r: nat)
    requires g > 0 && r < g && a == q * g + r
    ensures a / g == q && a % g == r
  {
    assert (q + 1) * g == q * g + g;
    QuotientBound(a, g, q + 1);
    QuotientLower(a, g, q);
    DivModSplit(a, g);
  }

  /** b to the power n. */
  function Pow(b: nat, n: nat): (p: nat)
    requires b > 0
    ensures p > 0
  {
    if n == 0 then 1 else Pow(b, n - 1) * b
  }

  /** The number written by the digits ds in base b, most significant first. */
  function Value(ds: seq<nat>, b: nat): nat
  {
    if ds == [] then 0 else Value(ds[..|ds| - 1], b) * b + ds[|ds| - 1]
  }

  /** The n lowest base-b digits of u, most significant first, zero-padded. */
  function Digits(u: nat, b: nat, n: nat): (ds: seq<nat>)
    requires b > 1
    ensures |ds| == n
    ensures forall i :: 0 <= i < n ==> ds[i] < b
    decreases n
  {
    if n == 0 then []
    else
      Digits(u / b, b, n - 1) + [u % b]
  }

  /** Appending a digit multiplies by the base and adds the digit. */
  lemma ValueSnoc(ds: seq<nat>, d: nat, b: nat)
    ensures Value(ds + [d], b) == Value(ds, b) * b + d
  {
    assert (ds + [d])[..|ds|] == ds;
  }

  /** Digits below the base write a number below b^|ds|. */
  lemma {:induction false} ValueBound(ds: seq<nat>, b: nat)
    requires b > 1
    requires forall i :: 0 <= i < |ds| ==> ds[i] < b
    ensures Value(ds, b) < Pow(b, |ds|)
    decreases |ds|
  {
    if ds != [] {
      var n := |ds| - 1;
      ValueBound(ds[..n], b);
      MulMonotone(Value(ds[..n], b) + 1, Pow(b, n), b);
      assert (Value(ds[..n], b) + 1) * b == Value(ds[..n], b) * b + b;
    }
  }

  /** Reading back the n digits of a number below b^n gives the number. */
  lemma {:induction false} ValueDigits(u: nat, b: nat, n: nat)
    requires b > 1 && u < Pow(b, n)
    ensures Value(Digits(u, b, n), b) == u
    decreases n
  {
    if n > 0 {
      var q, r := u / b, u % b;
      QuotientBound(u, b, Pow(b, n - 1));
      ValueDigits(q, b, n - 1);
      ValueSnoc(Digits(q, b, n - 1), r, b);
      DivModSplit(u, b);
    }
  }

  /** Equal digit sequences of numbers below b^n mean equal numbers. */
  lemma DigitsInjective(u: nat, v: nat, b: nat, n: nat)
    requires b > 1 && u < Pow(b, n) && v < Pow(b, n)
    requires Digits(u, b, n) == Digits(v, b, n)
    ensures u == v
  {
    ValueDigits(u, b, n);
    ValueDigits(v, b, n);
  }
}
