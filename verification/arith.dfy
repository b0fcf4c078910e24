/** Integer arithmetic as C++ performs it on a signed integer element type. */
module Arith {

  function Abs(n: int): (r: nat)
    ensures r == n || r == -n
  {
    if n < 0 then -n else n
  }

  /** C++ integer division `a / b`: the quotient truncated toward zero.
      Dafny's own `/` is Euclidean and differs when an operand is negative.
      Division by zero is undefined behaviour in C++, hence the precondition.
      The contract pins the quotient down: the remainder `a - q * b` is
      smaller than the divisor, never of the opposite sign to `a`, and
      `q * b` does not overshoot `a`. */
  function TruncDiv(a: int, b: int): (q: int)
    requires b != 0
    ensures Abs(a - q * b) < Abs(b)
    ensures a - q * b == 0 || (a - q * b < 0 <==> a < 0)
    ensures Abs(q * b) <= Abs(a)
  {
    var m := Abs(a) / Abs(b);
    var q := if (a < 0) != (b < 0) then -m else m;
    TruncQuotientBounds(a, b, m, q);
    q
  }

  /** The contract of `TruncDiv`, for the quotient `q` it computes from the
      Euclidean quotient `m` of the magnitudes. */
  lemma TruncQuotientBounds(a: int, b: int, m: int, q: int)
    requires b != 0
    requires m == Abs(a) / Abs(b)
    requires q == if (a < 0) != (b < 0) then -m else m
    ensures Abs(a - q * b) < Abs(b)
    ensures a - q * b == 0 || (a - q * b < 0 <==> a < 0)
    ensures Abs(q * b) <= Abs(a)
  {
    Euclid(Abs(a), Abs(b));
    QuotientTimesDivisor(a, b, m, q);
    RemainderBounds(a, b, m * Abs(b), q * b);
  }

  /** The product `q * b` in terms of the magnitudes, case by case on signs. */
  lemma QuotientTimesDivisor(a: int, b: int, m: int, q: int)
    requires q == if (a < 0) != (b < 0) then -m else m
    ensures q * b == if a < 0 then -(m * Abs(b)) else m * Abs(b)
  {
    SignedProduct(m, b);
    if b < 0 {
      if a < 0 { assert q == m; } else { assert q == -m; }
    } else {
      if a < 0 { assert q == -m; } else { assert q == m; }
    }
  }

  /** The remainder facts once the product is named: linear reasoning only. */
  lemma RemainderBounds(a: int, b: int, n: int, qb: int)
    requires b != 0
    requires 0 <= Abs(a) - n < Abs(b) && 0 <= n
    requires qb == if a < 0 then -n else n
    ensures Abs(a - qb) < Abs(b)
    ensures a - qb == 0 || (a - qb < 0 <==> a < 0)
    ensures Abs(qb) <= Abs(a)
  {
  }

  /** Quotient and remainder of the magnitudes. */
  lemma Euclid(a: nat, b: nat)
    requires b > 0
    ensures 0 <= a / b
    ensures 0 <= a - (a / b) * b < b
  {
  }

  /** How negation moves through a product. */
  lemma SignedProduct(m: int, b: int)
    ensures (-m) * b == -(m * b)
    ensures b < 0 ==> m * b == -(m * Abs(b)) && (-m) * b == m * Abs(b)
    ensures b >= 0 ==> m * b == m * Abs(b)
  {
  }

  /** Truncating division undoes multiplication by the same non-zero value. */
  lemma TruncDivOfProduct(a: int, b: int)
    requires b != 0
    ensures TruncDiv(a * b, b) == a
  {
    var q := TruncDiv(a * b, b);
    MulDistributes(a, q, b);
    OnlyZeroMultipleIsSmall(a * b - q * b, a - q, b);
  }

  lemma MulDistributes(a: int, q: int, b: int)
    ensures a * b - q * b == (a - q) * b
  {
  }

  /** A multiple of `b` smaller than `b` in magnitude is the zero multiple. */
  lemma OnlyZeroMultipleIsSmall(r: int, c: int, b: int)
    requires b != 0
    requires r == c * b && Abs(r) < Abs(b)
    ensures c == 0
  {
    if c != 0 {
      AbsMulAtLeast(c, b);
    }
  }

  /** A non-zero integer multiple of `b` is at least as large as `b`. */
  lemma AbsMulAtLeast(c: int, b: int)
    requires c != 0
    ensures Abs(c * b) >= Abs(b)
  {
    SignedProduct(c, b);
    SignedProduct(Abs(c), b);
    MulAtLeast(Abs(c), Abs(b));
  }

  lemma MulAtLeast(c: int, b: int)
    requires c >= 1 && b >= 0
    ensures c * b >= b
  {
    assert c * b == b + (c - 1) * b;
  }
}
