/** Exact ratios: the greatest common divisor loop and reduction to lowest terms. */
module Ratios {
  import opened Arithmetic

  function Times(a: nat, b: nat): nat { a * b }

  ghost predicate Divides(d: nat, n: nat) {
    exists k: nat :: n == Times(d, k)
  }

  function Gcd(a: nat, b: nat): nat
    decreases b
  {
    if b == 0 then a else Gcd(b, a % b)
  }

  /** The source's loop computes the recursive specification. */
  method GreatestCommonDivisor(left: nat, right: nat) returns (divisor: nat)
    ensures divisor == Gcd(left, right)
  {
    var a, b := left, right;
    while b != 0
      invariant Gcd(a, b) == Gcd(left, right)
      decreases b
    {
      a, b := b, a % b;
    }
    divisor := a;
  }

  lemma DividesCombination(d: nat, q: nat, m: nat, r: nat)
    requires Divides(d, m) && Divides(d, r)
    ensures Divides(d, q * m + r)
  {
    var j: nat :| m == Times(d, j);
    var k: nat :| r == Times(d, k);
    assert q * m + r == d * (q * j + k) by {
      assert q * (d * j) == d * (q * j);
    }
    assert q * m + r == Times(d, q * j + k);
  }

  lemma DividesRemainder(d: nat, q: nat, m: nat, r: nat)
    requires Divides(d, q * m + r) && Divides(d, m)
    ensures Divides(d, r)
  {
    var j: nat :| m == Times(d, j);
    var k: nat :| q * m + r == Times(d, k);
    if d == 0 {
      assert r == Times(d, 0);
    } else {
      assert q * (d * j) == d * (q * j);
      assert r == d * (k - q * j);
      if k < q * j {
        MulMono(k - q * j, -1, d);
        assert false;
      }
      assert r == Times(d, k - q * j);
    }
  }

  lemma DividesSelfAndZero(n: nat)
    ensures Divides(n, n) && Divides(n, 0)
  {
    assert n == Times(n, 1) && 0 == Times(n, 0);
  }

  lemma DivisionSplits(a: nat, b: nat)
    requires b > 0
    ensures a / b >= 0 && a == (a / b) * b + a % b
  {
  }

  /** The result divides both numbers. */
  lemma {:induction false} GcdDivides(a: nat, b: nat)
    requires a > 0 || b > 0
    ensures Gcd(a, b) > 0 && Divides(Gcd(a, b), a) && Divides(Gcd(a, b), b)
    decreases b
  {
    hide Divides;
    if b == 0 {
      DividesSelfAndZero(a);
    } else {
      GcdDivides(b, a % b);
      DivisionSplits(a, b);
      DividesCombination(Gcd(a, b), a / b, b, a % b);
    }
  }

  /** Every common divisor divides the result. */
  lemma {:induction false} GcdGreatest(a: nat, b: nat, d: nat)
    requires Divides(d, a) && Divides(d, b)
    ensures Divides(d, Gcd(a, b))
    decreases b
  {
    hide Divides;
    if b != 0 {
      DivisionSplits(a, b);
      DividesRemainder(d, a / b, b, a % b);
      GcdGreatest(b, a % b, d);
    }
  }

  datatype Ratio = Ratio(numerator: nat, denominator: nat)

  function Quotient(n: nat, d: nat): nat
    requires d > 0
  {
    DivAtLeast(n, d, 0);
    n / d
  }

  /** Lowest terms. Both parts zero divides by zero in the original. */
  function NormalizeRatio(numerator: nat, denominator: nat): Ratio
    requires numerator > 0 || denominator > 0
  {
    GcdDivides(numerator, denominator);
    var divisor := Gcd(numerator, denominator);
    Ratio(Quotient(numerator, divisor), Quotient(denominator, divisor))
  }

  lemma ExactQuotient(n: nat, d: nat)
    requires d > 0 && Divides(d, n)
    ensures n == (n / d) * d
  {
    var k: nat :| n == Times(d, k);
    DivUnique(n, d, k);
  }

  lemma FactorOfItself(g: nat, h: nat, c: nat)
    requires g > 0 && g == h * g * c
    ensures h == 1
  {
    assert g * (h * c) == g * 1;
    MulCancel(h * c, 1, g);
    MulCancel(1, h * c, g);
    if h >= 2 && c > 0 {
      MulMono(1, c, h);
    }
  }

  lemma ScaledFactor(n: nat, q: nat, g: nat, h: nat)
    requires n == q * g && Divides(h, q)
    ensures Divides(h * g, n)
  {
    var j: nat :| q == Times(h, j);
    assert n == Times(h * g, j) by { assert (h * j) * g == (h * g) * j; }
  }

  /** Dividing both numbers by their greatest common divisor leaves none but 1. */
  lemma QuotientsCoprime(n: nat, d: nat)
    requires n > 0 && d > 0
    ensures var r := NormalizeRatio(n, d); r.numerator > 0 && r.denominator > 0 && Gcd(r.numerator, r.denominator) == 1
  {
    var g := Gcd(n, d);
    GcdDivides(n, d);
    ExactQuotient(n, g);
    ExactQuotient(d, g);
    var r := NormalizeRatio(n, d);
    assert r.numerator > 0 && r.denominator > 0;
    var h := Gcd(r.numerator, r.denominator);
    GcdDivides(r.numerator, r.denominator);
    ScaledFactor(n, r.numerator, g, h);
    ScaledFactor(d, r.denominator, g, h);
    GcdGreatest(n, d, h * g);
    var c: nat :| g == Times(h * g, c);
    FactorOfItself(g, h, c);
  }

  /** Reduction keeps the ratio (by cross multiplication) and reaches lowest terms. */
  lemma NormalizeKeepsRatio(n: nat, d: nat)
    requires n > 0 && d > 0
    ensures var r := NormalizeRatio(n, d);
            && r.numerator * d == n * r.denominator
            && r.numerator > 0 && r.denominator > 0
            && Gcd(r.numerator, r.denominator) == 1
  {
    hide Gcd, Divides;
    var g := Gcd(n, d);
    GcdDivides(n, d);
    ExactQuotient(n, g);
    ExactQuotient(d, g);
    QuotientsCoprime(n, d);
    SameRatio(n / g, d / g, g);
  }

  lemma SameRatio(p: int, q: int, g: int)
    ensures p * (q * g) == (p * g) * q
  {
  }
}
