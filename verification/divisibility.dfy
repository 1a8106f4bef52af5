/**
 * Divisibility and the greatest common divisor, as Python's math.gcd
 * computes it on non-negative integers, with the facts the fraction
 * reduction relies on: the reduced pair is coprime and lowest terms are
 * unique.
 */
module Divisibility {

  /** d divides n; zero divides only zero. */
  predicate Divides(d: nat, n: int) {
    if d == 0 then n == 0 else n % d == 0
  }

  lemma MulAtLeast(d: int, k: int)
    requires d > 0 && k >= 1
    ensures d * k >= d
  {
    assert d * k == d * (k - 1) + d;
  }

  /** Euclidean division has exactly one quotient and remainder. */
  lemma DivModUnique(n: int, d: int, q: int, r: int)
    requires 0 <= r < d
    requires n == d * q + r
    ensures n / d == q && n % d == r
  {
    var q', r' := n / d, n % d;
    assert d * q' + r' == d * q + r;
    if q' > q {
      assert d * (q' - q) == r - r';
      MulAtLeast(d, q' - q);
    } else if q' < q {
      assert d * (q - q') == r' - r;
      MulAtLeast(d, q - q');
    }
  }

  lemma MulCancel(d: int, x: int, y: int)
    requires d > 0 && d * x == d * y
    ensures x == y
  {
    DivModUnique(d * x, d, x, 0);
    DivModUnique(d * y, d, y, 0);
  }

  lemma DividesByWitness(d: nat, k: int)
    ensures Divides(d, d * k)
  {
    if d > 0 {
      DivModUnique(d * k, d, k, 0);
    }
  }

  lemma DividesWitness(d: nat, n: int)
    requires d > 0 && Divides(d, n)
    ensures n == d * (n / d)
  {
  }

  /** A common divisor of x and y divides m * x + y. */
  lemma DividesCombination(d: nat, x: int, y: int, m: int)
    requires Divides(d, x) && Divides(d, y)
    ensures Divides(d, m * x + y)
  {
    if d > 0 {
      var i, j := x / d, y / d;
      assert x == d * i && y == d * j;
      assert m * x + y == d * (m * i + j);
      DividesByWitness(d, m * i + j);
    }
  }

  lemma DividesLe(d: nat, n: int)
    requires n > 0 && Divides(d, n)
    ensures 1 <= d <= n
  {
    DividesWitness(d, n);
    var k := n / d;
    assert k >= 1;
    MulAtLeast(d, k);
  }

  /** Euclid's algorithm, as Python's math.gcd on non-negative arguments. */
  function Gcd(a: nat, b: nat): (g: nat)
    ensures g == 0 <==> a == 0 && b == 0
    decreases b
  {
    if b == 0 then a else Gcd(b, a % b)
  }

  lemma {:induction false} GcdDividesBoth(a: nat, b: nat)
    ensures Divides(Gcd(a, b), a) && Divides(Gcd(a, b), b)
    decreases b
  {
    if b == 0 {
      DividesByWitness(a, 1);
    } else {
      var g := Gcd(b, a % b);
      GcdDividesBoth(b, a % b);
      DividesCombination(g, b, a % b, a / b);
      assert a == (a / b) * b + a % b;
    }
  }

  /** Every common divisor of a and b divides their gcd. */
  lemma {:induction false} GcdGreatest(a: nat, b: nat, d: nat)
    requires Divides(d, a) && Divides(d, b)
    ensures Divides(d, Gcd(a, b))
    decreases b
  {
    if b > 0 {
      DividesCombination(d, b, a, -(a / b));
      assert -(a / b) * b + a == a % b;
      GcdGreatest(b, a % b, d);
    }
  }

  /** Scaling both arguments scales the gcd. */
  lemma {:induction false} GcdScale(a: nat, b: nat, c: nat)
    ensures Gcd(c * a, c * b) == c * Gcd(a, b)
    decreases b
  {
    if b == 0 {
      assert c * b == 0;
    } else if c == 0 {
      assert c * a == 0 && c * b == 0;
    } else {
      var q, r := a / b, a % b;
      assert c * a == (c * b) * q + c * r by {
        assert a == b * q + r;
      }
      assert c * r < c * b by {
        MulAtLeast(c, b - r);
        assert c * b - c * r == c * (b - r);
      }
      DivModUnique(c * a, c * b, q, c * r);
      GcdScale(b, r, c);
    }
  }

  /** Euclid's lemma: a divisor of b * c that is coprime to b divides c. */
  lemma CoprimeDividesProduct(a: nat, b: nat, c: nat)
    requires Gcd(b, a) == 1
    requires Divides(a, b * c)
    ensures Divides(a, c)
  {
    GcdScale(b, a, c);
    DividesByWitness(a, c);
    assert a * c == c * a && b * c == c * b;
    GcdGreatest(c * b, c * a, a);
  }

  /** Dividing a pair by its gcd leaves a coprime pair. */
  lemma ReducedIsCoprime(n: nat, d: nat)
    requires d > 0
    ensures Gcd(n / Gcd(n, d), d / Gcd(n, d)) == 1
  {
    var g := Gcd(n, d);
    GcdDividesBoth(n, d);
    DividesWitness(g, n);
    DividesWitness(g, d);
    var n', d' := n / g, d / g;
    assert n' >= 0 && d' >= 0;
    GcdScale(n', d', g);
    assert g * Gcd(n', d') == g * 1;
    MulCancel(g, Gcd(n', d'), 1);
  }

  /** Two coprime numerator-denominator pairs of the same value are identical. */
  lemma LowestTermsUnique(p: nat, q: nat, r: nat, s: nat)
    requires q > 0 && s > 0
    requires Gcd(p, q) == 1 && Gcd(r, s) == 1
    requires p * s == r * q
    ensures p == r && q == s
  {
    DividesByWitness(q, r);
    assert q * r == p * s;
    CoprimeDividesProduct(q, p, s);
    DividesByWitness(s, p);
    assert s * p == r * q;
    CoprimeDividesProduct(s, r, q);
    DividesLe(q, s);
    DividesLe(s, q);
    MulCancel(s, p, r);
  }
}
