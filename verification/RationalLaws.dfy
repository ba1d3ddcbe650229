/** What follows from exactness and uniqueness: the operators obey the laws of an ordered field. */
module RationalLaws {
  import opened IntegerGcd
  import opened Rationals

  // ---------------------------------------------------------------- the conversion check

  lemma TModMagnitude(a: int, b: int)
    requires b != 0
    ensures Abs(TMod(a, b)) == Abs(a) % Abs(b)
  {
    var q, r := Abs(a) / Abs(b), Abs(a) % Abs(b);
    assert Abs(a) == Abs(b) * q + r;
    assert TDiv(a, b) * b == if a < 0 then -(q * Abs(b)) else q * Abs(b);
  }

  /** `inner_gcd`: Euclid's algorithm with the remainder of C++, so the result may be negative. */
  function InnerGcd(a: int, b: int): int
    decreases Abs(b)
  {
    if b == 0 then a
    else
      TModMagnitude(a, b);
      InnerGcd(b, TMod(a, b))
  }

  lemma {:induction false} InnerGcdIsGcd(a: int, b: int)
    ensures Abs(InnerGcd(a, b)) == Gcd(a, b)
    decreases Abs(b)
  {
    if b != 0 {
      TModMagnitude(a, b);
      InnerGcdIsGcd(b, TMod(a, b));
    }
  }

  /** `is_normalized`, the guard of the converting constructor. */
  predicate IsNormalized(n: int, d: int) {
    d > 0 && (n != 0 || d == 1) && Abs(InnerGcd(n, d)) == 1
  }

  lemma IsNormalizedIffNormal(n: int, d: int)
    ensures IsNormalized(n, d) <==> Normal(Fraction(n, d))
  {
    InnerGcdIsGcd(n, d);
    if Normal(Fraction(n, d)) && n == 0 {
      CoprimeIffGcdIsOne(n, d);
      WholeNormal(n, d, 0);
    }
  }

  // ---------------------------------------------------------------- order

  /** On normal forms exactly one of <, == and > holds. */
  lemma Trichotomy(f: Fraction, h: Fraction)
    requires Normal(f) && Normal(h)
    ensures Below(f, h) || f == h || Below(h, f)
    ensures !(Below(f, h) && f == h) && !(f == h && Below(h, f)) && !(Below(f, h) && Below(h, f))
  {
    if f.num * h.den == h.num * f.den {
      NormalFormIsUnique(f, h);
    }
  }

  lemma BelowIsTransitive(f: Fraction, g: Fraction, h: Fraction)
    requires f.den > 0 && g.den > 0 && h.den > 0
    requires Below(f, g) && Below(g, h)
    ensures Below(f, h)
  {
    Scale(f.num * g.den, g.num * f.den, h.den);
    Scale(g.num * h.den, h.num * g.den, f.den);
    assert (f.num * g.den) * h.den == (f.num * h.den) * g.den;
    assert (g.num * f.den) * h.den == (g.num * h.den) * f.den;
    assert (h.num * g.den) * f.den == (h.num * f.den) * g.den;
    Unscale(f.num * h.den, h.num * f.den, g.den);
  }

  lemma Scale(x: int, y: int, k: int)
    requires x < y && k > 0
    ensures x * k < y * k
  {
    assert (y - x) * k > 0;
  }

  lemma Unscale(x: int, y: int, k: int)
    requires x * k < y * k && k > 0
    ensures x < y
  {
    assert (y - x) * k > 0;
    SignOfFactor(k, y - x);
    assert (y - x) * k == k * (y - x);
  }

  // ---------------------------------------------------------------- inverse operations

  /** What `-=` computes. */
  function Difference(a: int, b: int, c: int, d: int): Fraction
    requires b > 0 && d > 0
  {
    Sum(a, b, -c, d)
  }

  /** x + y - y == x, through two shortcut operators. */
  lemma SubtractUndoesAdd(x: Fraction, y: Fraction)
    requires Normal(x) && Normal(y)
    ensures var s := Sum(x.num, x.den, y.num, y.den);
      s.den > 0 && Difference(s.num, s.den, y.num, y.den) == x
  {
    var s := Sum(x.num, x.den, y.num, y.den);
    SumIsReduced(x.num, x.den, y.num, y.den);
    ReduceIsNormal(x.num * y.den + y.num * x.den, x.den * y.den);
    NegateIsNormal(y.num, y.den);
    SumIsReduced(s.num, s.den, -y.num, y.den);
    CoprimeIffGcdIsOne(x.num, x.den);
    DifferenceValue(x.num, x.den, y.num, y.den, s.num, s.den);
    IsReduced(x, s.num * y.den + (-y.num) * s.den, s.den * y.den);
  }

  lemma DifferenceValue(a: int, b: int, c: int, d: int, n: int, m: int)
    requires n * (b * d) == (a * d + c * b) * m
    ensures a * (m * d) == (n * d + (-c) * m) * b
  {
    assert (n * d) * b == n * (b * d);
    assert ((-c) * m) * b == -((c * b) * m);
    assert (a * d + c * b) * m == (a * d) * m + (c * b) * m;
    assert (a * d) * m == a * (m * d);
  }

  /** x * y / y == x for y not zero. */
  lemma DivideUndoesMultiply(x: Fraction, y: Fraction)
    requires Normal(x) && Normal(y) && y.num != 0
    ensures var p := Product(x.num, x.den, y.num, y.den);
      p.den > 0 && Quotient(p.num, p.den, y.num, y.den) == x
  {
    var p := Product(x.num, x.den, y.num, y.den);
    ProductIsReduced(x.num, x.den, y.num, y.den);
    ReduceIsNormal(x.num * y.num, x.den * y.den);
    QuotientIsReduced(p.num, p.den, y.num, y.den);
    CoprimeIffGcdIsOne(x.num, x.den);
    QuotientValue(x.num, x.den, y.num, y.den, p.num, p.den);
    IsReduced(x, p.num * y.den, p.den * y.num);
  }

  lemma QuotientValue(a: int, b: int, c: int, d: int, n: int, m: int)
    requires n * (b * d) == (a * c) * m
    ensures a * (m * c) == (n * d) * b
  {
    assert a * (m * c) == (a * c) * m;
    assert (n * d) * b == n * (b * d);
  }

  /** Adding the same number to both sides keeps the order. */
  lemma SumKeepsOrder(x: Fraction, y: Fraction, z: Fraction)
    requires Normal(x) && Normal(y) && Normal(z)
    ensures Below(x, y) <==> Below(Sum(x.num, x.den, z.num, z.den), Sum(y.num, y.den, z.num, z.den))
  {
    var s, t := Sum(x.num, x.den, z.num, z.den), Sum(y.num, y.den, z.num, z.den);
    SumIsReduced(x.num, x.den, z.num, z.den);
    SumIsReduced(y.num, y.den, z.num, z.den);
    ReduceIsNormal(x.num * z.den + z.num * x.den, x.den * z.den);
    ReduceIsNormal(y.num * z.den + z.num * y.den, y.den * z.den);
    var p, p' := x.num * z.den + z.num * x.den, x.den * z.den;
    var q, q' := y.num * z.den + z.num * y.den, y.den * z.den;
    SignOfFactor(x.den, z.den);
    SignOfFactor(y.den, z.den);
    OrderOfValues(s, p, p', t, q, q');
    ShiftedOrder(x, y, z);
  }

  /** Fractions of equal value compare alike. */
  lemma OrderOfValues(f: Fraction, p: int, p': int, h: Fraction, q: int, q': int)
    requires f.den > 0 && h.den > 0 && p' > 0 && q' > 0 && Equals(f, p, p') && Equals(h, q, q')
    ensures Below(f, h) <==> p * q' < q * p'
  {
    var k := p' * q';
    SignOfFactor(p', q');
    var j := f.den * h.den;
    SignOfFactor(f.den, h.den);
    assert (f.num * h.den) * k == (p * q') * j by {
      assert (f.num * h.den) * k == (f.num * p') * (h.den * q');
      assert (p * f.den) * (h.den * q') == (p * q') * j;
    }
    assert (h.num * f.den) * k == (q * p') * j by {
      assert (h.num * f.den) * k == (h.num * q') * (f.den * p');
      assert (q * h.den) * (f.den * p') == (q * p') * j;
    }
    SameOrder(f.num * h.den, h.num * f.den, k, p * q', q * p', j);
  }

  lemma SameOrder(x: int, y: int, k: int, u: int, v: int, j: int)
    requires k > 0 && j > 0 && x * k == u * j && y * k == v * j
    ensures x < y <==> u < v
  {
    if x < y {
      Scale(x, y, k);
      Unscale(u, v, j);
    } else if u < v {
      Scale(u, v, j);
      Unscale(x, y, k);
    }
  }

  lemma ShiftedOrder(x: Fraction, y: Fraction, z: Fraction)
    requires x.den > 0 && y.den > 0 && z.den > 0
    ensures var p, p' := x.num * z.den + z.num * x.den, x.den * z.den;
      var q, q' := y.num * z.den + z.num * y.den, y.den * z.den;
      Below(x, y) <==> p * q' < q * p'
  {
    var p, p' := x.num * z.den + z.num * x.den, x.den * z.den;
    var q, q' := y.num * z.den + z.num * y.den, y.den * z.den;
    var zz, w := z.den * z.den, (z.num * z.den) * (x.den * y.den);
    SignOfFactor(z.den, z.den);
    ShiftedTerm(x.num, x.den, y.den, z);
    ShiftedTerm(y.num, y.den, x.den, z);
    assert x.den * y.den == y.den * x.den;
    if x.num * y.den < y.num * x.den {
      Scale(x.num * y.den, y.num * x.den, zz);
    } else if p * q' < q * p' {
      Unscale(x.num * y.den, y.num * x.den, zz);
    }
  }

  lemma ShiftedTerm(n: int, d: int, e: int, z: Fraction)
    ensures (n * z.den + z.num * d) * (e * z.den) == (n * e) * (z.den * z.den) + (z.num * z.den) * (d * e)
  {
    assert (n * z.den) * (e * z.den) == (n * e) * (z.den * z.den);
    assert (z.num * d) * (e * z.den) == (z.num * z.den) * (d * e);
    assert (n * z.den + z.num * d) * (e * z.den) == (n * z.den) * (e * z.den) + (z.num * d) * (e * z.den);
  }
}
