/**
 Exact rational numbers in lowest terms (code/boost.context/boost/rational.hpp), over unbounded integers.

 `Reduce` is the simple form: divide by the gcd, make the denominator positive.  Every operator is proved to
 leave exactly what a full reduction of the schoolbook result would, although none of them performs one.
 */
module Rationals {
  import opened IntegerGcd

  datatype Fraction = Fraction(num: int, den: int)

  /** Normal form: positive denominator and nothing in common. */
  ghost predicate Normal(f: Fraction) {
    f.den > 0 && Gcd(f.num, f.den) == 1
  }

  /** f is the value p/q. */
  ghost predicate Equals(f: Fraction, p: int, q: int) {
    f.num * q == p * f.den
  }

  function Reduce(p: int, q: int): Fraction
    requires q != 0
  {
    var g := Gcd(p, q);
    GcdPositive(p, q);
    if q < 0 then Fraction(-TDiv(p, g), -TDiv(q, g)) else Fraction(TDiv(p, g), TDiv(q, g))
  }

  /** Reduction keeps the value and reaches normal form. */
  lemma ReduceIsNormal(p: int, q: int)
    requires q != 0
    ensures Normal(Reduce(p, q)) && Equals(Reduce(p, q), p, q)
  {
    var g := Gcd(p, q);
    GcdPositive(p, q);
    var n, d, u, v := GcdSpec(p, q);
    TDivExact(g, n);
    TDivExact(g, d);
    CoprimeQuotients(g, n, d, u, v);
    SignOfFactor(g, d);
    QuotientsKeepValue(g, n, d);
    var f := Reduce(p, q);
    if q < 0 {
      CoprimeNegate(n, d);
      CoprimeNegate(-n, d);
    }
    CoprimeIffGcdIsOne(f.num, f.den);
  }

  lemma QuotientsKeepValue(g: int, n: int, d: int)
    ensures n * (g * d) == (g * n) * d
    ensures (-n) * (g * d) == (g * n) * (-d)
  {
  }

  lemma SignOfFactor(g: int, d: int)
    requires g > 0
    ensures d > 0 <==> g * d > 0
    ensures d < 0 <==> g * d < 0
  {
  }

  /** The sign may as well be read off the divided denominator. */
  lemma ReduceBySign(p: int, q: int)
    requires q != 0
    ensures Gcd(p, q) > 0
    ensures var g := Gcd(p, q); TDiv(q, g) < 0 <==> q < 0
  {
    var g := Gcd(p, q);
    GcdPositive(p, q);
    var n, d, u, v := GcdSpec(p, q);
    TDivExact(g, d);
    SignOfFactor(g, d);
  }

  /** What normalize relies on: the shortcut for zero, the reduction's result, and its sign. */
  lemma NormalizeReaches(p: int, q: int)
    requires q != 0
    ensures p == 0 ==> Reduce(p, q) == Fraction(0, 1)
    ensures Normal(Reduce(p, q))
    ensures Gcd(p, q) > 0
    ensures var g := Gcd(p, q); TDiv(q, g) < 0 <==> q < 0
  {
    ReduceIsNormal(p, q);
    ReduceBySign(p, q);
    if p == 0 {
      ZeroReduces(p, q);
    }
  }

  lemma ZeroReduces(p: int, q: int)
    requires p == 0 && q != 0
    ensures Reduce(p, q) == Fraction(0, 1)
  {
    ReduceIsNormal(p, q);
    var f := Reduce(p, q);
    MulZero(p, f.den);
    CancelFactor(q, f.num, 0);
    CoprimeIffGcdIsOne(f.num, f.den);
    WholeNormal(f.num, f.den, 0);
  }

  /** A value has one normal form. */
  lemma NormalFormIsUnique(f: Fraction, h: Fraction)
    requires Normal(f) && Normal(h) && f.num * h.den == h.num * f.den
    ensures f == h
  {
    CoprimeIffGcdIsOne(f.num, f.den);
    CoprimeIffGcdIsOne(h.num, h.den);
    CoprimeSymmetric(f.num, f.den);
    CoprimeSymmetric(h.num, h.den);
    assert f.num * h.den == f.den * h.num && h.num * f.den == h.den * f.num;
    var j := CoprimeDivides(f.den, f.num, h.den, h.num);
    var k := CoprimeDivides(h.den, h.num, f.den, f.num);
    assert h.den == f.den * j && f.den == h.den * k;
    MutualFactors(f.den, h.den, j, k);
    assert f.num * f.den == h.num * f.den;
    CancelFactor(f.den, f.num, h.num);
  }

  lemma MutualFactors(a: int, b: int, j: int, k: int)
    requires a > 0 && b > 0 && b == a * j && a == b * k
    ensures a == b
  {
    SignOfFactor(a, j);
    SignOfFactor(b, k);
    assert b >= a && a >= b;
  }

  lemma IsReduced(f: Fraction, p: int, q: int)
    requires q != 0 && f.den > 0 && Coprime(f.num, f.den) && Equals(f, p, q)
    ensures Normal(f) && f == Reduce(p, q)
  {
    CoprimeIffGcdIsOne(f.num, f.den);
    ReduceIsNormal(p, q);
    var h := Reduce(p, q);
    SameValue(f.num, f.den, h.num, h.den, p, q);
    NormalFormIsUnique(f, h);
  }

  lemma SameValue(a: int, b: int, c: int, d: int, p: int, q: int)
    requires q != 0 && a * q == p * b && c * q == p * d
    ensures a * d == c * b
  {
    assert q * (a * d) == (a * q) * d == (p * b) * d;
    assert q * (c * b) == (c * q) * b == (p * d) * b;
    assert (p * b) * d == (p * d) * b;
    CancelFactor(q, a * d, c * b);
  }

  // ---------------------------------------------------------------- why the shortcuts are enough

  /** Addition: after dividing out g = gcd(b, d), only a factor of g can be left to cancel. */
  lemma SumNeedsOnlyGcdWithG(a: int, c: int, b1: int, d1: int, g: int, n: int, g1: int, g2: int)
    requires g > 0 && g2 > 0 && Coprime(a, b1 * g) && Coprime(c, d1 * g) && Coprime(b1, d1)
    requires a * d1 + c * b1 == n * g2 && g == g1 * g2 && Coprime(n, g1)
    ensures Coprime(n, b1 * (d1 * g1))
  {
    SumCoprime(a, c, b1, d1, g);
    CoprimeFactor(n, g2, b1);
    CoprimeSymmetric(b1, d1);
    SumCoprime(c, a, d1, b1, g);
    assert c * b1 + a * d1 == n * g2;
    CoprimeFactor(n, g2, d1);
    CoprimeProduct(n, d1, g1);
    CoprimeProduct(n, b1, d1 * g1);
  }

  lemma SumCoprime(a: int, c: int, b1: int, d1: int, g: int)
    requires Coprime(a, b1 * g) && Coprime(b1, d1)
    ensures Coprime(a * d1 + c * b1, b1)
  {
    CoprimeSymmetric(a, b1 * g);
    CoprimeFactor(b1, g, a);
    CoprimeProduct(b1, a, d1);
    CoprimeSymmetric(b1, a * d1);
    CoprimeShift(a * d1, b1, c);
  }

  lemma SumValue(a: int, c: int, b1: int, d1: int, g: int, n: int, g1: int, g2: int)
    requires a * d1 + c * b1 == n * g2 && g == g1 * g2
    ensures n * ((b1 * g) * (d1 * g)) == (a * (d1 * g) + c * (b1 * g)) * (b1 * (d1 * g1))
  {
    SumValueLeft(b1, d1, g, n, g1, g2);
    SumValueRight(a, c, b1, d1, g, g1);
    assert n * (g2 * ((b1 * d1) * (g1 * g))) == (n * g2) * ((b1 * d1) * (g1 * g));
  }

  lemma SumValueLeft(b1: int, d1: int, g: int, n: int, g1: int, g2: int)
    requires g == g1 * g2
    ensures n * ((b1 * g) * (d1 * g)) == n * (g2 * ((b1 * d1) * (g1 * g)))
  {
    var m := b1 * d1;
    assert (b1 * g) * (d1 * g) == m * (g * g);
    assert g * g == g2 * (g1 * g);
    Rearrange(m, g2, g1 * g);
  }

  lemma Rearrange(x: int, y: int, z: int)
    ensures x * (y * z) == y * (x * z)
  {
  }

  lemma SumValueRight(a: int, c: int, b1: int, d1: int, g: int, g1: int)
    ensures (a * (d1 * g) + c * (b1 * g)) * (b1 * (d1 * g1)) == (a * d1 + c * b1) * ((b1 * d1) * (g1 * g))
  {
    var s, m := a * d1 + c * b1, b1 * d1;
    assert a * (d1 * g) + c * (b1 * g) == s * g by {
      assert a * (d1 * g) == (a * d1) * g;
      assert c * (b1 * g) == (c * b1) * g;
    }
    assert b1 * (d1 * g1) == m * g1;
    Interchange(s, g, m, g1);
  }

  lemma Interchange(s: int, g: int, m: int, g1: int)
    ensures (s * g) * (m * g1) == s * (m * (g1 * g))
  {
    assert (s * g) * (m * g1) == s * (g * (m * g1));
    assert g * (m * g1) == m * (g1 * g);
  }

  /** What `+=` computes, step by step, from a/b and c/d. */
  function Sum(a: int, b: int, c: int, d: int): Fraction
    requires b > 0 && d > 0
  {
    var g := Gcd(b, d);
    GcdPositive(b, d);
    var b1 := TDiv(b, g);
    var n := a * TDiv(d, g) + c * b1;
    var g2 := Gcd(n, g);
    GcdPositive(n, g);
    Fraction(TDiv(n, g2), b1 * TDiv(d, g2))
  }

  lemma SumIsReduced(a: int, b: int, c: int, d: int)
    requires Normal(Fraction(a, b)) && Normal(Fraction(c, d))
    ensures b * d != 0 && Sum(a, b, c, d) == Reduce(a * d + c * b, b * d)
    ensures Normal(Sum(a, b, c, d))
  {
    CoprimeIffGcdIsOne(a, b);
    CoprimeIffGcdIsOne(c, d);
    SignOfFactor(b, d);
    var g := Gcd(b, d);
    GcdPositive(b, d);
    var b1, d1, u, v := GcdSpec(b, d);
    TDivExact(g, b1);
    TDivExact(g, d1);
    CoprimeQuotients(g, b1, d1, u, v);
    var n := a * d1 + c * b1;
    var g2 := Gcd(n, g);
    GcdPositive(n, g);
    var n', g1, s, t := GcdSpec(n, g);
    CoprimeQuotients(g2, n', g1, s, t);
    TDivExact(g2, n');
    assert d == g2 * (d1 * g1) by {
      assert g * d1 == (g2 * g1) * d1;
    }
    TDivExact(g2, d1 * g1);
    assert Sum(a, b, c, d) == Fraction(n', b1 * (d1 * g1));
    SumNeedsOnlyGcdWithG(a, c, b1, d1, g, n', g1, g2);
    SumValue(a, c, b1, d1, g, n', g1, g2);
    SignOfFactor(g, b1);
    SignOfFactor(g2, d1 * g1);
    SignOfFactor(b1, d1 * g1);
    IsReduced(Fraction(n', b1 * (d1 * g1)), a * d + c * b, b * d);
  }

  /** What `*=` computes: the cross gcds come out before the multiplications. */
  function Product(a: int, b: int, c: int, d: int): Fraction
    requires b > 0 && d > 0
  {
    var g1, g2 := Gcd(a, d), Gcd(c, b);
    GcdPositive(a, d);
    GcdPositive(c, b);
    Fraction(TDiv(a, g1) * TDiv(c, g2), TDiv(b, g2) * TDiv(d, g1))
  }

  /** Cross-cancelled factors have nothing left in common. */
  lemma CrossCoprime(a: int, b: int, c: int, d: int, g1: int, g2: int)
    requires Coprime(a * g1, b * g2) && Coprime(c * g2, d * g1) && Coprime(a, d) && Coprime(c, b)
    ensures Coprime(a * c, b * d)
  {
    CoprimeFactor(a, g1, b * g2);
    CoprimeSymmetric(a, b * g2);
    CoprimeFactor(b, g2, a);
    CoprimeSymmetric(c, b);
    CoprimeProduct(b, a, c);
    CoprimeFactor(c, g2, d * g1);
    CoprimeSymmetric(c, d * g1);
    CoprimeFactor(d, g1, c);
    CoprimeSymmetric(a, d);
    CoprimeProduct(d, a, c);
    CoprimeSymmetric(b, a * c);
    CoprimeSymmetric(d, a * c);
    CoprimeProduct(a * c, b, d);
  }

  lemma CrossValue(a: int, b: int, c: int, d: int, g1: int, g2: int)
    ensures (a * c) * ((b * g2) * (d * g1)) == ((a * g1) * (c * g2)) * (b * d)
  {
    assert (b * g2) * (d * g1) == (b * d) * (g1 * g2);
    assert (a * g1) * (c * g2) == (a * c) * (g1 * g2);
    assert (a * c) * ((b * d) * (g1 * g2)) == ((a * c) * (g1 * g2)) * (b * d);
  }

  lemma ProductIsReduced(a: int, b: int, c: int, d: int)
    requires Normal(Fraction(a, b)) && Normal(Fraction(c, d))
    ensures b * d != 0 && Product(a, b, c, d) == Reduce(a * c, b * d)
    ensures Normal(Product(a, b, c, d))
  {
    CoprimeIffGcdIsOne(a, b);
    CoprimeIffGcdIsOne(c, d);
    SignOfFactor(b, d);
    var g1, g2 := Gcd(a, d), Gcd(c, b);
    GcdPositive(a, d);
    GcdPositive(c, b);
    var a', d', u, v := GcdSpec(a, d);
    var c', b', s, t := GcdSpec(c, b);
    TDivExact(g1, a');
    TDivExact(g1, d');
    TDivExact(g2, c');
    TDivExact(g2, b');
    CoprimeQuotients(g1, a', d', u, v);
    CoprimeQuotients(g2, c', b', s, t);
    CrossCoprime(a', b', c', d', g1, g2);
    CrossValue(a', b', c', d', g1, g2);
    SignOfFactor(g1, d');
    SignOfFactor(g2, b');
    SignOfFactor(b', d');
    IsReduced(Fraction(a' * c', b' * d'), a * c, b * d);
  }

  /** What `/=` computes for a divisor c/d that is not zero. */
  function Quotient(a: int, b: int, c: int, d: int): Fraction
    requires b > 0 && d > 0 && c != 0
  {
    if a == 0 then Fraction(a, b)
    else
      var g1, g2 := Gcd(a, c), Gcd(d, b);
      GcdPositive(a, c);
      GcdPositive(d, b);
      var n, m := TDiv(a, g1) * TDiv(d, g2), TDiv(b, g2) * TDiv(c, g1);
      if m < 0 then Fraction(-n, -m) else Fraction(n, m)
  }

  lemma QuotientIsReduced(a: int, b: int, c: int, d: int)
    requires Normal(Fraction(a, b)) && Normal(Fraction(c, d)) && c != 0
    ensures b * c != 0 && Quotient(a, b, c, d) == Reduce(a * d, b * c)
    ensures Normal(Quotient(a, b, c, d))
  {
    CoprimeIffGcdIsOne(a, b);
    CoprimeIffGcdIsOne(c, d);
    NonZeroProduct(b, c);
    if a == 0 {
      IsReduced(Fraction(a, b), a * d, b * c);
    } else {
      QuotientOfNonZero(a, b, c, d);
    }
  }

  lemma NonZeroProduct(x: int, y: int)
    requires x != 0 && y != 0
    ensures x * y != 0
  {
    if x > 0 {
      SignOfFactor(x, y);
    } else {
      SignOfFactor(-x, y);
    }
  }

  lemma QuotientOfNonZero(a: int, b: int, c: int, d: int)
    requires a != 0 && c != 0 && b > 0 && d > 0 && Coprime(a, b) && Coprime(c, d) && b * c != 0
    ensures Quotient(a, b, c, d) == Reduce(a * d, b * c) && Normal(Quotient(a, b, c, d))
  {
    var g1, g2 := Gcd(a, c), Gcd(d, b);
    GcdPositive(a, c);
    GcdPositive(d, b);
    var a', c', u, v := GcdSpec(a, c);
    var d', b', s, t := GcdSpec(d, b);
    TDivExact(g1, a');
    TDivExact(g1, c');
    TDivExact(g2, d');
    TDivExact(g2, b');
    CoprimeQuotients(g1, a', c', u, v);
    CoprimeQuotients(g2, d', b', s, t);
    CoprimeSymmetric(c' * g1, d' * g2);
    CrossCoprime(a', b', d', c', g1, g2);
    CrossValue(a', b', d', c', g1, g2);
    var n, m := a' * d', b' * c';
    SignOfFactor(g2, b');
    SignOfFactor(g1, c');
    NonZeroProduct(b', c');
    if m < 0 {
      CoprimeNegate(n, m);
      CoprimeNegate(-n, m);
      assert (-n) * (b * c) == (a * d) * (-m);
      IsReduced(Fraction(-n, -m), a * d, b * c);
    } else {
      IsReduced(Fraction(n, m), a * d, b * c);
    }
  }

  // ---------------------------------------------------------------- comparison by continued fractions

  ghost predicate Below(f: Fraction, h: Fraction) {
    f.num * h.den < h.num * f.den
  }

  /** n/d with its quotient and remainder, the remainder in [0, d). */
  ghost predicate Divided(n: int, d: int, q: int, r: int) {
    n == q * d + r && 0 <= r < d
  }

  /** If the quotients differ they decide; otherwise the remainders do. */
  lemma QuotientsDecide(n: int, d: int, q: int, r: int, n': int, d': int, q': int, r': int)
    requires Divided(n, d, q, r) && Divided(n', d', q', r')
    ensures q < q' ==> n * d' < n' * d
    ensures q == q' ==> (n * d' < n' * d <==> r * d' < r' * d)
  {
    assert n * d' == q * (d * d') + r * d';
    assert n' * d == q' * (d * d') + r' * d;
    Products(d, d', r, r');
    if q < q' {
      QuotientGap(d * d', q, q');
    }
  }

  lemma Products(d: int, d': int, r: int, r': int)
    requires 0 <= r < d && 0 <= r' < d'
    ensures 0 <= r * d' < d * d' && 0 <= r' * d
  {
    assert (d - r) * d' > 0;
  }

  lemma QuotientGap(m: int, q: int, q': int)
    requires m > 0 && q < q'
    ensures q * m + m <= q' * m
  {
    MulGap(m, q' - q);
    assert m * (q' - q) == q' * m - q * m;
  }

  /** `-=` is `+=` of the negated operand, step by step. */
  lemma DifferenceIsReduced(a: int, b: int, c: int, d: int)
    requires Normal(Fraction(a, b)) && Normal(Fraction(c, d))
    ensures b * d != 0 && Normal(Sum(a, b, -c, d))
    ensures Sum(a, b, -c, d) == Reduce(a * d - c * b, b * d)
    ensures Gcd(b, d) > 0 && (-c) * TDiv(b, Gcd(b, d)) == -(c * TDiv(b, Gcd(b, d)))
  {
    NegateIsNormal(c, d);
    SumIsReduced(a, b, -c, d);
    GcdPositive(b, d);
    assert (-c) * b == -(c * b);
  }

  // ---------------------------------------------------------------- the class

  class Rational {
    var num: int
    var den: int

    ghost predicate Valid()
      reads this
    {
      Normal(Fraction(num, den))
    }

    ghost function Value(): Fraction
      reads this
    {
      Fraction(num, den)
    }

    constructor FromInt(n: int)
      ensures Valid() && Value() == Fraction(n, 1)
    {
      num, den := n, 1;
      new;
      assert Bezout(n, 1, 0, 1);
      CoprimeIffGcdIsOne(n, 1);
    }

    /** The state the two-argument constructor has before it normalizes. */
    constructor Raw(n: int, d: int)
      ensures num == n && den == d
    {
      num, den := n, d;
    }

    /** False stands for throwing `bad_rational`. */
    method Normalize() returns (ok: bool)
      modifies this
      ensures ok <==> old(den) != 0
      ensures ok ==> Valid() && Value() == Reduce(old(num), old(den))
      ensures !ok ==> Value() == old(Value())
    {
      if den == 0 {
        return false;
      }
      NormalizeReaches(num, den);
      if num == 0 {
        den := 1;
        return true;
      }
      var g := Gcd(num, den);
      GcdPositive(num, den);
      num := TDiv(num, g);
      den := TDiv(den, g);
      if den < 0 {
        num := -num;
        den := -den;
      }
      return true;
    }

    method Assign(n: int, d: int) returns (ok: bool)
      modifies this
      ensures ok <==> d != 0
      ensures ok ==> Valid() && Value() == Reduce(n, d)
      ensures !ok ==> Value() == old(Value())
    {
      var other := new Rational.Raw(n, d);
      ok := other.Normalize();
      if ok {
        num, den := other.num, other.den;
      }
    }

    /** `+=`; r may be this very object. */
    method AddAssign(r: Rational)
      requires Valid() && r.Valid()
      modifies this
      ensures Valid() && old(den) * old(r.den) != 0
      ensures Value() == Reduce(old(num) * old(r.den) + old(r.num) * old(den), old(den) * old(r.den))
    {
      var rNum, rDen := r.num, r.den;
      SumIsReduced(num, den, rNum, rDen);
      var g := Gcd(den, rDen);
      GcdPositive(den, rDen);
      den := TDiv(den, g);
      num := num * TDiv(rDen, g) + rNum * den;
      GcdPositive(num, g);
      g := Gcd(num, g);
      num := TDiv(num, g);
      den := den * TDiv(rDen, g);
    }

    method SubtractAssign(r: Rational)
      requires Valid() && r.Valid()
      modifies this
      ensures Valid() && old(den) * old(r.den) != 0
      ensures Value() == Reduce(old(num) * old(r.den) - old(r.num) * old(den), old(den) * old(r.den))
    {
      var rNum, rDen := r.num, r.den;
      DifferenceIsReduced(num, den, rNum, rDen);
      var g := Gcd(den, rDen);
      GcdPositive(den, rDen);
      den := TDiv(den, g);
      num := num * TDiv(rDen, g) - rNum * den;
      GcdPositive(num, g);
      g := Gcd(num, g);
      num := TDiv(num, g);
      den := den * TDiv(rDen, g);
    }

    method MultiplyAssign(r: Rational)
      requires Valid() && r.Valid()
      modifies this
      ensures Valid() && old(den) * old(r.den) != 0
      ensures Value() == Reduce(old(num) * old(r.num), old(den) * old(r.den))
    {
      var rNum, rDen := r.num, r.den;
      ProductIsReduced(num, den, rNum, rDen);
      var gcd1 := Gcd(num, rDen);
      var gcd2 := Gcd(rNum, den);
      GcdPositive(num, rDen);
      GcdPositive(rNum, den);
      num := TDiv(num, gcd1) * TDiv(rNum, gcd2);
      den := TDiv(den, gcd2) * TDiv(rDen, gcd1);
    }

    /** False stands for throwing `bad_rational` on a zero divisor. */
    method DivideAssign(r: Rational) returns (ok: bool)
      requires Valid() && r.Valid()
      modifies this
      ensures ok <==> old(r.num) != 0
      ensures ok ==> Valid() && old(den) * old(r.num) != 0
      ensures ok ==> Value() == Reduce(old(num) * old(r.den), old(den) * old(r.num))
      ensures !ok ==> Value() == old(Value())
    {
      var rNum, rDen := r.num, r.den;
      if rNum == 0 {
        return false;
      }
      QuotientIsReduced(num, den, rNum, rDen);
      if num == 0 {
        return true;
      }
      var gcd1 := Gcd(num, rNum);
      var gcd2 := Gcd(rDen, den);
      GcdPositive(num, rNum);
      GcdPositive(rDen, den);
      num := TDiv(num, gcd1) * TDiv(rDen, gcd2);
      den := TDiv(den, gcd2) * TDiv(rNum, gcd1);
      if den < 0 {
        num := -num;
        den := -den;
      }
      return true;
    }

    method AddAssignInt(i: int)
      requires Valid()
      modifies this
      ensures Valid() && Value() == Fraction(old(num) + i * old(den), old(den))
    {
      CoprimeIffGcdIsOne(num, den);
      CoprimeShift(num, den, i);
      num := num + i * den;
      CoprimeIffGcdIsOne(num, den);
    }

    method SubtractAssignInt(i: int)
      requires Valid()
      modifies this
      ensures Valid() && Value() == Fraction(old(num) - i * old(den), old(den))
    {
      CoprimeIffGcdIsOne(num, den);
      CoprimeShift(num, den, -i);
      assert (-i) * den == -(i * den);
      num := num - i * den;
      CoprimeIffGcdIsOne(num, den);
    }

    method MultiplyAssignInt(i: int)
      requires Valid()
      modifies this
      ensures Valid() && Value() == Reduce(old(num) * i, old(den))
    {
      WholeProduct(num, den, i);
      var gcd := Gcd(i, den);
      GcdPositive(i, den);
      num := num * TDiv(i, gcd);
      den := TDiv(den, gcd);
    }

    method DivideAssignInt(i: int) returns (ok: bool)
      requires Valid()
      modifies this
      ensures ok <==> i != 0
      ensures ok ==> Valid() && old(den) * i != 0 && Value() == Reduce(old(num), old(den) * i)
      ensures !ok ==> Value() == old(Value())
    {
      if i == 0 {
        return false;
      }
      WholeQuotient(num, den, i);
      if num == 0 {
        return true;
      }
      var gcd := Gcd(num, i);
      GcdPositive(num, i);
      num := TDiv(num, gcd);
      den := den * TDiv(i, gcd);
      if den < 0 {
        num := -num;
        den := -den;
      }
      return true;
    }

    /** `operator<`: compares the continued-fraction expansions term by term, never multiplying. */
    method Less(r: Rational) returns (less: bool)
      requires den > 0 && r.den > 0
      ensures less <==> Below(Value(), r.Value())
    {
      var tn, td := num, den;
      var tq, tr := FloorDivide(tn, td);
      var rn, rd := r.num, r.den;
      var rq, rr := FloorDivide(rn, rd);
      var reverse := false;
      while true
        invariant Divided(tn, td, tq, tr) && Divided(rn, rd, rq, rr)
        invariant Below(Value(), r.Value()) <==> if reverse then rn * td < tn * rd else tn * rd < rn * td
        decreases td
      {
        QuotientsDecide(tn, td, tq, tr, rn, rd, rq, rr);
        QuotientsDecide(rn, rd, rq, rr, tn, td, tq, tr);
        if tq != rq {
          return if reverse then tq > rq else tq < rq;
        }
        reverse := !reverse;
        if tr == 0 || rr == 0 {
          break;
        }
        tn, td := td, tr;
        tq, tr := Divide(tn, td);
        rn, rd := rd, rr;
        rq, rr := Divide(rn, rd);
      }
      if tr == rr {
        return false;
      } else {
        SignOfFactor(td, rr);
        SignOfFactor(rd, tr);
        return (tr != 0) != reverse;
      }
    }

    /** `operator<` against an integer: the floor decides. */
    method LessInt(i: int) returns (less: bool)
      requires den > 0
      ensures less <==> Below(Value(), Fraction(i, 1))
    {
      var q, r := FloorDivide(num, den);
      FloorDecides(num, den, q, r, i);
      return q < i;
    }

    method GreaterInt(i: int) returns (greater: bool)
      requires Valid()
      ensures greater <==> Below(Fraction(i, 1), Value())
    {
      var equal := EqualInt(i);
      if equal {
        return false;
      }
      var less := LessInt(i);
      return !less;
    }

    method EqualInt(i: int) returns (equal: bool)
      requires Valid()
      ensures equal <==> num == i * den
    {
      equal := den == 1 && num == i;
      if num == i * den {
        CoprimeIffGcdIsOne(num, den);
        WholeNormal(num, den, i);
      }
    }
  }

  /** C++ division of a non-negative number. */
  method Divide(n: int, d: int) returns (q: int, r: int)
    requires n >= 0 && d > 0
    ensures Divided(n, d, q, r)
  {
    q, r := TDiv(n, d), TMod(n, d);
    TModRange(n, d);
  }

  /** C++ division followed by the loop that makes the remainder non-negative. */
  method FloorDivide(n: int, d: int) returns (q: int, r: int)
    requires d > 0
    ensures Divided(n, d, q, r)
  {
    q, r := TDiv(n, d), TMod(n, d);
    TModRange(n, d);
    while r < 0
      invariant n == q * d + r && r < d
    {
      r := r + d;
      q := q - 1;
    }
  }

  lemma FloorDecides(n: int, d: int, q: int, r: int, i: int)
    requires Divided(n, d, q, r)
    ensures q < i <==> n * 1 < i * d
  {
    if q < i {
      QuotientGap(d, q, i);
    } else {
      assert (q - i) * d >= 0;
    }
  }

  lemma NegateIsNormal(n: int, d: int)
    requires Normal(Fraction(n, d))
    ensures Normal(Fraction(-n, d))
  {
    CoprimeIffGcdIsOne(n, d);
    CoprimeNegate(n, d);
    CoprimeIffGcdIsOne(-n, d);
  }

  lemma WholeNormal(n: int, d: int, i: int)
    requires d > 0 && Coprime(n, d) && n == i * d
    ensures d == 1
  {
    var u, v :| Bezout(n, d, u, v);
    assert d * (i * u + v) == 1;
    FactorOfOne(d, i * u + v);
  }

  lemma WholeProduct(n: int, d: int, i: int)
    requires Normal(Fraction(n, d))
    ensures Gcd(i, d) > 0
    ensures var g := Gcd(i, d);
      var f := Fraction(n * TDiv(i, g), TDiv(d, g));
      Normal(f) && f == Reduce(n * i, d)
  {
    var g := Gcd(i, d);
    GcdPositive(i, d);
    var i', d', u, v := GcdSpec(i, d);
    TDivExact(g, i');
    TDivExact(g, d');
    CoprimeQuotients(g, i', d', u, v);
    CoprimeIffGcdIsOne(n, d);
    CoprimeSymmetric(n, d);
    assert d == d' * g;
    CoprimeFactor(d', g, n);
    CoprimeSymmetric(i', d');
    CoprimeProduct(d', n, i');
    CoprimeSymmetric(d', n * i');
    SignOfFactor(g, d');
    assert (n * i') * (g * d') == (n * (g * i')) * d';
    IsReduced(Fraction(n * i', d'), n * i, d);
  }

  lemma WholeQuotient(n: int, d: int, i: int)
    requires Normal(Fraction(n, d)) && i != 0
    ensures d * i != 0
    ensures n == 0 ==> Fraction(n, d) == Reduce(n, d * i)
    ensures n != 0 ==>
      var g := Gcd(n, i);
      g > 0 &&
      var p, q := TDiv(n, g), d * TDiv(i, g);
      var f := if q < 0 then Fraction(-p, -q) else Fraction(p, q);
      Normal(f) && f == Reduce(n, d * i)
  {
    NonZeroProduct(d, i);
    CoprimeIffGcdIsOne(n, d);
    if n == 0 {
      IsReduced(Fraction(n, d), n, d * i);
    } else {
      WholeQuotientOfNonZero(n, d, i);
    }
  }

  lemma WholeQuotientOfNonZero(n: int, d: int, i: int)
    requires d > 0 && Coprime(n, d) && i != 0 && n != 0 && d * i != 0
    ensures var g := Gcd(n, i);
      g > 0 &&
      var p, q := TDiv(n, g), d * TDiv(i, g);
      var f := if q < 0 then Fraction(-p, -q) else Fraction(p, q);
      Normal(f) && f == Reduce(n, d * i)
  {
    var g := Gcd(n, i);
    GcdPositive(n, i);
    var n', i', u, v := GcdSpec(n, i);
    TDivExact(g, n');
    TDivExact(g, i');
    CoprimeQuotients(g, n', i', u, v);
    assert n == n' * g;
    CoprimeFactor(n', g, d);
    CoprimeProduct(n', d, i');
    var q := d * i';
    WholeQuotientValue(n', d, g, i');
    NonZeroProduct(d, i');
    if q < 0 {
      CoprimeNegate(n', q);
      CoprimeNegate(-n', q);
      IsReduced(Fraction(-n', -q), n, d * i);
    } else {
      IsReduced(Fraction(n', q), n, d * i);
    }
  }

  lemma WholeQuotientValue(n: int, d: int, g: int, i: int)
    ensures n * (d * (g * i)) == (g * n) * (d * i)
    ensures (-n) * (d * (g * i)) == (g * n) * (-(d * i))
  {
    assert d * (g * i) == g * (d * i);
    Interchange(1, n, g, d * i);
  }
}
