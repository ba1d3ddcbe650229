/** Greatest common divisors, coprimality through Bezout coefficients, and C++ integer division. */
module IntegerGcd {

  function Abs(x: int): nat {
    if x < 0 then -x else x
  }

  function GcdNat(x: nat, y: nat): nat
    decreases y
  {
    if y == 0 then x else GcdNat(y, x % y)
  }

  /** The non-negative greatest common divisor. */
  function Gcd(a: int, b: int): nat {
    GcdNat(Abs(a), Abs(b))
  }

  ghost predicate Divides(d: int, n: int) {
    exists k: int :: n == d * k
  }

  lemma {:induction false} GcdNatSpec(x: nat, y: nat) returns (p: int, q: int, u: int, v: int)
    ensures x == GcdNat(x, y) * p && y == GcdNat(x, y) * q
    ensures x * u + y * v == GcdNat(x, y)
    decreases y
  {
    if y == 0 {
      p, q, u, v := 1, 0, 1, 0;
    } else {
      var k, r := x / y, x % y;
      var p', q', u', v' := GcdNatSpec(y, r);
      var g := GcdNat(y, r);
      p, q, u, v := p' * k + q', p', v', u' - k * v';
      assert x == y * k + r;
      EuclidStep(g, x, y, k, r, p', q', u', v');
    }
  }

  lemma EuclidStep(g: int, x: int, y: int, k: int, r: int, p: int, q: int, u: int, v: int)
    requires x == y * k + r && y == g * p && r == g * q && y * u + r * v == g
    ensures x == g * (p * k + q)
    ensures x * v + y * (u - k * v) == g
  {
    assert g * (p * k + q) == (g * p) * k + g * q;
    assert x * v == (y * k) * v + r * v;
    assert y * (k * v) == (y * k) * v;
  }

  /** The gcd divides both numbers, with these quotients, and is this combination of them. */
  lemma GcdSpec(a: int, b: int) returns (p: int, q: int, u: int, v: int)
    ensures a == Gcd(a, b) * p && b == Gcd(a, b) * q
    ensures a * u + b * v == Gcd(a, b)
  {
    p, q, u, v := GcdNatSpec(Abs(a), Abs(b));
    if a < 0 {
      p, u := -p, -u;
    }
    if b < 0 {
      q, v := -q, -v;
    }
  }

  lemma GcdIsGreatest(a: int, b: int, d: int)
    requires Divides(d, a) && Divides(d, b)
    ensures Divides(d, Gcd(a, b))
  {
    var j :| a == d * j;
    var k :| b == d * k;
    var p, q, u, v := GcdSpec(a, b);
    FactorOut(d, j, k, u, v);
    assert Gcd(a, b) == d * (j * u + k * v);
  }

  lemma FactorOut(d: int, j: int, k: int, u: int, v: int)
    ensures (d * j) * u + (d * k) * v == d * (j * u + k * v)
  {
    assert (d * j) * u == d * (j * u);
    assert (d * k) * v == d * (k * v);
  }

  lemma GcdPositive(a: int, b: int)
    requires a != 0 || b != 0
    ensures Gcd(a, b) > 0
  {
    var p, q, u, v := GcdSpec(a, b);
    MulZero(Gcd(a, b), p);
    MulZero(Gcd(a, b), q);
  }

  lemma MulZero(x: int, y: int)
    ensures x == 0 ==> x * y == 0
  {
  }

  lemma FactorOfOne(g: nat, k: int)
    ensures g >= 2 ==> g * k != 1
  {
    if k >= 1 {
      assert g * k >= g;
    } else {
      assert g * k <= 0;
    }
  }

  // ---------------------------------------------------------------- coprime numbers

  ghost predicate Coprime(a: int, b: int) {
    exists u: int, v: int :: Bezout(a, b, u, v)
  }

  ghost predicate Bezout(a: int, b: int, u: int, v: int) {
    a * u + b * v == 1
  }

  lemma CoprimeIffGcdIsOne(a: int, b: int)
    ensures Coprime(a, b) <==> Gcd(a, b) == 1
  {
    var p, q, s, t := GcdSpec(a, b);
    if Gcd(a, b) == 1 {
      assert Bezout(a, b, s, t);
    }
    if Coprime(a, b) {
      var u, v :| Bezout(a, b, u, v);
      var g, k := Gcd(a, b), p * u + q * v;
      assert g * k == (g * p) * u + (g * q) * v;
      assert g * k == 1;
      FactorOfOne(g, k);
      MulZero(g, k);
    }
  }

  lemma CoprimeSymmetric(a: int, b: int)
    requires Coprime(a, b)
    ensures Coprime(b, a)
  {
    var u, v :| Bezout(a, b, u, v);
    assert Bezout(b, a, v, u);
  }

  lemma CoprimeNegate(a: int, b: int)
    requires Coprime(a, b)
    ensures Coprime(-a, b) && Coprime(a, -b)
  {
    var u, v :| Bezout(a, b, u, v);
    assert Bezout(-a, b, -u, v) && Bezout(a, -b, u, -v);
  }

  lemma CoprimeProduct(a: int, b: int, c: int)
    requires Coprime(a, b) && Coprime(a, c)
    ensures Coprime(a, b * c)
  {
    var u, v :| Bezout(a, b, u, v);
    var s, t :| Bezout(a, c, s, t);
    var k := u * (a * s + c * t) + b * v * s;
    assert a * k + (b * c) * (v * t) == (a * u + b * v) * (a * s + c * t);
    assert Bezout(a, b * c, k, v * t);
  }

  lemma CoprimeShift(a: int, b: int, k: int)
    requires Coprime(a, b)
    ensures Coprime(a + k * b, b)
  {
    var u, v :| Bezout(a, b, u, v);
    assert (a + k * b) * u + b * (v - k * u) == a * u + b * v;
    assert Bezout(a + k * b, b, u, v - k * u);
  }

  lemma CoprimeFactor(a: int, k: int, b: int)
    requires Coprime(a * k, b)
    ensures Coprime(a, b)
  {
    var u, v :| Bezout(a * k, b, u, v);
    assert a * (k * u) == (a * k) * u;
    assert Bezout(a, b, k * u, v);
  }

  lemma CoprimeQuotients(g: int, p: int, q: int, u: int, v: int)
    requires g > 0 && (g * p) * u + (g * q) * v == g
    ensures Coprime(p, q)
  {
    var k := p * u + q * v;
    assert g * k == (g * p) * u + (g * q) * v;
    CancelFactor(g, k, 1);
    assert Bezout(p, q, u, v);
  }

  lemma CancelFactor(g: int, a: int, b: int)
    requires g != 0 && g * a == g * b
    ensures a == b
  {
    assert g * (a - b) == 0;
  }

  /** Euclid's lemma. */
  lemma CoprimeDivides(a: int, b: int, c: int, k: int) returns (j: int)
    requires Coprime(a, b) && b * c == a * k
    ensures c == a * j
  {
    var u, v :| Bezout(a, b, u, v);
    j := c * u + k * v;
    assert c * (a * u + b * v) == c;
    assert a * j == c * (a * u) + (a * k) * v;
    assert (a * k) * v == (b * c) * v;
    assert (b * c) * v == c * (b * v);
    assert c * (a * u) + c * (b * v) == c * (a * u + b * v);
  }

  // ---------------------------------------------------------------- division that truncates toward zero

  /** C++ `/`: the quotient with its fractional part discarded (ISO/IEC 14882:2011, section 5.6). */
  function TDiv(a: int, b: int): int
    requires b != 0
  {
    var q := Abs(a) / Abs(b);
    if (a < 0) == (b < 0) then q else -q
  }

  /** C++ `%`: what is left, so that (a/b)*b + a%b == a. */
  function TMod(a: int, b: int): int
    requires b != 0
  {
    a - TDiv(a, b) * b
  }

  lemma TDivExact(g: int, p: int)
    requires g > 0
    ensures TDiv(g * p, g) == p
  {
    if p >= 0 {
      DivExact(g, p);
      assert g * p >= 0;
    } else {
      DivExact(g, -p);
      assert g * p == -(g * -p) && g * -p > 0;
    }
  }

  lemma DivExact(g: nat, p: nat)
    requires g > 0
    ensures (g * p) / g == p
  {
    DivIs(g * p, g, p, 0);
  }

  lemma DivIs(n: int, d: int, q: int, r: int)
    requires n == d * q + r && 0 <= r < d
    ensures n / d == q && n % d == r
  {
    var q', r' := n / d, n % d;
    assert n == d * q' + r';
    assert d * (q - q') == r' - r;
    MulGap(d, q - q');
  }

  lemma MulGap(d: int, k: int)
    requires d > 0
    ensures k >= 1 ==> d * k >= d
    ensures k <= -1 ==> d * k <= -d
  {
  }

  /** The remainder is smaller than the divisor and has the sign of the dividend. */
  lemma TModRange(a: int, b: int)
    requires b > 0
    ensures -b < TMod(a, b) < b
    ensures a >= 0 ==> TMod(a, b) >= 0
    ensures a <= 0 ==> TMod(a, b) <= 0
    ensures a == TDiv(a, b) * b + TMod(a, b)
  {
    var q, r := Abs(a) / b, Abs(a) % b;
    assert Abs(a) == b * q + r;
    if a < 0 {
      assert TDiv(a, b) == -q;
      assert TMod(a, b) == -(b * q + r) - (-q) * b;
      assert (-q) * b == -(b * q);
    }
  }
}
