/** Division and common divisors of whole numbers. */
module Arithmetic {

  lemma AtLeast(d: int, x: int)
    requires d >= 0 && x != 0
    ensures d * x >= d || d * x <= -d
  {
  }

  lemma Small(d: int, x: int)
    requires -d < d * x < d
    ensures x == 0
  {
    if x != 0 {
      AtLeast(d, x);
    }
  }

  lemma DivMod(d: int, q: int, r: int)
    requires 0 <= r < d
    ensures (d * q + r) / d == q && (d * q + r) % d == r
  {
    var n := d * q + r;
    assert n == d * (n / d) + n % d;
    assert d * (n / d - q) == r - n % d;
    Small(d, n / d - q);
  }

  lemma Multiple(d: int, q: int)
    requires d > 0
    ensures (d * q) % d == 0
  {
    DivMod(d, q, 0);
  }

  /** Numbers that agree modulo d differ by a multiple of d. */
  lemma Apart(d: int, a: int, b: int) returns (q: int)
    requires d > 0 && a % d == b % d
    ensures a - b == d * q
  {
    q := a / d - b / d;
    assert a == d * (a / d) + a % d && b == d * (b / d) + b % d;
    Distribute(d, a / d, b / d);
  }

  lemma Distribute(d: int, a: int, b: int)
    ensures d * (a - b) == d * a - d * b && d * (a + b) == d * a + d * b
  {
  }

  /** A remainder taken modulo a multiple of s and then modulo s. */
  lemma ModOfMod(n: int, m: int, s: int)
    requires s > 0 && m > 0 && m % s == 0
    ensures (n % m) % s == n % s
  {
    var w, q, r := m / s, n / m, n % m;
    assert m == s * w && n == m * q + r;
    assert r == s * (r / s) + r % s;
    assert m * q == s * (w * q);
    Distribute(s, w * q, r / s);
    DivMod(s, w * q + r / s, r % s);
  }

  /** No number above 1 divides both. */
  ghost predicate Coprime(a: nat, b: nat) {
    forall d: nat :: d > 1 ==> !CommonDivisor(d, a, b)
  }

  predicate CommonDivisor(d: nat, a: nat, b: nat) {
    d > 0 && a % d == 0 && b % d == 0
  }

  function Gcd(a: nat, b: nat): nat
    decreases b
  {
    if b == 0 then a else Gcd(b, a % b)
  }

  /** The greatest common divisor as a combination of the two numbers. */
  lemma {:induction false} Bezout(a: nat, b: nat) returns (g: nat, x: int, y: int)
    requires a > 0 || b > 0
    ensures CommonDivisor(g, a, b) && a * x + b * y == g && g == Gcd(a, b)
    decreases b
  {
    if b == 0 {
      g, x, y := a, 1, 0;
    } else {
      var x', y';
      g, x', y' := Bezout(b, a % b);
      x, y := y', x' - (a / b) * y';
      BezoutStep(a, b, x', y');
      DividesDividend(g, a, b);
    }
  }

  lemma BezoutStep(a: nat, b: nat, x: int, y: int)
    requires b > 0
    ensures a * y + b * (x - (a / b) * y) == b * x + (a % b) * y
  {
    var q, r := a / b, a % b;
    assert a == b * q + r;
    assert a * y == b * (q * y) + r * y by {
      assert (b * q) * y == b * (q * y);
    }
    Distribute(b, x, q * y);
  }

  lemma DividesDividend(g: nat, a: nat, b: nat)
    requires g > 0 && b > 0 && b % g == 0 && (a % b) % g == 0
    ensures a % g == 0
  {
    ModOfMod(a, b, g);
  }

  lemma CoprimeCombination(a: nat, b: nat) returns (x: int, y: int)
    requires Coprime(a, b) && (a > 0 || b > 0)
    ensures a * x + b * y == 1
  {
    var g;
    g, x, y := Bezout(a, b);
    assert !(g > 1);
  }

  lemma CombinationCoprime(a: nat, b: nat, x: int, y: int)
    requires a * x + b * y == 1
    ensures Coprime(a, b)
  {
    forall d: nat | d > 1 ensures !CommonDivisor(d, a, b) {
      if CommonDivisor(d, a, b) {
        var p, q := a / d, b / d;
        assert a == d * p && b == d * q;
        assert (d * p) * x == d * (p * x) && (d * q) * y == d * (q * y);
        Distribute(d, p * x, q * y);
        Multiple(d, p * x + q * y);
        assert false;
      }
    }
  }

  lemma CoprimeProduct(a: nat, b: nat, s: nat)
    requires Coprime(a, s) && Coprime(b, s) && s > 0
    ensures Coprime(a * b, s)
  {
    var x, y := CoprimeCombination(a, s);
    var u, v := CoprimeCombination(b, s);
    ProductOfCombinations(a, b, s, x, y, u, v);
    CombinationCoprime(a * b, s, x * u, x * a * v + y);
  }

  lemma ProductOfCombinations(a: int, b: int, s: int, x: int, y: int, u: int, v: int)
    requires a * x + s * y == 1 && b * u + s * v == 1
    ensures (a * b) * (x * u) + s * (x * a * v + y) == 1
  {
    calc {
      (a * b) * (x * u) + s * (x * a * v + y);
      (a * x) * (b * u) + s * (x * a * v) + s * y;
      (a * x) * (b * u) + (a * x) * (s * v) + s * y;
      { Distribute(a * x, b * u, s * v); }
      (a * x) * (b * u + s * v) + s * y;
    }
  }

  /** How many numbers below n leave the remainder p. */
  function Uses(n: nat, s: nat, p: nat): nat
    requires s > 0
  {
    if n == 0 then 0 else Uses(n - 1, s, p) + if (n - 1) % s == p then 1 else 0
  }

  lemma NextNumber(n: nat, s: nat)
    requires s > 0
    ensures n % s + 1 < s ==> (n + 1) / s == n / s && (n + 1) % s == n % s + 1
    ensures n % s + 1 == s ==> (n + 1) / s == n / s + 1 && (n + 1) % s == 0
  {
    var q, r := n / s, n % s;
    assert n == s * q + r;
    if r + 1 < s {
      DivMod(s, q, r + 1);
    } else {
      Distribute(s, q, 1);
      DivMod(s, q + 1, 0);
    }
  }

  lemma {:induction false} UsesFormula(n: nat, s: nat, p: nat)
    requires p < s
    ensures Uses(n, s, p) == n / s + if p < n % s then 1 else 0
  {
    if n > 0 {
      UsesFormula(n - 1, s, p);
      NextNumber(n - 1, s);
    } else {
      DivMod(s, 0, 0);
    }
  }

  // ---------- steps of a fixed width around a circle ----------

  /** The highest number reached from t by steps of width d, modulo m. */
  function Top(t: nat, d: nat, m: nat): int
    requires m > 0
  {
    GcdDivides(d, m);
    m - Gcd(d, m) + t % Gcd(d, m)
  }

  lemma GcdDivides(d: nat, m: nat)
    requires m > 0
    ensures CommonDivisor(Gcd(d, m), d, m)
  {
    var g, x, y := Bezout(d, m);
  }

  lemma DividesTimes(s: nat, a: nat, b: nat)
    requires s > 0 && b % s == 0
    ensures (a * b) % s == 0
  {
    var q := b / s;
    assert b == s * q;
    assert a * (s * q) == s * (a * q);
    Multiple(s, a * q);
  }

  lemma AddMultiple(t: int, n: int, g: int)
    requires g > 0 && n % g == 0
    ensures (t + n) % g == t % g
  {
    var q, r, e := t / g, t % g, n / g;
    assert t == g * q + r && n == g * e;
    Distribute(g, q, e);
    DivMod(g, q + e, r);
  }

  /** A step does not change the remainder modulo a divisor of the width and of the circle. */
  lemma SameRemainder(t: nat, k: nat, d: nat, m: nat)
    requires m > 0
    ensures CommonDivisor(Gcd(d, m), d, m) && ((t + k * d) % m) % Gcd(d, m) == t % Gcd(d, m)
  {
    GcdDivides(d, m);
    var g, n := Gcd(d, m), k * d;
    DividesTimes(g, k, d);
    ModOfMod(t + n, m, g);
    AddMultiple(t, n, g);
  }

  lemma NeverAboveTop(t: nat, k: nat, d: nat, m: nat)
    requires m > 0
    ensures (t + k * d) % m <= Top(t, d, m)
  {
    SameRemainder(t, k, d, m);
    var g, x := Gcd(d, m), (t + k * d) % m;
    assert x == g * (x / g) + t % g && m == g * (m / g);
    if x / g > m / g - 1 {
      TimesAtLeast(g, m / g, x / g);
    } else {
      TimesAtLeast(g, x / g, m / g - 1);
      Distribute(g, m / g, 1);
    }
  }

  lemma TimesAtLeast(g: nat, a: int, b: int)
    requires a <= b
    ensures g * a <= g * b
  {
  }

  /** The top is reached, in fewer than m steps. */
  lemma TopIsReached(t: nat, d: nat, m: nat) returns (k: nat)
    requires m > 0
    ensures k < m && (t + k * d) % m == Top(t, d, m) && Top(t, d, m) < m
  {
    var g, x, y := Bezout(d, m);
    var s := Top(t, d, m);
    var e := m / g - 1 - t / g;
    TopDistance(t, g, m);
    k := (e * x) % m;
    var n, q := e * x, (e * x) / m;
    assert n == m * q + k;
    StepsToTop(t, d, m, g, x, y, e, q, k, s);
    DivMod(m, -(e * y + q * d), s);
  }

  lemma TopDistance(t: int, g: int, m: int)
    requires g > 0 && m > 0 && m % g == 0
    ensures m - g + t % g - t == g * (m / g - 1 - t / g)
    ensures 0 <= m - g + t % g < m
  {
    var a, b := m / g, t / g;
    assert m == g * a && t == g * b + t % g;
    assert g * (a - 1 - b) == g * a - g - g * b;
    assert a >= 1;
  }

  lemma StepsToTop(t: int, d: int, m: int, g: int, x: int, y: int, e: int, q: int, k: int, s: int)
    requires d * x + m * y == g && s - t == g * e && e * x == m * q + k
    ensures t + k * d == m * -(e * y + q * d) + s
  {
    calc {
      k * d;
      (e * x - m * q) * d;
      e * (d * x) - m * (q * d);
      e * (g - m * y) - m * (q * d);
      g * e - m * (e * y) - m * (q * d);
      { Distribute(m, e * y, q * d); }
      g * e - m * (e * y + q * d);
    }
  }
}
