/** Division with remainder, greatest common divisors. */
module NumberTheory {

  lemma MulAtLeast(t: int, d: int)
    requires t >= 1 && d > 0
    ensures t * d >= d
  {
    assert t * d == d + (t - 1) * d;
    MulNonNegative(t - 1, d);
  }

  lemma MulNonNegative(t: int, d: int)
    requires t >= 0 && d >= 0
    ensures t * d >= 0
  {
  }

  /** Quotient and remainder are unique. */
  lemma DivModUnique(x: int, d: int, q: int, r: int)
    requires d > 0 && x == q * d + r && 0 <= r < d
    ensures x / d == q && x % d == r
  {
    var t := x / d - q;
    assert x == (x / d) * d + x % d;
    assert t * d == r - x % d by {
      assert t * d == (x / d) * d - q * d;
    }
    if t >= 1 {
      MulAtLeast(t, d);
    } else if t <= -1 {
      MulAtLeast(-t, d);
    }
  }

  lemma ModAddMultiple(x: int, t: int, d: int)
    requires d > 0
    ensures (x + t * d) % d == x % d
  {
    assert x + t * d == (x / d + t) * d + x % d by {
      assert x == (x / d) * d + x % d;
      assert (x / d + t) * d == (x / d) * d + t * d;
    }
    DivModUnique(x + t * d, d, x / d + t, x % d);
  }

  /** Euclid's algorithm as the loop of `gcd` performs it. */
  function Gcd(a: nat, b: nat): (g: nat)
    requires b > 0
    ensures g > 0
    decreases b
  {
    if a % b == 0 then b else Gcd(b, a % b)
  }

  ghost predicate Divides(d: int, x: int) {
    exists k: int :: x == k * d
  }

  lemma DividesSum(d: int, x: int, y: int, t: int)
    requires Divides(d, x) && Divides(d, y)
    ensures Divides(d, x + t * y)
  {
    var k :| x == k * d;
    var l :| y == l * d;
    assert x + t * y == (k + t * l) * d by {
      assert (k + t * l) * d == k * d + (t * l) * d;
      assert (t * l) * d == t * (l * d);
    }
  }

  lemma BezoutStep(a: int, b: int, q: int, r: int, x: int, y: int, g: int)
    requires a == r + q * b && x * b + y * r == g
    ensures y * a + (x - y * q) * b == g
  {
    assert (x - y * q) * b == x * b - (y * q) * b;
    assert (y * q) * b == y * (q * b);
    assert y * a == y * r + y * (q * b);
  }

  /** The result divides both numbers and is a combination of them. */
  lemma {:induction false} Bezout(a: nat, b: nat) returns (x: int, y: int)
    requires b > 0
    ensures x * a + y * b == Gcd(a, b)
    ensures Divides(Gcd(a, b), a) && Divides(Gcd(a, b), b)
    decreases b
  {
    var q, r := a / b, a % b;
    assert a == r + q * b;
    if r == 0 {
      x, y := 0, 1;
      assert b == 1 * b && a == q * b;
    } else {
      var x', y' := Bezout(b, r);
      BezoutStep(a, b, q, r, x', y', Gcd(a, b));
      x, y := y', x' - y' * q;
      DividesSum(Gcd(a, b), r, b, q);
    }
  }

  /** Every common divisor divides the greatest. */
  lemma GcdGreatest(a: nat, b: nat, d: int)
    requires b > 0 && Divides(d, a) && Divides(d, b)
    ensures Divides(d, Gcd(a, b))
  {
    var x, y := Bezout(a, b);
    assert Divides(d, 0) by {
      assert 0 == 0 * d;
    }
    DividesSum(d, 0, a, x);
    DividesSum(d, x * a, b, y);
  }

  lemma MulAssoc(x: int, y: int, z: int)
    ensures (x * y) * z == x * (y * z)
  {
  }

  lemma MulCancel(p: int, q: int, d: int)
    requires d > 0 && p * d == q * d
    ensures p == q
  {
    assert (p - q) * d == 0;
    if p > q {
      MulAtLeast(p - q, d);
    } else if q > p {
      MulAtLeast(q - p, d);
    }
  }

  /** Numbers that differ by steps of `b` and turns of `n`, both multiples of `g`,
      agree modulo `g`. */
  lemma SameClass(c: int, k: int, b: int, q: int, n: int, p: int, l: int, len: int, g: int)
    requires g > 0 && b == l * g && n == len * g && c + k * b == q * n + p
    ensures p % g == c % g
  {
    MulAssoc(k, l, g);
    MulAssoc(q, len, g);
    var t := k * l - q * len;
    assert t * g == (k * l) * g - (q * len) * g;
    ModAddMultiple(c, t, g);
  }

  lemma StepClass(c: int, k: int, b: int, n: int, l: int, len: int, g: int)
    requires g > 0 && n > 0 && b == l * g && n == len * g
    ensures ((c + k * b) % n) % g == c % g
  {
    var x := c + k * b;
    DivMod(x, n);
    SameClass(c, k, b, x / n, n, x % n, l, len, g);
  }

  /** Both numbers as multiples of their greatest common divisor. */
  lemma Factors(a: nat, b: nat) returns (k: int, l: int)
    requires b > 0
    ensures a == k * Gcd(a, b) && b == l * Gcd(a, b)
  {
    var _, _ := Bezout(a, b);
    k :| a == k * Gcd(a, b);
    l :| b == l * Gcd(a, b);
  }

  lemma SumFactor(a: int, b: int, k: int, l: int, g: int)
    requires a == k * g && b == l * g
    ensures a + b == (k + l) * g
  {
  }

  lemma ExactDivision(n: int, k: int, g: int)
    requires n > 0 && g > 0 && n == k * g
    ensures n / g == k && k > 0 && g * k == n
  {
    DivModUnique(n, g, k, 0);
    if k <= 0 {
      MulNonNegative(0 - k, g);
    }
  }

  /** A combination of `a` and `b` is one of `a + b` and `b`, also when scaled. */
  lemma Scaled(t: int, a: int, b: int, x: int, y: int, g: int)
    requires x * a + y * b == g
    ensures t * g == (t * x) * (a + b) + (t * (y - x)) * b
  {
    var n := a + b;
    assert g == x * n + (y - x) * b by {
      assert x * n == x * a + x * b;
      assert (y - x) * b == y * b - x * b;
    }
    assert t * g == t * (x * n) + t * ((y - x) * b);
    MulAssoc(t, x, n);
    MulAssoc(t, y - x, b);
  }

  /** Full cycles of steps are turns. */
  lemma StepsToTurns(steps: int, h: int, k: int, l: int, b: int, n: int, len: int, g: int)
    requires steps == h * len + k && b == l * g && n == len * g
    ensures steps * b == k * b + (h * l) * n
  {
    assert steps * b == (h * len) * b + k * b;
    assert len * b == l * n by {
      MulAssoc(len, l, g);
      MulAssoc(l, len, g);
    }
    MulAssoc(h, len, b);
    MulAssoc(h, l, n);
  }

  /** If `k` steps of `b` make a whole number of turns of `a + b`, then `k` is a
      multiple of the cycle length. */
  lemma WholeTurns(k: int, m: int, a: int, b: int, x: int, y: int, g: int, len: int) returns (z: int)
    requires g > 0 && x * a + y * b == g && a + b == len * g && k * b == m * (a + b)
    ensures k == z * len
  {
    var n := a + b;
    z := k * x + (y - x) * m;
    Scaled(k, a, b, x, y, g);
    assert (k * (y - x)) * b == ((y - x) * m) * n by {
      MulAssoc(y - x, k, b);
      MulAssoc(y - x, m, n);
    }
    assert z * n == (k * x) * n + ((y - x) * m) * n;
    MulAssoc(z, len, g);
    MulCancel(k, z * len, g);
  }

  lemma DivMod(x: int, d: int)
    requires d > 0
    ensures x == (x / d) * d + x % d && 0 <= x % d < d
  {
  }

  lemma SameRemainder(p: int, c: int, g: int)
    requires g > 0 && p % g == c % g
    ensures p - c == (p / g - c / g) * g
  {
    DivMod(p, g);
    DivMod(c, g);
    assert (p / g - c / g) * g == (p / g) * g - (c / g) * g;
  }

  /** Numbers that differ by a multiple of `g` are a number of steps of `b` and turns
      of `a + b` apart. */
  lemma StepsBetween(c: int, p: int, t: int, a: int, b: int, x: int, y: int, l: int, len: int, g: int)
    returns (k: nat, turns: int)
    requires p - c == t * g && x * a + y * b == g && b == l * g && a + b == len * g && len > 0
    ensures k < len && c + k * b == turns * (a + b) + p
  {
    var steps, n := t * (y - x), a + b;
    var h := steps / len;
    k := steps % len;
    DivMod(steps, len);
    Scaled(t, a, b, x, y, g);
    StepsToTurns(steps, h, k, l, b, n, len, g);
    turns := -(t * x) - h * l;
    MulSub(-(t * x), h * l, n);
    MulNeg(t * x, n);
  }

  lemma MulSub(u: int, v: int, n: int)
    ensures (u - v) * n == u * n - v * n
  {
  }

  lemma MulNeg(u: int, n: int)
    ensures (-u) * n == -(u * n)
  {
  }

  /** A full cycle of steps of `b` ends where it began. */
  lemma CycleCloses(c: int, len: int, b: int, l: int, n: int, g: int)
    requires 0 <= c < n && b == l * g && n == len * g
    ensures (c + len * b) % n == c
  {
    assert len * b == l * n by {
      MulAssoc(len, l, g);
      MulAssoc(l, len, g);
    }
    DivModUnique(c + len * b, n, l, c);
  }

  /** Less than a cycle of steps leads from one number to any other of its class. */
  lemma CycleReaches(c: int, p: int, a: int, b: int, x: int, y: int, l: int, len: int, g: int) returns (k: nat)
    requires g > 0 && len > 0 && x * a + y * b == g && b == l * g && a + b == len * g
    requires 0 <= p < a + b && p % g == c % g
    ensures k < len && (c + k * b) % (a + b) == p
  {
    SameRemainder(p, c, g);
    var turns;
    k, turns := StepsBetween(c, p, p / g - c / g, a, b, x, y, l, len, g);
    DivModUnique(c + k * b, a + b, turns, p);
  }
}
