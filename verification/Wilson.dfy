/** The Wilson score interval, over the reals; the square root is given as a non-negative witness. */
module Wilson {

  const Z := 1.96

  /** What is under the root: p (1 - p) / n + z^2 / (4 n^2). */
  function Radicand(k: nat, n: nat): real
    requires n > 0
  {
    var p, m := k as real / n as real, n as real;
    p * (1.0 - p) / m + Z * Z / (4.0 * m * m)
  }

  predicate IsRoot(s: real, k: nat, n: nat) {
    n > 0 ==> s >= 0.0 && s * s == Radicand(k, n)
  }

  /** The bounds before they are clamped to [0, 1]. */
  function Raw(k: nat, n: nat, s: real): (real, real)
    requires n > 0
  {
    var p, m := k as real / n as real, n as real;
    var d := 1.0 + Z * Z / m;
    var c := p + Z * Z / (2.0 * m);
    ((c - Z * s) / d, (c + Z * s) / d)
  }

  function Interval(k: nat, n: nat, s: real): (real, real) {
    if n == 0 then (0.0, 1.0)
    else
      var (lo, hi) := Raw(k, n, s);
      (if lo < 0.0 then 0.0 else lo, if hi > 1.0 then 1.0 else hi)
  }

  // ------------------------------------------------ the quadratic, with u = z^2 / n

  lemma Product(x: real, y: real)
    requires x >= 0.0 && y >= 0.0
    ensures x * y >= 0.0
  {
  }

  /** For non-negative m, comparing squares compares values. */
  lemma SquareBound(x: real, m: real)
    requires m >= 0.0 && x * x <= m * m
    ensures -m <= x <= m
  {
    assert (-x) * (-x) == x * x;
    if x > m {
      Strict(x, m);
    } else if x < -m {
      Strict(-x, m);
    }
  }

  lemma Strict(x: real, m: real)
    requires x > m >= 0.0
    ensures x * x > m * m
  {
    assert x * x - m * m == (x - m) * (x + m);
    Grow(0.0, x - m, x + m);
  }

  /** With c = p + u/2, d = 1 + u and m^2 = u p (1 - p) + u^2/4: c^2 - m^2 = d p^2, so m <= c. */
  lemma RootBelowCentre(p: real, u: real, m: real)
    requires 0.0 <= p <= 1.0 && u > 0.0 && m >= 0.0
    requires m * m == u * (p * (1.0 - p)) + u * u / 4.0
    ensures m <= p + u / 2.0
  {
  }

  /** The root is at least as far from the centre as p is: (u/2)^2 (1 - 2p)^2 <= m^2. */
  lemma RootCoversEstimate(p: real, u: real, m: real)
    requires 0.0 <= p <= 1.0 && u > 0.0 && m >= 0.0
    requires m * m == u * (p * (1.0 - p)) + u * u / 4.0
    ensures -m <= u / 2.0 - p * u <= m
  {
    var x, v := u / 2.0 - p * u, p * (1.0 - p);
    assert x * x == u * u / 4.0 - u * u * v by { Expand(u, p); }
    Product(p, 1.0 - p);
    Product(u, v);
    Product(u * u, v);
    SquareBound(x, m);
  }

  lemma Expand(u: real, p: real)
    ensures (u / 2.0 - p * u) * (u / 2.0 - p * u) == u * u / 4.0 - u * u * (p * (1.0 - p))
  {
  }

  // ------------------------------------------------------------- the interval

  /** The quantities of the code in terms of p, u and m. */
  lemma Terms(k: nat, n: nat, s: real) returns (p: real, u: real, m: real)
    requires n > 0 && k <= n && IsRoot(s, k, n)
    ensures p == k as real / n as real && 0.0 <= p <= 1.0 && u == Z * Z / n as real > 0.0
    ensures m == Z * s >= 0.0 && m * m == u * (p * (1.0 - p)) + u * u / 4.0
    ensures Raw(k, n, s) == ((p + u / 2.0 - m) / (1.0 + u), (p + u / 2.0 + m) / (1.0 + u))
  {
    var r := n as real;
    p, u, m := k as real / r, Z * Z / r, Z * s;
    Halves(r);
    assert m * m == Z * Z * (s * s);
    Scaled(p * (1.0 - p), r);
  }

  lemma Halves(r: real)
    requires r > 0.0
    ensures Z * Z / (2.0 * r) == Z * Z / r / 2.0
  {
  }

  lemma Scaled(v: real, r: real)
    requires r > 0.0
    ensures Z * Z * (v / r + Z * Z / (4.0 * r * r)) == Z * Z / r * v + Z * Z / r * (Z * Z / r) / 4.0
  {
  }

  lemma Cancel(x: real, y: real, r: real)
    requires r > 0.0 && r * x == r * y
    ensures x == y
  {
  }

  lemma Grow(x: real, y: real, d: real)
    requires d > 0.0 && x < y
    ensures x * d < y * d
  {
  }

  lemma RawBounds(k: nat, n: nat, s: real)
    requires n > 0 && k <= n && IsRoot(s, k, n)
    ensures var raw := Raw(k, n, s); 0.0 <= raw.0 <= k as real / n as real <= raw.1 <= 1.0
  {
    var p, u, m := Terms(k, n, s);
    BoundsBeforeDivision(p, u, m);
    DividedBounds(p + u / 2.0 - m, p, p + u / 2.0 + m, 1.0 + u);
  }

  /** The interval lies in [0, 1] and contains the estimate k / n, and the clamps never change a bound. */
  lemma IntervalContainsEstimate(k: nat, n: nat, s: real)
    requires n > 0 && k <= n && IsRoot(s, k, n)
    ensures var (lo, hi) := Interval(k, n, s);
            0.0 <= lo <= k as real / n as real <= hi <= 1.0 && (lo, hi) == Raw(k, n, s)
  {
    RawBounds(k, n, s);
  }

  lemma DividedBounds(x: real, p: real, y: real, d: real)
    requires d > 0.0 && 0.0 <= x <= p * d <= y <= d
    ensures 0.0 <= x / d <= p <= y / d <= 1.0
  {
  }

  lemma BoundsBeforeDivision(p: real, u: real, m: real)
    requires 0.0 <= p <= 1.0 && u > 0.0 && m >= 0.0
    requires m * m == u * (p * (1.0 - p)) + u * u / 4.0
    ensures 0.0 <= p + u / 2.0 - m <= p * (1.0 + u) <= p + u / 2.0 + m <= 1.0 + u
  {
    RootBelowCentre(p, u, m);
    RootCoversEstimate(p, u, m);
    assert (1.0 - p) * (1.0 - (1.0 - p)) == p * (1.0 - p);
    RootBelowCentre(1.0 - p, u, m);
    assert p * (1.0 + u) == p + p * u;
  }

  /** Swapping successes and failures reflects the interval. */
  lemma IntervalReflects(k: nat, n: nat, s: real)
    requires n > 0 && k <= n && IsRoot(s, k, n)
    ensures IsRoot(s, n - k, n)
    ensures var (lo, hi) := Interval(k, n, s);
            Interval(n - k, n, s) == (1.0 - hi, 1.0 - lo)
  {
    var r, p := n as real, k as real / n as real;
    Complement(k, n);
    assert (1.0 - p) * (1.0 - (1.0 - p)) == p * (1.0 - p);
    var p', u, m := Terms(k, n, s);
    var q, u', m' := Terms(n - k, n, s);
    IntervalContainsEstimate(k, n, s);
    IntervalContainsEstimate(n - k, n, s);
    Reflect(p + u / 2.0 + m, 1.0 + u);
    Reflect(p + u / 2.0 - m, 1.0 + u);
  }

  lemma Complement(k: nat, n: nat)
    requires n > 0 && k <= n
    ensures (n - k) as real / n as real == 1.0 - k as real / n as real
  {
    var r := n as real;
    assert (n - k) as real == r - k as real;
    Reflect(k as real, r);
  }

  lemma Reflect(x: real, d: real)
    requires d > 0.0
    ensures (d - x) / d == 1.0 - x / d
  {
    var a, b := (d - x) / d, x / d;
    assert d * a == d - x && d * b == x;
    assert d * (1.0 - b) == d - d * b;
    Cancel(a, 1.0 - b, d);
  }

  // ------------------------------------------------------------- the score test

  lemma Square(y: real, c: real)
    ensures (y - c) * (y - c) == y * y - 2.0 * (y * c) + c * c
  {
  }

  /** With c = p + u/2 and d = 1 + u: (d x - c)^2 - m^2 = d ((p - x)^2 - u x (1 - x)). */
  lemma ScoreSquare(p: real, u: real, m: real, x: real)
    requires m * m == u * (p * (1.0 - p)) + u * u / 4.0
    ensures var d := 1.0 + u;
            (d * x - (p + u / 2.0)) * (d * x - (p + u / 2.0)) - m * m ==
            d * ((p - x) * (p - x) - u * (x * (1.0 - x)))
  {
    var d, c := 1.0 + u, p + u / 2.0;
    Square(d * x, c);
    Square(p, x);
    assert c * c == p * p + p * u + u * u / 4.0;
    assert c * c - m * m == d * (p * p);
    assert d * x * c == d * (x * p) + d * (x * u) / 2.0;
    assert d * x * (d * x) == d * (x * x) + d * (u * (x * x));
    assert x * (1.0 - x) == x - x * x;
    Distribute(d, p * p, p * x, x * x, u, x);
  }

  lemma Distribute(d: real, pp: real, px: real, xx: real, u: real, x: real)
    ensures d * (pp - 2.0 * px + xx - u * (x - xx)) == d * pp - 2.0 * (d * px) + d * xx - d * (u * x) + d * (u * xx)
  {
  }

  lemma Undivided(a: real, d: real, x: real)
    requires d > 0.0 && x == a / d
    ensures d * x == a
  {
  }

  lemma WithinRoot(y: real, c: real, m: real)
    requires m >= 0.0
    ensures (y - c) * (y - c) <= m * m <==> c - m <= y <= c + m
  {
    var z := y - c;
    if z * z <= m * m {
      SquareBound(z, m);
    } else if -m <= z <= m {
      Product(m - z, m + z);
      assert (m - z) * (m + z) == m * m - z * z;
    }
  }

  lemma Order(x: real, y: real, d: real)
    requires d > 0.0
    ensures x <= y <==> d * x <= d * y
  {
    if x > y { Grow(y, x, d); } else if x < y { Grow(x, y, d); }
  }

  lemma Between(lo: real, hi: real, c: real, m: real, d: real, x: real, y: real)
    requires d > 0.0 && d * lo == c - m && d * hi == c + m && y == d * x
    ensures lo <= x <= hi <==> c - m <= y <= c + m
  {
    Order(lo, x, d);
    Order(x, hi, d);
  }

  lemma Decide(lo: real, hi: real, c: real, m: real, d: real, x: real, y: real, q: real)
    requires d > 0.0 && m >= 0.0 && d * lo == c - m && d * hi == c + m && y == d * x
    requires (y - c) * (y - c) - m * m == d * q
    ensures lo <= x <= hi <==> q <= 0.0
  {
    Between(lo, hi, c, m, d, x, y);
    WithinRoot(y, c, m);
    Order(q, 0.0, d);
  }

  lemma Score(p: real, u: real, m: real, x: real, y: real, q: real)
    requires m * m == u * (p * (1.0 - p)) + u * u / 4.0
    requires y == (1.0 + u) * x && q == (p - x) * (p - x) - u * (x * (1.0 - x))
    ensures (y - (p + u / 2.0)) * (y - (p + u / 2.0)) - m * m == (1.0 + u) * q
  {
    ScoreSquare(p, u, m, x);
  }

  lemma Sign(p: real, u: real, m: real, x: real, lo: real, hi: real, q: real, c: real, d: real)
    requires m * m == u * (p * (1.0 - p)) + u * u / 4.0 && q == (p - x) * (p - x) - u * (x * (1.0 - x))
    requires d > 0.0 && m >= 0.0 && d * lo == c - m && d * hi == c + m && c == p + u / 2.0 && d == 1.0 + u
    ensures lo <= x <= hi <==> q <= 0.0
  {
    var y := d * x;
    Score(p, u, m, x, y, q);
    Decide(lo, hi, c, m, d, x, y, q);
  }

  lemma BetweenQuotients(p: real, u: real, m: real, x: real, lo: real, hi: real)
    requires u > 0.0 && m >= 0.0 && m * m == u * (p * (1.0 - p)) + u * u / 4.0
    requires lo == (p + u / 2.0 - m) / (1.0 + u) && hi == (p + u / 2.0 + m) / (1.0 + u)
    ensures lo <= x <= hi <==> (p - x) * (p - x) <= u * (x * (1.0 - x))
  {
    Undivided(p + u / 2.0 - m, 1.0 + u, lo);
    Undivided(p + u / 2.0 + m, 1.0 + u, hi);
    Sign(p, u, m, x, lo, hi, (p - x) * (p - x) - u * (x * (1.0 - x)), p + u / 2.0, 1.0 + u);
  }

  /** The rate x is not rejected by k successes in n trials: they lie within 1.96 of its standard errors. */
  predicate NotRejected(k: nat, n: nat, x: real)
    requires n > 0
  {
    (k as real / n as real - x) * (k as real / n as real - x) <= 1.96 * 1.96 / n as real * (x * (1.0 - x))
  }

  lemma InTerms(k: nat, n: nat, x: real, p: real, u: real)
    requires n > 0 && p == k as real / n as real && u == Z * Z / n as real
    ensures NotRejected(k, n, x) <==> (p - x) * (p - x) <= u * (x * (1.0 - x))
  {
  }

  lemma RawIsScoreTest(k: nat, n: nat, s: real, x: real)
    requires n > 0 && k <= n && IsRoot(s, k, n)
    ensures Raw(k, n, s).0 <= x <= Raw(k, n, s).1 <==> NotRejected(k, n, x)
  {
    var p, u, m := Terms(k, n, s);
    BetweenQuotients(p, u, m, x, Raw(k, n, s).0, Raw(k, n, s).1);
    InTerms(k, n, x, p, u);
  }

  /** The interval is that of the score test: it holds exactly the rates that are not rejected. */
  lemma IntervalIsScoreTest(k: nat, n: nat, s: real, x: real)
    requires n > 0 && k <= n && IsRoot(s, k, n)
    ensures var (lo, hi) := Interval(k, n, s); lo <= x <= hi <==> NotRejected(k, n, x)
  {
    IntervalContainsEstimate(k, n, s);
    RawIsScoreTest(k, n, s, x);
  }

  /** Without trials no rate is excluded. */
  lemma NoTrials(s: real, x: real)
    ensures var (lo, hi) := Interval(0, 0, s); lo <= x <= hi <==> 0.0 <= x <= 1.0
  {
  }
}
