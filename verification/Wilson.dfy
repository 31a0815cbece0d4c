/** The Wilson score interval over exact reals. The square root is any real `r`
    with the square it must have. */
module Wilson {
  /** Successes out of a total, and the normal quantile of the confidence level. */
  datatype Sample = Sample(successes: nat, total: nat, z: real)

  predicate SampleOk(s: Sample) { 0 < s.total && s.successes <= s.total && s.z > 0.0 }

  function Times(a: real, b: real): real { a * b }

  function Square(a: real): real { Times(a, a) }

  function Variance(q: real): real { Times(q, 1.0 - q) }

  // ------------------------------------- the source's formulas, over p, n and z

  function Weight(z: real, n: real): real
    requires n > 0.0
  {
    Square(z) / n
  }

  function Denominator(z: real, n: real): (d: real)
    requires n > 0.0 && z > 0.0
    ensures d > 1.0
  {
    WeightPositive(z, n);
    1.0 + Weight(z, n)
  }

  function Centre(p: real, z: real, n: real): real
    requires n > 0.0 && z > 0.0
  {
    (p + Square(z) / (2.0 * n)) / Denominator(z, n)
  }

  /** What the square root is taken of. */
  function Radicand(p: real, z: real, n: real): real
    requires n > 0.0
  {
    SquareSign(n);
    Variance(p) / n + Square(z) / (4.0 * Square(n))
  }

  function Margin(z: real, n: real, r: real): real
    requires n > 0.0 && z > 0.0
  {
    z * r / Denominator(z, n)
  }

  function Max(x: real, y: real): real { if x >= y then x else y }

  function Min(x: real, y: real): real { if x <= y then x else y }

  function Proportion(s: Sample): real
    requires SampleOk(s)
  {
    s.successes as real / s.total as real
  }

  predicate RootOk(s: Sample, r: real)
    requires SampleOk(s)
  {
    r >= 0.0 && Square(r) == Radicand(Proportion(s), s.z, s.total as real)
  }

  function Low(s: Sample, r: real): real
    requires SampleOk(s)
  {
    Centre(Proportion(s), s.z, s.total as real) - Margin(s.z, s.total as real, r)
  }

  function High(s: Sample, r: real): real
    requires SampleOk(s)
  {
    Centre(Proportion(s), s.z, s.total as real) + Margin(s.z, s.total as real, r)
  }

  /** The interval the source returns, clamps included. */
  function WilsonInterval(s: Sample, r: real): (real, real)
    requires SampleOk(s)
  {
    (Max(0.0, Low(s, r)), Min(1.0, High(s, r)))
  }

  // ------------------------------------------------------------- arithmetic

  lemma Positive(a: real, b: real)
    requires a > 0.0 && b > 0.0
    ensures Times(a, b) > 0.0
  {
  }

  lemma Negative(a: real, b: real)
    requires a > 0.0 && b < 0.0
    ensures Times(a, b) < 0.0
  {
  }

  lemma NonNegative(a: real, b: real)
    requires a >= 0.0 && b >= 0.0
    ensures Times(a, b) >= 0.0
  {
  }

  lemma SquareSign(a: real)
    ensures Square(a) >= 0.0 && (Square(a) == 0.0 <==> a == 0.0)
  {
    if a > 0.0 {
      Positive(a, a);
    } else if a < 0.0 {
      Positive(-a, -a);
      assert Times(-a, -a) == Times(a, a);
    }
  }

  lemma DivUnique(a: real, b: real, y: real)
    requires b != 0.0 && y * b == a
    ensures a / b == y
  {
  }

  lemma Quotient(a: real, n: real)
    requires a >= 0.0 && n > 0.0
    ensures a / n >= 0.0 && (a > 0.0 ==> a / n > 0.0)
  {
    var x := a / n;
    assert x * n == a;
    if x < 0.0 { Negative(n, x); }
  }

  lemma WeightPositive(z: real, n: real)
    requires n > 0.0 && z > 0.0
    ensures Weight(z, n) > 0.0
  {
    SquareSign(z);
    Quotient(Square(z), n);
  }

  lemma SquareOrder(x: real, t: real)
    requires t >= 0.0
    ensures Square(x) <= Square(t) <==> -t <= x <= t
  {
    var a, b := x - t, x + t;
    assert Square(x) - Square(t) == Times(a, b);
    if x > t {
      Positive(a, b);
    } else if x < -t {
      Positive(-a, -b);
      assert Times(-a, -b) == Times(a, b);
    } else {
      NonNegative(-a, b);
      assert Times(-a, b) == -Times(a, b);
    }
  }

  lemma Scale(d: real, x: real)
    requires d > 0.0
    ensures Times(d, x) <= 0.0 <==> x <= 0.0
  {
    if x > 0.0 {
      Positive(d, x);
    } else {
      NonNegative(d, -x);
      assert Times(d, -x) == -Times(d, x);
    }
  }

  // ------------------------------------------------- the score-test quadratic

  /** `q` is not rejected by the score test at weight `w` when `p` is observed. */
  predicate Accepts(p: real, w: real, q: real) { Square(q - p) <= Times(w, Variance(q)) }

  predicate HalfWidth(p: real, w: real, t: real) {
    t >= 0.0 && Square(t) == Times(w, Variance(p)) + Square(w) / 4.0
  }

  lemma Expand(a: real, b: real)
    ensures (a - b) * (a - b) == a * a - 2.0 * (a * b) + b * b
  {
  }

  /** Completing the square: the distance of `(1 + w)·q` from `p + w/2`, against `t`. */
  lemma Completed(p: real, w: real, t: real, q: real)
    requires t * t == w * (p * (1.0 - p)) + w * w / 4.0
    ensures var d, x := 1.0 + w, (1.0 + w) * q - (p + w / 2.0);
            x * x - t * t == d * ((q - p) * (q - p) - w * (q * (1.0 - q)))
  {
    var d, c := 1.0 + w, p + w / 2.0;
    var x := d * q - c;
    Expand(d * q, c);
    Expand(q, p);
    assert c * c - t * t == d * (p * p);
    assert (d * q) * (d * q) == d * (d * (q * q));
    assert (d * q) * c == d * (q * c);
    assert d * (q * q) - 2.0 * (q * c) + p * p == (q - p) * (q - p) - w * (q * (1.0 - q));
    assert x * x - t * t == d * (d * (q * q)) - 2.0 * (d * (q * c)) + d * (p * p);
    assert d * (d * (q * q) - 2.0 * (q * c) + p * p) == d * (d * (q * q)) - 2.0 * (d * (q * c)) + d * (p * p);
  }

  /** Differences of squares, wrapped. */
  lemma Distance(d: real, x: real, t: real, u: real)
    requires x * x - t * t == d * u
    ensures Square(x) - Square(t) == Times(d, u)
  {
  }

  lemma Signs(d: real, x: real, t: real, u: real)
    requires d > 0.0 && t >= 0.0 && x * x - t * t == d * u
    ensures u <= 0.0 <==> -t <= x <= t
  {
    Distance(d, x, t, u);
    SquareOrder(x, t);
    Scale(d, u);
  }

  /** How far `q` is from being accepted. */
  function Excess(p: real, w: real, q: real): real { (q - p) * (q - p) - w * (q * (1.0 - q)) }

  lemma AcceptsByExcess(p: real, w: real, q: real)
    ensures Accepts(p, w, q) <==> Excess(p, w, q) <= 0.0
  {
  }

  lemma HalfWidthRaw(p: real, w: real, t: real)
    requires HalfWidth(p, w, t)
    ensures t * t == w * (p * (1.0 - p)) + w * w / 4.0
  {
  }

  lemma ExcessTest(p: real, w: real, t: real, q: real)
    requires w > 0.0 && HalfWidth(p, w, t)
    ensures Excess(p, w, q) <= 0.0 <==> -t <= (1.0 + w) * q - (p + w / 2.0) <= t
  {
    HalfWidthRaw(p, w, t);
    Completed(p, w, t, q);
    Signs(1.0 + w, (1.0 + w) * q - (p + w / 2.0), t, Excess(p, w, q));
  }

  /** Bounds times the denominator. */
  lemma Between(d: real, c: real, m: real, c0: real, t: real, q: real)
    requires d > 0.0 && c * d == c0 && m * d == t
    ensures c - m <= q <= c + m <==> -t <= d * q - c0 <= t
  {
    var x, y := c - m - q, q - (c + m);
    assert Times(d, x) == c0 - t - d * q && Times(d, y) == d * q - c0 - t;
    Scale(d, x);
    Scale(d, y);
  }

  // ------------------------------------------------------------ the root term

  lemma Halved(a: real, n: real)
    requires n > 0.0
    ensures a / (2.0 * n) == a / n / 2.0
  {
    assert a / n * n == a;
    DivUnique(a, 2.0 * n, a / n / 2.0);
  }

  lemma Quartered(a: real, n: real)
    requires n > 0.0
    ensures Square(n) > 0.0 && a / (4.0 * Square(n)) == a / n / n / 4.0
  {
    SquareSign(n);
    var x := a / n;
    var y := x / n;
    assert x * n == a && y * n == x;
    assert y * Square(n) == a;
    DivUnique(a, 4.0 * Square(n), y / 4.0);
  }

  lemma Exchange(a: real, x: real, n: real, w: real, v: real)
    requires w * n == a && x * n == v
    ensures a * x == w * v
  {
    assert a * x == (w * n) * x == w * (n * x);
  }

  lemma Share(a: real, x: real, y: real)
    ensures a * (x + y / 4.0) == a * x + a * y / 4.0
  {
  }

  lemma Distribute(a: real, v: real, n: real, w: real)
    requires n > 0.0 && w == a / n
    ensures a * (v / n + w / n / 4.0) == w * v + w * w / 4.0
  {
    var x, y := v / n, w / n;
    Share(a, x, y);
    assert a * x == w * v by { Exchange(a, x, n, w, v); }
    assert a * y == w * w by { Exchange(a, y, n, w, w); }
  }

  lemma SquareOfProduct(a: real, b: real, bb: real)
    requires b * b == bb
    ensures (a * b) * (a * b) == (a * a) * bb
  {
    assert (a * b) * (a * b) == (a * a) * (b * b);
  }

  lemma RootOf(z: real, n: real, v: real, r: real, w: real)
    requires n > 0.0 && w == z * z / n && r * r == v / n + w / n / 4.0
    ensures (z * r) * (z * r) == w * v + w * w / 4.0
  {
    SquareOfProduct(z, r, v / n + w / n / 4.0);
    Distribute(z * z, v, n, w);
  }

  lemma RootSquared(z: real, n: real, v: real, r: real, t: real)
    requires n > 0.0 && Square(n) > 0.0 && t == z * r && Square(r) == v / n + Square(z) / (4.0 * Square(n))
    ensures Square(t) == Times(Weight(z, n), v) + Square(Weight(z, n)) / 4.0
  {
    Quartered(Square(z), n);
    RootOf(z, n, v, r, Weight(z, n));
  }

  lemma Root(p: real, z: real, n: real, r: real, t: real)
    requires z > 0.0 && n > 0.0 && r >= 0.0 && Square(r) == Radicand(p, z, n) && t == z * r
    ensures HalfWidth(p, Weight(z, n), t)
  {
    SquareSign(n);
    NonNegative(z, r);
    RootSquared(z, n, Variance(p), r, t);
  }

  // ------------------------------------------------------------ the interval

  lemma Ends(p: real, z: real, n: real, r: real)
    requires z > 0.0 && n > 0.0
    ensures Times(Centre(p, z, n), 1.0 + Weight(z, n)) == p + Weight(z, n) / 2.0
    ensures Times(Margin(z, n, r), 1.0 + Weight(z, n)) == Times(z, r)
  {
    Halved(Square(z), n);
  }

  lemma RootTest(p: real, z: real, n: real, r: real, q: real)
    requires z > 0.0 && n > 0.0 && r >= 0.0 && Square(r) == Radicand(p, z, n)
    ensures Excess(p, Weight(z, n), q) <= 0.0 <==>
            -Times(z, r) <= Times(1.0 + Weight(z, n), q) - (p + Weight(z, n) / 2.0) <= Times(z, r)
  {
    WeightPositive(z, n);
    Root(p, z, n, r, z * r);
    ExcessTest(p, Weight(z, n), z * r, q);
  }

  lemma Bounds(accepted: bool, d: real, c: real, m: real, c0: real, t: real, q: real)
    requires d > 0.0 && Times(c, d) == c0 && Times(m, d) == t && (accepted <==> -t <= Times(d, q) - c0 <= t)
    ensures c - m <= q <= c + m <==> accepted
  {
    Between(d, c, m, c0, t, q);
  }

  lemma ExcessInterval(p: real, z: real, n: real, r: real, q: real)
    requires z > 0.0 && n > 0.0 && r >= 0.0 && Square(r) == Radicand(p, z, n)
    ensures Centre(p, z, n) - Margin(z, n, r) <= q <= Centre(p, z, n) + Margin(z, n, r) <==>
            Excess(p, Weight(z, n), q) <= 0.0
  {
    RootTest(p, z, n, r, q);
    Ends(p, z, n, r);
    WeightPositive(z, n);
    Bounds(Excess(p, Weight(z, n), q) <= 0.0, 1.0 + Weight(z, n), Centre(p, z, n), Margin(z, n, r),
           p + Weight(z, n) / 2.0, Times(z, r), q);
  }

  /** The interval is exactly the set of proportions the score test does not reject. */
  lemma IntervalIsScoreTest(s: Sample, r: real, q: real)
    requires SampleOk(s) && RootOk(s, r)
    ensures Low(s, r) <= q <= High(s, r) <==> Accepts(Proportion(s), Weight(s.z, s.total as real), q)
  {
    ExcessInterval(Proportion(s), s.z, s.total as real, r, q);
    AcceptsByExcess(Proportion(s), Weight(s.z, s.total as real), q);
  }

  lemma Ratio(k: real, n: real)
    requires 0.0 <= k <= n && n > 0.0
    ensures 0.0 <= k / n <= 1.0 && (k / n == 0.0 <==> k == 0.0) && (k / n == 1.0 <==> k == n)
  {
    var p := k / n;
    assert p * n == k;
    Quotient(k, n);
    assert Times(n, p - 1.0) == k - n;
    if p > 1.0 { Positive(n, p - 1.0); }
  }

  lemma Spread(w: real, q: real)
    requires w > 0.0
    ensures q < 0.0 || q > 1.0 ==> Times(w, Variance(q)) < 0.0
    ensures q == 0.0 || q == 1.0 ==> Times(w, Variance(q)) == 0.0
    ensures 0.0 <= q <= 1.0 ==> Times(w, Variance(q)) >= 0.0
  {
    var v := Variance(q);
    if q < 0.0 {
      Negative(1.0 - q, q);
      assert Times(1.0 - q, q) == v;
      Negative(w, v);
    } else if q > 1.0 {
      Negative(q, 1.0 - q);
      Negative(w, v);
    } else {
      NonNegative(q, 1.0 - q);
      NonNegative(w, v);
    }
  }

  /** No proportion outside [0, 1] passes the score test, and an edge only when it
      was observed. */
  lemma AcceptsInside(p: real, w: real, q: real)
    requires w > 0.0 && 0.0 <= p <= 1.0 && Accepts(p, w, q)
    ensures 0.0 <= q <= 1.0
    ensures (q == 0.0 ==> p == 0.0) && (q == 1.0 ==> p == 1.0)
  {
    SquareSign(q - p);
    Spread(w, q);
  }

  lemma AcceptsObserved(p: real, w: real)
    requires w > 0.0 && 0.0 <= p <= 1.0
    ensures Accepts(p, w, p)
  {
    SquareSign(p - p);
    Spread(w, p);
  }

  lemma MarginSign(z: real, n: real, r: real)
    requires z > 0.0 && n > 0.0 && r >= 0.0
    ensures Margin(z, n, r) >= 0.0
  {
    NonNegative(z, r);
    Quotient(z * r, Denominator(z, n));
  }

  lemma EndsInside(s: Sample, r: real)
    requires SampleOk(s) && RootOk(s, r)
    ensures 0.0 <= Low(s, r) <= Proportion(s) <= High(s, r) <= 1.0
    ensures Low(s, r) == 0.0 ==> Proportion(s) == 0.0
    ensures High(s, r) == 1.0 ==> Proportion(s) == 1.0
  {
    var p, w := Proportion(s), Weight(s.z, s.total as real);
    WeightPositive(s.z, s.total as real);
    Ratio(s.successes as real, s.total as real);
    MarginSign(s.z, s.total as real, r);
    IntervalIsScoreTest(s, r, Low(s, r));
    IntervalIsScoreTest(s, r, High(s, r));
    IntervalIsScoreTest(s, r, p);
    AcceptsInside(p, w, Low(s, r));
    AcceptsInside(p, w, High(s, r));
    AcceptsObserved(p, w);
  }

  /** The interval contains the observed proportion and lies inside [0, 1], so both
      clamps are no-ops; it touches an edge exactly when the edge was observed. */
  lemma ClampsAreNoOps(s: Sample, r: real)
    requires SampleOk(s) && RootOk(s, r)
    ensures WilsonInterval(s, r) == (Low(s, r), High(s, r))
    ensures 0.0 <= Low(s, r) <= Proportion(s) <= High(s, r) <= 1.0
    ensures (Low(s, r) == 0.0 <==> s.successes == 0) && (High(s, r) == 1.0 <==> s.successes == s.total)
  {
    EndsInside(s, r);
    Ratio(s.successes as real, s.total as real);
  }

  // ------------------------------------------------------------- reflection

  lemma Complement(k: real, n: real)
    requires n > 0.0
    ensures (n - k) / n == 1.0 - k / n
  {
    assert k / n * n == k;
    DivUnique(n - k, n, 1.0 - k / n);
  }

  lemma SwappedVariance(p: real)
    ensures Variance(1.0 - p) == Variance(p)
  {
  }

  lemma SameRadicand(p: real, z: real, n: real)
    requires n > 0.0
    ensures Radicand(1.0 - p, z, n) == Radicand(p, z, n)
  {
    SwappedVariance(p);
  }

  lemma CentresMirror(p: real, z: real, n: real)
    requires z > 0.0 && n > 0.0
    ensures Centre(1.0 - p, z, n) == 1.0 - Centre(p, z, n)
  {
    var h := Square(z) / (2.0 * n);
    Halved(Square(z), n);
    Complement(p + h, Denominator(z, n));
  }

  /** Counting failures instead of successes reflects the interval. */
  lemma Reflected(s: Sample, r: real)
    requires SampleOk(s) && RootOk(s, r)
    ensures var f := s.(successes := s.total - s.successes);
            && SampleOk(f) && RootOk(f, r)
            && WilsonInterval(f, r) == (1.0 - WilsonInterval(s, r).1, 1.0 - WilsonInterval(s, r).0)
  {
    var f := s.(successes := s.total - s.successes);
    var p, n := Proportion(s), s.total as real;
    Complement(s.successes as real, n);
    assert Proportion(f) == 1.0 - p;
    SameRadicand(p, s.z, n);
    CentresMirror(p, s.z, n);
    ClampsAreNoOps(s, r);
    ClampsAreNoOps(f, r);
  }
}
