/** Rolling Pearson correlation from prefix sums. */
module RollingCorr {

  import opened Basics
  import opened Cells

  /** sqrt behaves as the square root at x. */
  predicate SqrtAt(sqrt: real -> real, x: real) {
    x >= 0.0 ==> sqrt(x) >= 0.0 && sqrt(x) * sqrt(x) == x
  }

  ghost predicate IsSqrt(sqrt: real -> real) {
    forall x :: SqrtAt(sqrt, x)
  }

  // ---------------------------------------------------------------- what the correlation means

  /** The sums over the complete pairs of a window. */
  datatype Moments = Moments(n: real, a: real, b: real, aa: real, ab: real, bb: real)

  const NO_PAIRS := Moments(0.0, 0.0, 0.0, 0.0, 0.0, 0.0)

  function Cov(m: Moments): real { m.ab * m.n - m.a * m.b }
  function VarA(m: Moments): real { m.aa * m.n - m.a * m.a }
  function VarB(m: Moments): real { m.bb * m.n - m.b * m.b }

  function AddPair(m: Moments, x: Cell, y: Cell): Moments {
    if x.Val? && y.Val? then
      Moments(m.n + 1.0, m.a + x.v, m.b + y.v, m.aa + x.v * x.v, m.ab + x.v * y.v, m.bb + y.v * y.v)
    else m
  }

  function MomentsOf(wa: seq<Cell>, wb: seq<Cell>): Moments
    requires |wa| == |wb|
  {
    if wa == [] then NO_PAIRS
    else AddPair(MomentsOf(wa[..|wa| - 1], wb[..|wb| - 1]), wa[|wa| - 1], wb[|wb| - 1])
  }

  function MaxReal(x: real, y: real): real {
    if x >= y then x else y
  }

  /** The product under the root, each variance clamped at zero. */
  function ClampedProduct(m: Moments): real {
    MaxReal(VarA(m), 0.0) * MaxReal(VarB(m), 0.0)
  }

  /** The formula of `_corr_from_ends` on one window's sums. */
  function CorrFromMoments(sqrt: real -> real, m: Moments): Cell {
    var denom := sqrt(ClampedProduct(m));
    if m.n >= 2.0 && denom > 0.0 then Val(Cov(m) / denom) else Missing
  }

  function CorrAt(sqrt: real -> real, a: seq<Cell>, b: seq<Cell>, window: int, t: nat): Cell
    requires |a| == |b| && t < |a|
  {
    if window <= 1 || t < window - 1 then Missing
    else CorrFromMoments(sqrt, MomentsOf(a[t - window + 1..t + 1], b[t - window + 1..t + 1]))
  }

  // ---------------------------------------------------------------- Cauchy-Schwarz

  /** Sum of (s * a + t * b - x) squared over the pairs, expanded into the moments. */
  function Spread(m: Moments, s: real, t: real, x: real): real {
    s * s * m.aa + 2.0 * s * t * m.ab + t * t * m.bb - 2.0 * x * (s * m.a + t * m.b) + m.n * x * x
  }

  lemma SpreadAdd(m: Moments, p: real, q: real, s: real, t: real, x: real)
    ensures Spread(AddPair(m, Val(p), Val(q)), s, t, x)
         == Spread(m, s, t, x) + (s * p + t * q - x) * (s * p + t * q - x)
  {
    var u := s * p + t * q;
    assert s * s * (m.aa + p * p) == s * s * m.aa + (s * p) * (s * p);
    assert t * t * (m.bb + q * q) == t * t * m.bb + (t * q) * (t * q);
    assert 2.0 * s * t * (m.ab + p * q) == 2.0 * s * t * m.ab + 2.0 * (s * p) * (t * q);
    assert u * u == (s * p) * (s * p) + 2.0 * (s * p) * (t * q) + (t * q) * (t * q);
    assert s * (m.a + p) + t * (m.b + q) == s * m.a + t * m.b + u;
    assert 2.0 * x * (s * m.a + t * m.b + u) == 2.0 * x * (s * m.a + t * m.b) + 2.0 * x * u;
    assert (m.n + 1.0) * x * x == m.n * x * x + x * x;
    assert (u - x) * (u - x) == u * u - 2.0 * x * u + x * x;
  }

  lemma SquareNonNegative(x: real)
    ensures x * x >= 0.0
  {
  }

  lemma SpreadOfNone(s: real, t: real, x: real)
    ensures Spread(NO_PAIRS, s, t, x) == 0.0
  {
  }

  lemma SpreadGrows(m: Moments, p: Cell, q: Cell, s: real, t: real, x: real)
    ensures Spread(AddPair(m, p, q), s, t, x) >= Spread(m, s, t, x)
  {
    hide Spread;
    if p.Val? && q.Val? {
      SpreadAdd(m, p.v, q.v, s, t, x);
      SquareNonNegative(s * p.v + t * q.v - x);
    }
  }

  lemma {:induction false} SpreadNonNegative(wa: seq<Cell>, wb: seq<Cell>, s: real, t: real, x: real)
    requires |wa| == |wb|
    ensures Spread(MomentsOf(wa, wb), s, t, x) >= 0.0
  {
    hide Spread, AddPair;
    if wa == [] {
      SpreadOfNone(s, t, x);
    } else {
      var fa, fb := wa[..|wa| - 1], wb[..|wb| - 1];
      SpreadNonNegative(fa, fb, s, t, x);
      SpreadGrows(MomentsOf(fa, fb), wa[|wa| - 1], wb[|wb| - 1], s, t, x);
    }
  }

  lemma {:induction false} CountNonNegative(wa: seq<Cell>, wb: seq<Cell>)
    requires |wa| == |wb|
    ensures var m := MomentsOf(wa, wb);
      m.n >= 0.0 && (m.n == 0.0 ==> m == NO_PAIRS) && (m.n > 0.0 ==> m.n >= 1.0)
  {
    if wa != [] {
      CountNonNegative(wa[..|wa| - 1], wb[..|wb| - 1]);
    }
  }

  /** The quadratic form of the scaled variances and covariance. */
  function Form(va: real, cov: real, vb: real, s: real, t: real): real {
    s * s * va + 2.0 * s * t * cov + t * t * vb
  }

  lemma CompleteSquare(n: real, square: real, u: real, x: real)
    requires n * x == u
    ensures n * (square - 2.0 * x * u + n * x * x) == n * square - u * u
  {
    assert n * (2.0 * x * u) == 2.0 * (n * x) * u;
    assert n * (n * x * x) == (n * x) * (n * x);
  }

  lemma ScaledTerm(n: real, k: real, sum: real, product: real)
    ensures k * (n * sum - product) == n * (k * sum) - k * product
  {
  }

  lemma SquareOfSum(s: real, t: real, a: real, b: real)
    ensures (s * a + t * b) * (s * a + t * b) == s * s * (a * a) + 2.0 * s * t * (a * b) + t * t * (b * b)
  {
    var x, y := s * a, t * b;
    assert x * x == s * s * (a * a);
    assert y * y == t * t * (b * b);
    assert 2.0 * x * y == 2.0 * s * t * (a * b);
  }

  /** n times the spread around the mean is the form of n-scaled variances. */
  lemma FormIsSpread(m: Moments, s: real, t: real)
    requires m.n > 0.0
    ensures Form(VarA(m), Cov(m), VarB(m), s, t) == m.n * Spread(m, s, t, (s * m.a + t * m.b) / m.n)
  {
    var u := s * m.a + t * m.b;
    var x := u / m.n;
    var p, q, r := s * s, 2.0 * s * t, t * t;
    CompleteSquare(m.n, p * m.aa + q * m.ab + r * m.bb, u, x);
    SquareOfSum(s, t, m.a, m.b);
    ScaledTerm(m.n, p, m.aa, m.a * m.a);
    ScaledTerm(m.n, q, m.ab, m.a * m.b);
    ScaledTerm(m.n, r, m.bb, m.b * m.b);
  }

  lemma FormOfNone(s: real, t: real)
    ensures Form(VarA(NO_PAIRS), Cov(NO_PAIRS), VarB(NO_PAIRS), s, t) == 0.0
  {
  }

  lemma FormNonNegative(wa: seq<Cell>, wb: seq<Cell>, s: real, t: real)
    requires |wa| == |wb|
    ensures var m := MomentsOf(wa, wb); Form(VarA(m), Cov(m), VarB(m), s, t) >= 0.0
  {
    var m := MomentsOf(wa, wb);
    CountNonNegative(wa, wb);
    FormOfNone(s, t);
    hide Spread, Form, MomentsOf, VarA, VarB, Cov;
    if m.n > 0.0 {
      var x := (s * m.a + t * m.b) / m.n;
      SpreadNonNegative(wa, wb, s, t, x);
      FormIsSpread(m, s, t);
      ProductNonNegative(m.n, Spread(m, s, t, x));
    }
  }

  lemma ProductNonNegative(x: real, y: real)
    requires x >= 0.0 && y >= 0.0
    ensures x * y >= 0.0
  {
  }

  lemma FormWithoutVarB(va: real, cov: real, t: real)
    requires cov != 0.0 && t == -(va + 1.0) / (2.0 * cov)
    ensures Form(va, cov, 0.0, 1.0, t) == -1.0
  {
    assert 2.0 * t * cov == t * (2.0 * cov) == -(va + 1.0);
  }

  /** A form that is nowhere negative has a bounded cross term. */
  lemma Discriminant(va: real, cov: real, vb: real)
    requires forall s, t :: Form(va, cov, vb, s, t) >= 0.0
    ensures va >= 0.0 && vb >= 0.0 && cov * cov <= va * vb
  {
    assert Form(va, cov, vb, 1.0, 0.0) >= 0.0;
    assert Form(va, cov, vb, 0.0, 1.0) >= 0.0;
    if vb == 0.0 {
      if cov != 0.0 {
        var t := -(va + 1.0) / (2.0 * cov);
        FormWithoutVarB(va, cov, t);
        assert false;
      }
    } else {
      assert Form(va, cov, vb, vb, -cov) >= 0.0;
      calc {
        Form(va, cov, vb, vb, -cov);
      ==
        vb * vb * va + 2.0 * vb * (-cov) * cov + (-cov) * (-cov) * vb;
      ==
        vb * (va * vb - cov * cov);
      }
      if va * vb - cov * cov < 0.0 {
        NegativeProduct(vb, va * vb - cov * cov);
      }
    }
  }

  /** Clamping the variances at zero changes nothing, and the covariance is bounded by their product. */
  lemma CauchySchwarz(wa: seq<Cell>, wb: seq<Cell>)
    requires |wa| == |wb|
    ensures var m := MomentsOf(wa, wb);
      && ClampedProduct(m) == VarA(m) * VarB(m)
      && VarA(m) >= 0.0 && VarB(m) >= 0.0 && Cov(m) * Cov(m) <= VarA(m) * VarB(m)
  {
    hide Form, MomentsOf, VarA, VarB, Cov;
    var m := MomentsOf(wa, wb);
    forall s, t ensures Form(VarA(m), Cov(m), VarB(m), s, t) >= 0.0 {
      FormNonNegative(wa, wb, s, t);
    }
    Discriminant(VarA(m), Cov(m), VarB(m));
  }

  lemma LargerSquare(c: real, d: real)
    requires c > d >= 0.0
    ensures c * c > d * d
  {
    assert (c - d) * (c + d) == c * c - d * d;
    NegativeProduct(c + d, d - c);
  }

  lemma RatioBounded(c: real, d: real)
    requires d > 0.0 && c * c <= d * d
    ensures -1.0 <= c / d <= 1.0
  {
    if c > d {
      LargerSquare(c, d);
      assert false;
    }
    if c < -d {
      LargerSquare(-c, d);
      assert false;
    }
  }

  lemma CorrUnclamped(sqrt: real -> real, m: Moments)
    requires ClampedProduct(m) == VarA(m) * VarB(m)
    ensures CorrFromMoments(sqrt, m) == if m.n >= 2.0 then Ratio(sqrt, Cov(m), VarA(m), VarB(m)) else Missing
  {
    hide VarA, VarB, Cov, ClampedProduct;
    assert sqrt(ClampedProduct(m)) == sqrt(VarA(m) * VarB(m));
  }

  /** Every defined correlation lies in [-1, 1]. */
  lemma CorrBounded(sqrt: real -> real, wa: seq<Cell>, wb: seq<Cell>)
    requires |wa| == |wb| && IsSqrt(sqrt)
    ensures var c := CorrFromMoments(sqrt, MomentsOf(wa, wb)); c.Val? ==> -1.0 <= c.v <= 1.0
  {
    hide MomentsOf, VarA, VarB, Cov, ClampedProduct;
    var m := MomentsOf(wa, wb);
    CauchySchwarz(wa, wb);
    assert SqrtAt(sqrt, VarA(m) * VarB(m));
    var denom := sqrt(VarA(m) * VarB(m));
    CorrUnclamped(sqrt, m);
    if m.n >= 2.0 && denom > 0.0 {
      ProductNonNegative(VarA(m), VarB(m));
      RatioBounded(Cov(m), denom);
    }
  }

  // ---------------------------------------------------------------- the centred form

  /** Sum of (x - p) * (y - q) over the complete pairs. */
  function CentredProducts(wa: seq<Cell>, wb: seq<Cell>, p: real, q: real): real
    requires |wa| == |wb|
  {
    if wa == [] then 0.0
    else
      var x, y := wa[|wa| - 1], wb[|wb| - 1];
      CentredProducts(wa[..|wa| - 1], wb[..|wb| - 1], p, q) + Centred(x, y, p, q)
  }

  function Centred(x: Cell, y: Cell, p: real, q: real): real {
    if x.Val? && y.Val? then (x.v - p) * (y.v - q) else 0.0
  }

  /** x itself where the pair is complete: pairing it with itself gives the squared deviations of one side. */
  function Masked(wa: seq<Cell>, wb: seq<Cell>): (w: seq<Cell>)
    requires |wa| == |wb|
    ensures |w| == |wa|
  {
    seq(|wa|, i requires 0 <= i < |wa| => if wb[i].Val? then wa[i] else Missing)
  }

  function Ratio(sqrt: real -> real, c: real, va: real, vb: real): Cell {
    var d := sqrt(va * vb);
    if d > 0.0 then Val(c / d) else Missing
  }

  /** Pearson's definition over the complete pairs: centred products over the root of centred squares. */
  function Pearson(sqrt: real -> real, wa: seq<Cell>, wb: seq<Cell>): Cell
    requires |wa| == |wb|
  {
    var m := MomentsOf(wa, wb);
    if m.n < 2.0 then Missing
    else
      var meanA, meanB := m.a / m.n, m.b / m.n;
      var va := CentredProducts(Masked(wa, wb), Masked(wa, wb), meanA, meanA);
      var vb := CentredProducts(Masked(wb, wa), Masked(wb, wa), meanB, meanB);
      Ratio(sqrt, CentredProducts(wa, wb, meanA, meanB), va, vb)
  }

  function Expanded(m: Moments, p: real, q: real): real {
    m.ab - q * m.a - p * m.b + m.n * (p * q)
  }

  lemma ExpandedAdd(m: Moments, x: real, y: real, p: real, q: real)
    ensures Expanded(AddPair(m, Val(x), Val(y)), p, q) == Expanded(m, p, q) + (x - p) * (y - q)
  {
    assert q * (m.a + x) == q * m.a + q * x;
    assert p * (m.b + y) == p * m.b + p * y;
    assert (m.n + 1.0) * (p * q) == m.n * (p * q) + p * q;
    assert (x - p) * (y - q) == x * y - q * x - p * y + p * q;
  }

  lemma ExpandedNone(p: real, q: real)
    ensures Expanded(NO_PAIRS, p, q) == 0.0
  {
  }

  lemma ExpandedPair(m: Moments, x: Cell, y: Cell, p: real, q: real)
    ensures Expanded(AddPair(m, x, y), p, q) == Expanded(m, p, q) + Centred(x, y, p, q)
  {
    if x.Val? && y.Val? {
      ExpandedAdd(m, x.v, y.v, p, q);
    }
  }

  lemma {:induction false} CentredExpand(wa: seq<Cell>, wb: seq<Cell>, p: real, q: real)
    requires |wa| == |wb|
    ensures CentredProducts(wa, wb, p, q) == Expanded(MomentsOf(wa, wb), p, q)
  {
    hide Expanded, Centred, AddPair;
    if wa == [] {
      ExpandedNone(p, q);
    } else {
      var fa, fb := wa[..|wa| - 1], wb[..|wb| - 1];
      CentredExpand(fa, fb, p, q);
      ExpandedPair(MomentsOf(fa, fb), wa[|wa| - 1], wb[|wb| - 1], p, q);
    }
  }

  /** The first series' own moments, as `mm` has them in both places. */
  ghost predicate OwnMoments(m: Moments, mm: Moments) {
    mm.n == m.n && mm.a == m.a && mm.b == m.a && mm.ab == m.aa
  }

  lemma OwnMomentsAdd(m: Moments, mm: Moments, x: Cell, y: Cell)
    requires OwnMoments(m, mm)
    ensures var z := if y.Val? then x else Missing; OwnMoments(AddPair(m, x, y), AddPair(mm, z, z))
  {
  }

  lemma {:induction false} MaskedMoments(wa: seq<Cell>, wb: seq<Cell>)
    requires |wa| == |wb|
    ensures OwnMoments(MomentsOf(wa, wb), MomentsOf(Masked(wa, wb), Masked(wa, wb)))
  {
    hide AddPair;
    if wa != [] {
      var fa, fb := wa[..|wa| - 1], wb[..|wb| - 1];
      MaskedMoments(fa, fb);
      var w := Masked(wa, wb);
      assert w[..|w| - 1] == Masked(fa, fb);
      hide OwnMoments;
      OwnMomentsAdd(MomentsOf(fa, fb), MomentsOf(Masked(fa, fb), Masked(fa, fb)), wa[|wa| - 1], wb[|wb| - 1]);
    }
  }

  lemma {:induction false} SwappedMoments(wa: seq<Cell>, wb: seq<Cell>)
    requires |wa| == |wb|
    ensures var m, mm := MomentsOf(wa, wb), MomentsOf(wb, wa);
      mm.n == m.n && mm.a == m.b && mm.b == m.a && mm.aa == m.bb && mm.bb == m.aa && mm.ab == m.ab
  {
    if wa != [] {
      SwappedMoments(wa[..|wa| - 1], wb[..|wb| - 1]);
    }
  }

  /** n times a centred sum is the source's scaled expression. */
  lemma CentredIsScaled(m: Moments)
    requires m.n > 0.0
    ensures m.n * Expanded(m, m.a / m.n, m.b / m.n) == Cov(m)
  {
    var n, sa, sb := m.n, m.a, m.b;
    var p, q := sa / n, sb / n;
    assert n * p == sa && n * q == sb;
    assert n * (q * sa) == (n * q) * sa;
    assert n * (p * sb) == (n * p) * sb;
    assert n * (n * (p * q)) == (n * p) * (n * q);
  }

  /** Non-negative numbers with equal squares are equal. */
  lemma SquareInjective(x: real, y: real)
    requires x >= 0.0 && y >= 0.0 && x * x == y * y
    ensures x == y
  {
    if x > y {
      LargerSquare(x, y);
      assert false;
    }
    if y > x {
      LargerSquare(y, x);
      assert false;
    }
  }

  /** Scaling the variances by n scales the root of their product by n. */
  lemma SqrtScales(sqrt: real -> real, n: real, va: real, vb: real, nva: real, nvb: real)
    requires IsSqrt(sqrt) && n > 0.0 && va * vb >= 0.0 && nva == n * va && nvb == n * vb
    ensures sqrt(nva * nvb) == n * sqrt(va * vb)
  {
    var r, s := sqrt(nva * nvb), sqrt(va * vb);
    assert SqrtAt(sqrt, nva * nvb) && SqrtAt(sqrt, va * vb);
    assert nva * nvb == (n * n) * (va * vb);
    ProductNonNegative(n * n, va * vb);
    assert (n * s) * (n * s) == (n * n) * (s * s);
    ProductNonNegative(n, s);
    SquareInjective(r, n * s);
  }

  lemma RatioScales(n: real, c: real, d: real)
    requires n > 0.0 && d != 0.0
    ensures (n * c) / (n * d) == c / d
  {
    var q := c / d;
    assert q * d == c;
    assert q * (n * d) == n * c;
  }

  /** A centred sum, scaled by the number of pairs, is the source's covariance. */
  lemma CentredSum(wa: seq<Cell>, wb: seq<Cell>)
    requires |wa| == |wb| && MomentsOf(wa, wb).n > 0.0
    ensures var m := MomentsOf(wa, wb); m.n * CentredProducts(wa, wb, m.a / m.n, m.b / m.n) == Cov(m)
  {
    hide MomentsOf, CentredProducts, Expanded, Cov;
    var m := MomentsOf(wa, wb);
    CentredExpand(wa, wb, m.a / m.n, m.b / m.n);
    CentredIsScaled(m);
  }

  /** Likewise for the variance of the first side. */
  lemma CentredSquares(wa: seq<Cell>, wb: seq<Cell>)
    requires |wa| == |wb| && MomentsOf(wa, wb).n > 0.0
    ensures var m := MomentsOf(wa, wb);
      m.n * CentredProducts(Masked(wa, wb), Masked(wa, wb), m.a / m.n, m.a / m.n) == VarA(m)
  {
    hide MomentsOf, CentredProducts, Masked;
    MaskedMoments(wa, wb);
    CentredSum(Masked(wa, wb), Masked(wa, wb));
    CovOfMasked(MomentsOf(wa, wb), MomentsOf(Masked(wa, wb), Masked(wa, wb)));
    hide Cov, VarA;
  }

  lemma CovOfMasked(m: Moments, mm: Moments)
    requires mm.n == m.n && mm.a == m.a && mm.b == m.a && mm.ab == m.aa
    ensures Cov(mm) == VarA(m)
  {
  }

  lemma VarBIsSwappedVarA(wa: seq<Cell>, wb: seq<Cell>)
    requires |wa| == |wb|
    ensures VarB(MomentsOf(wa, wb)) == VarA(MomentsOf(wb, wa))
  {
    hide MomentsOf;
    SwappedMoments(wa, wb);
  }

  lemma RatioScaled(sqrt: real -> real, n: real, c: real, va: real, vb: real)
    requires IsSqrt(sqrt) && n > 0.0 && n * va >= 0.0 && n * vb >= 0.0
    ensures Ratio(sqrt, n * c, n * va, n * vb) == Ratio(sqrt, c, va, vb)
  {
    FactorNonNegative(n, va);
    FactorNonNegative(n, vb);
    ProductNonNegative(va, vb);
    SqrtScales(sqrt, n, va, vb, n * va, n * vb);
    assert SqrtAt(sqrt, va * vb);
    var d := sqrt(va * vb);
    ProductPositive(n, d);
    if d > 0.0 {
      RatioScales(n, c, d);
    }
  }

  lemma RatioOfScaled(sqrt: real -> real, n: real, c: real, va: real, vb: real, nc: real, nva: real, nvb: real)
    requires IsSqrt(sqrt) && n > 0.0 && nva >= 0.0 && nvb >= 0.0
    requires nc == Scaled(n, c) && nva == Scaled(n, va) && nvb == Scaled(n, vb)
    ensures Ratio(sqrt, nc, nva, nvb) == Ratio(sqrt, c, va, vb)
  {
    hide Ratio;
    RatioScaled(sqrt, n, c, va, vb);
  }

  function Scaled(n: real, x: real): real { n * x }

  /** The source's covariance and variances are n times the centred sums, and the variances are not negative. */
  lemma ScaledParts(wa: seq<Cell>, wb: seq<Cell>)
    requires |wa| == |wb| && MomentsOf(wa, wb).n > 0.0
    ensures var m := MomentsOf(wa, wb);
      && Cov(m) == Scaled(m.n, CentredProducts(wa, wb, m.a / m.n, m.b / m.n))
      && VarA(m) == Scaled(m.n, CentredProducts(Masked(wa, wb), Masked(wa, wb), m.a / m.n, m.a / m.n))
      && VarB(m) == Scaled(m.n, CentredProducts(Masked(wb, wa), Masked(wb, wa), m.b / m.n, m.b / m.n))
      && VarA(m) >= 0.0 && VarB(m) >= 0.0
  {
    hide CentredProducts, MomentsOf, VarA, VarB, Cov, Masked, Scaled;
    var m := MomentsOf(wa, wb);
    SwappedMoments(wa, wb);
    VarBIsSwappedVarA(wa, wb);
    CentredSum(wa, wb);
    AsScaled(m.n, CentredProducts(wa, wb, m.a / m.n, m.b / m.n), Cov(m));
    CentredSquares(wa, wb);
    AsScaled(m.n, CentredProducts(Masked(wa, wb), Masked(wa, wb), m.a / m.n, m.a / m.n), VarA(m));
    CentredSquares(wb, wa);
    AsScaled(m.n, CentredProducts(Masked(wb, wa), Masked(wb, wa), m.b / m.n, m.b / m.n), VarB(m));
    CauchySchwarz(wa, wb);
  }

  lemma AsScaled(n: real, x: real, y: real)
    requires n * x == y
    ensures y == Scaled(n, x)
  {
  }

  /** The prefix-sum formula is Pearson's correlation of the complete pairs. */
  lemma CorrIsPearson(sqrt: real -> real, wa: seq<Cell>, wb: seq<Cell>)
    requires |wa| == |wb| && IsSqrt(sqrt)
    ensures CorrFromMoments(sqrt, MomentsOf(wa, wb)) == Pearson(sqrt, wa, wb)
  {
    hide CentredProducts, MomentsOf, VarA, VarB, Cov, Masked, ClampedProduct, IsSqrt, Ratio, Scaled;
    var m := MomentsOf(wa, wb);
    if m.n >= 2.0 {
      ScaledParts(wa, wb);
      CauchySchwarz(wa, wb);
      var c := CentredProducts(wa, wb, m.a / m.n, m.b / m.n);
      var va := CentredProducts(Masked(wa, wb), Masked(wa, wb), m.a / m.n, m.a / m.n);
      var vb := CentredProducts(Masked(wb, wa), Masked(wb, wa), m.b / m.n, m.b / m.n);
      RatioOfScaled(sqrt, m.n, c, va, vb, Cov(m), VarA(m), VarB(m));
      CorrUnclamped(sqrt, m);
    }
  }

  lemma FactorNonNegative(n: real, x: real)
    requires n > 0.0 && n * x >= 0.0
    ensures x >= 0.0
  {
    if x < 0.0 {
      NegativeProduct(n, x);
      assert false;
    }
  }

  lemma ProductPositive(n: real, d: real)
    requires n > 0.0 && d >= 0.0
    ensures n * d > 0.0 <==> d > 0.0
  {
  }

  // ---------------------------------------------------------------- prefix sums

  /** `np.cumsum` with a zero in front: entry k is the sum of the first k values. */
  function CumSum(x: seq<real>): (r: seq<real>)
    ensures |r| == |x| + 1
  {
    if x == [] then [0.0]
    else var r := CumSum(x[..|x| - 1]); r + [r[|r| - 1] + x[|x| - 1]]
  }

  lemma {:induction false} CumSumPrefix(x: seq<real>, k: nat)
    requires k <= |x|
    ensures CumSum(x)[k] == CumSum(x[..k])[k]
  {
    if k < |x| {
      CumSumPrefix(x[..|x| - 1], k);
      assert x[..|x| - 1][..k] == x[..k];
    } else {
      assert x[..k] == x;
    }
  }

  lemma CumSumStep(x: seq<real>, k: nat)
    requires k < |x|
    ensures CumSum(x)[k + 1] == CumSum(x)[k] + x[k]
  {
    CumSumPrefix(x, k + 1);
    CumSumPrefix(x, k);
    assert x[..k + 1][..k] == x[..k];
  }

  /** The six running sums over complete pairs; an incomplete pair contributes zero to each. */
  datatype Ends = Ends(n: seq<real>, a: seq<real>, b: seq<real>, aa: seq<real>, ab: seq<real>, bb: seq<real>)

  function Complete(a: seq<Cell>, b: seq<Cell>, i: nat): bool
    requires |a| == |b| && i < |a|
  {
    a[i].Val? && b[i].Val?
  }

  function Mask(a: seq<Cell>, b: seq<Cell>): (r: seq<real>)
    requires |a| == |b|
    ensures |r| == |a|
  {
    seq(|a|, i requires 0 <= i < |a| => if Complete(a, b, i) then 1.0 else 0.0)
  }

  /** The values of a on complete pairs, zero elsewhere. */
  function PairOf(a: seq<Cell>, b: seq<Cell>): (r: seq<real>)
    requires |a| == |b|
    ensures |r| == |a|
  {
    seq(|a|, i requires 0 <= i < |a| => if Complete(a, b, i) then a[i].v else 0.0)
  }

  function PrefixEnds(a: seq<Cell>, b: seq<Cell>): (e: Ends)
    requires |a| == |b|
    ensures |e.n| == |e.a| == |e.b| == |e.aa| == |e.ab| == |e.bb| == |a| + 1
  {
    var pairA, pairB := PairOf(a, b), PairOf(b, a);
    Ends(
      CumSum(Mask(a, b)), CumSum(pairA), CumSum(pairB),
      CumSum(Times(pairA, pairA)), CumSum(Times(pairA, pairB)), CumSum(Times(pairB, pairB)))
  }

  function Times(x: seq<real>, y: seq<real>): (r: seq<real>)
    requires |x| == |y|
    ensures |r| == |x|
  {
    seq(|x|, i requires 0 <= i < |x| => x[i] * y[i])
  }

  function EndsAt(e: Ends, k: nat): Moments
    requires k < |e.n| == |e.a| == |e.b| == |e.aa| == |e.ab| == |e.bb|
  {
    Moments(e.n[k], e.a[k], e.b[k], e.aa[k], e.ab[k], e.bb[k])
  }

  function Minus(x: Moments, y: Moments): Moments {
    Moments(x.n - y.n, x.a - y.a, x.b - y.b, x.aa - y.aa, x.ab - y.ab, x.bb - y.bb)
  }

  /** `ts_corr` on one column: differences of prefix sums `window` rows apart. */
  function TsCorrColumn(sqrt: real -> real, a: seq<Cell>, b: seq<Cell>, window: int): (out: seq<Cell>)
    requires |a| == |b|
    ensures |out| == |a|
  {
    if window <= 1 || |a| < window then seq(|a|, _ => Missing)
    else
      var ends := PrefixEnds(a, b);
      seq(window - 1, _ => Missing) +
      seq(|a| - window + 1, i requires 0 <= i < |a| - window + 1 =>
        CorrFromMoments(sqrt, Minus(EndsAt(ends, i + window), EndsAt(ends, i))))
  }

  lemma {:induction false} CumSumStart(x: seq<real>)
    ensures CumSum(x)[0] == 0.0
  {
    CumSumPrefix(x, 0);
  }

  lemma EndsStart(a: seq<Cell>, b: seq<Cell>)
    requires |a| == |b|
    ensures EndsAt(PrefixEnds(a, b), 0) == NO_PAIRS
  {
    var pairA, pairB := PairOf(a, b), PairOf(b, a);
    CumSumStart(Mask(a, b));
    CumSumStart(pairA);
    CumSumStart(pairB);
    CumSumStart(Times(pairA, pairA));
    CumSumStart(Times(pairA, pairB));
    CumSumStart(Times(pairB, pairB));
  }

  lemma PairAt(a: seq<Cell>, b: seq<Cell>, k: nat)
    requires |a| == |b| && k < |a|
    ensures Mask(a, b)[k] == if Complete(a, b, k) then 1.0 else 0.0
    ensures PairOf(a, b)[k] == if Complete(a, b, k) then a[k].v else 0.0
    ensures PairOf(b, a)[k] == if Complete(a, b, k) then b[k].v else 0.0
  {
  }

  lemma TimesStep(x: seq<real>, y: seq<real>, k: nat)
    requires |x| == |y| && k < |x|
    ensures CumSum(Times(x, y))[k + 1] == CumSum(Times(x, y))[k] + x[k] * y[k]
  {
    CumSumStep(Times(x, y), k);
  }

  lemma EndsStep(a: seq<Cell>, b: seq<Cell>, k: nat)
    requires |a| == |b| && k < |a|
    ensures EndsAt(PrefixEnds(a, b), k + 1) == AddPair(EndsAt(PrefixEnds(a, b), k), a[k], b[k])
  {
    hide CumSum, Times, PairOf, Mask;
    var pairA, pairB := PairOf(a, b), PairOf(b, a);
    PairAt(a, b, k);
    CumSumStep(Mask(a, b), k);
    CumSumStep(pairA, k);
    CumSumStep(pairB, k);
    TimesStep(pairA, pairA, k);
    TimesStep(pairA, pairB, k);
    TimesStep(pairB, pairB, k);
    var p, q := pairA[k], pairB[k];
    assert Complete(a, b, k) ==> p == a[k].v && q == b[k].v;
    assert !Complete(a, b, k) ==> p * p == 0.0 && p * q == 0.0 && q * q == 0.0;
  }

  lemma MomentsStep(a: seq<Cell>, b: seq<Cell>, lo: nat, hi: nat)
    requires |a| == |b| && lo <= hi < |a|
    ensures MomentsOf(a[lo..hi + 1], b[lo..hi + 1]) == AddPair(MomentsOf(a[lo..hi], b[lo..hi]), a[hi], b[hi])
  {
    assert a[lo..hi + 1][..hi - lo] == a[lo..hi] && b[lo..hi + 1][..hi - lo] == b[lo..hi];
  }

  lemma {:induction false} EndsAreMoments(a: seq<Cell>, b: seq<Cell>, k: nat)
    requires |a| == |b| && k <= |a|
    ensures EndsAt(PrefixEnds(a, b), k) == MomentsOf(a[0..k], b[0..k])
  {
    if k == 0 {
      EndsStart(a, b);
    } else {
      EndsAreMoments(a, b, k - 1);
      EndsStep(a, b, k - 1);
      MomentsStep(a, b, 0, k - 1);
    }
  }

  lemma MinusAdd(x: Moments, y: Moments, p: Cell, q: Cell)
    ensures Minus(AddPair(x, p, q), y) == AddPair(Minus(x, y), p, q)
  {
  }

  lemma MinusSelf(x: Moments)
    ensures Minus(x, x) == NO_PAIRS
  {
  }

  lemma EmptyMoments(a: seq<Cell>, b: seq<Cell>, at: nat)
    requires |a| == |b| && at <= |a|
    ensures MomentsOf(a[at..at], b[at..at]) == NO_PAIRS
  {
  }

  lemma {:induction false} MomentsDifference(a: seq<Cell>, b: seq<Cell>, lo: nat, hi: nat)
    requires |a| == |b| && lo <= hi <= |a|
    ensures Minus(MomentsOf(a[0..hi], b[0..hi]), MomentsOf(a[0..lo], b[0..lo])) == MomentsOf(a[lo..hi], b[lo..hi])
    decreases hi
  {
    hide MomentsOf, AddPair, Minus;
    if lo < hi {
      MomentsDifference(a, b, lo, hi - 1);
      MomentsStep(a, b, 0, hi - 1);
      MomentsStep(a, b, lo, hi - 1);
      MinusAdd(MomentsOf(a[0..hi - 1], b[0..hi - 1]), MomentsOf(a[0..lo], b[0..lo]), a[hi - 1], b[hi - 1]);
    } else {
      EmptyMoments(a, b, lo);
      MinusSelf(MomentsOf(a[0..lo], b[0..lo]));
    }
  }

  lemma ColumnAt(sqrt: real -> real, a: seq<Cell>, b: seq<Cell>, window: int, t: nat)
    requires |a| == |b| && t < |a| && window > 1 && t >= window - 1
    ensures var ends := PrefixEnds(a, b);
      TsCorrColumn(sqrt, a, b, window)[t] == CorrFromMoments(sqrt, Minus(EndsAt(ends, t + 1), EndsAt(ends, t + 1 - window)))
  {
    hide PrefixEnds, CorrFromMoments, EndsAt, Minus;
  }

  /** The prefix-sum column is, row by row, the correlation of the row's own window. */
  lemma PrefixCorrIsWindowed(sqrt: real -> real, a: seq<Cell>, b: seq<Cell>, window: int, t: nat)
    requires |a| == |b| && t < |a|
    ensures TsCorrColumn(sqrt, a, b, window)[t] == CorrAt(sqrt, a, b, window, t)
  {
    hide MomentsOf, Minus, PrefixEnds, CorrFromMoments, EndsAt;
    if window > 1 && t >= window - 1 {
      ColumnAt(sqrt, a, b, window, t);
      hide TsCorrColumn;
      EndsAreMoments(a, b, t + 1);
      EndsAreMoments(a, b, t + 1 - window);
      MomentsDifference(a, b, t + 1 - window, t + 1);
    }
  }

  // ---------------------------------------------------------------- the coefficient in terms of the pairs

  /** Place i holds a complete pair. */
  ghost predicate IsPair(a: seq<Cell>, b: seq<Cell>, i: int) {
    0 <= i < |a| && i < |b| && a[i].Val? && b[i].Val?
  }

  ghost function Pairs(a: seq<Cell>, b: seq<Cell>): set<int> {
    set i | 0 <= i < |a| && IsPair(a, b, i)
  }

  ghost function PairTerm(a: seq<Cell>, b: seq<Cell>, f: (real, real) -> real, i: int): real {
    if IsPair(a, b, i) then f(a[i].v, b[i].v) else 0.0
  }

  /** The sum of f over the complete pairs. */
  ghost function PairTotal(a: seq<Cell>, b: seq<Cell>, f: (real, real) -> real): real {
    Total(i => PairTerm(a, b, f, i), 0, |a|)
  }

  ghost function Deviations(a: seq<Cell>, b: seq<Cell>, m: real): real {
    PairTotal(a, b, (x, y) => x - m)
  }

  ghost function SquaredDeviations(a: seq<Cell>, b: seq<Cell>, m: real): real {
    PairTotal(a, b, (x, y) => (x - m) * (x - m))
  }

  ghost function CoDeviations(a: seq<Cell>, b: seq<Cell>, p: real, q: real): real {
    PairTotal(a, b, (x, y) => (x - p) * (y - q))
  }

  ghost function RootOf(sqrt: real -> real, x: real, y: real): real {
    sqrt(x * y)
  }

  /** About the means p and q: missing when the root of the product of the squared deviations is zero or below `floor`;
      otherwise that root times the coefficient is the sum of the products of the deviations. */
  ghost predicate CoefficientAt(sqrt: real -> real, a: seq<Cell>, b: seq<Cell>, floor: real, p: real, q: real, c: Cell) {
    && Deviations(a, b, p) == 0.0 && Deviations(b, a, q) == 0.0
    && var root := RootOf(sqrt, SquaredDeviations(a, b, p), SquaredDeviations(b, a, q));
       if root <= 0.0 || root < floor then c == Missing else c.Val? && Scaled(root, c.v) == CoDeviations(a, b, p, q)
  }

  /** A coefficient of two series, missing below `least` complete pairs. */
  ghost predicate CorrelationLaw(sqrt: real -> real, a: seq<Cell>, b: seq<Cell>, least: nat, floor: real, c: Cell) {
    if |Pairs(a, b)| < least then c == Missing else exists p, q :: CoefficientAt(sqrt, a, b, floor, p, q, c)
  }

  lemma PairTotalStep(a: seq<Cell>, b: seq<Cell>, f: (real, real) -> real)
    requires |a| == |b| && a != []
    ensures PairTotal(a, b, f) == PairTotal(a[..|a| - 1], b[..|b| - 1], f)
      + if a[|a| - 1].Val? && b[|b| - 1].Val? then f(a[|a| - 1].v, b[|b| - 1].v) else 0.0
  {
    var n, fa, fb := |a| - 1, a[..|a| - 1], b[..|b| - 1];
    var g, h := i => PairTerm(a, b, f, i), i => PairTerm(fa, fb, f, i);
    forall i | 0 <= i < n ensures g(i) == h(i) {
      assert fa[i] == a[i] && fb[i] == b[i];
    }
    TotalSame(g, h, 0, n);
  }

  lemma PairsStep(a: seq<Cell>, b: seq<Cell>)
    requires |a| == |b| && a != []
    ensures |Pairs(a, b)| == |Pairs(a[..|a| - 1], b[..|b| - 1])| + if a[|a| - 1].Val? && b[|b| - 1].Val? then 1 else 0
  {
    var n := |a| - 1;
    var before := Pairs(a[..n], b[..n]);
    forall i | 0 <= i < n ensures IsPair(a, b, i) <==> IsPair(a[..n], b[..n], i) {
      assert a[..n][i] == a[i] && b[..n][i] == b[i];
    }
    if a[n].Val? && b[n].Val? {
      assert Pairs(a, b) == before + {n};
    } else {
      assert Pairs(a, b) == before;
    }
  }

  lemma {:induction false} PairsAreCounted(a: seq<Cell>, b: seq<Cell>)
    requires |a| == |b|
    ensures MomentsOf(a, b).n == |Pairs(a, b)| as real
  {
    if a == [] {
      assert Pairs(a, b) == {};
    } else {
      PairsAreCounted(a[..|a| - 1], b[..|b| - 1]);
      PairsStep(a, b);
      hide Pairs;
    }
  }

  lemma ScaledAdd(n: real, p: real)
    ensures Scaled(n + 1.0, p) == Scaled(n, p) + p && Scaled(0.0, p) == 0.0
  {
  }

  lemma {:induction false} DeviationsAre(a: seq<Cell>, b: seq<Cell>, p: real)
    requires |a| == |b|
    ensures Deviations(a, b, p) == MomentsOf(a, b).a - Scaled(MomentsOf(a, b).n, p)
  {
    if a == [] {
      ScaledAdd(0.0, p);
    } else {
      var fa, fb := a[..|a| - 1], b[..|b| - 1];
      DeviationsAre(fa, fb, p);
      PairTotalStep(a, b, (x, y) => x - p);
      ScaledAdd(MomentsOf(fa, fb).n, p);
      hide PairTotal, Scaled;
    }
  }

  lemma {:induction false} ProductsAreTotals(a: seq<Cell>, b: seq<Cell>, p: real, q: real)
    requires |a| == |b|
    ensures CentredProducts(a, b, p, q) == CoDeviations(a, b, p, q)
  {
    if a != [] {
      ProductsAreTotals(a[..|a| - 1], b[..|b| - 1], p, q);
      PairTotalStep(a, b, (x, y) => (x - p) * (y - q));
      hide PairTotal;
    }
  }

  lemma {:induction false} SquaresAreTotals(a: seq<Cell>, b: seq<Cell>, p: real)
    requires |a| == |b|
    ensures CentredProducts(Masked(a, b), Masked(a, b), p, p) == SquaredDeviations(a, b, p)
  {
    var w := Masked(a, b);
    if a != [] {
      var n := |a| - 1;
      SquaresAreTotals(a[..n], b[..n], p);
      PairTotalStep(a, b, (x, y) => (x - p) * (x - p));
      assert w[..n] == Masked(a[..n], b[..n]);
      assert w[n] == if b[n].Val? then a[n] else Missing;
      hide PairTotal, Masked;
    }
  }

  lemma RatioTimes(c: real, d: real)
    requires d != 0.0
    ensures c / d * d == c && d * (c / d) == c
  {
  }

  lemma MeanDeviatesByNone(a: seq<Cell>, b: seq<Cell>)
    requires |a| == |b| && MomentsOf(a, b).n > 0.0
    ensures Deviations(a, b, MomentsOf(a, b).a / MomentsOf(a, b).n) == 0.0
  {
    hide MomentsOf, Deviations;
    DeviationsAre(a, b, MomentsOf(a, b).a / MomentsOf(a, b).n);
    RatioTimes(MomentsOf(a, b).a, MomentsOf(a, b).n);
  }

  /** The three sums of the centred definition, at the means of the pairs. */
  lemma CentredParts(a: seq<Cell>, b: seq<Cell>)
    requires |a| == |b| && MomentsOf(a, b).n > 0.0
    ensures var m := MomentsOf(a, b); var p, q := m.a / m.n, m.b / m.n;
      && Deviations(a, b, p) == 0.0 && Deviations(b, a, q) == 0.0
      && CentredProducts(a, b, p, q) == CoDeviations(a, b, p, q)
      && CentredProducts(Masked(a, b), Masked(a, b), p, p) == SquaredDeviations(a, b, p)
      && CentredProducts(Masked(b, a), Masked(b, a), q, q) == SquaredDeviations(b, a, q)
  {
    hide MomentsOf, CentredProducts, Masked, Deviations, SquaredDeviations, CoDeviations;
    var m := MomentsOf(a, b);
    SwappedMoments(a, b);
    MeanDeviatesByNone(a, b);
    MeanDeviatesByNone(b, a);
    ProductsAreTotals(a, b, m.a / m.n, m.b / m.n);
    SquaresAreTotals(a, b, m.a / m.n);
    SquaresAreTotals(b, a, m.b / m.n);
  }

  /** A ratio of the three sums at the means obeys the law. */
  lemma RatioObeys(sqrt: real -> real, a: seq<Cell>, b: seq<Cell>, floor: real, p: real, q: real,
                   product: real, va: real, vb: real, c: Cell)
    requires Deviations(a, b, p) == 0.0 && Deviations(b, a, q) == 0.0
    requires product == CoDeviations(a, b, p, q) && va == SquaredDeviations(a, b, p) && vb == SquaredDeviations(b, a, q)
    requires var root := RootOf(sqrt, va, vb); c == if root <= 0.0 || root < floor then Missing else Val(product / root)
    ensures CoefficientAt(sqrt, a, b, floor, p, q, c)
  {
    hide Deviations, SquaredDeviations, CoDeviations, RootOf;
    if c.Val? {
      RatioTimes(product, RootOf(sqrt, va, vb));
      AsScaled(RootOf(sqrt, va, vb), c.v, product);
      hide Scaled;
    }
  }

  lemma RatioIs(sqrt: real -> real, product: real, va: real, vb: real)
    ensures Ratio(sqrt, product, va, vb) ==
      var root := RootOf(sqrt, va, vb); if root <= 0.0 || root < 0.0 then Missing else Val(product / root)
  {
  }

  lemma PearsonObeys(sqrt: real -> real, a: seq<Cell>, b: seq<Cell>)
    requires |a| == |b| && MomentsOf(a, b).n >= 2.0
    ensures var m := MomentsOf(a, b); CoefficientAt(sqrt, a, b, 0.0, m.a / m.n, m.b / m.n, Pearson(sqrt, a, b))
  {
    hide MomentsOf, CentredProducts, Masked, Deviations, SquaredDeviations, CoDeviations, CoefficientAt, RootOf, Ratio;
    CentredParts(a, b);
    var m := MomentsOf(a, b);
    var p, q := m.a / m.n, m.b / m.n;
    var product, va, vb := CentredProducts(a, b, p, q), CentredProducts(Masked(a, b), Masked(a, b), p, p),
                           CentredProducts(Masked(b, a), Masked(b, a), q, q);
    assert Pearson(sqrt, a, b) == Ratio(sqrt, product, va, vb);
    hide Pearson;
    RatioIs(sqrt, product, va, vb);
    RatioObeys(sqrt, a, b, 0.0, p, q, product, va, vb, Pearson(sqrt, a, b));
  }

  /** The prefix-sum formula obeys the law, on two pairs or more. */
  lemma CorrObeys(sqrt: real -> real, a: seq<Cell>, b: seq<Cell>)
    requires |a| == |b| && IsSqrt(sqrt)
    ensures CorrelationLaw(sqrt, a, b, 2, 0.0, CorrFromMoments(sqrt, MomentsOf(a, b)))
  {
    CorrIsPearson(sqrt, a, b);
    PairsAreCounted(a, b);
    hide MomentsOf, CoefficientAt, Pairs, IsSqrt, CorrFromMoments;
    if |Pairs(a, b)| >= 2 {
      PearsonObeys(sqrt, a, b);
    }
    hide CentredProducts, Masked, Ratio;
  }
}
