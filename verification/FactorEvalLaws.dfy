/** What the row coefficients and the score are, told by the pairs of the rows and by numbers. */
module FactorEvalLaws {

  import opened Basics
  import opened Cells
  import opened RollingCorr
  import opened OrdinalRanks
  import opened FactorEval
  import Evaluator
  import EvaluatorRun

  // ---------------------------------------------------------------- Pearson

  lemma GuardedIs(sqrt: real -> real, product: real, va: real, vb: real)
    ensures GuardedRatio(sqrt, product, va, vb) ==
      var root := RootOf(sqrt, va, vb); if root <= 0.0 || root < 0.000000000001 then Missing else Val(product / root)
  {
  }

  lemma PearsonParts(sqrt: real -> real, a: seq<Cell>, b: seq<Cell>)
    requires |a| == |b| && MomentsOf(a, b).n >= 3.0
    ensures var m := MomentsOf(a, b);
      CoefficientAt(sqrt, a, b, 0.000000000001, m.a / m.n, m.b / m.n, RowPearson(sqrt, a, b))
  {
    hide MomentsOf, CentredProducts, Masked, Deviations, SquaredDeviations, CoDeviations, CoefficientAt, RootOf, GuardedRatio;
    CentredParts(a, b);
    var m := MomentsOf(a, b);
    var p, q := m.a / m.n, m.b / m.n;
    var product, va, vb := CentredProducts(a, b, p, q), CentredProducts(Masked(a, b), Masked(a, b), p, p),
                           CentredProducts(Masked(b, a), Masked(b, a), q, q);
    assert RowPearson(sqrt, a, b) == GuardedRatio(sqrt, product, va, vb);
    hide RowPearson;
    GuardedIs(sqrt, product, va, vb);
    RatioObeys(sqrt, a, b, 0.000000000001, p, q, product, va, vb, RowPearson(sqrt, a, b));
  }

  /** The information coefficient of a row: at least three complete pairs, and a root of at least a billionth of a thousandth. */
  lemma PearsonIs(sqrt: real -> real, a: seq<Cell>, b: seq<Cell>)
    requires |a| == |b|
    ensures CorrelationLaw(sqrt, a, b, 3, 0.000000000001, RowPearson(sqrt, a, b))
  {
    PairsAreCounted(a, b);
    hide MomentsOf, CoefficientAt, Pairs;
    if |Pairs(a, b)| >= 3 {
      PearsonParts(sqrt, a, b);
    }
  }

  // ---------------------------------------------------------------- the rank coefficient

  /** How many complete pairs sort before pair i by the first series, the earlier of two equal ones first. */
  ghost function Place(a: seq<Cell>, b: seq<Cell>, i: int): int {
    if IsPair(a, b, i) then
      |set l | 0 <= l < |a| && IsPair(a, b, l) && (a[l].v < a[i].v || (a[l].v == a[i].v && l < i))|
    else 0
  }

  ghost function SquaredStep(a: seq<Cell>, b: seq<Cell>, i: int): real {
    if IsPair(a, b, i) then SquaredGap(Place(a, b, i), Place(b, a, i)) else 0.0
  }

  /** The squared differences of the places of all pairs. */
  ghost function SquaredSteps(a: seq<Cell>, b: seq<Cell>): real {
    Total(i => SquaredStep(a, b, i), 0, |a|)
  }

  /** n (n n - 1). */
  ghost function Norm(n: real): real {
    n * (n * n - 1.0)
  }

  /** Spearman's formula: one less six times the squared differences of places over n (n n - 1). */
  ghost predicate SpearmanLaw(a: seq<Cell>, b: seq<Cell>, c: Cell) {
    var n := |Pairs(a, b)| as real;
    if |Pairs(a, b)| < 3 then c == Missing else c.Val? && Scaled(1.0 - c.v, Norm(n)) == 6.0 * SquaredSteps(a, b)
  }

  ghost function SquaredGap(x: int, y: int): real {
    (x - y) as real * (x - y) as real
  }

  /** The sum of the squared differences of two lists. */
  ghost function SquaredDifferences(r: seq<nat>, q: seq<nat>): real
    requires |r| == |q|
  {
    if r == [] then 0.0 else SquaredDifferences(r[..|r| - 1], q[..|q| - 1]) + SquaredGap(r[|r| - 1], q[|q| - 1])
  }

  lemma SquareOfDifference(x: int, y: int, p: real)
    ensures SquaredGap(x, y) == Centred(Val(x as real), Val(x as real), p, p) + Centred(Val(y as real), Val(y as real), p, p)
      - 2.0 * Centred(Val(x as real), Val(y as real), p, p)
  {
  }

  /** About one mean the squared differences are the two squared deviations less twice the products. */
  lemma {:induction false} DifferencesAre(r: seq<nat>, q: seq<nat>, p: real)
    requires |r| == |q|
    ensures var x, y := AsCells(r), AsCells(q);
      SquaredDifferences(r, q) == CentredProducts(x, x, p, p) + CentredProducts(y, y, p, p) - 2.0 * CentredProducts(x, y, p, p)
  {
    if r != [] {
      var n := |r| - 1;
      var x, y := AsCells(r), AsCells(q);
      DifferencesAre(r[..n], q[..n], p);
      assert x[..n] == AsCells(r[..n]) && y[..n] == AsCells(q[..n]);
      assert x[n] == Val(r[n] as real) && y[n] == Val(q[n] as real);
      SquareOfDifference(r[n], q[n], p);
      hide AsCells, Centred, SquaredGap;
    }
  }

  lemma MaskedBySame(r: seq<nat>, q: seq<nat>)
    requires |r| == |q|
    ensures Masked(AsCells(r), AsCells(q)) == AsCells(r)
  {
  }

  /** Two lists of ordinal ranks of one length have the same mean. */
  lemma SameMean(u: seq<real>, v: seq<real>)
    requires |u| == |v|
    ensures var m := MomentsOf(AsCells(RankSeq(u)), AsCells(RankSeq(v))); m.a == m.b && m.n == |u| as real
  {
    hide MomentsOf, RankSeq, SumNat, SumSquares, Arange;
    var r, q := RankSeq(u), RankSeq(v);
    MomentsOfRanks(r, q);
    MomentsOfRanks(q, r);
    SwappedMoments(AsCells(r), AsCells(q));
    RanksArePermutation(u);
    RanksArePermutation(v);
    SumsPermute(r, Arange(|u|));
    SumsPermute(q, Arange(|u|));
  }

  lemma RatioOfSpreads(n: real, s: real, c: real, d: real, root: real)
    requires n >= 3.0 && IsRankSpread(n, s) && root == s && d == s + s - 2.0 * c && root > 0.0
    ensures Scaled(1.0 - c / root, Norm(n)) == 6.0 * d
  {
    var v := c / root;
    assert v * s == c;
    assert n * (n * n - 1.0) == 12.0 * s;
    assert (1.0 - v) * (12.0 * s) == 12.0 * s - 12.0 * (v * s);
  }

  /** The coefficient of two lists of ordinal ranks, by their differences. */
  lemma RanksCorrelate(sqrt: real -> real, u: seq<real>, v: seq<real>)
    requires IsSqrt(sqrt) && |u| == |v| >= 3
    ensures var c, n := RowPearson(sqrt, AsCells(RankSeq(u)), AsCells(RankSeq(v))), |u| as real;
      c.Val? && Scaled(1.0 - c.v, Norm(n)) == 6.0 * SquaredDifferences(RankSeq(u), RankSeq(v))
  {
    hide MomentsOf, CentredProducts, RankSeq, IsSqrt, GuardedRatio, IsRankSpread, Masked, AsCells, SquaredDifferences, Scaled, Norm;
    var r, q, n := RankSeq(u), RankSeq(v), |u| as real;
    var x, y := AsCells(r), AsCells(q);
    var m := MomentsOf(x, y);
    SameMean(u, v);
    var p := m.a / m.n;
    RankSpread(u, q);
    RankSpread(v, r);
    SwappedMoments(x, y);
    MaskedBySame(r, q);
    MaskedBySame(q, r);
    DifferencesAre(r, q, p);
    var s, t, c := CentredProducts(x, x, p, p), CentredProducts(y, y, p, p), CentredProducts(x, y, p, p);
    assert RowPearson(sqrt, x, y) == GuardedRatio(sqrt, c, s, t);
    hide RowPearson;
    RootOfSpreads(sqrt, n, s, t, c, SquaredDifferences(r, q));
  }

  lemma RootOfSpread(sqrt: real -> real, n: real, s: real, c: real, d: real)
    requires IsSqrt(sqrt) && n >= 3.0 && IsRankSpread(n, s) && d == s + s - 2.0 * c
    ensures var g := GuardedRatio(sqrt, c, s, s); g.Val? && Scaled(1.0 - g.v, Norm(n)) == 6.0 * d
  {
    SpreadLarge(n, s);
    SqrtOfSquare(sqrt, s);
    hide IsSqrt, IsRankSpread, Norm, Scaled;
    RatioOfSpreads(n, s, c, d, s);
  }

  lemma RootOfSpreads(sqrt: real -> real, n: real, s: real, t: real, c: real, d: real)
    requires IsSqrt(sqrt) && n >= 3.0 && IsRankSpread(n, s) && IsRankSpread(n, t) && d == s + t - 2.0 * c
    ensures var g := GuardedRatio(sqrt, c, s, t); g.Val? && Scaled(1.0 - g.v, Norm(n)) == 6.0 * d
  {
    assert s == t;
    hide IsSqrt, IsRankSpread, Norm, Scaled, GuardedRatio;
    RootOfSpread(sqrt, n, s, c, d);
  }

  // ---------------------------------------------------------------- the kept pairs as columns

  ghost function SumOver(idx: seq<nat>, g: int -> real): real {
    if idx == [] then 0.0 else SumOver(idx[..|idx| - 1], g) + g(idx[|idx| - 1])
  }

  lemma {:induction false} SumOverFinite(row: seq<Cell>, g: int -> real, h: int -> real)
    requires forall i :: 0 <= i < |row| ==> h(i) == if row[i].Val? then g(i) else 0.0
    ensures SumOver(EvaluatorRun.FiniteColumns(row), g) == Total(h, 0, |row|)
  {
    if row != [] {
      var n := |row| - 1;
      SumOverFinite(row[..n], g, h);
      var front := EvaluatorRun.FiniteColumns(row[..n]);
      assert (front + [n])[..|front|] == front;
    }
  }

  lemma {:induction false} DifferencesOver(r: seq<nat>, q: seq<nat>, idx: seq<nat>, g: int -> real)
    requires |r| == |q| == |idx| && forall p :: 0 <= p < |r| ==> SquaredGap(r[p], q[p]) == g(idx[p])
    ensures SquaredDifferences(r, q) == SumOver(idx, g)
  {
    if r != [] {
      var n := |r| - 1;
      hide SquaredGap;
      DifferencesOver(r[..n], q[..n], idx[..n], g);
    }
  }

  lemma MaskedStep(a: seq<Cell>, b: seq<Cell>)
    requires |a| == |b| && a != []
    ensures var n, w := |a| - 1, Masked(a, b);
      w[..n] == Masked(a[..n], b[..n]) && w[n] == if b[n].Val? then a[n] else Missing
  {
  }

  lemma ColumnsStep(row: seq<Cell>)
    requires row != []
    ensures var n := |row| - 1; var front := EvaluatorRun.FiniteColumns(row[..n]);
      EvaluatorRun.FiniteColumns(row) == if row[n].Val? then front + [n] else front
  {
  }

  lemma {:induction false} SameColumns(a: seq<Cell>, b: seq<Cell>)
    requires |a| == |b|
    ensures EvaluatorRun.FiniteColumns(Masked(a, b)) == EvaluatorRun.FiniteColumns(Masked(b, a))
  {
    if a != [] {
      SameColumns(a[..|a| - 1], b[..|b| - 1]);
      MaskedStep(a, b);
      MaskedStep(b, a);
      ColumnsStep(Masked(a, b));
      ColumnsStep(Masked(b, a));
      hide Masked, EvaluatorRun.FiniteColumns;
    } else {
      assert Masked(a, b) == Masked(b, a);
    }
  }

  /** The values are those in these columns. */
  ghost predicate InColumns(a: seq<Cell>, values: seq<real>, idx: seq<nat>) {
    |values| == |idx| && forall p :: 0 <= p < |idx| ==> idx[p] < |a| && Val(values[p]) == a[idx[p]]
  }

  lemma InMoreColumns(a: seq<Cell>, values: seq<real>, idx: seq<nat>)
    requires a != [] && InColumns(a[..|a| - 1], values, idx)
    ensures var n := |a| - 1;
      InColumns(a, values, idx) && (a[n].Val? ==> InColumns(a, values + [a[n].v], idx + [n]))
  {
  }

  lemma {:induction false} KeptAreColumns(a: seq<Cell>, b: seq<Cell>)
    requires |a| == |b|
    ensures InColumns(a, Kept(a, b), EvaluatorRun.FiniteColumns(Masked(a, b)))
  {
    if a != [] {
      var n := |a| - 1;
      KeptAreColumns(a[..n], b[..n]);
      MaskedStep(a, b);
      ColumnsStep(Masked(a, b));
      hide Masked, EvaluatorRun.FiniteColumns, InColumns;
      InMoreColumns(a, Kept(a[..n], b[..n]), EvaluatorRun.FiniteColumns(Masked(a[..n], b[..n])));
    }
  }

  lemma PlaceIsLower(a: seq<Cell>, b: seq<Cell>, i: nat)
    requires |a| == |b| && i < |a| && IsPair(a, b, i)
    ensures Place(a, b, i) == |Evaluator.LowerColumns(Masked(a, b), i)|
  {
    var lower := set l | 0 <= l < |a| && IsPair(a, b, l) && (a[l].v < a[i].v || (a[l].v == a[i].v && l < i));
    assert lower == Evaluator.LowerColumns(Masked(a, b), i);
  }

  /** The ordinal rank of a kept value is its pair's place. */
  lemma RankIsPlace(a: seq<Cell>, b: seq<Cell>, p: nat)
    requires |a| == |b| && p < |EvaluatorRun.FiniteColumns(Masked(a, b))|
    ensures |Kept(a, b)| == |EvaluatorRun.FiniteColumns(Masked(a, b))|
    ensures RankSeq(Kept(a, b))[p] == Place(a, b, EvaluatorRun.FiniteColumns(Masked(a, b))[p])
  {
    var idx := EvaluatorRun.FiniteColumns(Masked(a, b));
    KeptAreColumns(a, b);
    assert Kept(a, b) == EvaluatorRun.ValuesOf(Masked(a, b), idx);
    assert IsPair(a, b, idx[p]);
    hide Kept, EvaluatorRun.FiniteColumns;
    EvaluatorRun.CompressedRank(Masked(a, b), p);
    PlaceIsLower(a, b, idx[p]);
  }

  lemma DifferencesArePlaces(a: seq<Cell>, b: seq<Cell>)
    requires |a| == |b|
    ensures |Kept(a, b)| == |Kept(b, a)|
    ensures SquaredDifferences(RankSeq(Kept(a, b)), RankSeq(Kept(b, a))) == SquaredSteps(a, b)
  {
    KeptLengths(a, b);
    KeptAreColumns(a, b);
    SameColumns(a, b);
    var row := Masked(a, b);
    var idx := EvaluatorRun.FiniteColumns(row);
    var r, q := RankSeq(Kept(a, b)), RankSeq(Kept(b, a));
    var g, h := i => SquaredGap(Place(a, b, i), Place(b, a, i)), i => SquaredStep(a, b, i);
    forall p | 0 <= p < |r| ensures SquaredGap(r[p], q[p]) == g(idx[p]) {
      RankIsPlace(a, b, p);
      RankIsPlace(b, a, p);
    }
    forall i | 0 <= i < |row| ensures h(i) == if row[i].Val? then g(i) else 0.0 {
    }
    hide Kept, RankSeq, Place, Masked, EvaluatorRun.FiniteColumns, SquaredGap, SquaredStep;
    DifferencesOver(r, q, idx, g);
    SumOverFinite(row, g, h);
  }

  lemma SpearmanFrom(a: seq<Cell>, b: seq<Cell>, n: nat, c: Cell)
    requires |Pairs(a, b)| == n >= 3 && c.Val? && Scaled(1.0 - c.v, Norm(n as real)) == 6.0 * SquaredSteps(a, b)
    ensures SpearmanLaw(a, b, c)
  {
    hide Pairs, Scaled, Norm, SquaredSteps;
  }

  lemma RowSpearmanIs(sqrt: real -> real, a: seq<Cell>, b: seq<Cell>)
    requires |a| == |b|
    ensures |Kept(a, b)| == |Kept(b, a)| == |Pairs(a, b)|
    ensures RowSpearman(sqrt, a, b) == RowPearson(sqrt, AsCells(RankSeq(Kept(a, b))), AsCells(RankSeq(Kept(b, a))))
  {
    PairsAreCounted(a, b);
    KeptLengths(a, b);
    hide MomentsOf, Kept, RowPearson, AsCells, RankSeq, Pairs;
  }

  /** The rank coefficient of a row is Spearman's formula over the places of its complete pairs. */
  lemma SpearmanIs(sqrt: real -> real, a: seq<Cell>, b: seq<Cell>)
    requires |a| == |b| && IsSqrt(sqrt)
    ensures SpearmanLaw(a, b, RowSpearman(sqrt, a, b))
  {
    PairsAreCounted(a, b);
    RowSpearmanIs(sqrt, a, b);
    DifferencesArePlaces(a, b);
    SpearmanDefinedIff(sqrt, a, b);
    hide *;
    if |Pairs(a, b)| >= 3 {
      RanksCorrelate(sqrt, Kept(a, b), Kept(b, a));
      SpearmanFrom(a, b, |Kept(a, b)|, RowSpearman(sqrt, a, b));
    } else {
      SpearmanFew(a, b, RowSpearman(sqrt, a, b));
    }
  }

  lemma SpearmanFew(a: seq<Cell>, b: seq<Cell>, c: Cell)
    requires |Pairs(a, b)| < 3 && c == Missing
    ensures SpearmanLaw(a, b, c)
  {
  }

  // ---------------------------------------------------------------- mean and score

  lemma {:induction false} SumRealIs(x: seq<real>, m: real)
    ensures Total(i => if 0 <= i < |x| then x[i] - m else 0.0, 0, |x|) == SumReal(x) - Scaled(|x| as real, m)
  {
    if x == [] {
      ScaledAdd(0.0, m);
    } else {
      var n := |x| - 1;
      SumRealIs(x[..n], m);
      ScaledAdd(n as real, m);
      hide Scaled;
      TotalSame(i => if 0 <= i < |x| then x[i] - m else 0.0, i => if 0 <= i < n then x[..n][i] - m else 0.0, 0, n);
    }
  }

  /** The mean is the number from which the values deviate by none together, and zero for no values. */
  lemma MeanIs(x: seq<real>)
    ensures x == [] ==> MeanOr0(x) == 0.0
    ensures Total(i => if 0 <= i < |x| then x[i] - MeanOr0(x) else 0.0, 0, |x|) == 0.0 || x == []
  {
    if x != [] {
      SumRealIs(x, MeanOr0(x));
      RatioTimes(SumReal(x), |x| as real);
    }
  }

  /** Half the score is the coefficient's magnitude, full from a tenth on, and half how far the p-value is from one. */
  lemma RawScoreIs(rankIc: real, pValue: real)
    requires 0.0 <= pValue
    ensures var magnitude := if rankIc < 0.0 then -rankIc else rankIc;
      RawScore(rankIc, pValue) == (if magnitude >= 0.1 then 0.5 else 5.0 * magnitude) + (1.0 - pValue) / 2.0
  {
    var q := AbsOf(rankIc) / 0.1;
    assert q * 0.1 == AbsOf(rankIc);
  }

  /** The score is the multiple of a millionth nearest to that, the even one of two. */
  lemma ScoreIs(rankIc: real, pValue: real) returns (k: int)
    ensures CompositeScore(rankIc, pValue) * 1000000.0 == k as real
    ensures var y := RawScore(rankIc, pValue) * 1000000.0;
      k as real - 0.5 <= y <= k as real + 0.5 && (k as real - y == 0.5 || y - k as real == 0.5 ==> k % 2 == 0)
  {
    k := RoundHalfEven(RawScore(rankIc, pValue) * MILLION);
  }
}
