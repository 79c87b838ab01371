/** Cross-sectional evaluation of one factor: Pearson and rank correlation row by row. */
module FactorEval {

  import opened Basics
  import opened Cells
  import opened RollingCorr
  import opened OrdinalRanks

  const MIN_ASSETS_PER_ROW := 3.0

  /** `_pearson`: centred products over the root of centred squares, undefined below EPS or three complete pairs. */
  function RowPearson(sqrt: real -> real, a: seq<Cell>, b: seq<Cell>): Cell
    requires |a| == |b|
  {
    var m := MomentsOf(a, b);
    if m.n < MIN_ASSETS_PER_ROW then Missing
    else
      var meanA, meanB := m.a / m.n, m.b / m.n;
      var va := CentredProducts(Masked(a, b), Masked(a, b), meanA, meanA);
      var vb := CentredProducts(Masked(b, a), Masked(b, a), meanB, meanB);
      GuardedRatio(sqrt, CentredProducts(a, b, meanA, meanB), va, vb)
  }

  function GuardedRatio(sqrt: real -> real, c: real, va: real, vb: real): Cell {
    var denom := sqrt(va * vb);
    if denom < EPS then Missing else Val(c / denom)
  }

  lemma GuardedIsRatio(sqrt: real -> real, c: real, va: real, vb: real)
    ensures GuardedRatio(sqrt, c, va, vb).Val? ==> GuardedRatio(sqrt, c, va, vb) == Ratio(sqrt, c, va, vb)
  {
  }

  /** The values of a at its complete pairs with b. */
  function Kept(a: seq<Cell>, b: seq<Cell>): (r: seq<real>)
    requires |a| == |b|
    ensures |r| <= |a|
  {
    if a == [] then []
    else
      var front, x, y := Kept(a[..|a| - 1], b[..|b| - 1]), a[|a| - 1], b[|b| - 1];
      if x.Val? && y.Val? then front + [x.v] else front
  }

  function AsCells(ranks: seq<nat>): (w: seq<Cell>)
    ensures |w| == |ranks|
  {
    seq(|ranks|, i requires 0 <= i < |ranks| => Val(ranks[i] as real))
  }

  lemma {:induction false} KeptLengths(a: seq<Cell>, b: seq<Cell>)
    requires |a| == |b|
    ensures |Kept(a, b)| == |Kept(b, a)| && MomentsOf(a, b).n == |Kept(a, b)| as real
  {
    if a != [] {
      KeptLengths(a[..|a| - 1], b[..|b| - 1]);
    }
  }

  /** `_spearman`: Pearson on the ordinal ranks of the complete pairs. */
  function RowSpearman(sqrt: real -> real, a: seq<Cell>, b: seq<Cell>): Cell
    requires |a| == |b|
  {
    KeptLengths(a, b);
    RowPearson(sqrt, AsCells(RankSeq(Kept(a, b))), AsCells(RankSeq(Kept(b, a))))
  }

  // ---------------------------------------------------------------- sums of ranks

  function SumNat(s: seq<nat>): nat {
    if s == [] then 0 else SumNat(s[..|s| - 1]) + s[|s| - 1]
  }

  function SumSquares(s: seq<nat>): nat {
    if s == [] then 0 else SumSquares(s[..|s| - 1]) + s[|s| - 1] * s[|s| - 1]
  }

  lemma {:induction false} SumsConcat(s: seq<nat>, t: seq<nat>)
    ensures SumNat(s + t) == SumNat(s) + SumNat(t) && SumSquares(s + t) == SumSquares(s) + SumSquares(t)
  {
    if t == [] {
      assert s + t == s;
    } else {
      SumsConcat(s, t[..|t| - 1]);
      assert (s + t)[..|s + t| - 1] == s + t[..|t| - 1];
    }
  }

  lemma SumsOfOne(x: nat)
    ensures SumNat([x]) == x && SumSquares([x]) == x * x
  {
    assert SumNat([]) == 0 && SumSquares([]) == 0;
  }

  lemma SumsRemove(s: seq<nat>, at: nat)
    requires at < |s|
    ensures SumNat(s) == SumNat(s[..at] + s[at + 1..]) + s[at]
    ensures SumSquares(s) == SumSquares(s[..at] + s[at + 1..]) + s[at] * s[at]
  {
    hide SumNat, SumSquares;
    var front, x, back := s[..at], s[at], s[at + 1..];
    assert s == front + ([x] + back);
    SumsConcat(front, [x] + back);
    SumsConcat([x], back);
    SumsConcat(front, back);
    SumsOfOne(x);
  }

  /** Sums do not depend on the order. */
  lemma {:induction false} SumsPermute(s: seq<nat>, t: seq<nat>)
    requires multiset(s) == multiset(t)
    ensures SumNat(s) == SumNat(t) && SumSquares(s) == SumSquares(t)
    decreases |s|
  {
    if s == [] {
      assert |multiset(t)| == 0;
    } else {
      var front, last := s[..|s| - 1], s[|s| - 1];
      assert s == front + [last];
      assert last in multiset(s);
      var at :| 0 <= at < |t| && t[at] == last;
      MultisetRemove(t, at);
      assert multiset(front) == multiset(s) - multiset{last};
      SumsPermute(front, t[..at] + t[at + 1..]);
      SumsRemove(t, at);
    }
  }

  lemma SquaresStep(k: nat)
    ensures (k + 1) * k * (2 * k + 1) == k * (k - 1) * (2 * k - 1) + 6 * (k * k)
  {
    assert (k + 1) * (2 * k + 1) == 2 * (k * k) + 3 * k + 1;
    assert (k - 1) * (2 * k - 1) == 2 * (k * k) - 3 * k + 1;
    assert (k + 1) * k * (2 * k + 1) == k * ((k + 1) * (2 * k + 1));
    assert k * (k - 1) * (2 * k - 1) == k * ((k - 1) * (2 * k - 1));
  }

  lemma {:induction false} ArangeSums(n: nat)
    ensures 2 * SumNat(Arange(n)) == n * (n - 1)
    ensures 6 * SumSquares(Arange(n)) == n * (n - 1) * (2 * n - 1)
  {
    if n > 0 {
      ArangeSums(n - 1);
      assert Arange(n)[..n - 1] == Arange(n - 1);
      SquaresStep(n - 1);
      assert n * (n - 1) == (n - 1) * (n - 2) + 2 * (n - 1);
    }
  }

  lemma {:induction false} MomentsOfRanks(r: seq<nat>, q: seq<nat>)
    requires |r| == |q|
    ensures var m := MomentsOf(AsCells(r), AsCells(q));
      m.n == |r| as real && m.a == SumNat(r) as real && m.aa == SumSquares(r) as real
  {
    if r != [] {
      MomentsOfRanks(r[..|r| - 1], q[..|q| - 1]);
      assert AsCells(r)[..|r| - 1] == AsCells(r[..|r| - 1]);
      assert AsCells(q)[..|q| - 1] == AsCells(q[..|q| - 1]);
      var x := r[|r| - 1];
      assert (x * x) as real == x as real * x as real;
    }
  }

  /** n squared times 12 the variance of 0 .. n - 1. */
  lemma RankVariance(v: seq<real>, q: seq<nat>)
    requires |v| == |q|
    ensures var n := |v| as real;
      12.0 * VarA(MomentsOf(AsCells(RankSeq(v)), AsCells(q))) == n * n * (n * n - 1.0)
  {
    hide MomentsOf, SumNat, SumSquares, RankSeq, Arange;
    var n := |v|;
    MomentsOfRanks(RankSeq(v), q);
    RanksArePermutation(v);
    SumsPermute(RankSeq(v), Arange(n));
    ArangeSums(n);
    RankVarianceAlgebra(n, SumNat(RankSeq(v)), SumSquares(RankSeq(v)));
  }

  lemma RankVarianceAlgebra(n: nat, s: nat, q: nat)
    requires 2 * s == n * (n - 1) && 6 * q == n * (n - 1) * (2 * n - 1)
    ensures var x := n as real;
      12.0 * (q as real * x - s as real * s as real) == x * x * (x * x - 1.0)
  {
    calc {
      12 * (q * n - s * s);
    ==
      2 * n * (6 * q) - 3 * (2 * s) * (2 * s);
    ==
      2 * n * (n * (n - 1) * (2 * n - 1)) - 3 * (n * (n - 1)) * (n * (n - 1));
    ==
      n * n * (n * n - 1);
    }
    assert (12 * (q * n - s * s)) as real == 12.0 * (q as real * n as real - s as real * s as real);
    assert (n * n * (n * n - 1)) as real == n as real * n as real * (n as real * n as real - 1.0);
  }

  /** c is n * (n * n - 1) / 12. */
  predicate IsRankSpread(n: real, c: real) {
    12.0 * c == n * (n * n - 1.0)
  }

  /** The centred sum of squares of n ordinal ranks is n * (n * n - 1) / 12, whatever the values. */
  lemma RankSpread(v: seq<real>, q: seq<nat>)
    requires |v| == |q| && |v| > 0
    ensures var w, m, n := AsCells(RankSeq(v)), MomentsOf(AsCells(RankSeq(v)), AsCells(q)), |v| as real;
      && m.n == n
      && IsRankSpread(n, CentredProducts(Masked(w, AsCells(q)), Masked(w, AsCells(q)), m.a / m.n, m.a / m.n))
  {
    hide MomentsOf, CentredProducts, Masked, RankSeq, SumNat, SumSquares, AsCells, VarA;
    var w, p := AsCells(RankSeq(v)), AsCells(q);
    MomentsOfRanks(RankSeq(v), q);
    CentredSquares(w, p);
    RankVariance(v, q);
    var m, n := MomentsOf(w, p), |v| as real;
    CancelFactor(n, CentredProducts(Masked(w, p), Masked(w, p), m.a / m.n, m.a / m.n), n * n - 1.0);
  }

  lemma CancelFactor(n: real, c: real, k: real)
    requires n > 0.0 && 12.0 * (n * c) == n * n * k
    ensures 12.0 * c == n * k
  {
    assert n * (12.0 * c - n * k) == 0.0;
  }

  lemma SpreadLarge(n: real, c: real)
    requires n >= 3.0 && IsRankSpread(n, c)
    ensures c >= 2.0
  {
    assert n * n >= 9.0;
    assert n * (n * n - 1.0) >= 24.0;
  }

  lemma SqrtOfSquare(sqrt: real -> real, c: real)
    requires IsSqrt(sqrt) && c >= 0.0
    ensures sqrt(c * c) == c
  {
    ProductNonNegative(c, c);
    assert SqrtAt(sqrt, c * c);
    SquareInjective(sqrt(c * c), c);
  }

  /** The rank correlation of a row is defined exactly when the row has three complete pairs. */
  lemma SpearmanDefinedIff(sqrt: real -> real, a: seq<Cell>, b: seq<Cell>)
    requires |a| == |b| && IsSqrt(sqrt)
    ensures RowSpearman(sqrt, a, b).Val? <==> MomentsOf(a, b).n >= MIN_ASSETS_PER_ROW
  {
    hide MomentsOf, CentredProducts, Masked, RankSeq, SumNat, SumSquares, AsCells, Kept, IsSqrt, GuardedRatio, IsRankSpread;
    KeptLengths(a, b);
    var va, vb := Kept(a, b), Kept(b, a);
    var ra, rb := AsCells(RankSeq(va)), AsCells(RankSeq(vb));
    MomentsOfRanks(RankSeq(va), RankSeq(vb));
    if |va| >= 3 {
      RankSpread(va, RankSeq(vb));
      RankSpread(vb, RankSeq(va));
      SwappedMoments(ra, rb);
      var m, n := MomentsOf(ra, rb), |va| as real;
      var sa := CentredProducts(Masked(ra, rb), Masked(ra, rb), m.a / m.n, m.a / m.n);
      var sb := CentredProducts(Masked(rb, ra), Masked(rb, ra), m.b / m.n, m.b / m.n);
      SpreadsGiveValue(sqrt, n, CentredProducts(ra, rb, m.a / m.n, m.b / m.n), sa, sb);
    }
  }

  lemma SpreadsGiveValue(sqrt: real -> real, n: real, c: real, sa: real, sb: real)
    requires IsSqrt(sqrt) && n >= 3.0 && IsRankSpread(n, sa) && IsRankSpread(n, sb)
    ensures GuardedRatio(sqrt, c, sa, sb).Val?
  {
    SpreadLarge(n, sa);
    SqrtOfSquare(sqrt, sa);
    assert sa == sb;
    hide IsRankSpread, IsSqrt;
    RootValue(sqrt, c, sa);
  }

  lemma RootValue(sqrt: real -> real, c: real, s: real)
    requires sqrt(s * s) >= 2.0
    ensures GuardedRatio(sqrt, c, s, s).Val?
  {
  }

  /** Whenever the information coefficient of a row is defined, so is its rank coefficient. */
  lemma PearsonImpliesSpearman(sqrt: real -> real, a: seq<Cell>, b: seq<Cell>)
    requires |a| == |b| && IsSqrt(sqrt)
    ensures RowPearson(sqrt, a, b).Val? ==> RowSpearman(sqrt, a, b).Val?
  {
    SpearmanDefinedIff(sqrt, a, b);
  }

  /** A row's coefficient, when defined, is Pearson's correlation and lies in [-1, 1]. */
  lemma RowPearsonBounded(sqrt: real -> real, a: seq<Cell>, b: seq<Cell>)
    requires |a| == |b| && IsSqrt(sqrt) && RowPearson(sqrt, a, b).Val?
    ensures RowPearson(sqrt, a, b) == Pearson(sqrt, a, b) && -1.0 <= RowPearson(sqrt, a, b).v <= 1.0
  {
    hide MomentsOf, CentredProducts, Masked, IsSqrt, GuardedRatio, Ratio;
    var m := MomentsOf(a, b);
    GuardedIsRatio(sqrt, CentredProducts(a, b, m.a / m.n, m.b / m.n),
      CentredProducts(Masked(a, b), Masked(a, b), m.a / m.n, m.a / m.n),
      CentredProducts(Masked(b, a), Masked(b, a), m.b / m.n, m.b / m.n));
    CorrIsPearson(sqrt, a, b);
    CorrBounded(sqrt, a, b);
  }

  // ---------------------------------------------------------------- all rows

  predicate InUnit(x: real) {
    -1.0 <= x <= 1.0
  }

  ghost predicate SameShape(values: seq<seq<Cell>>, forward: seq<seq<Cell>>) {
    |values| == |forward| && forall t :: 0 <= t < |values| ==> |values[t]| == |forward[t]|
  }

  /** The rows among the first n that have a Pearson coefficient, in order. */
  ghost function DefinedRows(sqrt: real -> real, values: seq<seq<Cell>>, forward: seq<seq<Cell>>, n: nat): (rows: seq<nat>)
    requires SameShape(values, forward) && n <= |values|
    ensures forall t: nat :: t in rows <==> t < n && RowPearson(sqrt, values[t], forward[t]).Val?
    ensures forall i, j :: 0 <= i < j < |rows| ==> rows[i] < rows[j]
  {
    if n == 0 then []
    else
      var before := DefinedRows(sqrt, values, forward, n - 1);
      assert forall i :: 0 <= i < |before| ==> before[i] in before;
      if RowPearson(sqrt, values[n - 1], forward[n - 1]).Val? then before + [n - 1] else before
  }

  /** Entry i of both lists belongs to row rows[i], and lies in [-1, 1]. */
  ghost predicate Reported(sqrt: real -> real, values: seq<seq<Cell>>, forward: seq<seq<Cell>>, rows: seq<nat>, ics: seq<real>, rankIcs: seq<real>)
    requires SameShape(values, forward)
  {
    && |ics| == |rankIcs| == |rows|
    && forall i :: 0 <= i < |rows| ==>
         && rows[i] < |values|
         && Val(ics[i]) == RowPearson(sqrt, values[rows[i]], forward[rows[i]])
         && Val(rankIcs[i]) == RowSpearman(sqrt, values[rows[i]], forward[rows[i]])
         && InUnit(ics[i]) && InUnit(rankIcs[i])
  }

  lemma ReportedNext(sqrt: real -> real, values: seq<seq<Cell>>, forward: seq<seq<Cell>>, rows: seq<nat>, ics: seq<real>, rankIcs: seq<real>, t: nat)
    requires IsSqrt(sqrt) && SameShape(values, forward) && t < |values| && Reported(sqrt, values, forward, rows, ics, rankIcs)
    requires RowPearson(sqrt, values[t], forward[t]).Val?
    ensures RowSpearman(sqrt, values[t], forward[t]).Val?
    ensures Reported(sqrt, values, forward, rows + [t],
      ics + [RowPearson(sqrt, values[t], forward[t]).v], rankIcs + [RowSpearman(sqrt, values[t], forward[t]).v])
  {
    hide RowPearson, RowSpearman, IsSqrt, InUnit;
    PearsonInUnit(sqrt, values[t], forward[t]);
    RankIcBounded(sqrt, values[t], forward[t]);
  }

  lemma RowsStep(sqrt: real -> real, values: seq<seq<Cell>>, forward: seq<seq<Cell>>, t: nat)
    requires SameShape(values, forward) && t < |values|
    ensures var rows := DefinedRows(sqrt, values, forward, t);
      DefinedRows(sqrt, values, forward, t + 1) == if RowPearson(sqrt, values[t], forward[t]).Val? then rows + [t] else rows
  {
    hide RowPearson;
  }

  /** `_row_correlations`: rows without a Pearson coefficient are skipped in both lists. */
  method RowCorrelations(sqrt: real -> real, values: seq<seq<Cell>>, forward: seq<seq<Cell>>) returns (ics: seq<real>, rankIcs: seq<real>)
    requires IsSqrt(sqrt) && SameShape(values, forward)
    ensures Reported(sqrt, values, forward, DefinedRows(sqrt, values, forward, |values|), ics, rankIcs)
  {
    ics, rankIcs := [], [];
    ghost var rows: seq<nat> := [];
    for t := 0 to |values|
      invariant rows == DefinedRows(sqrt, values, forward, t) && Reported(sqrt, values, forward, rows, ics, rankIcs)
    {
      RowsStep(sqrt, values, forward, t);
      hide RowPearson, RowSpearman, IsSqrt, Reported, DefinedRows;
      var ic := RowPearson(sqrt, values[t], forward[t]);
      if ic.Val? {
        ReportedNext(sqrt, values, forward, rows, ics, rankIcs, t);
        ics := ics + [ic.v];
        rankIcs := rankIcs + [RowSpearman(sqrt, values[t], forward[t]).v];
        rows := rows + [t];
      }
    }
  }

  lemma PearsonInUnit(sqrt: real -> real, a: seq<Cell>, b: seq<Cell>)
    requires |a| == |b| && IsSqrt(sqrt) && RowPearson(sqrt, a, b).Val?
    ensures InUnit(RowPearson(sqrt, a, b).v)
  {
    hide RowPearson, IsSqrt;
    RowPearsonBounded(sqrt, a, b);
  }

  lemma RankIcBounded(sqrt: real -> real, a: seq<Cell>, b: seq<Cell>)
    requires |a| == |b| && IsSqrt(sqrt) && RowPearson(sqrt, a, b).Val?
    ensures RowSpearman(sqrt, a, b).Val? && InUnit(RowSpearman(sqrt, a, b).v)
  {
    PearsonImpliesSpearman(sqrt, a, b);
    KeptLengths(a, b);
    hide RowPearson, MomentsOf, IsSqrt;
    RowPearsonBounded(sqrt, AsCells(RankSeq(Kept(a, b))), AsCells(RankSeq(Kept(b, a))));
  }

  function SumReal(x: seq<real>): real {
    if x == [] then 0.0 else SumReal(x[..|x| - 1]) + x[|x| - 1]
  }

  /** `float(np.mean(ics)) if ics else 0.0`. */
  function MeanOr0(x: seq<real>): real {
    if x == [] then 0.0 else SumReal(x) / |x| as real
  }

  lemma {:induction false} SumBounded(x: seq<real>)
    requires forall i :: 0 <= i < |x| ==> InUnit(x[i])
    ensures -(|x| as real) <= SumReal(x) <= |x| as real
  {
    if x != [] {
      SumBounded(x[..|x| - 1]);
    }
  }

  lemma MeanBounded(x: seq<real>)
    requires forall i :: 0 <= i < |x| ==> InUnit(x[i])
    ensures InUnit(MeanOr0(x))
  {
    SumBounded(x);
    if x != [] {
      var n, s := |x| as real, SumReal(x);
      var q := s / n;
      assert q * n == s;
    }
  }

  const IC_NORM_CAP := 0.10

  function MinReal(x: real, y: real): real {
    if x <= y then x else y
  }

  /** The weighted sum before its rounding. */
  function RawScore(rankIc: real, pValue: real): real {
    0.5 * MinReal(AbsOf(rankIc) / IC_NORM_CAP, 1.0) + 0.5 * MinReal(1.0 - pValue, 1.0)
  }

  /** Rounding to an integer, halves to the even neighbour. */
  function RoundHalfEven(y: real): int {
    var low := y.Floor;
    var rest := y - low as real;
    if rest < 0.5 || (rest == 0.5 && low % 2 == 0) then low else low + 1
  }

  const MILLION := 1000000.0

  /** `_composite_score`: the sum rounded to six digits. */
  function CompositeScore(rankIc: real, pValue: real): real {
    RoundHalfEven(RawScore(rankIc, pValue) * MILLION) as real / MILLION
  }

  lemma RoundBetween(y: real, top: nat)
    requires 0.0 <= y <= top as real && top % 2 == 0
    ensures 0 <= RoundHalfEven(y) <= top
    ensures RoundHalfEven(y) == top <==> y >= top as real - 0.5
  {
    var low := y.Floor;
    assert low <= top && low >= 0;
  }

  lemma RawScoreInUnit(rankIc: real, pValue: real)
    requires 0.0 <= pValue <= 1.0
    ensures 0.0 <= RawScore(rankIc, pValue) <= 1.0
    ensures RawScore(rankIc, pValue) == 1.0 <==> AbsOf(rankIc) >= IC_NORM_CAP && pValue == 0.0
  {
    var q := AbsOf(rankIc) / IC_NORM_CAP;
    assert q * IC_NORM_CAP == AbsOf(rankIc);
  }

  /** A p-value in [0, 1] gives a score in [0, 1], and a score of 1 exactly from half a millionth below on. */
  lemma ScoreInUnit(rankIc: real, pValue: real)
    requires 0.0 <= pValue <= 1.0
    ensures 0.0 <= CompositeScore(rankIc, pValue) <= 1.0
    ensures CompositeScore(rankIc, pValue) == 1.0 <==> RawScore(rankIc, pValue) >= 0.9999995
  {
    RawScoreInUnit(rankIc, pValue);
    hide RawScore, RoundHalfEven;
    RoundBetween(RawScore(rankIc, pValue) * MILLION, 1000000);
  }
}
