/** What each operator's cells are, told by the cells of its arguments. */
module OperatorLaws {

  import opened Basics
  import opened Cells
  import opened FactorDsl
  import opened Evaluator
  import opened EvaluatorRun
  import RollingRank
  import RollingCorr

  // ---------------------------------------------------------------- the cells of an argument

  /** The cell in row t and column j; missing outside the panel. */
  ghost function CellAt(x: Panel, t: int, j: int): Cell {
    if 0 <= t < |x| && 0 <= j < |x[t]| then x[t][j] else Missing
  }

  ghost predicate Finite(x: Panel, t: int, j: int) {
    CellAt(x, t, j).Val?
  }

  /** The number in a finite cell. */
  ghost function At(x: Panel, t: int, j: int): real {
    if Finite(x, t, j) then CellAt(x, t, j).v else 0.0
  }

  ghost function Magnitude(v: real): real {
    if v < 0.0 then -v else v
  }

  /** Column j has a number in all rows lo .. hi - 1. */
  ghost predicate FiniteRows(x: Panel, j: nat, lo: int, hi: int) {
    forall t :: lo <= t < hi ==> Finite(x, t, j)
  }

  /** The deviations from m sum to zero. */
  ghost predicate IsMean(x: Panel, j: nat, lo: int, hi: int, m: real) {
    Total(t => At(x, t, j) - m, lo, hi) == 0.0
  }

  /** s is the mean of the squared deviations from m. */
  ghost predicate IsVariance(x: Panel, j: nat, lo: int, hi: int, m: real, s: real) {
    s * (hi - lo) as real == Total(t => (At(x, t, j) - m) * (At(x, t, j) - m), lo, hi)
  }

  // ---------------------------------------------------------------- one law for each operator

  /** The largest (or smallest) number of the window: one of them, and none is beyond it. */
  ghost predicate MaxLaw(x: Panel, j: nat, lo: int, hi: int, c: Cell) {
    c.Val? && (exists t :: lo <= t < hi && At(x, t, j) == c.v) && forall t :: lo <= t < hi ==> At(x, t, j) <= c.v
  }

  ghost predicate MinLaw(x: Panel, j: nat, lo: int, hi: int, c: Cell) {
    c.Val? && (exists t :: lo <= t < hi && At(x, t, j) == c.v) && forall t :: lo <= t < hi ==> c.v <= At(x, t, j)
  }

  ghost predicate MeanLaw(x: Panel, j: nat, lo: int, hi: int, c: Cell) {
    c.Val? && IsMean(x, j, lo, hi, c.v)
  }

  /** The root of the mean squared deviation from the mean. */
  ghost predicate StdLaw(k: Kernel, x: Panel, j: nat, lo: int, hi: int, c: Cell) {
    exists m, s :: IsMean(x, j, lo, hi, m) && IsVariance(x, j, lo, hi, m, s) && c == Val(k.sqrt(s))
  }

  /** The distance from the mean in deviations; zero where there is no deviation. */
  ghost predicate ZScoreLaw(k: Kernel, x: Panel, j: nat, lo: int, hi: int, c: Cell) {
    exists m, s :: IsMean(x, j, lo, hi, m) && IsVariance(x, j, lo, hi, m, s) && c.Val? &&
      if k.sqrt(s) < 0.000000000001 then c.v == 0.0 else c.v * k.sqrt(s) == At(x, hi - 1, j) - m
  }

  ghost predicate ReductionLaw(k: Kernel, op: Operator, x: Panel, j: nat, lo: int, hi: int, c: Cell)
    requires op in {TsMean, TsStd, TsMax, TsMin, ZScore}
  {
    match op
    case TsMax => MaxLaw(x, j, lo, hi, c)
    case TsMin => MinLaw(x, j, lo, hi, c)
    case TsMean => MeanLaw(x, j, lo, hi, c)
    case TsStd => StdLaw(k, x, j, lo, hi, c)
    case ZScore => ZScoreLaw(k, x, j, lo, hi, c)
  }

  // ---------------------------------------------------------------- sums over a window

  /** A slice of a column, as a window the evaluator reduces. */
  ghost predicate IsWindow(x: Panel, j: nat, lo: int, w: seq<Cell>) {
    forall i :: 0 <= i < |w| ==> w[i] == CellAt(x, lo + i, j)
  }

  lemma FrontWindow(x: Panel, j: nat, lo: int, w: seq<Cell>)
    requires IsWindow(x, j, lo, w) && AllFinite(w) && w != []
    ensures IsWindow(x, j, lo, w[..|w| - 1]) && AllFinite(w[..|w| - 1])
    ensures w[|w| - 1] == Val(At(x, lo + (|w| - 1), j))
  {
    assert w[|w| - 1] in w;
    assert forall c :: c in w[..|w| - 1] ==> c in w;
  }

  lemma {:induction false} SumIsTotal(x: Panel, j: nat, lo: int, w: seq<Cell>, m: real)
    requires IsWindow(x, j, lo, w) && AllFinite(w)
    ensures Total(t => At(x, t, j) - m, lo, lo + |w|) == SumOf(w) - |w| as real * m
  {
    if w != [] {
      FrontWindow(x, j, lo, w);
      hide IsWindow;
      SumIsTotal(x, j, lo, w[..|w| - 1], m);
    }
  }

  lemma {:induction false} SquaresAreTotal(x: Panel, j: nat, lo: int, w: seq<Cell>, m: real)
    requires IsWindow(x, j, lo, w) && AllFinite(w)
    ensures Total(t => (At(x, t, j) - m) * (At(x, t, j) - m), lo, lo + |w|) == SquaresAround(w, m)
  {
    if w != [] {
      FrontWindow(x, j, lo, w);
      hide IsWindow;
      SquaresAreTotal(x, j, lo, w[..|w| - 1], m);
    }
  }

  lemma QuotientTimes(x: real, y: real)
    requires y != 0.0
    ensures x / y * y == x && y * (x / y) == x
  {
  }

  lemma MeanIs(x: Panel, j: nat, lo: int, w: seq<Cell>)
    requires IsWindow(x, j, lo, w) && AllFinite(w) && w != []
    ensures IsMean(x, j, lo, lo + |w|, MeanOf(w))
  {
    SumIsTotal(x, j, lo, w, MeanOf(w));
    QuotientTimes(SumOf(w), |w| as real);
  }

  lemma VarianceIs(x: Panel, j: nat, lo: int, w: seq<Cell>)
    requires IsWindow(x, j, lo, w) && AllFinite(w) && w != []
    ensures IsVariance(x, j, lo, lo + |w|, MeanOf(w), SquaresAround(w, MeanOf(w)) / |w| as real)
  {
    SquaresAreTotal(x, j, lo, w, MeanOf(w));
    QuotientTimes(SquaresAround(w, MeanOf(w)), |w| as real);
  }

  lemma {:induction false} ExtremeIs(w: seq<Cell>, largest: bool)
    requires AllFinite(w) && w != []
    ensures Val(ExtremeOf(w, largest)) in w
    ensures forall i :: 0 <= i < |w| ==> if largest then w[i].v <= ExtremeOf(w, largest) else ExtremeOf(w, largest) <= w[i].v
  {
    var front, last := w[..|w| - 1], w[|w| - 1];
    assert w == front + [last] && last in w;
    if |w| > 1 {
      ExtremeIs(front, largest);
      assert forall c :: c in front ==> c in w;
    }
  }

  lemma MaxIs(x: Panel, j: nat, lo: int, w: seq<Cell>)
    requires IsWindow(x, j, lo, w) && AllFinite(w) && w != []
    ensures MaxLaw(x, j, lo, lo + |w|, Val(ExtremeOf(w, true)))
    ensures MinLaw(x, j, lo, lo + |w|, Val(ExtremeOf(w, false)))
  {
    ExtremeIs(w, true);
    ExtremeIs(w, false);
    hide ExtremeOf;
    var i :| 0 <= i < |w| && w[i] == Val(ExtremeOf(w, true));
    var l :| 0 <= l < |w| && w[l] == Val(ExtremeOf(w, false));
    assert CellAt(x, lo + i, j) == w[i] && CellAt(x, lo + l, j) == w[l];
    assert At(x, lo + i, j) == ExtremeOf(w, true) && At(x, lo + l, j) == ExtremeOf(w, false);
    forall t | lo <= t < lo + |w| ensures ExtremeOf(w, false) <= At(x, t, j) <= ExtremeOf(w, true) {
      assert w[t - lo] in w && w[t - lo] == CellAt(x, lo + (t - lo), j);
    }
  }

  lemma StdIs(k: Kernel, x: Panel, j: nat, lo: int, w: seq<Cell>)
    requires IsWindow(x, j, lo, w) && AllFinite(w) && w != []
    ensures StdLaw(k, x, j, lo, lo + |w|, Val(StdOf(k, w)))
  {
    MeanIs(x, j, lo, w);
    VarianceIs(x, j, lo, w);
    hide IsMean, IsVariance, MeanOf, SquaresAround;
  }

  lemma ZScoreIs(k: Kernel, x: Panel, j: nat, lo: int, w: seq<Cell>)
    requires IsWindow(x, j, lo, w) && AllFinite(w) && w != []
    ensures ZScoreLaw(k, x, j, lo, lo + |w|, WindowCell(k, ZScore, w))
  {
    MeanIs(x, j, lo, w);
    VarianceIs(x, j, lo, w);
    FrontWindow(x, j, lo, w);
    hide IsMean, IsVariance, MeanOf, SquaresAround, At;
    if StdOf(k, w) >= 0.000000000001 {
      QuotientTimes(w[|w| - 1].v - MeanOf(w), StdOf(k, w));
    }
  }

  /** A reduction of a complete window obeys its law. */
  lemma WindowLaw(k: Kernel, op: Operator, x: Panel, j: nat, lo: int, w: seq<Cell>)
    requires op in {TsMean, TsStd, TsMax, TsMin, ZScore} && IsWindow(x, j, lo, w) && AllFinite(w) && w != []
    ensures ReductionLaw(k, op, x, j, lo, lo + |w|, WindowCell(k, op, w))
  {
    MeanIs(x, j, lo, w);
    StdIs(k, x, j, lo, w);
    ZScoreIs(k, x, j, lo, w);
    MaxIs(x, j, lo, w);
    hide IsMean, StdLaw, ZScoreLaw, MaxLaw, MinLaw, MeanOf, StdOf, ExtremeOf, IsWindow;
  }

  // ---------------------------------------------------------------- the cell an operator computes

  /** A windowed reduction: missing before the window is complete or when a cell in it is missing, else as the law says. */
  ghost predicate WindowedLaw(k: Kernel, op: Operator, x: Panel, window: int, t: nat, j: nat, c: Cell)
    requires op in {TsMean, TsStd, TsMax, TsMin, ZScore}
  {
    var lo := t - window + 1;
    if lo < 0 || !FiniteRows(x, j, lo, t + 1) then c == Missing else ReductionLaw(k, op, x, j, lo, t + 1, c)
  }

  /** The change over `window` rows. */
  ghost predicate DeltaLaw(x: Panel, window: int, t: nat, j: nat, c: Cell) {
    if Finite(x, t, j) && Finite(x, t - window, j) then c == Val(At(x, t, j) - At(x, t - window, j)) else c == Missing
  }

  lemma ColumnWindow(x: Panel, j: nat, lo: nat, hi: nat, height: nat, width: nat)
    requires Shaped(x, height, width) && j < width && lo < hi <= height
    ensures var w := Column(x, j)[lo..hi];
      && w != [] && |w| == hi - lo && (AllFinite(w) <==> FiniteRows(x, j, lo, hi))
      && IsWindow(x, j, lo, w)
  {
    var w := Column(x, j)[lo..hi];
    forall t: int | lo <= t < hi ensures w[t - lo] == x[t][j] && w[t - lo] in w && (Finite(x, t, j) <==> w[t - lo].Val?) {
    }
    if FiniteRows(x, j, lo, hi) {
      forall c | c in w ensures c.Val? {
        var i :| 0 <= i < |w| && w[i] == c;
        assert Finite(x, lo + i, j);
      }
    }
    forall i | 0 <= i < |w| ensures w[i] == CellAt(x, lo + i, j) {
      assert w[lo + i - lo] == x[lo + i][j];
    }
  }

  lemma ReductionOf(k: Kernel, op: Operator, x: Panel, j: nat, lo: int, w: seq<Cell>)
    requires op in {TsMean, TsStd, TsMax, TsMin, ZScore} && IsWindow(x, j, lo, w) && w != []
    ensures if AllFinite(w) then ReductionLaw(k, op, x, j, lo, lo + |w|, WindowCell(k, op, w)) else WindowCell(k, op, w) == Missing
  {
    if AllFinite(w) {
      WindowLaw(k, op, x, j, lo, w);
    }
  }

  lemma WindowedCell(k: Kernel, op: Operator, x: Panel, window: int, height: nat, width: nat, t: nat, j: nat)
    requires op in {TsMean, TsStd, TsMax, TsMin, ZScore} && window >= 1 && Shaped(x, height, width) && t < height && j < width
    ensures var c, lo := ApplyOp(k, op, [x], window, height, width)[t][j], t - window + 1;
      if lo < 0 then c == Missing else c == WindowCell(k, op, Column(x, j)[lo..t + 1])
  {
    if t - window + 1 >= 0 {
      WindowOpCell(k, op, x, window, height, width, t, j);
      hide OpRowAt, WindowCell;
    }
  }

  lemma WindowedIs(k: Kernel, op: Operator, x: Panel, window: int, height: nat, width: nat, t: nat, j: nat, w: seq<Cell>)
    requires op in {TsMean, TsStd, TsMax, TsMin, ZScore} && 1 <= window <= t + 1 && Shaped(x, height, width) && t < height && j < width
    requires w == Column(x, j)[t - window + 1..t + 1]
    ensures w != [] && WindowedLaw(k, op, x, window, t, j, WindowCell(k, op, w))
  {
    var lo := t - window + 1;
    ColumnWindow(x, j, lo, t + 1, height, width);
    hide WindowCell, ReductionLaw, FiniteRows, IsWindow, AllFinite, Column, Shaped;
    ReductionOf(k, op, x, j, lo, w);
    assert lo + |w| == t + 1;
  }

  lemma ReductionCell(k: Kernel, op: Operator, x: Panel, window: int, height: nat, width: nat, t: nat, j: nat)
    requires op in {TsMean, TsStd, TsMax, TsMin, ZScore} && window >= 1 && Shaped(x, height, width) && t < height && j < width
    ensures WindowedLaw(k, op, x, window, t, j, ApplyOp(k, op, [x], window, height, width)[t][j])
  {
    WindowedCell(k, op, x, window, height, width, t, j);
    if window <= t + 1 {
      WindowedIs(k, op, x, window, height, width, t, j, Column(x, j)[t - window + 1..t + 1]);
      hide ApplyOp, WindowCell, WindowedLaw;
    } else {
      hide ApplyOp;
    }
  }

  lemma DeltaOpCell(k: Kernel, x: Panel, window: int, height: nat, width: nat, t: nat, j: nat)
    requires window >= 1 && Shaped(x, height, width) && t < height && j < width
    ensures DeltaLaw(x, window, t, j, ApplyOp(k, Delta, [x], window, height, width)[t][j])
  {
    if t >= window {
      DeltaCell(k, x, window, height, width, t, j);
      hide OpRowAt;
    }
  }

  // ---------------------------------------------------------------- ranks

  /** The share of the other finite cells of the row that are smaller, or equal and further left. */
  ghost predicate CrossRankLaw(x: Panel, width: nat, t: nat, j: nat, c: Cell) {
    var finite := set q | 0 <= q < width && Finite(x, t, q);
    var lower := set q | 0 <= q < width && Finite(x, t, q)
                         && (At(x, t, q) < At(x, t, j) || (At(x, t, q) == At(x, t, j) && q < j));
    if !Finite(x, t, j) || |finite| < 2 then c == Missing
    else c.Val? && c.v * (|finite| - 1) as real == |lower| as real
  }

  lemma CrossRankRow(x: Panel, width: nat, t: nat, j: nat)
    requires t < |x| && |x[t]| == width && j < width
    ensures CrossRankLaw(x, width, t, j, CsRankCell(x[t], j))
  {
    var row := x[t];
    var q := (i: int) => 0 <= i < |row| && row[i].Val?;
    assert row[0..width] == row;
    RollingRank.CountRows(row, 0, width, RollingRank.IsFinite, q);
    assert Among(0, width, q) == set i | 0 <= i < width && Finite(x, t, i);
    if row[j].Val? {
      assert LowerColumns(row, j) == set i | 0 <= i < width && Finite(x, t, i)
                                             && (At(x, t, i) < At(x, t, j) || (At(x, t, i) == At(x, t, j) && i < j));
      hide LowerColumns, CountIf;
      if FiniteIn(row) >= 2 {
        QuotientTimes(|LowerColumns(row, j)| as real, (FiniteIn(row) - 1) as real);
      }
    }
  }

  lemma CrossRankCell(k: Kernel, x: Panel, window: int, height: nat, width: nat, t: nat, j: nat)
    requires Shaped(x, height, width) && t < height && j < width
    ensures CrossRankLaw(x, width, t, j, ApplyOp(k, Rank, [x], window, height, width)[t][j])
  {
    assert History([x], t, 0, height)[0] == [x[t]];
    assert ApplyOp(k, Rank, [x], window, height, width)[t][j] == CsRankCell(x[t], j);
    hide ApplyOp, CsRankCell, CrossRankLaw;
    CrossRankRow(x, width, t, j);
  }

  lemma TimeRankCell(k: Kernel, x: Panel, window: int, height: nat, width: nat, t: nat, j: nat)
    requires Shaped(x, height, width) && t < height && j < width
    ensures RollingRank.MidRankOfRows(Column(x, j), window, t, ApplyOp(k, TsRank, [x], window, height, width)[t][j])
  {
    RollingRank.RankAtRows(Column(x, j), window, t);
    if window > 1 {
      TsRankCell(k, x, window, height, width, t, j);
    } else {
      TsRankSmallWindow(k, x, window, height, width, t, j);
      SmallWindow(Column(x, j), window, t);
    }
  }

  lemma SmallWindow(series: seq<Cell>, window: int, t: nat)
    requires t < |series| && window <= 1
    ensures RollingRank.MidRankOfRows(series, window, t, Missing)
  {
    if window == 1 {
      assert (set r | t <= r <= t && series[r].Val?) <= {t};
      SubsetSize(set r | t <= r <= t && series[r].Val?, {t as int});
    }
  }

  // ---------------------------------------------------------------- scaling

  /** The share of the row's total magnitude, which must not be all but zero. */
  ghost predicate ScaleLaw(x: Panel, width: nat, t: nat, j: nat, c: Cell) {
    var magnitude := Total(q => Magnitude(At(x, t, q)), 0, width);
    if (exists q :: 0 <= q < width && !Finite(x, t, q)) || magnitude < 0.000000000001 then c == Missing
    else c.Val? && c.v * magnitude == At(x, t, j)
  }

  lemma LastMagnitude(row: Row)
    requires AllFinite(row) && row != []
    ensures AllFinite(row[..|row| - 1]) && row[|row| - 1].Val?
    ensures AbsTotal(row) == AbsTotal(row[..|row| - 1]) + Magnitude(row[|row| - 1].v)
  {
    assert row[|row| - 1] in row;
  }

  lemma {:induction false} MagnitudeIs(x: Panel, t: nat, row: Row)
    requires AllFinite(row) && forall q :: 0 <= q < |row| ==> CellAt(x, t, q) == row[q]
    ensures Total(q => Magnitude(At(x, t, q)), 0, |row|) == AbsTotal(row) >= 0.0
  {
    if row != [] {
      var n := |row| - 1;
      LastMagnitude(row);
      assert CellAt(x, t, n) == row[n];
      assert At(x, t, n) == row[n].v;
      hide AllFinite, AbsTotal, CellAt, At;
      MagnitudeIs(x, t, row[..n]);
    } else {
      assert AbsTotal(row) == 0.0;
    }
  }

  lemma ScaleOpCell(k: Kernel, x: Panel, window: int, height: nat, width: nat, t: nat, j: nat)
    requires Shaped(x, height, width) && t < height && j < width
    ensures ScaleLaw(x, width, t, j, ApplyOp(k, Scale, [x], window, height, width)[t][j])
  {
    var row := x[t];
    assert History([x], t, 0, height)[0] == [x[t]];
    assert ApplyOp(k, Scale, [x], window, height, width)[t][j] == ScaleCell(row, j);
    if AllFinite(row) {
      MagnitudeIs(x, t, row);
      assert forall q :: 0 <= q < width ==> row[q] in row;
      if AbsTotal(row) >= EPS {
        QuotientTimes(row[j].v, AbsTotal(row));
      }
    } else {
      var c :| c in row && c.Missing?;
      var q :| 0 <= q < width && row[q] == c;
      assert !Finite(x, t, q);
    }
  }

  // ---------------------------------------------------------------- elementwise operators

  /** What r is to v. */
  ghost predicate UnaryNumber(k: Kernel, op: Operator, v: real, r: real)
    requires op in {Sign, Abs, Log}
  {
    match op
    case Sign => r in {-1.0, 0.0, 1.0} && r * Magnitude(v) == v && (v == 0.0 ==> r == 0.0)
    case Abs => r >= 0.0 && (r == v || r == -v)
    case Log => r == if v > 0.0 then k.log1p(v) else if v < 0.0 then -k.log1p(-v) else 0.0
  }

  ghost predicate UnaryLaw(k: Kernel, op: Operator, x: Panel, t: nat, j: nat, c: Cell)
    requires op in {Sign, Abs, Log}
  {
    if Finite(x, t, j) then c.Val? && UnaryNumber(k, op, At(x, t, j), c.v) else c == Missing
  }

  /** What the cell is to v and w. */
  ghost predicate BinaryNumber(op: Operator, v: real, w: real, c: Cell)
    requires op in {Add, Sub, Mul, Div}
  {
    match op
    case Add => c == Val(v + w)
    case Sub => c.Val? && c.v + w == v
    case Mul => c == Val(v * w)
    case Div => if w == 0.0 then c == Missing else c.Val? && c.v * w == v
  }

  ghost predicate BinaryLaw(op: Operator, x: Panel, y: Panel, t: nat, j: nat, c: Cell)
    requires op in {Add, Sub, Mul, Div}
  {
    if Finite(x, t, j) && Finite(y, t, j) then BinaryNumber(op, At(x, t, j), At(y, t, j), c) else c == Missing
  }

  lemma UnaryNumberIs(k: Kernel, op: Operator, v: real)
    requires op in {Sign, Abs, Log}
    ensures UnaryCell(k, op, Val(v)).Val? && UnaryNumber(k, op, v, UnaryCell(k, op, Val(v)).v)
  {
    if op == Log {
      assert 0.0 * k.log1p(AbsOf(v)) == 0.0;
    }
  }

  lemma UnaryOpCell(k: Kernel, op: Operator, x: Panel, window: int, height: nat, width: nat, t: nat, j: nat)
    requires op in {Sign, Abs, Log} && Shaped(x, height, width) && t < height && j < width
    ensures UnaryLaw(k, op, x, t, j, ApplyOp(k, op, [x], window, height, width)[t][j])
  {
    MappedIs(k, op, x, window, height, width);
    assert Mapped(k, op, x, height, width)[t][j] == UnaryCell(k, op, x[t][j]);
    if x[t][j].Val? {
      UnaryNumberIs(k, op, x[t][j].v);
      hide ApplyOp, Mapped, UnaryCell, UnaryNumber;
    }
  }

  lemma BinaryNumberIs(op: Operator, v: real, w: real)
    requires op in {Add, Sub, Mul, Div}
    ensures BinaryNumber(op, v, w, BinaryCell(op, Val(v), Val(w)))
  {
    if op == Div && w != 0.0 {
      QuotientTimes(v, w);
    }
  }

  lemma BinaryOpCell(k: Kernel, op: Operator, x: Panel, y: Panel, window: int, height: nat, width: nat, t: nat, j: nat)
    requires op in {Add, Sub, Mul, Div} && Shaped(x, height, width) && Shaped(y, height, width) && t < height && j < width
    ensures BinaryLaw(op, x, y, t, j, ApplyOp(k, op, [x, y], window, height, width)[t][j])
  {
    CombinedIs(k, op, x, y, window, height, width);
    assert Combined(op, x, y, height, width)[t][j] == BinaryCell(op, x[t][j], y[t][j]);
    hide ApplyOp, Combined, BinaryNumber;
    if x[t][j].Val? && y[t][j].Val? {
      BinaryNumberIs(op, x[t][j].v, y[t][j].v);
      hide BinaryCell;
    }
  }

  // ---------------------------------------------------------------- correlation

  /** The correlation of the complete pairs of the two windows. */
  ghost predicate TsCorrLaw(k: Kernel, x: Panel, y: Panel, window: int, height: nat, width: nat, t: nat, j: nat, c: Cell)
    requires Shaped(x, height, width) && Shaped(y, height, width) && t < height && j < width
  {
    var lo := t - window + 1;
    if window < 1 || lo < 0 then c == Missing
    else RollingCorr.CorrelationLaw(k.sqrt, Column(x, j)[lo..t + 1], Column(y, j)[lo..t + 1], 2, 0.0, c)
  }

  lemma OnePair(sqrt: real -> real, a: seq<Cell>, b: seq<Cell>)
    requires |a| == |b| == 1
    ensures RollingCorr.CorrelationLaw(sqrt, a, b, 2, 0.0, Missing)
  {
    SubsetSize(RollingCorr.Pairs(a, b), {0});
  }

  lemma CorrAtObeys(sqrt: real -> real, a: seq<Cell>, b: seq<Cell>, window: int, t: nat)
    requires RollingCorr.IsSqrt(sqrt) && |a| == |b| && t < |a| && 1 <= window <= t + 1
    ensures RollingCorr.CorrelationLaw(sqrt, a[t - window + 1..t + 1], b[t - window + 1..t + 1], 2, 0.0, RollingCorr.CorrAt(sqrt, a, b, window, t))
  {
    var p, q := a[t - window + 1..t + 1], b[t - window + 1..t + 1];
    hide RollingCorr.CorrelationLaw, RollingCorr.CorrFromMoments, RollingCorr.MomentsOf, RollingCorr.IsSqrt;
    if window == 1 {
      OnePair(sqrt, p, q);
    } else {
      RollingCorr.CorrObeys(sqrt, p, q);
    }
  }

  lemma TsCorrObeys(k: Kernel, x: Panel, y: Panel, window: int, height: nat, width: nat, t: nat, j: nat)
    requires RollingCorr.IsSqrt(k.sqrt) && Shaped(x, height, width) && Shaped(y, height, width) && t < height && j < width
    ensures TsCorrLaw(k, x, y, window, height, width, t, j, ApplyOp(k, TsCorr, [x, y], window, height, width)[t][j])
  {
    TsCorrCell(k, x, y, window, height, width, t, j);
    if 1 <= window <= t + 1 {
      CorrAtObeys(k.sqrt, Column(x, j), Column(y, j), window, t);
    }
    hide ApplyOp, RollingCorr.CorrelationLaw, Column, RollingCorr.IsSqrt;
  }

  // ---------------------------------------------------------------- every operator

  /** The cell an operator makes of its arguments. */
  ghost predicate OperatorLaw(k: Kernel, op: Operator, args: seq<Panel>, window: int, height: nat, width: nat, t: nat, j: nat, c: Cell)
    requires ArgsShaped(op, args, height, width) && t < height && j < width
  {
    match op
    case Rank => CrossRankLaw(args[0], width, t, j, c)
    case TsRank => RollingRank.MidRankOfRows(Column(args[0], j), window, t, c)
    case TsMean | TsStd | TsMax | TsMin | ZScore => WindowedLaw(k, op, args[0], window, t, j, c)
    case Delta => DeltaLaw(args[0], window, t, j, c)
    case Scale => ScaleLaw(args[0], width, t, j, c)
    case Sign | Abs | Log => UnaryLaw(k, op, args[0], t, j, c)
    case Add | Sub | Mul | Div => BinaryLaw(op, args[0], args[1], t, j, c)
    case TsCorr => TsCorrLaw(k, args[0], args[1], window, height, width, t, j, c)
  }

  lemma OperatorObeys(k: Kernel, op: Operator, args: seq<Panel>, window: int, height: nat, width: nat, t: nat, j: nat)
    requires RollingCorr.IsSqrt(k.sqrt) && ArgsShaped(op, args, height, width) && t < height && j < width
    requires Windowed(op) ==> window >= 1
    ensures OperatorLaw(k, op, args, window, height, width, t, j, ApplyOp(k, op, args, window, height, width)[t][j])
  {
    assert Arity(op) == 1 ==> args == [args[0]];
    assert Arity(op) == 2 ==> args == [args[0], args[1]];
    hide ApplyOp, CrossRankLaw, WindowedLaw, DeltaLaw, ScaleLaw, UnaryLaw, BinaryLaw, TsCorrLaw, RollingCorr.IsSqrt,
         RollingRank.MidRankOfRows, Column;
    match op {
      case Rank => CrossRankCell(k, args[0], window, height, width, t, j);
      case TsRank => TimeRankCell(k, args[0], window, height, width, t, j);
      case TsMean | TsStd | TsMax | TsMin | ZScore => ReductionCell(k, op, args[0], window, height, width, t, j);
      case Delta => DeltaOpCell(k, args[0], window, height, width, t, j);
      case Scale => ScaleOpCell(k, args[0], window, height, width, t, j);
      case Sign | Abs | Log => UnaryOpCell(k, op, args[0], window, height, width, t, j);
      case Add | Sub | Mul | Div => BinaryOpCell(k, op, args[0], args[1], window, height, width, t, j);
      case TsCorr => TsCorrObeys(k, args[0], args[1], window, height, width, t, j);
    }
  }

  /** Every cell of a factor is what its operator makes of the cells of its arguments; a leaf is its column. */
  lemma ValueObeys(k: Kernel, e: Expr, m: Market, height: nat, width: nat, t: nat, j: nat)
    requires RollingCorr.IsSqrt(k.sqrt)
    requires Valid(e) && MarketShaped(m, height, width) && FieldsPresent(e, m) && t < height && j < width
    ensures e.op.None? ==> Value(k, e, m, height, width) == m[e.field.value]
    ensures e.op.Some? ==>
      var args := Values(k, e.children, m, height, width);
      && ArgsShaped(e.op.value, args, height, width)
      && (forall i :: 0 <= i < |args| ==> args[i] == Value(k, e.children[i], m, height, width))
      && OperatorLaw(k, e.op.value, args, WindowOr0(e), height, width, t, j, Value(k, e, m, height, width)[t][j])
  {
    if e.op.Some? {
      forall i | 0 <= i < |e.children|
        ensures Values(k, e.children, m, height, width)[i] == Value(k, e.children[i], m, height, width)
      {
        ValuesAt(k, e.children, m, height, width, i);
      }
      hide OperatorLaw, RollingCorr.IsSqrt, ApplyOp, FieldsPresent;
      OperatorObeys(k, e.op.value, Values(k, e.children, m, height, width), WindowOr0(e), height, width, t, j);
    }
  }
}
