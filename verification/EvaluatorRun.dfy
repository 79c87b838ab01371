/** The evaluator as it runs: stable argsort, Fenwick ranks and prefix sums, proved to compute `Value`. */
module EvaluatorRun {

  import opened Basics
  import opened Cells
  import opened FactorDsl
  import opened Evaluator
  import RollingRank
  import RollingCorr
  import OrdinalRanks

  datatype Outcome = Evaluated(panel: Panel) | MissingField | ShapeMismatch

  // ---------------------------------------------------------------- cross-sectional rank

  /** The finite columns of a row, left to right. */
  function FiniteColumns(row: Row): (idx: seq<nat>)
    ensures |idx| == FiniteIn(row)
    ensures forall p :: 0 <= p < |idx| ==> idx[p] < |row| && row[idx[p]].Val?
    ensures forall p, q :: 0 <= p < q < |idx| ==> idx[p] < idx[q]
    ensures forall j: nat :: j < |row| && row[j].Val? ==> j in idx
  {
    if row == [] then []
    else
      var front := FiniteColumns(row[..|row| - 1]);
      if row[|row| - 1].Val? then front + [|row| - 1] else front
  }

  function ValuesOf(row: Row, idx: seq<nat>): (v: seq<real>)
    requires forall p :: 0 <= p < |idx| ==> idx[p] < |row| && row[idx[p]].Val?
    ensures |v| == |idx|
  {
    seq(|idx|, p requires 0 <= p < |idx| => row[idx[p]].v)
  }

  function Image(s: set<nat>, idx: seq<nat>): set<nat>
    requires forall p :: p in s ==> p < |idx|
  {
    set p | p in s :: idx[p]
  }

  lemma {:induction false} ImageSize(s: set<nat>, idx: seq<nat>)
    requires forall p :: p in s ==> p < |idx|
    requires forall p, q :: 0 <= p < q < |idx| ==> idx[p] < idx[q]
    ensures |Image(s, idx)| == |s|
  {
    if s != {} {
      var x :| x in s;
      ImageSize(s - {x}, idx);
      assert idx[x] !in Image(s - {x}, idx);
      assert Image(s, idx) == Image(s - {x}, idx) + {idx[x]};
    }
  }

  lemma BeforeMatches(row: Row, q: nat, p: nat)
    requires q < |FiniteColumns(row)| && p < |FiniteColumns(row)|
    ensures var idx := FiniteColumns(row);
      OrdinalRanks.Before(ValuesOf(row, idx), q, p) <==> CellBefore(row, idx[q], idx[p])
  {
    var idx := FiniteColumns(row);
    assert q < p ==> idx[q] < idx[p];
    assert p < q ==> idx[p] < idx[q];
  }

  /** Ranking the compressed values ranks the columns. */
  lemma CompressedRank(row: Row, p: nat)
    requires p < |FiniteColumns(row)|
    ensures var idx := FiniteColumns(row);
      OrdinalRanks.RankOf(ValuesOf(row, idx), p) == |LowerColumns(row, idx[p])|
  {
    var idx := FiniteColumns(row);
    var lower, columns := OrdinalRanks.Lower(ValuesOf(row, idx), p), LowerColumns(row, idx[p]);
    forall j: nat | j in columns ensures j in Image(lower, idx) {
      assert j in idx;
      var q :| 0 <= q < |idx| && idx[q] == j;
      BeforeMatches(row, q, p);
      assert q in lower;
    }
    forall q | q in lower ensures idx[q] in columns {
      BeforeMatches(row, q, p);
    }
    assert columns == Image(lower, idx);
    ImageSize(lower, idx);
  }

  lemma UnlistedMissing(row: Row, j: nat)
    requires j < |row| && (j !in FiniteColumns(row) || |FiniteColumns(row)| < 2)
    ensures CsRankCell(row, j) == Missing
  {
  }

  /** One row of `_cs_rank`: the ranks are written to the finite columns in one assignment. */
  method CsRankRow(row: Row) returns (out: array<Cell>)
    ensures fresh(out) && out.Length == |row|
    ensures forall j :: 0 <= j < |row| ==> out[j] == CsRankCell(row, j)
  {
    out := new Cell[|row|](_ => Missing);
    var idx := FiniteColumns(row);
    var count := |idx|;
    forall j | 0 <= j < |row| && (j !in idx || count < 2) ensures CsRankCell(row, j) == Missing {
      UnlistedMissing(row, j);
    }
    if count >= 2 {
      var ordinal := OrdinalRanks.Ranks(ValuesOf(row, idx));
      var ranks := ordinal[..];
      forall p: nat | p < count ensures CsRankCell(row, idx[p]) == Val(ranks[p] as real / (count - 1) as real) {
        ListedRank(row, idx, p);
      }
      hide CsRankCell, FiniteColumns, FiniteIn, ValuesOf;
      forall p | 0 <= p < count {
        out[idx[p]] := Val(ranks[p] as real / (count - 1) as real);
      }
      forall j | 0 <= j < |row| ensures out[j] == CsRankCell(row, j) {
        if j in idx {
          var p :| 0 <= p < count && idx[p] == j;
        }
      }
    }
  }

  lemma ListedRank(row: Row, idx: seq<nat>, p: nat)
    requires idx == FiniteColumns(row) && p < |idx| && |idx| >= 2
    ensures CsRankCell(row, idx[p]) == Val(OrdinalRanks.RankSeq(ValuesOf(row, idx))[p] as real / (|idx| - 1) as real)
  {
    CompressedRank(row, p);
  }

  method CsRank(k: Kernel, x: Panel, window: int, height: nat, width: nat) returns (out: Panel)
    requires Shaped(x, height, width)
    ensures out == ApplyOp(k, Rank, [x], window, height, width)
  {
    out := [];
    for t := 0 to height
      invariant |out| == t && forall s :: 0 <= s < t ==> out[s] == OpRowAt(k, Rank, [x], window, height, width, s)
    {
      var row := CsRankRow(x[t]);
      assert History([x], t, 0, height)[0] == [x[t]];
      assert row[..] == OpRowAt(k, Rank, [x], window, height, width, t);
      out := out + [row[..]];
    }
  }

  // ---------------------------------------------------------------- columns

  /** The panel whose columns are given. */
  function FromColumns(cols: seq<seq<Cell>>, height: nat): (x: Panel)
    requires forall j :: 0 <= j < |cols| ==> |cols[j]| == height
    ensures Shaped(x, height, |cols|)
  {
    seq(height, t requires 0 <= t < height => seq(|cols|, j requires 0 <= j < |cols| => cols[j][t]))
  }

  lemma ColumnSlice(x: Panel, j: nat, lo: nat, hi: nat, width: nat)
    requires Shaped(x, |x|, width) && j < width && lo <= hi <= |x|
    ensures Column(x[lo..hi], j) == Column(x, j)[lo..hi]
  {
  }

  /** A rolling rank cell of the specification is the rank of the column's own window. */
  lemma TsRankCell(k: Kernel, x: Panel, window: int, height: nat, width: nat, t: nat, j: nat)
    requires Shaped(x, height, width) && t < height && j < width && window > 1
    ensures OpRowAt(k, TsRank, [x], window, height, width, t)[j] == RollingRank.RankAt(Column(x, j), window, t)
  {
    if t >= window - 1 {
      ColumnSlice(x, j, t - (window - 1), t + 1, width);
    }
  }

  lemma TsRankSmallWindow(k: Kernel, x: Panel, window: int, height: nat, width: nat, t: nat, j: nat)
    requires Shaped(x, height, width) && t < height && j < width && window <= 1
    ensures OpRowAt(k, TsRank, [x], window, height, width, t)[j] == Missing
  {
    var w := Column([x[t]], j);
    assert History([x], t, 0, height)[0] == [x[t]];
    assert w[..0] == [];
    assert CountIf(w, RollingRank.IsFinite) <= 1;
  }

  /** `ts_rank`: each column through the Fenwick tree. */
  method TsRankPanel(k: Kernel, x: Panel, window: int, height: nat, width: nat) returns (out: Panel)
    requires Shaped(x, height, width)
    ensures out == ApplyOp(k, TsRank, [x], window, height, width)
  {
    if window <= 1 || height < window {
      out := seq(height, _ => MissingRow(width));
      forall t | 0 <= t < height ensures out[t] == OpRowAt(k, TsRank, [x], window, height, width, t) {
        forall j | 0 <= j < width ensures OpRowAt(k, TsRank, [x], window, height, width, t)[j] == Missing {
          if window <= 1 {
            TsRankSmallWindow(k, x, window, height, width, t, j);
          }
        }
      }
      return;
    }
    var cols: seq<seq<Cell>> := [];
    for column := 0 to width
      invariant |cols| == column && forall j :: 0 <= j < column ==> |cols[j]| == height
      invariant forall j, t :: 0 <= j < column && 0 <= t < height ==>
        cols[j][t] == RollingRank.RankAt(Column(x, j), window, t)
    {
      var ranked := RollingRank.RankColumn(Column(x, column), window);
      cols := cols + [ranked[..]];
    }
    out := FromColumns(cols, height);
    forall t | 0 <= t < height ensures out[t] == OpRowAt(k, TsRank, [x], window, height, width, t) {
      forall j | 0 <= j < width ensures out[t][j] == OpRowAt(k, TsRank, [x], window, height, width, t)[j] {
        TsRankCell(k, x, window, height, width, t, j);
      }
    }
  }

  lemma TsCorrOpCell(k: Kernel, hx: Panel, hy: Panel, rows: nat, width: nat, j: nat)
    requires rows > 0 && Shaped(hx, rows, width) && Shaped(hy, rows, width) && j < width
    ensures OpRow(k, TsCorr, [hx, hy], rows, width)[j]
         == RollingCorr.CorrFromMoments(k.sqrt, RollingCorr.MomentsOf(Column(hx, j), Column(hy, j)))
  {
  }

  lemma TsCorrCell(k: Kernel, x: Panel, y: Panel, window: int, height: nat, width: nat, t: nat, j: nat)
    requires Shaped(x, height, width) && Shaped(y, height, width) && t < height && j < width
    ensures OpRowAt(k, TsCorr, [x, y], window, height, width, t)[j]
         == RollingCorr.CorrAt(k.sqrt, Column(x, j), Column(y, j), window, t)
  {
    hide OpRow, RollingCorr.MomentsOf, RollingCorr.CorrFromMoments;
    var back := Back(TsCorr, window);
    if t >= back {
      var hx, hy := x[t - back..t + 1], y[t - back..t + 1];
      assert History([x, y], t, back, height) == [hx, hy];
      TsCorrOpCell(k, hx, hy, back + 1, width, j);
      ColumnSlice(x, j, t - back, t + 1, width);
      ColumnSlice(y, j, t - back, t + 1, width);
      if window <= 1 {
        OneRowNoCorr(k, Column(hx, j), Column(hy, j));
      }
    }
  }

  lemma OneRowNoCorr(k: Kernel, a: seq<Cell>, b: seq<Cell>)
    requires |a| == |b| == 1
    ensures RollingCorr.CorrFromMoments(k.sqrt, RollingCorr.MomentsOf(a, b)) == Missing
  {
    assert a[..0] == [] && b[..0] == [];
    assert RollingCorr.MomentsOf(a, b).n <= 1.0;
  }

  /** `ts_corr`: the shape check, then prefix sums column by column. */
  method TsCorrPanel(k: Kernel, x: Panel, y: Panel, window: int, height: nat, width: nat, heightY: nat, widthY: nat)
    returns (out: Outcome)
    requires Shaped(x, height, width) && Shaped(y, heightY, widthY)
    ensures (height, width) != (heightY, widthY) ==> out == ShapeMismatch
    ensures (height, width) == (heightY, widthY) ==> out == Evaluated(ApplyOp(k, TsCorr, [x, y], window, height, width))
  {
    if (height, width) != (heightY, widthY) {
      return ShapeMismatch;
    }
    var cols := seq(width, j requires 0 <= j < width => RollingCorr.TsCorrColumn(k.sqrt, Column(x, j), Column(y, j), window));
    var panel := FromColumns(cols, height);
    forall t | 0 <= t < height ensures panel[t] == OpRowAt(k, TsCorr, [x, y], window, height, width, t) {
      forall j | 0 <= j < width ensures panel[t][j] == OpRowAt(k, TsCorr, [x, y], window, height, width, t)[j] {
        TsCorrCell(k, x, y, window, height, width, t, j);
        RollingCorr.PrefixCorrIsWindowed(k.sqrt, Column(x, j), Column(y, j), window, t);
      }
    }
    out := Evaluated(panel);
  }

  // ---------------------------------------------------------------- rolling reductions

  /** Row t of a windowed operator on a complete window, cell by cell. */
  lemma WindowOpCell(k: Kernel, op: Operator, x: Panel, window: int, height: nat, width: nat, t: nat, j: nat)
    requires op in {TsMean, TsStd, TsMax, TsMin, ZScore, Delta} && window >= 1 && Shaped(x, height, width)
    requires Back(op, window) <= t < height && j < width
    ensures OpRowAt(k, op, [x], window, height, width, t)[j]
         == WindowCell(k, op, Column(x, j)[t - Back(op, window)..t + 1])
  {
    hide WindowCell;
    var back := Back(op, window);
    assert History([x], t, back, height)[0] == x[t - back..t + 1];
    ColumnSlice(x, j, t - back, t + 1, width);
  }

  /** `_rolling`: one reduction over all complete windows, written from row window - 1 on. */
  method Rolling(k: Kernel, op: Operator, x: Panel, window: int, height: nat, width: nat) returns (out: Panel)
    requires op in {TsMean, TsStd, TsMax, TsMin} && window >= 1 && Shaped(x, height, width)
    ensures out == ApplyOp(k, op, [x], window, height, width)
  {
    out := seq(height, _ => MissingRow(width));
    if height >= window {
      var reduced := seq(height - window + 1, i requires 0 <= i < height - window + 1 =>
        seq(width, j requires 0 <= j < width => WindowCell(k, op, Column(x, j)[i..i + window])));
      out := out[..window - 1] + reduced;
    }
    hide WindowCell, OpRowAt;
    forall t | 0 <= t < height ensures out[t] == OpRowAt(k, op, [x], window, height, width, t) {
      RollingRow(k, op, x, window, height, width, t, out[t]);
    }
  }

  lemma RollingRow(k: Kernel, op: Operator, x: Panel, window: int, height: nat, width: nat, t: nat, row: Row)
    requires op in {TsMean, TsStd, TsMax, TsMin} && window >= 1 && Shaped(x, height, width) && t < height && |row| == width
    requires t < window - 1 ==> row == MissingRow(width)
    requires t >= window - 1 ==> forall j :: 0 <= j < width ==> row[j] == WindowCell(k, op, Column(x, j)[t - window + 1..t + 1])
    ensures row == OpRowAt(k, op, [x], window, height, width, t)
  {
    hide WindowCell, OpRow;
    if t >= window - 1 {
      forall j | 0 <= j < width ensures row[j] == OpRowAt(k, op, [x], window, height, width, t)[j] {
        WindowOpCell(k, op, x, window, height, width, t, j);
      }
    }
  }

  /** `_delta`: the panel minus itself shifted, below `window` missing rows. */
  method DeltaPanel(k: Kernel, x: Panel, window: int, height: nat, width: nat) returns (out: Panel)
    requires window >= 1 && Shaped(x, height, width)
    ensures out == ApplyOp(k, Delta, [x], window, height, width)
  {
    out := seq(height, _ => MissingRow(width));
    if height > window {
      var later, earlier := x[window..], x[..height - window];
      out := out[..window] + Combined(Sub, later, earlier, height - window, width);
    }
    hide OpRowAt, BinaryCell;
    forall t | 0 <= t < height ensures out[t] == OpRowAt(k, Delta, [x], window, height, width, t) {
      DeltaRow(k, x, window, height, width, t, out[t]);
    }
  }

  lemma DeltaRow(k: Kernel, x: Panel, window: int, height: nat, width: nat, t: nat, row: Row)
    requires window >= 1 && Shaped(x, height, width) && t < height && |row| == width
    requires t < window ==> row == MissingRow(width)
    requires t >= window ==> forall j :: 0 <= j < width ==> row[j] == BinaryCell(Sub, x[t][j], x[t - window][j])
    ensures row == OpRowAt(k, Delta, [x], window, height, width, t)
  {
    if t >= window {
      hide OpRowAt, BinaryCell;
      forall j | 0 <= j < width ensures row[j] == OpRowAt(k, Delta, [x], window, height, width, t)[j] {
        DeltaCell(k, x, window, height, width, t, j);
      }
    }
  }

  lemma DeltaCell(k: Kernel, x: Panel, window: int, height: nat, width: nat, t: nat, j: nat)
    requires window >= 1 && Shaped(x, height, width) && window <= t < height && j < width
    ensures OpRowAt(k, Delta, [x], window, height, width, t)[j] == BinaryCell(Sub, x[t][j], x[t - window][j])
  {
    hide OpRowAt, BinaryCell;
    WindowOpCell(k, Delta, x, window, height, width, t, j);
    var w := Column(x, j)[t - window..t + 1];
    assert w[|w| - 1] == x[t][j] && w[0] == x[t - window][j];
  }

  /** `np.where(c < EPS, ...)`: a missing cell is below nothing. */
  predicate BelowEps(c: Cell) {
    c.Val? && c.v < EPS
  }

  /** One cell of `_zscore`, from the value and the rolling mean and deviation. */
  function ZScoreCell(x: Cell, mean: Cell, std: Cell): Cell {
    var safe := if BelowEps(std) then Val(1.0) else std;
    var value := Quotient(BinaryCell(Sub, x, mean), safe);
    if BelowEps(std) then Val(0.0) else value
  }

  /** Division by a denominator that has been made safe. */
  function Quotient(a: Cell, b: Cell): Cell {
    if a.Val? && b.Val? && b.v != 0.0 then Val(a.v / b.v) else Missing
  }

  /** `_zscore`: the rolling mean and deviation, combined with the panel cell by cell. */
  method ZScorePanel(k: Kernel, x: Panel, window: int, height: nat, width: nat) returns (out: Panel)
    requires window >= 1 && Shaped(x, height, width)
    ensures out == ApplyOp(k, ZScore, [x], window, height, width)
  {
    var mean := Rolling(k, TsMean, x, window, height, width);
    var std := Rolling(k, TsStd, x, window, height, width);
    out := seq(height, t requires 0 <= t < height =>
      seq(width, j requires 0 <= j < width => ZScoreCell(x[t][j], mean[t][j], std[t][j])));
    forall t | 0 <= t < height ensures out[t] == OpRowAt(k, ZScore, [x], window, height, width, t) {
      forall j | 0 <= j < width ensures out[t][j] == OpRowAt(k, ZScore, [x], window, height, width, t)[j] {
        ZScoreOfParts(k, x, window, height, width, t, j);
      }
    }
  }

  lemma ZScoreOfParts(k: Kernel, x: Panel, window: int, height: nat, width: nat, t: nat, j: nat)
    requires window >= 1 && Shaped(x, height, width) && t < height && j < width
    ensures ZScoreCell(x[t][j], OpRowAt(k, TsMean, [x], window, height, width, t)[j], OpRowAt(k, TsStd, [x], window, height, width, t)[j])
         == OpRowAt(k, ZScore, [x], window, height, width, t)[j]
  {
    hide WindowCell, ZScoreCell, OpRow;
    if t >= window - 1 {
      WindowOpCell(k, TsMean, x, window, height, width, t, j);
      WindowOpCell(k, TsStd, x, window, height, width, t, j);
      WindowOpCell(k, ZScore, x, window, height, width, t, j);
      var w := Column(x, j)[t - (window - 1)..t + 1];
      assert w[|w| - 1] == x[t][j];
      ZScoreOfWindow(k, w);
    } else {
      ZScoreOfMissing(x[t][j]);
    }
  }

  lemma ZScoreOfMissing(c: Cell)
    ensures ZScoreCell(c, Missing, Missing) == Missing
  {
  }

  lemma ZScoreOfWindow(k: Kernel, w: seq<Cell>)
    requires w != []
    ensures ZScoreCell(w[|w| - 1], WindowCell(k, TsMean, w), WindowCell(k, TsStd, w)) == WindowCell(k, ZScore, w)
  {
    assert w[|w| - 1] in w;
  }

  // ---------------------------------------------------------------- scaling and whole-array expressions

  /** `np.sum(np.abs(row))`: missing as soon as one cell is. */
  function RowTotal(row: Row): Cell {
    if row == [] then Val(0.0) else BinaryCell(Add, RowTotal(row[..|row| - 1]), Map1(v => Val(AbsOf(v)), row[|row| - 1]))
  }

  lemma {:induction false} RowTotalIs(row: Row)
    ensures RowTotal(row) == if AllFinite(row) then Val(AbsTotal(row)) else Missing
  {
    if row != [] {
      RowTotalIs(row[..|row| - 1]);
      assert forall c :: c in row <==> c in row[..|row| - 1] || c == row[|row| - 1];
    }
  }

  /** One cell of `_scale`, from the value and its row's total. */
  function ScaledCell(c: Cell, total: Cell): Cell {
    var magnitude := Map1(v => Val(AbsOf(v)), total);
    var safe := if BelowEps(magnitude) then Val(1.0) else total;
    if BelowEps(magnitude) then Missing else Quotient(c, safe)
  }

  /** `_scale`: the row totals first, then the division. */
  method ScalePanel(k: Kernel, x: Panel, window: int, height: nat, width: nat) returns (out: Panel)
    requires Shaped(x, height, width)
    ensures out == ApplyOp(k, Scale, [x], window, height, width)
  {
    var totals := seq(height, t requires 0 <= t < height => RowTotal(x[t]));
    out := seq(height, t requires 0 <= t < height => seq(width, j requires 0 <= j < width => ScaledCell(x[t][j], totals[t])));
    forall t | 0 <= t < height ensures out[t] == OpRowAt(k, Scale, [x], window, height, width, t) {
      RowTotalIs(x[t]);
      assert History([x], t, 0, height)[0] == [x[t]];
      forall j | 0 <= j < width ensures out[t][j] == OpRowAt(k, Scale, [x], window, height, width, t)[j] {
        ScaledCellIs(x[t], j);
      }
    }
  }

  lemma ScaledCellIs(row: Row, j: nat)
    requires j < |row|
    ensures ScaledCell(row[j], if AllFinite(row) then Val(AbsTotal(row)) else Missing) == ScaleCell(row, j)
  {
    assert row[j] in row;
  }

  /** An elementwise function of one panel. */
  function Mapped(k: Kernel, op: Operator, x: Panel, height: nat, width: nat): (out: Panel)
    requires Shaped(x, height, width)
    ensures Shaped(out, height, width)
  {
    seq(height, t requires 0 <= t < height => seq(width, j requires 0 <= j < width => UnaryCell(k, op, x[t][j])))
  }

  /** An elementwise function of two panels. */
  function Combined(op: Operator, x: Panel, y: Panel, height: nat, width: nat): (out: Panel)
    requires Shaped(x, height, width) && Shaped(y, height, width)
    ensures Shaped(out, height, width)
  {
    seq(height, t requires 0 <= t < height => seq(width, j requires 0 <= j < width => BinaryCell(op, x[t][j], y[t][j])))
  }

  lemma MappedIs(k: Kernel, op: Operator, x: Panel, window: int, height: nat, width: nat)
    requires op in {Sign, Abs, Log} && Shaped(x, height, width)
    ensures Mapped(k, op, x, height, width) == ApplyOp(k, op, [x], window, height, width)
  {
    forall t | 0 <= t < height ensures Mapped(k, op, x, height, width)[t] == OpRowAt(k, op, [x], window, height, width, t) {
      assert History([x], t, 0, height)[0] == [x[t]];
    }
  }

  lemma CombinedIs(k: Kernel, op: Operator, x: Panel, y: Panel, window: int, height: nat, width: nat)
    requires op in {Add, Sub, Mul, Div} && Shaped(x, height, width) && Shaped(y, height, width)
    ensures Combined(op, x, y, height, width) == ApplyOp(k, op, [x, y], window, height, width)
  {
    forall t | 0 <= t < height ensures Combined(op, x, y, height, width)[t] == OpRowAt(k, op, [x, y], window, height, width, t) {
      assert History([x, y], t, 0, height)[0] == [x[t]] && History([x, y], t, 0, height)[1] == [y[t]];
    }
  }

  // ---------------------------------------------------------------- the recursion

  /** `_apply_op`: the dispatch over the algorithms above. */
  method RunOp(k: Kernel, op: Operator, args: seq<Panel>, window: int, height: nat, width: nat) returns (out: Outcome)
    requires ArgsShaped(op, args, height, width)
    requires op in {TsMean, TsStd, TsMax, TsMin, Delta, ZScore} ==> window >= 1
    ensures out == Evaluated(ApplyOp(k, op, args, window, height, width))
  {
    hide ApplyOp;
    assert Arity(op) == 1 ==> args == [args[0]];
    assert Arity(op) == 2 ==> args == [args[0], args[1]];
    var panel;
    match op {
      case Rank => panel := CsRank(k, args[0], window, height, width);
      case TsRank => panel := TsRankPanel(k, args[0], window, height, width);
      case TsMean | TsStd | TsMax | TsMin => panel := Rolling(k, op, args[0], window, height, width);
      case Delta => panel := DeltaPanel(k, args[0], window, height, width);
      case ZScore => panel := ZScorePanel(k, args[0], window, height, width);
      case Scale => panel := ScalePanel(k, args[0], window, height, width);
      case Sign | Abs | Log =>
        MappedIs(k, op, args[0], window, height, width);
        panel := Mapped(k, op, args[0], height, width);
      case Add | Sub | Mul | Div =>
        CombinedIs(k, op, args[0], args[1], window, height, width);
        panel := Combined(op, args[0], args[1], height, width);
      case TsCorr =>
        out := TsCorrPanel(k, args[0], args[1], window, height, width, height, width);
        return;
    }
    out := Evaluated(panel);
  }

  /** `evaluate`: total on a market of one shape; the only failure is a leaf the market lacks. */
  method Evaluate(k: Kernel, e: Expr, m: Market, height: nat, width: nat) returns (out: Outcome)
    requires Valid(e) && MarketShaped(m, height, width)
    ensures FieldsPresent(e, m) ==> out == Evaluated(Value(k, e, m, height, width))
    ensures !FieldsPresent(e, m) ==> out == MissingField
    decreases e
  {
    if e.op.None? {
      if e.field.value in m {
        out := Evaluated(m[e.field.value]);
      } else {
        out := MissingField;
      }
      return;
    }
    var args: seq<Panel> := [];
    for i := 0 to |e.children|
      invariant |args| == i && forall c :: 0 <= c < i ==> FieldsPresent(e.children[c], m)
      invariant forall c :: 0 <= c < i ==> args[c] == Value(k, e.children[c], m, height, width)
    {
      var arg := Evaluate(k, e.children[i], m, height, width);
      if !arg.Evaluated? {
        return arg;
      }
      args := args + [arg.panel];
    }
    forall i | 0 <= i < |args| ensures args[i] == Values(k, e.children, m, height, width)[i] {
      ValuesAt(k, e.children, m, height, width, i);
    }
    assert args == Values(k, e.children, m, height, width);
    out := RunOp(k, e.op.value, args, WindowOr0(e), height, width);
  }
}
