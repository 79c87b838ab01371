/** The factor evaluator over (T, N) panels: total, shape preserving, and blind to the future. */
module Evaluator {

  import opened Basics
  import opened Cells
  import opened FactorDsl
  import RollingRank
  import RollingCorr

  type Row = seq<Cell>
  type Panel = seq<Row>
  type Market = map<Field, Panel>

  /** The scalar functions numpy provides. */
  datatype Kernel = Kernel(sqrt: real -> real, log1p: real -> real)

  predicate Shaped(x: Panel, height: nat, width: nat) {
    |x| == height && forall t :: 0 <= t < |x| ==> |x[t]| == width
  }

  function Column(x: Panel, j: nat): (c: seq<Cell>)
    requires forall t :: 0 <= t < |x| ==> j < |x[t]|
    ensures |c| == |x|
  {
    seq(|x|, t requires 0 <= t < |x| => x[t][j])
  }

  function MissingRow(width: nat): (r: Row)
    ensures |r| == width
  {
    seq(width, _ => Missing)
  }

  // ---------------------------------------------------------------- cells

  function Map1(f: real -> Cell, c: Cell): Cell {
    if c.Val? then f(c.v) else Missing
  }

  function Map2(f: (real, real) -> Cell, a: Cell, b: Cell): Cell {
    if a.Val? && b.Val? then f(a.v, b.v) else Missing
  }

  function SignOf(x: real): real {
    if x > 0.0 then 1.0 else if x < 0.0 then -1.0 else 0.0
  }

  function UnaryCell(k: Kernel, op: Operator, c: Cell): Cell {
    match op
    case Sign => Map1(x => Val(SignOf(x)), c)
    case Abs => Map1(x => Val(AbsOf(x)), c)
    case Log => Map1(x => Val(SignOf(x) * k.log1p(AbsOf(x))), c)
    case _ => Missing
  }

  /** Division by zero is a missing cell, whatever is divided. */
  function BinaryCell(op: Operator, a: Cell, b: Cell): Cell {
    match op
    case Add => Map2((x, y) => Val(x + y), a, b)
    case Sub => Map2((x, y) => Val(x - y), a, b)
    case Mul => Map2((x, y) => Val(x * y), a, b)
    case Div => Map2((x, y) => if y == 0.0 then Missing else Val(x / y), a, b)
    case _ => Missing
  }

  // ---------------------------------------------------------------- windows

  predicate AllFinite(w: seq<Cell>) {
    forall c | c in w :: c.Val?
  }

  function SumOf(w: seq<Cell>): real
    requires AllFinite(w)
  {
    if w == [] then 0.0 else SumOf(w[..|w| - 1]) + w[|w| - 1].v
  }

  function MeanOf(w: seq<Cell>): real
    requires AllFinite(w) && w != []
  {
    SumOf(w) / |w| as real
  }

  function SquaresAround(w: seq<Cell>, mean: real): real
    requires AllFinite(w)
  {
    if w == [] then 0.0
    else SquaresAround(w[..|w| - 1], mean) + (w[|w| - 1].v - mean) * (w[|w| - 1].v - mean)
  }

  /** Population standard deviation. */
  function StdOf(k: Kernel, w: seq<Cell>): real
    requires AllFinite(w) && w != []
  {
    k.sqrt(SquaresAround(w, MeanOf(w)) / |w| as real)
  }

  function ExtremeOf(w: seq<Cell>, largest: bool): real
    requires AllFinite(w) && w != []
  {
    if |w| == 1 then w[0].v
    else
      var rest, last := ExtremeOf(w[..|w| - 1], largest), w[|w| - 1].v;
      if (last > rest) == largest then last else rest
  }

  /** One rolling reduction on the cells of a window, oldest first. */
  function WindowCell(k: Kernel, op: Operator, w: seq<Cell>): Cell
    requires w != []
  {
    match op
    case TsRank => RollingRank.MidRank(w)
    case TsMean => if AllFinite(w) then Val(MeanOf(w)) else Missing
    case TsStd => if AllFinite(w) then Val(StdOf(k, w)) else Missing
    case TsMax => if AllFinite(w) then Val(ExtremeOf(w, true)) else Missing
    case TsMin => if AllFinite(w) then Val(ExtremeOf(w, false)) else Missing
    case Delta => BinaryCell(Sub, w[|w| - 1], w[0])
    case ZScore =>
      if !AllFinite(w) then Missing
      else
        var std := StdOf(k, w);
        if std < EPS then Val(0.0)
        else Val((w[|w| - 1].v - MeanOf(w)) / std)
    case _ => Missing
  }

  // ---------------------------------------------------------------- rows

  function FiniteIn(row: Row): nat {
    CountIf(row, RollingRank.IsFinite)
  }

  /** Column k sorts before column j among the finite cells of the row. */
  predicate CellBefore(row: Row, k: nat, j: nat)
    requires k < |row| && j < |row|
  {
    row[k].Val? && row[j].Val? && (row[k].v < row[j].v || (row[k].v == row[j].v && k < j))
  }

  function LowerColumns(row: Row, j: nat): set<nat>
    requires j < |row|
  {
    set k: nat | k < |row| && CellBefore(row, k, j)
  }

  /** Cross-sectional rank: the share of the other finite cells that sort before this one. */
  function CsRankCell(row: Row, j: nat): Cell
    requires j < |row|
  {
    if row[j].Missing? || FiniteIn(row) < 2 then Missing
    else Val(|LowerColumns(row, j)| as real / (FiniteIn(row) - 1) as real)
  }

  function AbsTotal(row: Row): real
    requires AllFinite(row)
  {
    if row == [] then 0.0 else AbsTotal(row[..|row| - 1]) + AbsOf(row[|row| - 1].v)
  }

  function ScaleCell(row: Row, j: nat): Cell
    requires j < |row|
  {
    if !AllFinite(row) then Missing
    else
      var total := AbsTotal(row);
      if AbsOf(total) < EPS then Missing else Val(row[j].v / total)
  }

  // ---------------------------------------------------------------- one operator

  /** How many rows before the current one an operator reads. */
  function Back(op: Operator, window: int): (b: nat)
  {
    if !Windowed(op) || window < 1 then 0
    else if op == Delta then window
    else window - 1
  }

  predicate ArgsShaped(op: Operator, args: seq<Panel>, height: nat, width: nat) {
    |args| == Arity(op) && forall i :: 0 <= i < |args| ==> Shaped(args[i], height, width)
  }

  /** Row t of an operator, given for each argument the rows t - Back .. t. */
  function OpRow(k: Kernel, op: Operator, hist: seq<Panel>, rows: nat, width: nat): (r: Row)
    requires rows > 0 && ArgsShaped(op, hist, rows, width)
    ensures |r| == width
  {
    var x, now := hist[0], hist[0][rows - 1];
    assert |now| == width;
    match op
    case Rank => seq(width, j requires 0 <= j < width => CsRankCell(now, j))
    case Scale => seq(width, j requires 0 <= j < width => ScaleCell(now, j))
    case Sign | Abs | Log => seq(width, j requires 0 <= j < width => UnaryCell(k, op, now[j]))
    case Add | Sub | Mul | Div =>
      var other := hist[1][rows - 1];
      assert |other| == width;
      seq(width, j requires 0 <= j < width => BinaryCell(op, now[j], other[j]))
    case TsCorr =>
      var y := hist[1];
      assert Shaped(y, rows, width);
      seq(width, j requires 0 <= j < width =>
        RollingCorr.CorrFromMoments(k.sqrt, RollingCorr.MomentsOf(Column(x, j), Column(y, j))))
    case _ => seq(width, j requires 0 <= j < width => WindowCell(k, op, Column(x, j)))
  }

  function History(args: seq<Panel>, t: nat, back: nat, height: nat): (hist: seq<Panel>)
    requires forall i :: 0 <= i < |args| ==> |args[i]| == height
    requires back <= t < height
    ensures |hist| == |args| && forall i :: 0 <= i < |args| ==> hist[i] == args[i][t - back..t + 1]
  {
    seq(|args|, i requires 0 <= i < |args| => args[i][t - back..t + 1])
  }

  function OpRowAt(k: Kernel, op: Operator, args: seq<Panel>, window: int, height: nat, width: nat, t: nat): (r: Row)
    requires ArgsShaped(op, args, height, width) && t < height
    ensures |r| == width
  {
    var back := Back(op, window);
    if t < back then MissingRow(width)
    else OpRow(k, op, History(args, t, back, height), back + 1, width)
  }

  function ApplyOp(k: Kernel, op: Operator, args: seq<Panel>, window: int, height: nat, width: nat): (r: Panel)
    requires ArgsShaped(op, args, height, width)
    ensures Shaped(r, height, width)
  {
    seq(height, t requires 0 <= t < height => OpRowAt(k, op, args, window, height, width, t))
  }

  // ---------------------------------------------------------------- whole trees

  predicate MarketShaped(m: Market, height: nat, width: nat) {
    forall f | f in m :: Shaped(m[f], height, width)
  }

  predicate FieldsPresent(e: Expr, m: Market)
    requires Valid(e)
    decreases e
  {
    if e.op.None? then e.field.value in m else forall c | c in e.children :: FieldsPresent(c, m)
  }

  /** A leaf without a column is exactly what evaluation can miss. */
  lemma {:induction false} FieldsPresentIff(e: Expr, m: Market)
    requires Valid(e)
    ensures FieldsPresent(e, m) <==> LeafFields(e) <= m.Keys
    decreases e
  {
    if e.op.Some? {
      forall i | 0 <= i < |e.children| ensures FieldsPresent(e.children[i], m) <==> LeafFields(e.children[i]) <= m.Keys {
        FieldsPresentIff(e.children[i], m);
      }
      if LeafFields(e) <= m.Keys {
        forall i | 0 <= i < |e.children| ensures LeafFields(e.children[i]) <= m.Keys {
          forall f | f in LeafFields(e.children[i]) ensures f in m {
            assert f in LeafFields(e);
          }
        }
      }
    }
  }

  /** The meaning of a factor: one row per row of the market, of the market's width. */
  function Value(k: Kernel, e: Expr, m: Market, height: nat, width: nat): (r: Panel)
    requires Valid(e) && MarketShaped(m, height, width) && FieldsPresent(e, m)
    ensures Shaped(r, height, width)
    decreases e, 1
  {
    if e.op.None? then m[e.field.value]
    else ApplyOp(k, e.op.value, Values(k, e.children, m, height, width), WindowOr0(e), height, width)
  }

  function Values(k: Kernel, es: seq<Expr>, m: Market, height: nat, width: nat): (r: seq<Panel>)
    requires MarketShaped(m, height, width)
    requires forall c | c in es :: Valid(c) && FieldsPresent(c, m)
    ensures |r| == |es| && forall i :: 0 <= i < |r| ==> Shaped(r[i], height, width)
    decreases es, 0
  {
    if es == [] then []
    else [Value(k, es[0], m, height, width)] + Values(k, es[1..], m, height, width)
  }

  lemma {:induction false} ValuesAt(k: Kernel, es: seq<Expr>, m: Market, height: nat, width: nat, i: nat)
    requires MarketShaped(m, height, width) && i < |es|
    requires forall c | c in es :: Valid(c) && FieldsPresent(c, m)
    ensures Values(k, es, m, height, width)[i] == Value(k, es[i], m, height, width)
  {
    if i > 0 {
      ValuesAt(k, es[1..], m, height, width, i - 1);
    }
  }

  /** How many rows, the current one included, a factor can look at. */
  function Lookback(e: Expr): (l: nat)
    requires Valid(e)
    ensures l >= 1
    decreases e, 1
  {
    if e.op.None? then 1 else Back(e.op.value, WindowOr0(e)) + LookbackAll(e.children)
  }

  function LookbackAll(es: seq<Expr>): (l: nat)
    requires forall c | c in es :: Valid(c)
    ensures l >= 1
    decreases es, 0
  {
    if es == [] then 1
    else
      var first, rest := Lookback(es[0]), LookbackAll(es[1..]);
      if first >= rest then first else rest
  }

  lemma {:induction false} LookbackOfChild(es: seq<Expr>, i: nat)
    requires (forall c | c in es :: Valid(c)) && i < |es|
    ensures Lookback(es[i]) <= LookbackAll(es)
  {
    if i > 0 {
      LookbackOfChild(es[1..], i - 1);
    }
  }

  // ---------------------------------------------------------------- locality

  /** Where both rows exist, x has s rows before t1 what y has s rows before t2. */
  predicate RowsAgree(x: Panel, t1: nat, y: Panel, t2: nat, s: nat) {
    s <= t1 < |x| && s <= t2 < |y| ==> x[t1 - s] == y[t2 - s]
  }

  /** The last `l` rows up to t1 in the first market are the last `l` rows up to t2 in the second, as far as they exist. */
  ghost predicate SameHistory(m1: Market, t1: nat, m2: Market, t2: nat, l: nat) {
    && m1.Keys == m2.Keys
    && (t1 == t2 || (t1 + 1 >= l && t2 + 1 >= l))
    && forall f, s: nat {:trigger RowsAgree(m1[f], t1, m2[f], t2, s)} :: f in m1 && s < l ==> RowsAgree(m1[f], t1, m2[f], t2, s)
  }

  /** Everything two evaluations must share for `Locality`. */
  ghost predicate Comparable(e: Expr, m1: Market, t1: nat, h1: nat, m2: Market, t2: nat, h2: nat, width: nat) {
    && Valid(e) && MarketShaped(m1, h1, width) && MarketShaped(m2, h2, width) && t1 < h1 && t2 < h2
    && FieldsPresent(e, m1) && FieldsPresent(e, m2)
    && SameHistory(m1, t1, m2, t2, Lookback(e))
  }

  /** Row t of a factor depends only on the rows its look-back covers, not on where they lie in the panel. */
  lemma {:induction false} Locality(k: Kernel, e: Expr, m1: Market, t1: nat, h1: nat, m2: Market, t2: nat, h2: nat, width: nat)
    requires Comparable(e, m1, t1, h1, m2, t2, h2, width)
    ensures Value(k, e, m1, h1, width)[t1] == Value(k, e, m2, h2, width)[t2]
    decreases e
  {
    if e.op.None? {
      assert RowsAgree(m1[e.field.value], t1, m2[e.field.value], t2, 0);
    } else {
      var op, window := e.op.value, WindowOr0(e);
      var back := Back(op, window);
      if t1 >= back && t2 >= back {
        var args1, args2 := Values(k, e.children, m1, h1, width), Values(k, e.children, m2, h2, width);
        forall i, s: nat | 0 <= i < |e.children| && s <= back ensures RowsAgree(args1[i], t1, args2[i], t2, s) {
          ChildRow(k, e, m1, t1, h1, m2, t2, h2, width, i, s);
        }
        hide Values, OpRow, FieldsPresent, SameHistory;
        SameArgsSameRow(k, op, args1, args2, window, h1, h2, width, t1, t2);
      }
    }
  }

  lemma ChildComparable(e: Expr, m1: Market, t1: nat, h1: nat, m2: Market, t2: nat, h2: nat, width: nat, i: nat, s: nat)
    requires Comparable(e, m1, t1, h1, m2, t2, h2, width)
    requires e.op.Some? && i < |e.children| && s <= Back(e.op.value, WindowOr0(e)) && s <= t1 && s <= t2
    ensures Comparable(e.children[i], m1, t1 - s, h1, m2, t2 - s, h2, width)
  {
    var c := e.children[i];
    LookbackOfChild(e.children, i);
    forall f, r: nat {:trigger RowsAgree(m1[f], t1 - s, m2[f], t2 - s, r)} | f in m1 && r < Lookback(c)
      ensures RowsAgree(m1[f], t1 - s, m2[f], t2 - s, r)
    {
      assert RowsAgree(m1[f], t1, m2[f], t2, s + r);
    }
  }

  lemma {:induction false} ChildRow(k: Kernel, e: Expr, m1: Market, t1: nat, h1: nat, m2: Market, t2: nat, h2: nat, width: nat, i: nat, s: nat)
    requires Comparable(e, m1, t1, h1, m2, t2, h2, width)
    requires e.op.Some? && i < |e.children| && s <= Back(e.op.value, WindowOr0(e)) && s <= t1 && s <= t2
    ensures RowsAgree(Values(k, e.children, m1, h1, width)[i], t1, Values(k, e.children, m2, h2, width)[i], t2, s)
    decreases e, 0
  {
    hide SameHistory, Lookback, LookbackAll, Value, Values;
    ChildComparable(e, m1, t1, h1, m2, t2, h2, width, i, s);
    ChildValue(k, e, m1, h1, width, i);
    ChildValue(k, e, m2, h2, width, i);
    hide FactorDsl.Validate, FieldsPresent, MarketShaped, Comparable;
    Locality(k, e.children[i], m1, t1 - s, h1, m2, t2 - s, h2, width);
  }

  lemma ChildValue(k: Kernel, e: Expr, m: Market, height: nat, width: nat, i: nat)
    requires Valid(e) && MarketShaped(m, height, width) && FieldsPresent(e, m) && e.op.Some? && i < |e.children|
    ensures Valid(e.children[i]) && FieldsPresent(e.children[i], m)
    ensures Values(k, e.children, m, height, width)[i] == Value(k, e.children[i], m, height, width)
  {
    ValuesAt(k, e.children, m, height, width, i);
  }

  lemma SameArgsSameRow(k: Kernel, op: Operator, args1: seq<Panel>, args2: seq<Panel>, window: int, h1: nat, h2: nat, width: nat, t1: nat, t2: nat)
    requires ArgsShaped(op, args1, h1, width) && ArgsShaped(op, args2, h2, width)
    requires Back(op, window) <= t1 < h1 && Back(op, window) <= t2 < h2
    requires forall i, s: nat {:trigger RowsAgree(args1[i], t1, args2[i], t2, s)} ::
      0 <= i < |args1| && s <= Back(op, window) ==> RowsAgree(args1[i], t1, args2[i], t2, s)
    ensures ApplyOp(k, op, args1, window, h1, width)[t1] == ApplyOp(k, op, args2, window, h2, width)[t2]
  {
    var back := Back(op, window);
    forall i | 0 <= i < |args1|
      ensures |args1[i]| == h1 && |args2[i]| == h2 && args1[i][t1 - back..t1 + 1] == args2[i][t2 - back..t2 + 1]
    {
      SameSlice(args1[i], t1, args2[i], t2, back);
    }
    hide OpRow, Back;
    assert History(args1, t1, back, h1) == History(args2, t2, back, h2);
  }

  lemma SameSlice(x: Panel, t1: nat, y: Panel, t2: nat, back: nat)
    requires back <= t1 < |x| && back <= t2 < |y|
    requires forall s: nat {:trigger RowsAgree(x, t1, y, t2, s)} :: s <= back ==> RowsAgree(x, t1, y, t2, s)
    ensures x[t1 - back..t1 + 1] == y[t2 - back..t2 + 1]
  {
    var xs, ys := x[t1 - back..t1 + 1], y[t2 - back..t2 + 1];
    forall r | 0 <= r <= back ensures xs[r] == ys[r] {
      assert RowsAgree(x, t1, y, t2, back - r);
    }
  }

  // ---------------------------------------------------------------- what locality means

  function CutMarket(m: Market, n: nat): Market
    requires forall f | f in m :: n <= |m[f]|
  {
    map f | f in m :: m[f][..n]
  }

  function DropMarket(m: Market, d: nat): Market
    requires forall f | f in m :: d <= |m[f]|
  {
    map f | f in m :: m[f][d..]
  }

  lemma {:induction false} SameFields(e: Expr, m1: Market, m2: Market)
    requires Valid(e) && m1.Keys == m2.Keys && FieldsPresent(e, m1)
    ensures FieldsPresent(e, m2)
  {
    if e.op.Some? {
      forall c | c in e.children ensures FieldsPresent(c, m2) {
        SameFields(c, m1, m2);
      }
    }
  }

  /** No look-ahead: evaluating the first n rows gives the first n rows of the full evaluation. */
  lemma NoLookAhead(k: Kernel, e: Expr, m: Market, height: nat, width: nat, n: nat)
    requires Valid(e) && MarketShaped(m, height, width) && FieldsPresent(e, m) && n <= height
    ensures MarketShaped(CutMarket(m, n), n, width) && FieldsPresent(e, CutMarket(m, n))
    ensures Value(k, e, CutMarket(m, n), n, width) == Value(k, e, m, height, width)[..n]
  {
    var cut := CutMarket(m, n);
    SameFields(e, m, cut);
    forall t | 0 <= t < n ensures Value(k, e, cut, n, width)[t] == Value(k, e, m, height, width)[t] {
      Locality(k, e, cut, t, n, m, t, height, width);
    }
  }

  /** Bounded look-back: dropping the first d rows changes nothing from row d + Lookback - 1 on. */
  lemma BoundedLookBack(k: Kernel, e: Expr, m: Market, height: nat, width: nat, d: nat, t: nat)
    requires Valid(e) && MarketShaped(m, height, width) && FieldsPresent(e, m) && d <= t < height
    requires t + 1 >= d + Lookback(e)
    ensures MarketShaped(DropMarket(m, d), height - d, width) && FieldsPresent(e, DropMarket(m, d))
    ensures Value(k, e, DropMarket(m, d), height - d, width)[t - d] == Value(k, e, m, height, width)[t]
  {
    var rest := DropMarket(m, d);
    SameFields(e, m, rest);
    assert Comparable(e, rest, t - d, height - d, m, t, height, width);
    hide Value, Lookback, FieldsPresent, FactorDsl.Validate;
    Locality(k, e, rest, t - d, height - d, m, t, height, width);
  }
}
