/** The rolling midrank of a column, computed with a Fenwick tree over values compressed across the whole series. */
module RollingRank {

  import opened Basics
  import opened Cells
  import opened BinaryIndexedTree

  // ---------------------------------------------------------------- what the rank means

  predicate IsFinite(c: Cell) {
    c.Val?
  }

  predicate IsBelow(c: Cell, v: real) {
    c.Val? && c.v < v
  }

  predicate IsEqualTo(c: Cell, v: real) {
    c.Val? && c.v == v
  }

  /** The midrank of the last cell among the finite cells of the window, scaled to [0, 1]. */
  function MidRank(w: seq<Cell>): Cell
    requires w != []
  {
    var last, n := w[|w| - 1], CountIf(w, IsFinite);
    if last.Missing? || n < 2 then Missing
    else
      var below := CountIf(w, c => IsBelow(c, last.v));
      var equal := CountIf(w, c => IsEqualTo(c, last.v));
      Val((below as real + (equal - 1) as real / 2.0) / (n - 1) as real)
  }

  function RankAt(series: seq<Cell>, window: int, t: nat): Cell
    requires t < |series|
  {
    if window <= 0 || t < window - 1 then Missing else MidRank(series[t - window + 1..t + 1])
  }

  lemma MidRankInUnitInterval(w: seq<Cell>)
    requires w != []
    ensures MidRank(w).Val? ==> 0.0 <= MidRank(w).v <= 1.0
  {
    var last, n := w[|w| - 1], CountIf(w, IsFinite);
    if last.Val? && n >= 2 {
      var less, same := (c: Cell) => IsBelow(c, last.v), (c: Cell) => IsEqualTo(c, last.v);
      var atMost := (c: Cell) => IsBelow(c, last.v) || IsEqualTo(c, last.v);
      CountSplit(w, less, same, atMost);
      CountMono(w, atMost, IsFinite);
      var below, equal := CountIf(w, less), CountIf(w, same);
      assert equal >= 1;
      var top := below as real + (equal - 1) as real / 2.0;
      assert 0.0 <= top <= (n - 1) as real;
      DivideInUnit(top, (n - 1) as real);
    }
  }

  lemma DivideInUnit(x: real, y: real)
    requires 0.0 <= x <= y && y > 0.0
    ensures 0.0 <= x / y <= 1.0
  {
  }

  /** A strict maximum of the window ranks 1. */
  lemma MidRankOfMaximum(w: seq<Cell>)
    requires w != [] && w[|w| - 1].Val? && CountIf(w, IsFinite) >= 2
    requires forall c :: c in w[..|w| - 1] && c.Val? ==> c.v < w[|w| - 1].v
    ensures MidRank(w) == Val(1.0)
  {
    var last, n, front := w[|w| - 1].v, CountIf(w, IsFinite), w[..|w| - 1];
    CountSame(front, c => IsBelow(c, last), IsFinite);
    CountSame(front, c => IsEqualTo(c, last), c => false);
    CountNone(front);
    assert CountIf(w, c => IsBelow(c, last)) == n - 1 && CountIf(w, c => IsEqualTo(c, last)) == 1;
    DivideSelf((n - 1) as real);
  }

  lemma DivideSelf(y: real)
    requires y != 0.0
    ensures (y + 0 as real / 2.0) / y == 1.0
  {
  }

  /** A strict minimum ranks 0. */
  lemma MidRankOfMinimum(w: seq<Cell>)
    requires w != [] && w[|w| - 1].Val? && CountIf(w, IsFinite) >= 2
    requires forall c :: c in w[..|w| - 1] && c.Val? ==> c.v > w[|w| - 1].v
    ensures MidRank(w) == Val(0.0)
  {
    var last, front := w[|w| - 1].v, w[..|w| - 1];
    CountSame(front, c => IsBelow(c, last), c => false);
    CountSame(front, c => IsEqualTo(c, last), c => false);
    CountNone(front);
  }

  lemma {:induction false} CountNone(w: seq<Cell>)
    ensures CountIf(w, c => false) == 0
  {
    if w != [] {
      CountNone(w[..|w| - 1]);
    }
  }

  // ---------------------------------------------------------------- the rank in terms of rows

  /** What the rank of row t is, told by the rows of its window: missing unless the window is complete, the row finite and
      another row finite too; otherwise, twice over and times the number of the other finite rows, the rows strictly below
      and the other rows at or below it. */
  ghost predicate MidRankOfRows(series: seq<Cell>, window: int, t: nat, cell: Cell)
    requires t < |series|
  {
    var lo := t - window + 1;
    if window < 1 || lo < 0 || series[t].Missing? then cell == Missing
    else
      var finite := set r | lo <= r <= t && series[r].Val?;
      var below := set r | lo <= r <= t && series[r].Val? && series[r].v < series[t].v;
      var atMost := set r | lo <= r <= t && series[r].Val? && series[r].v <= series[t].v;
      if |finite| < 2 then cell == Missing
      else cell.Val? && 2.0 * (|finite| - 1) as real * cell.v == (|below| + |atMost| - 1) as real
  }

  /** Counting cells of a slice is counting rows. */
  lemma {:induction false} CountRows(series: seq<Cell>, lo: nat, hi: nat, p: Cell -> bool, q: int -> bool)
    requires lo <= hi <= |series| && forall r :: lo <= r < hi ==> q(r) == p(series[r])
    ensures CountIf(series[lo..hi], p) == |Among(lo, hi, q)|
  {
    if lo == hi {
      assert Among(lo, hi, q) == {};
    } else {
      CountRows(series, lo, hi - 1, p, q);
      AmongStep(lo, hi, q);
      var w := series[lo..hi];
      assert w[..|w| - 1] == series[lo..hi - 1] && w[|w| - 1] == series[hi - 1];
    }
  }

  lemma HalvedTies(below: nat, equal: nat, n: nat)
    requires n >= 2
    ensures 2.0 * (n - 1) as real * ((below as real + (equal - 1) as real / 2.0) / (n - 1) as real)
         == (below + (below + equal) - 1) as real
  {
    var d, x := (n - 1) as real, below as real + (equal - 1) as real / 2.0;
    var q := x / d;
    assert q * d == x;
    assert 2.0 * d * q == 2.0 * (q * d);
  }

  lemma FiniteRows(series: seq<Cell>, lo: nat, t: nat)
    requires lo <= t < |series|
    ensures CountIf(series[lo..t + 1], IsFinite) == |set r | lo <= r <= t && series[r].Val?|
  {
    var q := (r: int) => 0 <= r < |series| && series[r].Val?;
    CountRows(series, lo, t + 1, IsFinite, q);
    assert Among(lo, t + 1, q) == set r | lo <= r <= t && series[r].Val?;
  }

  lemma LowerRows(series: seq<Cell>, lo: nat, t: nat, v: real)
    requires lo <= t < |series|
    ensures CountIf(series[lo..t + 1], c => IsBelow(c, v)) == |set r | lo <= r <= t && series[r].Val? && series[r].v < v|
  {
    var p, q := (c: Cell) => IsBelow(c, v), (r: int) => 0 <= r < |series| && series[r].Val? && series[r].v < v;
    CountRows(series, lo, t + 1, p, q);
    assert Among(lo, t + 1, q) == set r | lo <= r <= t && series[r].Val? && series[r].v < v;
  }

  lemma RowsAtMost(series: seq<Cell>, lo: nat, t: nat, v: real)
    requires lo <= t < |series|
    ensures CountIf(series[lo..t + 1], c => IsBelow(c, v)) + CountIf(series[lo..t + 1], c => IsEqualTo(c, v))
         == |set r | lo <= r <= t && series[r].Val? && series[r].v <= v|
  {
    var p, q := (c: Cell) => IsBelow(c, v) || IsEqualTo(c, v), (r: int) => 0 <= r < |series| && series[r].Val? && series[r].v <= v;
    CountRows(series, lo, t + 1, p, q);
    CountSplit(series[lo..t + 1], c => IsBelow(c, v), c => IsEqualTo(c, v), p);
    assert Among(lo, t + 1, q) == set r | lo <= r <= t && series[r].Val? && series[r].v <= v;
  }

  /** Every rank is that. */
  lemma RankAtRows(series: seq<Cell>, window: int, t: nat)
    requires t < |series|
    ensures MidRankOfRows(series, window, t, RankAt(series, window, t))
  {
    var lo := t - window + 1;
    if window >= 1 && lo >= 0 && series[t].Val? {
      var w, last := series[lo..t + 1], series[t].v;
      FiniteRows(series, lo, t);
      LowerRows(series, lo, t, last);
      RowsAtMost(series, lo, t, last);
      hide CountIf;
      if CountIf(w, IsFinite) >= 2 {
        HalvedTies(CountIf(w, c => IsBelow(c, last)), CountIf(w, c => IsEqualTo(c, last)), CountIf(w, IsFinite));
      }
    }
  }

  lemma ColumnRows(series: seq<Cell>, window: int, out: seq<Cell>)
    requires |out| == |series| && forall t :: 0 <= t < |series| ==> out[t] == RankAt(series, window, t)
    ensures forall t :: 0 <= t < |series| ==> MidRankOfRows(series, window, t, out[t])
  {
    forall t | 0 <= t < |series| ensures MidRankOfRows(series, window, t, out[t]) {
      RankAtRows(series, window, t);
    }
  }

  // ---------------------------------------------------------------- coordinate compression

  predicate Increasing(u: seq<real>) {
    forall i, j :: 0 <= i < j < |u| ==> u[i] < u[j]
  }

  function Insert(u: seq<real>, x: real): (r: seq<real>)
    requires Increasing(u)
    ensures Increasing(r) && forall y :: y in r <==> y in u || y == x
  {
    if u == [] then [x]
    else
      var front, last := u[..|u| - 1], u[|u| - 1];
      assert u == front + [last];
      if last < x then u + [x]
      else if last == x then u
      else
        var r := Insert(front, x);
        assert forall y :: y in r ==> y < last;
        assert forall i :: 0 <= i < |r| ==> r[i] in r;
        r + [last]
  }

  /** `np.unique` of the finite cells: their values, increasing, each once. */
  function Unique(series: seq<Cell>): (u: seq<real>)
    ensures Increasing(u) && forall x :: x in u <==> Val(x) in series
  {
    if series == [] then []
    else
      var front, last := series[..|series| - 1], series[|series| - 1];
      assert series == front + [last];
      if last.Val? then Insert(Unique(front), last.v) else Unique(front)
  }

  /** `rank_of`: each value's 1-based position in the increasing list. */
  ghost predicate IsRankOf(rank: map<real, nat>, u: seq<real>) {
    && (forall x :: x in rank <==> x in u)
    && (forall x :: x in rank ==> 1 <= rank[x] <= |u| && u[rank[x] - 1] == x)
  }

  method RankOf(u: seq<real>) returns (rank: map<real, nat>)
    requires Increasing(u)
    ensures IsRankOf(rank, u)
  {
    rank := map[];
    for index := 0 to |u|
      invariant IsRankOf(rank, u[..index])
    {
      assert u[..index + 1] == u[..index] + [u[index]];
      rank := rank[u[index] := index + 1];
    }
    assert u[..|u|] == u;
  }

  /** Compression keeps the order of the values. */
  lemma RankMonotone(rank: map<real, nat>, u: seq<real>, x: real, y: real)
    requires Increasing(u) && IsRankOf(rank, u) && x in rank && y in rank
    ensures rank[x] <= rank[y] <==> x <= y
  {
    var i, j := rank[x] - 1, rank[y] - 1;
    assert u[i] == x && u[j] == y;
  }

  // ---------------------------------------------------------------- the sliding window

  predicate RankedAtMost(rank: map<real, nat>, c: Cell, r: int) {
    c.Val? && c.v in rank && rank[c.v] <= r
  }

  /** The tree holds exactly the cells of w. */
  ghost predicate Holds(counts: seq<int>, rank: map<real, nat>, w: seq<Cell>) {
    forall r {:trigger Sum(counts, 0, r)} :: 0 <= r < |counts| ==>
      Sum(counts, 0, r) == CountIf(w, c => RankedAtMost(rank, c, r))
  }

  lemma HoldsEnter(counts: seq<int>, rank: map<real, nat>, w: seq<Cell>, c: Cell)
    requires Holds(counts, rank, w)
    requires c.Val? ==> c.v in rank && 0 < rank[c.v] < |counts|
    ensures c.Val? ==> Holds(counts[rank[c.v] := counts[rank[c.v]] + 1], rank, w + [c])
    ensures c.Missing? ==> Holds(counts, rank, w + [c])
    ensures CountIf(w + [c], IsFinite) == CountIf(w, IsFinite) + if c.Val? then 1 else 0
  {
    assert (w + [c])[..|w|] == w;
    if c.Val? {
      var after := counts[rank[c.v] := counts[rank[c.v]] + 1];
      forall r | 0 <= r < |counts| ensures Sum(after, 0, r) == CountIf(w + [c], c => RankedAtMost(rank, c, r)) {
        SumUpdate(counts, 0, r, rank[c.v], 1);
        assert Sum(counts, 0, r) == CountIf(w, c => RankedAtMost(rank, c, r));
      }
    }
  }

  lemma HoldsLeave(counts: seq<int>, rank: map<real, nat>, w: seq<Cell>)
    requires w != [] && Holds(counts, rank, w)
    requires w[0].Val? ==> w[0].v in rank && 0 < rank[w[0].v] < |counts|
    ensures w[0].Val? ==> Holds(counts[rank[w[0].v] := counts[rank[w[0].v]] - 1], rank, w[1..])
    ensures w[0].Missing? ==> Holds(counts, rank, w[1..])
    ensures CountIf(w[1..], IsFinite) == CountIf(w, IsFinite) - if w[0].Val? then 1 else 0
  {
    assert w == [w[0]] + w[1..];
    CountConcat([w[0]], w[1..], IsFinite);
    CountOne(w[0], IsFinite);
    var after := if w[0].Val? then counts[rank[w[0].v] := counts[rank[w[0].v]] + -1] else counts;
    forall r | 0 <= r < |counts| ensures Sum(after, 0, r) == CountIf(w[1..], c => RankedAtMost(rank, c, r)) {
      var p := (c: Cell) => RankedAtMost(rank, c, r);
      CountConcat([w[0]], w[1..], p);
      CountOne(w[0], p);
      if w[0].Val? { SumUpdate(counts, 0, r, rank[w[0].v], -1); }
      assert Sum(counts, 0, r) == CountIf(w, p);
    }
  }

  lemma CountOne(c: Cell, p: Cell -> bool)
    ensures CountIf([c], p) == if p(c) then 1 else 0
  {
    assert CountIf([], p) == 0;
  }

  /** Two prefix queries around a value's rank count what lies below it and what equals it. */
  lemma PrefixesCount(counts: seq<int>, rank: map<real, nat>, u: seq<real>, w: seq<Cell>, v: real)
    requires Increasing(u) && IsRankOf(rank, u) && v in rank && |counts| == |u| + 1
    requires Holds(counts, rank, w) && forall c :: c in w && c.Val? ==> c.v in rank
    ensures Sum(counts, 0, rank[v] - 1) == CountIf(w, c => IsBelow(c, v))
    ensures Sum(counts, 0, rank[v]) == CountIf(w, c => IsBelow(c, v)) + CountIf(w, c => IsEqualTo(c, v))
  {
    var r := rank[v];
    forall c | c in w && c.Val? ensures rank[c.v] <= r <==> c.v <= v {
      RankMonotone(rank, u, c.v, v);
    }
    forall c | c in w && c.Val? ensures rank[v] <= rank[c.v] <==> v <= c.v {
      RankMonotone(rank, u, v, c.v);
    }
    var less, same := (c: Cell) => IsBelow(c, v), (c: Cell) => IsEqualTo(c, v);
    CountSame(w, c => RankedAtMost(rank, c, r - 1), less);
    CountSplit(w, less, same, c => RankedAtMost(rank, c, r));
  }

  lemma FewFiniteAllMissing(series: seq<Cell>, window: int, t: nat)
    requires t < |series| && CountIf(series, IsFinite) < 2
    ensures RankAt(series, window, t) == Missing
  {
    if window > 0 && t >= window - 1 {
      CountSlice(series, t - window + 1, t + 1, IsFinite);
    }
  }

  /** The series' values are all ranked within the tree. */
  ghost predicate Ranks(rank: map<real, nat>, size: nat, w: seq<Cell>) {
    forall c :: c in w && c.Val? ==> c.v in rank && 1 <= rank[c.v] <= size
  }

  /** Row t enters the window. */
  method Enter(tree: Fenwick, rankOf: map<real, nat>, ghost w: seq<Cell>, current: Cell)
    requires tree.Valid() && Holds(tree.counts, rankOf, w) && Ranks(rankOf, tree.size, [current])
    modifies tree, tree.tree
    ensures tree.Valid() && Holds(tree.counts, rankOf, w + [current])
  {
    assert current in [current];
    HoldsEnter(tree.counts, rankOf, w, current);
    if current.Val? {
      tree.Add(rankOf[current.v], 1);
    }
  }

  /** The oldest row leaves the window. */
  method Leave(tree: Fenwick, rankOf: map<real, nat>, ghost w: seq<Cell>, oldest: Cell)
    requires tree.Valid() && w != [] && w[0] == oldest && Holds(tree.counts, rankOf, w) && Ranks(rankOf, tree.size, [oldest])
    modifies tree, tree.tree
    ensures tree.Valid() && Holds(tree.counts, rankOf, w[1..])
  {
    assert oldest in [oldest];
    HoldsLeave(tree.counts, rankOf, w);
    if oldest.Val? {
      tree.Add(rankOf[oldest.v], -1);
    }
  }

  /** Two prefix queries give the midrank of the row that entered last. */
  method CurrentRank(tree: Fenwick, rankOf: map<real, nat>, ghost u: seq<real>, ghost w: seq<Cell>, current: Cell, inWindow: int)
    returns (cell: Cell)
    requires tree.Valid() && |u| == tree.size && Increasing(u) && IsRankOf(rankOf, u)
    requires Holds(tree.counts, rankOf, w) && Ranks(rankOf, tree.size, w)
    requires w != [] && w[|w| - 1] == current && current.Val? && inWindow == CountIf(w, IsFinite) >= 2
    ensures cell == MidRank(w)
  {
    assert current in w;
    var rank := rankOf[current.v];
    var below := tree.Prefix(rank - 1);
    var upTo := tree.Prefix(rank);
    var equal := upTo - below;
    PrefixesCount(tree.counts, rankOf, u, w, current.v);
    cell := Val((below as real + (equal - 1) as real / 2.0) / (inWindow - 1) as real);
  }

  /** The rows t - window + 1 .. t, or all rows up to t while the window fills. */
  function Window(series: seq<Cell>, window: int, t: nat): seq<Cell>
    requires t <= |series| && window >= 0
  {
    series[if t < window then 0 else t - window..t]
  }

  function FiniteInWindow(series: seq<Cell>, window: int, t: nat): nat
    requires t <= |series| && window >= 0
  {
    CountIf(Window(series, window, t), IsFinite)
  }

  lemma WindowSlides(series: seq<Cell>, window: int, t: nat)
    requires t < |series| && window >= 1
    ensures var w := Window(series, window, t) + [series[t]];
      if t < window then w == Window(series, window, t + 1)
      else w != [] && w[0] == series[t - window] && w[1..] == Window(series, window, t + 1)
    ensures FiniteInWindow(series, window, t + 1) == FiniteInWindow(series, window, t)
      + (if series[t].Val? then 1 else 0) - (if t >= window && series[t - window].Val? then 1 else 0)
  {
    hide CountIf;
    var w := Window(series, window, t) + [series[t]];
    CountConcat(Window(series, window, t), [series[t]], IsFinite);
    CountOne(series[t], IsFinite);
    if t >= window {
      assert w[1..] == Window(series, window, t + 1);
      assert w == [w[0]] + w[1..];
      CountConcat([w[0]], w[1..], IsFinite);
      CountOne(w[0], IsFinite);
    } else {
      assert w == Window(series, window, t + 1);
    }
  }

  lemma RankAtRow(series: seq<Cell>, window: int, t: nat)
    requires t < |series| && window >= 1
    ensures var w := Window(series, window, t + 1); w != [] && w[|w| - 1] == series[t]
    ensures FiniteInWindow(series, window, t + 1) == CountIf(Window(series, window, t + 1), IsFinite)
    ensures RankAt(series, window, t) ==
      if t < window - 1 || series[t].Missing? || FiniteInWindow(series, window, t + 1) < 2 then Missing
      else MidRank(Window(series, window, t + 1))
  {
  }

  lemma RanksRow(rank: map<real, nat>, size: nat, series: seq<Cell>, window: int, t: nat)
    requires t < |series| && window >= 1 && Ranks(rank, size, series)
    ensures Ranks(rank, size, [series[t]]) && Ranks(rank, size, Window(series, window, t + 1))
    ensures t >= window ==> Ranks(rank, size, [series[t - window]])
  {
    assert series[t] in series;
  }

  /** Moves the window from the rows before t to the rows up to t. */
  method Slide(tree: Fenwick, rankOf: map<real, nat>, series: seq<Cell>, window: int, t: nat, before: int)
    returns (inWindow: int)
    requires t < |series| && window >= 1
    requires tree.Valid() && Holds(tree.counts, rankOf, Window(series, window, t)) && Ranks(rankOf, tree.size, series)
    requires before == FiniteInWindow(series, window, t)
    modifies tree, tree.tree
    ensures tree.Valid() && Holds(tree.counts, rankOf, Window(series, window, t + 1))
    ensures inWindow == FiniteInWindow(series, window, t + 1)
  {
    WindowSlides(series, window, t);
    RanksRow(rankOf, tree.size, series, window, t);
    hide Holds, Ranks, Window, FiniteInWindow;
    ghost var w := Window(series, window, t) + [series[t]];
    inWindow := before;
    Enter(tree, rankOf, Window(series, window, t), series[t]);
    if series[t].Val? {
      inWindow := inWindow + 1;
    }
    var expired := t - window;
    if expired >= 0 {
      Leave(tree, rankOf, w, series[expired]);
      if series[expired].Val? {
        inWindow := inWindow - 1;
      }
    }
  }

  /** One row: slide the window, then query when the row is finite and the window full enough. */
  method Row(tree: Fenwick, rankOf: map<real, nat>, ghost u: seq<real>, series: seq<Cell>, window: int, t: nat, before: int)
    returns (inWindow: int, cell: Cell)
    requires t < |series| && window >= 1
    requires tree.Valid() && |u| == tree.size && Increasing(u) && IsRankOf(rankOf, u)
    requires Holds(tree.counts, rankOf, Window(series, window, t)) && Ranks(rankOf, tree.size, series)
    requires before == FiniteInWindow(series, window, t)
    modifies tree, tree.tree
    ensures tree.Valid() && Holds(tree.counts, rankOf, Window(series, window, t + 1))
    ensures inWindow == FiniteInWindow(series, window, t + 1) && cell == RankAt(series, window, t)
  {
    RankAtRow(series, window, t);
    RanksRow(rankOf, tree.size, series, window, t);
    hide Holds, IsRankOf, Increasing, CountIf, Ranks, RankAt, MidRank, Window, FiniteInWindow;
    inWindow := Slide(tree, rankOf, series, window, t, before);
    var current := series[t];
    if t < window - 1 || current.Missing? || inWindow < 2 {
      cell := Missing;
    } else {
      cell := CurrentRank(tree, rankOf, u, Window(series, window, t + 1), current, inWindow);
    }
  }

  /** All rows, one after the other. */
  method Rows(tree: Fenwick, rankOf: map<real, nat>, ghost u: seq<real>, series: seq<Cell>, window: int, out: array<Cell>)
    requires window >= 1 && out.Length == |series| && tree.tree as object != out
    requires tree.Valid() && |u| == tree.size && Increasing(u) && IsRankOf(rankOf, u)
    requires Holds(tree.counts, rankOf, Window(series, window, 0)) && FiniteInWindow(series, window, 0) == 0
    requires Ranks(rankOf, tree.size, series)
    modifies tree, tree.tree, out
    ensures forall t :: 0 <= t < |series| ==> out[t] == RankAt(series, window, t)
  {
    hide Holds, IsRankOf, Increasing, CountIf, Ranks, RankAt, MidRank, Window, FiniteInWindow;
    var inWindow := 0;
    for t := 0 to |series|
      invariant tree.Valid()
      invariant Holds(tree.counts, rankOf, Window(series, window, t))
      invariant inWindow == FiniteInWindow(series, window, t)
      invariant forall k :: 0 <= k < t ==> out[k] == RankAt(series, window, k)
    {
      var cell;
      inWindow, cell := Row(tree, rankOf, u, series, window, t, inWindow);
      out[t] := cell;
    }
  }

  /** `_rank_column`: one pass, two tree updates and two prefix queries a row. */
  method RankColumn(series: seq<Cell>, window: int) returns (out: array<Cell>)
    requires window >= 1
    ensures fresh(out) && out.Length == |series|
    ensures forall t :: 0 <= t < |series| ==> out[t] == RankAt(series, window, t)
    ensures forall t :: 0 <= t < |series| ==> MidRankOfRows(series, window, t, out[t])
  {
    hide MidRankOfRows;
    out := new Cell[|series|](_ => Missing);
    if CountIf(series, IsFinite) < 2 {
      forall t | 0 <= t < |series| ensures out[t] == RankAt(series, window, t) {
        FewFiniteAllMissing(series, window, t);
      }
      ColumnRows(series, window, out[..]);
      return;
    }
    var unique := Unique(series);
    var rankOf := RankOf(unique);
    var tree := new Fenwick(|unique|);
    ColumnStart(series, window, rankOf, unique);
    Rows(tree, rankOf, unique, series, window, out);
    ColumnRows(series, window, out[..]);
  }

  lemma ColumnStart(series: seq<Cell>, window: int, rank: map<real, nat>, u: seq<real>)
    requires window >= 1 && u == Unique(series) && IsRankOf(rank, u)
    ensures Holds(seq(|u| + 1, _ => 0), rank, Window(series, window, 0)) && FiniteInWindow(series, window, 0) == 0
    ensures Ranks(rank, |u|, series)
  {
    assert Window(series, window, 0) == [];
    EmptyHolds(rank, |u|);
  }

  lemma EmptyHolds(rank: map<real, nat>, size: nat)
    ensures Holds(seq(size + 1, _ => 0), rank, [])
  {
    var zero := seq(size + 1, _ => 0);
    forall r | 0 <= r <= size ensures Sum(zero, 0, r) == 0 {
      SumZero(zero, 0, r);
    }
  }
}
