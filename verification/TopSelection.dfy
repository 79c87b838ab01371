/** Family-capped top-k selection: the greedy pass is optimal. */
module TopSelection {

  import opened Basics
  import opened FactorDsl

  datatype FactorFamily = Trend | MeanReversion | Volatility | Range | LiquidityVolume | PriceVolume | Other

  datatype ZooEntry = ZooEntry(
    formula: string, tree: Json, family: FactorFamily, score: real, rankIc: real, roundIndex: int)

  // ---------------------------------------------------------------- the order

  /** The sort key (-score, formula). */
  predicate NotAfter(a: ZooEntry, b: ZooEntry) {
    a.score > b.score || (a.score == b.score && TextAtMost(a.formula, b.formula))
  }

  lemma NotAfterTransitive(a: ZooEntry, b: ZooEntry, c: ZooEntry)
    requires NotAfter(a, b) && NotAfter(b, c)
    ensures NotAfter(a, c)
  {
    if a.score == b.score == c.score {
      TextTransitive(a.formula, b.formula, c.formula);
    }
  }

  ghost predicate Sorted(es: seq<ZooEntry>) {
    forall i, j :: 0 <= i < j < |es| ==> NotAfter(es[i], es[j])
  }

  function Insert(es: seq<ZooEntry>, e: ZooEntry): (r: seq<ZooEntry>)
    requires Sorted(es)
    ensures Sorted(r) && multiset(r) == multiset(es) + multiset{e}
  {
    if es == [] then [e]
    else
      var front, last := es[..|es| - 1], es[|es| - 1];
      assert es == front + [last];
      TextTotal(last.formula, e.formula);
      if NotAfter(last, e) then
        assert forall i :: 0 <= i < |es| ==> NotAfter(es[i], e) by {
          forall i | 0 <= i < |es| ensures NotAfter(es[i], e) {
            if i < |es| - 1 { NotAfterTransitive(es[i], last, e); }
          }
        }
        es + [e]
      else
        var r := Insert(front, e);
        assert forall x :: x in r ==> NotAfter(x, last) by {
          forall x | x in r ensures NotAfter(x, last) {
            assert x in multiset(r);
            assert x in front || x == e;
          }
        }
        assert forall i :: 0 <= i < |r| ==> r[i] in r;
        r + [last]
  }

  /** `sorted(entries, key=(-score, formula))`. */
  function SortEntries(es: seq<ZooEntry>): (r: seq<ZooEntry>)
    ensures Sorted(r) && multiset(r) == multiset(es) && |r| == |es|
  {
    if es == [] then []
    else
      var front, last := es[..|es| - 1], es[|es| - 1];
      assert es == front + [last];
      var r := Insert(SortEntries(front), last);
      assert |multiset(r)| == |multiset(es)|;
      r
  }

  ghost predicate DistinctFormulas(es: seq<ZooEntry>) {
    forall i, j :: 0 <= i < j < |es| ==> es[i].formula != es[j].formula
  }

  /** Two orders of the same entries begin with the same one. */
  lemma SameFirst(a: seq<ZooEntry>, b: seq<ZooEntry>)
    requires Sorted(a) && Sorted(b) && multiset(a) == multiset(b) && DistinctFormulas(a) && a != [] && b != []
    ensures a[0] == b[0]
  {
    assert a[0] in multiset(b) && b[0] in multiset(a);
    var i :| 0 <= i < |a| && a[i] == b[0];
    var j :| 0 <= j < |b| && b[j] == a[0];
    if i > 0 && j > 0 {
      assert NotAfter(a[0], a[i]) && NotAfter(b[0], b[j]);
      TextAntisymmetric(a[0].formula, b[0].formula);
    }
  }

  lemma SameRest<T>(a: seq<T>, b: seq<T>)
    requires multiset(a) == multiset(b) && a != [] && b != [] && a[0] == b[0]
    ensures multiset(a[1..]) == multiset(b[1..])
  {
    assert a == [a[0]] + a[1..] && b == [b[0]] + b[1..];
    assert multiset(a[1..]) == multiset(a) - multiset{a[0]} == multiset(b[1..]);
  }

  /** Entries with distinct formulas can be sorted in one way only. */
  lemma {:induction false} SortedUnique(a: seq<ZooEntry>, b: seq<ZooEntry>)
    requires Sorted(a) && Sorted(b) && multiset(a) == multiset(b) && DistinctFormulas(a)
    ensures a == b
  {
    assert |a| == |multiset(a)| == |b|;
    if a != [] {
      SameFirst(a, b);
      hide NotAfter;
      SameRest(a, b);
      SortedUnique(a[1..], b[1..]);
      assert a == [a[0]] + a[1..] && b == [b[0]] + b[1..];
    }
  }

  // ---------------------------------------------------------------- the greedy pass

  function CountFamily(es: seq<ZooEntry>, f: FactorFamily): nat {
    if es == [] then 0 else CountFamily(es[..|es| - 1], f) + if es[|es| - 1].family == f then 1 else 0
  }

  function TotalScore(es: seq<ZooEntry>): real {
    if es == [] then 0.0 else TotalScore(es[..|es| - 1]) + es[|es| - 1].score
  }

  /** The picks among the first m entries of an ordered list. */
  function Picks(ordered: seq<ZooEntry>, m: nat, k: int, cap: int): (p: seq<ZooEntry>)
    requires m <= |ordered|
    ensures |p| <= m
  {
    if m == 0 then []
    else
      var p, e := Picks(ordered, m - 1, k, cap), ordered[m - 1];
      if |p| < k && CountFamily(p, e.family) < cap then p + [e] else p
  }

  /** `ordered[:k]`, negative k counting from the end. */
  function SliceTo(es: seq<ZooEntry>, k: int): seq<ZooEntry> {
    if k >= |es| then es else if k >= 0 then es[..k] else if |es| + k >= 0 then es[..|es| + k] else []
  }

  /** The slice is the beginning of the list: at most k entries, or all but the last -k. */
  lemma SliceIs(es: seq<ZooEntry>, k: int)
    ensures SliceTo(es, k) <= es
    ensures |SliceTo(es, k)| == if k >= |es| then |es| else if k >= 0 then k else if |es| + k >= 0 then |es| + k else 0
  {
  }

  function TopKOf(entries: seq<ZooEntry>, k: int, cap: Option<int>): seq<ZooEntry> {
    var ordered := SortEntries(entries);
    if cap.None? then SliceTo(ordered, k) else Picks(ordered, |ordered|, k, cap.value)
  }

  /** Of entries with distinct formulas the selection is the same in whatever order they were added. */
  lemma OrderDoesNotMatter(es: seq<ZooEntry>, other: seq<ZooEntry>, k: int, cap: Option<int>)
    requires multiset(es) == multiset(other) && DistinctFormulas(es)
    ensures TopKOf(es, k, cap) == TopKOf(other, k, cap)
  {
    var a, b := SortEntries(es), SortEntries(other);
    DistinctSorted(es, a);
    hide Sorted;
    SortedUnique(a, b);
  }

  lemma DistinctSorted(es: seq<ZooEntry>, sorted: seq<ZooEntry>)
    requires multiset(es) == multiset(sorted) && DistinctFormulas(es)
    ensures DistinctFormulas(sorted)
  {
    forall i, j | 0 <= i < j < |sorted| ensures sorted[i].formula != sorted[j].formula {
      TwoPlaces(sorted, i, j);
      assert sorted[i] in multiset(es) && sorted[j] in multiset(es);
      var p :| 0 <= p < |es| && es[p] == sorted[i];
      var q :| 0 <= q < |es| && es[q] == sorted[j];
      if sorted[i] == sorted[j] {
        OnePlace(es, p);
      }
    }
  }

  lemma TwoPlaces<T>(s: seq<T>, i: nat, j: nat)
    requires i < j < |s|
    ensures s[i] == s[j] ==> multiset(s)[s[i]] >= 2
  {
    assert s == s[..i] + [s[i]] + s[i + 1..j] + [s[j]] + s[j + 1..];
  }

  lemma OnePlace(es: seq<ZooEntry>, p: nat)
    requires DistinctFormulas(es) && p < |es|
    ensures multiset(es)[es[p]] == 1
  {
    assert es == es[..p] + [es[p]] + es[p + 1..];
    assert es[p] !in es[..p] && es[p] !in es[p + 1..];
  }

  /** `counts[f]` of a Counter: an absent family counts zero. */
  function Used(counts: map<FactorFamily, nat>, f: FactorFamily): nat {
    if f in counts then counts[f] else 0
  }

  ghost predicate Counts(counts: map<FactorFamily, nat>, picked: seq<ZooEntry>) {
    forall f :: Used(counts, f) == CountFamily(picked, f)
  }

  lemma CountsAppend(counts: map<FactorFamily, nat>, picked: seq<ZooEntry>, e: ZooEntry)
    requires Counts(counts, picked)
    ensures Counts(counts[e.family := Used(counts, e.family) + 1], picked + [e])
  {
    forall f: FactorFamily ensures Used(counts[e.family := Used(counts, e.family) + 1], f) == CountFamily(picked + [e], f) {
      CountAppend(picked, e, f);
    }
  }

  /** `top_k`: one pass over the sorted entries with a counter per family. */
  method TopK(entries: seq<ZooEntry>, k: int, cap: Option<int>) returns (picked: seq<ZooEntry>)
    ensures picked == TopKOf(entries, k, cap)
  {
    var ordered := SortEntries(entries);
    if cap.None? {
      return SliceTo(ordered, k);
    }
    var counts: map<FactorFamily, nat> := map[];
    picked := [];
    var i := 0;
    while i < |ordered|
      invariant 0 <= i <= |ordered| && picked == Picks(ordered, i, k, cap.value) && Counts(counts, picked)
    {
      hide Picks, CountFamily, Sorted;
      if |picked| >= k {
        PicksFull(ordered, i, |ordered|, k, cap.value);
        return;
      }
      PicksStep(ordered, i + 1, k, cap.value);
      var entry := ordered[i];
      assert Used(counts, entry.family) == CountFamily(picked, entry.family);
      hide Counts;
      if Used(counts, entry.family) < cap.value {
        CountsAppend(counts, picked, entry);
        counts := counts[entry.family := Used(counts, entry.family) + 1];
        picked := picked + [entry];
      }
      i := i + 1;
    }
  }

  /** Once k entries are picked nothing more is. */
  lemma {:induction false} PicksFull(ordered: seq<ZooEntry>, m: nat, n: nat, k: int, cap: int)
    requires m <= n <= |ordered| && |Picks(ordered, m, k, cap)| >= k
    ensures Picks(ordered, n, k, cap) == Picks(ordered, m, k, cap)
  {
    if m < n {
      PicksFull(ordered, m, n - 1, k, cap);
    }
  }

  lemma {:induction false} PicksGrow(ordered: seq<ZooEntry>, m: nat, n: nat, k: int, cap: int)
    requires m <= n <= |ordered|
    ensures Picks(ordered, m, k, cap) <= Picks(ordered, n, k, cap)
  {
    if m < n {
      PicksGrow(ordered, m, n - 1, k, cap);
    }
  }

  // ---------------------------------------------------------------- counting

  lemma {:induction false} CountConcat(a: seq<ZooEntry>, b: seq<ZooEntry>, f: FactorFamily)
    ensures CountFamily(a + b, f) == CountFamily(a, f) + CountFamily(b, f)
    ensures TotalScore(a + b) == TotalScore(a) + TotalScore(b)
  {
    if b == [] {
      assert a + b == a;
    } else {
      CountConcat(a, b[..|b| - 1], f);
      assert (a + b)[..|a + b| - 1] == a + b[..|b| - 1];
    }
  }

  lemma CountRemove(es: seq<ZooEntry>, at: nat, f: FactorFamily)
    requires at < |es|
    ensures var rest := es[..at] + es[at + 1..];
      && multiset(es) == multiset(rest) + multiset{es[at]}
      && CountFamily(es, f) == CountFamily(rest, f) + (if es[at].family == f then 1 else 0)
      && TotalScore(es) == TotalScore(rest) + es[at].score
  {
    var one := [es[at]];
    assert es == es[..at] + (one + es[at + 1..]);
    assert one[..0] == [];
    CountConcat(es[..at], one + es[at + 1..], f);
    CountConcat(one, es[at + 1..], f);
    CountConcat(es[..at], es[at + 1..], f);
    assert CountFamily([], f) == 0 && TotalScore([]) == 0.0;
  }

  /** A smaller collection has no more entries of any family. */
  lemma {:induction false} CountMonotone(a: seq<ZooEntry>, b: seq<ZooEntry>, f: FactorFamily)
    requires multiset(a) <= multiset(b)
    ensures CountFamily(a, f) <= CountFamily(b, f)
    decreases |a|
  {
    if a != [] {
      var front, last := a[..|a| - 1], a[|a| - 1];
      assert a == front + [last];
      assert last in multiset(a);
      assert last in b;
      var at :| 0 <= at < |b| && b[at] == last;
      CountRemove(b, at, f);
      assert multiset(front) == multiset(a) - multiset{last};
      CountMonotone(front, b[..at] + b[at + 1..], f);
    }
  }

  lemma {:induction false} TotalPermute(a: seq<ZooEntry>, b: seq<ZooEntry>)
    requires multiset(a) == multiset(b)
    ensures TotalScore(a) == TotalScore(b)
    decreases |a|
  {
    if a == [] {
      assert |multiset(b)| == 0;
    } else {
      var front, last := a[..|a| - 1], a[|a| - 1];
      assert a == front + [last];
      assert last in multiset(a);
      assert last in b;
      var at :| 0 <= at < |b| && b[at] == last;
      CountRemove(b, at, last.family);
      assert multiset(front) == multiset(a) - multiset{last};
      TotalPermute(front, b[..at] + b[at + 1..]);
    }
  }

  /** Every entry belongs to one of the seven families. */
  lemma {:induction false} SizeByFamily(es: seq<ZooEntry>)
    ensures |es| == CountFamily(es, Trend) + CountFamily(es, MeanReversion) + CountFamily(es, Volatility)
      + CountFamily(es, Range) + CountFamily(es, LiquidityVolume) + CountFamily(es, PriceVolume) + CountFamily(es, Other)
  {
    if es != [] {
      SizeByFamily(es[..|es| - 1]);
    }
  }

  // ---------------------------------------------------------------- optimality

  ghost predicate Feasible(sel: seq<ZooEntry>, entries: seq<ZooEntry>, k: int, cap: int) {
    multiset(sel) <= multiset(entries) && |sel| <= k && forall f :: CountFamily(sel, f) <= cap
  }

  lemma PicksStep(ordered: seq<ZooEntry>, m: nat, k: int, cap: int)
    requires 0 < m <= |ordered|
    ensures var p, e := Picks(ordered, m - 1, k, cap), ordered[m - 1];
      Picks(ordered, m, k, cap) == if |p| < k && CountFamily(p, e.family) < cap then p + [e] else p
  {
  }

  lemma CountAppend(es: seq<ZooEntry>, e: ZooEntry, f: FactorFamily)
    ensures CountFamily(es + [e], f) == CountFamily(es, f) + if e.family == f then 1 else 0
  {
    assert (es + [e])[..|es|] == es;
  }

  lemma PrefixStep(ordered: seq<ZooEntry>, m: nat, f: FactorFamily)
    requires 0 < m <= |ordered|
    ensures CountFamily(ordered[..m], f) == CountFamily(ordered[..m - 1], f) + if ordered[m - 1].family == f then 1 else 0
  {
    assert ordered[..m][..m - 1] == ordered[..m - 1];
  }

  lemma PicksCountStep(ordered: seq<ZooEntry>, m: nat, k: int, cap: int, f: FactorFamily)
    requires 0 < m <= |ordered| && |Picks(ordered, m, k, cap)| < k
    ensures var p, e := Picks(ordered, m - 1, k, cap), ordered[m - 1];
      && |p| < k
      && CountFamily(Picks(ordered, m, k, cap), f)
         == CountFamily(p, f) + if e.family == f && CountFamily(p, f) < cap then 1 else 0
  {
    var p, e := Picks(ordered, m - 1, k, cap), ordered[m - 1];
    PicksStep(ordered, m, k, cap);
    assert |p| < k;
    CountAppend(p, e, f);
  }

  /** How many of the first m picks, or of the first m entries, are of a family. */
  function PickedOf(ordered: seq<ZooEntry>, m: nat, k: int, cap: int, f: FactorFamily): nat
    requires m <= |ordered|
  {
    CountFamily(Picks(ordered, m, k, cap), f)
  }

  function SupplyOf(ordered: seq<ZooEntry>, m: nat, f: FactorFamily): nat
    requires m <= |ordered|
  {
    CountFamily(ordered[..m], f)
  }

  lemma FamilyStep(ordered: seq<ZooEntry>, m: nat, k: int, cap: int, f: FactorFamily)
    requires 0 < m <= |ordered| && |Picks(ordered, m, k, cap)| < k
    ensures var hit := if ordered[m - 1].family == f then 1 else 0;
      && |Picks(ordered, m - 1, k, cap)| < k
      && SupplyOf(ordered, m, f) == SupplyOf(ordered, m - 1, f) + hit
      && PickedOf(ordered, m, k, cap, f)
         == PickedOf(ordered, m - 1, k, cap, f) + if PickedOf(ordered, m - 1, k, cap, f) < cap then hit else 0
  {
    PicksCountStep(ordered, m, k, cap, f);
    PrefixStep(ordered, m, f);
    hide Picks, CountFamily;
  }

  /** Short of k picks, each family has been taken up to its cap or its supply. */
  lemma {:induction false} PicksPerFamily(ordered: seq<ZooEntry>, m: nat, k: int, cap: int, f: FactorFamily)
    requires m <= |ordered| && |Picks(ordered, m, k, cap)| < k && cap >= 0
    ensures PickedOf(ordered, m, k, cap, f) == Min(SupplyOf(ordered, m, f), cap)
  {
    if m > 0 {
      hide Picks, CountFamily, PickedOf, SupplyOf;
      FamilyStep(ordered, m, k, cap, f);
      PicksPerFamily(ordered, m - 1, k, cap, f);
    }
  }

  /** On every prefix of the order the greedy picks are as many as any feasible selection from that prefix. */
  lemma PicksMaximal(ordered: seq<ZooEntry>, m: nat, k: int, cap: int, sel: seq<ZooEntry>)
    requires m <= |ordered| && Feasible(sel, ordered[..m], k, cap)
    ensures |sel| <= |Picks(ordered, m, k, cap)|
  {
    var p := Picks(ordered, m, k, cap);
    assert CountFamily(sel, Trend) <= cap;
    if |p| < k {
      forall f: FactorFamily ensures CountFamily(sel, f) <= CountFamily(p, f) {
        PicksPerFamily(ordered, m, k, cap, f);
        CountMonotone(sel, ordered[..m], f);
        assert CountFamily(sel, f) <= cap;
      }
      SizeByFamily(sel);
      SizeByFamily(p);
    }
  }

  /** Where scores fall below a bound in an ordered list. */
  lemma {:induction false} ScoreCut(es: seq<ZooEntry>, bound: real) returns (m: nat)
    requires Sorted(es)
    ensures m <= |es|
    ensures forall i :: 0 <= i < m ==> es[i].score >= bound
    ensures forall i :: m <= i < |es| ==> es[i].score < bound
  {
    if es == [] || es[|es| - 1].score >= bound {
      m := |es|;
      forall i | 0 <= i < m ensures es[i].score >= bound {
        if i < |es| - 1 { assert NotAfter(es[i], es[|es| - 1]); }
      }
    } else {
      m := ScoreCut(es[..|es| - 1], bound);
    }
  }

  lemma AppendPart(p: seq<ZooEntry>, es: seq<ZooEntry>, e: ZooEntry)
    requires multiset(p) <= multiset(es)
    ensures multiset(p) <= multiset(es + [e]) && multiset(p + [e]) <= multiset(es + [e])
  {
    assert multiset(es + [e]) == multiset(es) + multiset{e};
    assert multiset(p + [e]) == multiset(p) + multiset{e};
  }

  lemma {:induction false} PicksFromPrefix(ordered: seq<ZooEntry>, m: nat, k: int, cap: int)
    requires m <= |ordered|
    ensures multiset(Picks(ordered, m, k, cap)) <= multiset(ordered[..m])
  {
    if m > 0 {
      PicksStep(ordered, m, k, cap);
      hide Picks, CountFamily;
      PicksFromPrefix(ordered, m - 1, k, cap);
      assert ordered[..m] == ordered[..m - 1] + [ordered[m - 1]];
      AppendPart(Picks(ordered, m - 1, k, cap), ordered[..m - 1], ordered[m - 1]);
    }
  }

  /** A part of a collection whose scores all reach the bound comes from the prefix that reaches it. */
  lemma PartOfPrefix(part: seq<ZooEntry>, ordered: seq<ZooEntry>, m: nat, bound: real)
    requires multiset(part) <= multiset(ordered) && m <= |ordered|
    requires forall i :: m <= i < |ordered| ==> ordered[i].score < bound
    requires forall i :: 0 <= i < |part| ==> part[i].score >= bound
    ensures multiset(part) <= multiset(ordered[..m])
  {
    assert ordered == ordered[..m] + ordered[m..];
    assert forall x :: x in ordered[m..] ==> x.score < bound;
    forall x | x in multiset(part) ensures multiset(part)[x] <= multiset(ordered[..m])[x] {
      assert x in part;
      assert x !in multiset(ordered[m..]);
      assert multiset(ordered)[x] == multiset(ordered[..m])[x] + multiset(ordered[m..])[x];
    }
  }

  lemma PrefixMultiset(es: seq<ZooEntry>, n: nat)
    requires n <= |es|
    ensures multiset(es[..n]) <= multiset(es)
  {
    assert es == es[..n] + es[n..];
  }

  lemma PartFeasible(sel: seq<ZooEntry>, n: nat, k: int, cap: int)
    requires n <= |sel| <= k && forall f :: CountFamily(sel, f) <= cap
    ensures |sel[..n]| <= k && forall f :: CountFamily(sel[..n], f) <= cap
  {
    PrefixMultiset(sel, n);
    forall f: FactorFamily ensures CountFamily(sel[..n], f) <= cap {
      CountMonotone(sel[..n], sel, f);
      assert CountFamily(sel, f) <= cap;
    }
  }

  /** The i-th best entry of any feasible selection scores no more than the i-th greedy pick. */
  lemma Dominated(ordered: seq<ZooEntry>, k: int, cap: int, sel: seq<ZooEntry>, i: nat)
    requires Sorted(ordered) && Sorted(sel) && Feasible(sel, ordered, k, cap) && i < |sel|
    ensures var p := Picks(ordered, |ordered|, k, cap); i < |p| && sel[i].score <= p[i].score
  {
    var bound := sel[i].score;
    var m := ScoreCut(ordered, bound);
    var part := sel[..i + 1];
    forall r | 0 <= r < |part| ensures part[r].score >= bound {
      if r < i { assert NotAfter(sel[r], sel[i]); }
    }
    PrefixMultiset(sel, i + 1);
    PartOfPrefix(part, ordered, m, bound);
    PartFeasible(sel, i + 1, k, cap);
    hide Sorted, CountFamily, Picks;
    PicksMaximal(ordered, m, k, cap, part);
    PicksGrow(ordered, m, |ordered|, k, cap);
    PicksFromPrefix(ordered, m, k, cap);
    var early := Picks(ordered, m, k, cap);
    assert early[i] in multiset(early);
    assert early[i] in ordered[..m];
  }

  lemma {:induction false} DominatedTotal(a: seq<ZooEntry>, b: seq<ZooEntry>)
    requires |a| <= |b| && forall i :: 0 <= i < |a| ==> a[i].score <= b[i].score
    requires NonNegative(b)
    ensures TotalScore(a) <= TotalScore(b)
    decreases |b|
  {
    if b != [] {
      DominatedTotal(if |a| == |b| then a[..|a| - 1] else a, b[..|b| - 1]);
    }
  }

  ghost predicate NonNegative(es: seq<ZooEntry>) {
    forall i :: 0 <= i < |es| ==> es[i].score >= 0.0
  }

  lemma PartNonNegative(part: seq<ZooEntry>, es: seq<ZooEntry>)
    requires multiset(part) <= multiset(es) && NonNegative(es)
    ensures NonNegative(part)
  {
    forall i | 0 <= i < |part| ensures part[i].score >= 0.0 {
      assert part[i] in multiset(part);
      assert part[i] in es;
    }
  }

  lemma PicksScores(ordered: seq<ZooEntry>, k: int, cap: int)
    requires NonNegative(ordered)
    ensures NonNegative(Picks(ordered, |ordered|, k, cap))
  {
    hide NonNegative, Picks;
    PicksFromPrefix(ordered, |ordered|, k, cap);
    assert ordered[..|ordered|] == ordered;
    PartNonNegative(Picks(ordered, |ordered|, k, cap), ordered);
  }

  lemma SortedFeasible(other: seq<ZooEntry>, entries: seq<ZooEntry>, k: int, cap: int)
    requires Feasible(other, entries, k, cap)
    ensures Feasible(SortEntries(other), SortEntries(entries), k, cap)
  {
    hide Sorted;
    forall f: FactorFamily ensures CountFamily(SortEntries(other), f) <= cap {
      CountMonotone(SortEntries(other), other, f);
      assert CountFamily(other, f) <= cap;
    }
  }

  /** The greedy, family-capped selection has the largest total score and the largest size of all selections it competes with. */
  lemma GreedyOptimal(entries: seq<ZooEntry>, k: int, cap: int, other: seq<ZooEntry>)
    requires Feasible(other, entries, k, cap) && NonNegative(entries)
    ensures TotalScore(other) <= TotalScore(TopKOf(entries, k, Some(cap)))
    ensures |other| <= |TopKOf(entries, k, Some(cap))|
  {
    hide Sorted, Feasible, TotalScore, Picks, NonNegative;
    var ordered := SortEntries(entries);
    assert TopKOf(entries, k, Some(cap)) == Picks(ordered, |ordered|, k, cap);
    hide TopKOf;
    SortedFeasible(other, entries, k, cap);
    TotalPermute(SortEntries(other), other);
    PartNonNegative(ordered, entries);
    PicksScores(ordered, k, cap);
    OptimalInOrder(ordered, k, cap, SortEntries(other));
  }

  lemma OptimalInOrder(ordered: seq<ZooEntry>, k: int, cap: int, sel: seq<ZooEntry>)
    requires Sorted(ordered) && Sorted(sel) && Feasible(sel, ordered, k, cap)
    requires NonNegative(Picks(ordered, |ordered|, k, cap))
    ensures var p := Picks(ordered, |ordered|, k, cap); |sel| <= |p| && TotalScore(sel) <= TotalScore(p)
  {
    hide Feasible, Sorted, CountFamily, TotalScore, Picks;
    var p := Picks(ordered, |ordered|, k, cap);
    forall i | 0 <= i < |sel| ensures i < |p| && sel[i].score <= p[i].score {
      Dominated(ordered, k, cap, sel, i);
    }
    if |sel| > 0 {
      Dominated(ordered, k, cap, sel, |sel| - 1);
    }
    DominatedTotal(sel, p);
  }

  lemma {:induction false} PicksCounts(ordered: seq<ZooEntry>, m: nat, k: int, cap: int)
    requires m <= |ordered| && k >= 0 && cap >= 0
    ensures |Picks(ordered, m, k, cap)| <= k
    ensures forall f :: CountFamily(Picks(ordered, m, k, cap), f) <= cap
  {
    if m > 0 {
      PicksCounts(ordered, m - 1, k, cap);
      var p, e := Picks(ordered, m - 1, k, cap), ordered[m - 1];
      assert (p + [e])[..|p|] == p;
    }
  }

  lemma SortedAppend(p: seq<ZooEntry>, e: ZooEntry)
    requires Sorted(p) && forall i :: 0 <= i < |p| ==> NotAfter(p[i], e)
    ensures Sorted(p + [e])
  {
  }

  /** What is picked from a prefix comes before what follows the prefix. */
  lemma PicksBefore(ordered: seq<ZooEntry>, m: nat, k: int, cap: int, i: nat)
    requires m < |ordered| && Sorted(ordered) && i < |Picks(ordered, m, k, cap)|
    ensures NotAfter(Picks(ordered, m, k, cap)[i], ordered[m])
  {
    var p := Picks(ordered, m, k, cap);
    PicksFromPrefix(ordered, m, k, cap);
    hide Picks, NotAfter;
    assert p[i] in multiset(p);
    assert p[i] in ordered[..m];
  }

  lemma {:induction false} PicksSorted(ordered: seq<ZooEntry>, m: nat, k: int, cap: int)
    requires m <= |ordered| && Sorted(ordered)
    ensures Sorted(Picks(ordered, m, k, cap))
  {
    if m > 0 {
      PicksStep(ordered, m, k, cap);
      hide Picks, CountFamily, NotAfter, Sorted;
      PicksSorted(ordered, m - 1, k, cap);
      var p := Picks(ordered, m - 1, k, cap);
      forall i: nat | i < |p| ensures NotAfter(p[i], ordered[m - 1]) {
        PicksBefore(ordered, m - 1, k, cap, i);
      }
      SortedAppend(p, ordered[m - 1]);
    }
  }

  /** The selection is itself one of those it competes with, in order of (-score, formula). */
  lemma GreedyFeasible(entries: seq<ZooEntry>, k: int, cap: int)
    requires k >= 0 && cap >= 0
    ensures Feasible(TopKOf(entries, k, Some(cap)), entries, k, cap) && Sorted(TopKOf(entries, k, Some(cap)))
  {
    var ordered := SortEntries(entries);
    PicksCounts(ordered, |ordered|, k, cap);
    PicksSorted(ordered, |ordered|, k, cap);
    PicksFromPrefix(ordered, |ordered|, k, cap);
    assert ordered[..|ordered|] == ordered;
  }

  /** Without a cap, `top_k` is the capped selection with a cap nothing can reach. */
  lemma {:induction false} UncappedIsSlice(entries: seq<ZooEntry>, k: int)
    requires k >= 0
    ensures TopKOf(entries, k, None) == TopKOf(entries, k, Some(|entries|))
  {
    var ordered := SortEntries(entries);
    UncappedPicks(ordered, |ordered|, k, |entries|);
    assert ordered[..|ordered|] == ordered;
  }

  function FirstOf(ordered: seq<ZooEntry>, m: nat, k: nat): (r: seq<ZooEntry>)
    requires m <= |ordered|
    ensures |r| == Min(m, k)
  {
    ordered[..Min(m, k)]
  }

  lemma FirstOfStep(ordered: seq<ZooEntry>, m: nat, k: nat)
    requires 0 < m <= |ordered|
    ensures var p := FirstOf(ordered, m - 1, k);
      FirstOf(ordered, m, k) == if |p| < k then p + [ordered[m - 1]] else p
  {
  }

  /** With room for the family, a pick is made whenever fewer than k have been. */
  lemma PicksWithRoom(ordered: seq<ZooEntry>, m: nat, k: int, cap: int)
    requires 0 < m <= |ordered| <= cap
    ensures var p := Picks(ordered, m - 1, k, cap);
      Picks(ordered, m, k, cap) == if |p| < k then p + [ordered[m - 1]] else p
  {
    PicksStep(ordered, m, k, cap);
    hide Picks, CountFamily;
    FamilyAtMostSize(Picks(ordered, m - 1, k, cap), ordered[m - 1].family);
  }

  lemma {:induction false} UncappedPicks(ordered: seq<ZooEntry>, m: nat, k: nat, cap: int)
    requires m <= |ordered| <= cap
    ensures Picks(ordered, m, k, cap) == FirstOf(ordered, m, k)
  {
    if m > 0 {
      hide Picks, FirstOf;
      PicksWithRoom(ordered, m, k, cap);
      UncappedPicks(ordered, m - 1, k, cap);
      FirstOfStep(ordered, m, k);
    }
  }

  lemma {:induction false} FamilyAtMostSize(es: seq<ZooEntry>, f: FactorFamily)
    ensures CountFamily(es, f) <= |es|
  {
    if es != [] {
      FamilyAtMostSize(es[..|es| - 1], f);
    }
  }
}
