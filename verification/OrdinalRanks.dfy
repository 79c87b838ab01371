/** Ordinal ranks by a stable argsort: ties are broken by position. */
module OrdinalRanks {

  import opened Basics

  /** Position i sorts before position j. */
  predicate Before(v: seq<real>, i: nat, j: nat)
    requires i < |v| && j < |v|
  {
    v[i] < v[j] || (v[i] == v[j] && i < j)
  }

  /** The positions that sort before j. */
  function Lower(v: seq<real>, j: nat): set<nat>
    requires j < |v|
  {
    set k: nat | k < |v| && Before(v, k, j)
  }

  /** How many positions sort before j. */
  function RankOf(v: seq<real>, j: nat): nat
    requires j < |v|
  {
    |Lower(v, j)|
  }

  ghost predicate Sorted(v: seq<real>, order: seq<nat>) {
    && (forall p :: 0 <= p < |order| ==> order[p] < |v|)
    && (forall p, q :: 0 <= p < q < |order| ==> Before(v, order[p], order[q]))
  }

  /** All positions below n, each once, in stable order. */
  ghost predicate IsStableOrder(v: seq<real>, order: seq<nat>) {
    Sorted(v, order) && forall k: nat :: k < |v| ==> k in order
  }

  /** `np.argsort(v, kind="stable")`. */
  method ArgSort(v: seq<real>) returns (order: seq<nat>)
    ensures IsStableOrder(v, order) && |order| == |v|
  {
    order := [];
    for n := 0 to |v|
      invariant Sorted(v, order) && |order| == n
      invariant forall k: nat :: k in order <==> k < n
    {
      var at := n;
      while at > 0 && v[n] < v[order[at - 1]]
        invariant 0 <= at <= n
        invariant forall p :: at <= p < n ==> v[n] < v[order[p]]
      {
        at := at - 1;
      }
      assert forall p :: 0 <= p < |order| ==> order[p] in order;
      InsertSorted(v, order, n, at);
      InsertMembers(order, at, n);
      order := InsertAt(order, at, n);
    }
  }

  function InsertAt(order: seq<nat>, at: nat, n: nat): seq<nat>
    requires at <= |order|
  {
    order[..at] + [n] + order[at..]
  }

  lemma InsertMembers(order: seq<nat>, at: nat, n: nat)
    requires at <= |order|
    ensures forall k :: k in InsertAt(order, at, n) <==> k in order || k == n
  {
    assert order == order[..at] + order[at..];
  }

  lemma InsertSorted(v: seq<real>, order: seq<nat>, n: nat, at: nat)
    requires n < |v| && at <= |order| && Sorted(v, order)
    requires forall p :: 0 <= p < |order| ==> order[p] < n
    requires forall p :: at <= p < |order| ==> v[n] < v[order[p]]
    requires at > 0 ==> v[order[at - 1]] <= v[n]
    ensures Sorted(v, InsertAt(order, at, n))
  {
    var r := InsertAt(order, at, n);
    forall p | 0 <= p < at ensures Before(v, order[p], n) {
      if p < at - 1 { assert Before(v, order[p], order[at - 1]); }
    }
    forall p | 0 <= p < |r| ensures r[p] == (if p < at then order[p] else if p == at then n else order[p - 1]) && r[p] < |v| {
    }
    forall p, q | 0 <= p < q < |r| ensures Before(v, r[p], r[q]) {
      if p < at && q > at {
        assert Before(v, order[p], order[q - 1]);
      }
    }
  }

  /** The i-th position of a stable order has exactly i positions before it. */
  lemma PlaceIsRank(v: seq<real>, order: seq<nat>, i: nat)
    requires IsStableOrder(v, order) && i < |order|
    ensures RankOf(v, order[i]) == i
  {
    var front := order[..i];
    var members := Members(front);
    forall k: nat ensures k in Lower(v, order[i]) <==> k in members {
      if k < |v| {
        assert k in order;
        var p :| 0 <= p < |order| && order[p] == k;
        if p < i {
          assert front[p] == k;
        } else if p > i {
          assert Before(v, order[i], order[p]);
        }
      }
      if k in front {
        var p :| 0 <= p < i && front[p] == k;
        assert order[p] == k;
      }
    }
    assert Lower(v, order[i]) == members;
    DistinctSize(front);
  }

  function Members(s: seq<nat>): set<nat> {
    set k | k in s
  }

  lemma {:induction false} DistinctSize(s: seq<nat>)
    requires forall p, q :: 0 <= p < q < |s| ==> s[p] != s[q]
    ensures |Members(s)| == |s|
  {
    if s != [] {
      var front, last := s[..|s| - 1], s[|s| - 1];
      DistinctSize(front);
      assert s == front + [last];
      assert last !in front;
      assert Members(s) == Members(front) + {last};
    }
  }

  /** `ranks[order] = arange(n)`. */
  method Ranks(v: seq<real>) returns (ranks: array<nat>)
    ensures fresh(ranks) && ranks.Length == |v|
    ensures forall j :: 0 <= j < |v| ==> ranks[j] == RankOf(v, j)
  {
    var order := ArgSort(v);
    ranks := new nat[|v|](_ => 0);
    for i := 0 to |v|
      invariant forall p :: 0 <= p < i ==> ranks[order[p]] == p
    {
      ranks[order[i]] := i;
    }
    forall j | 0 <= j < |v| ensures ranks[j] == RankOf(v, j) {
      var k: nat := j;
      assert k in order;
      var i :| 0 <= i < |order| && order[i] == j;
      PlaceIsRank(v, order, i);
    }
  }

  // ---------------------------------------------------------------- ranks are a permutation

  function RankSeq(v: seq<real>): (r: seq<nat>)
    ensures |r| == |v|
  {
    seq(|v|, j requires 0 <= j < |v| => RankOf(v, j))
  }

  lemma RankLess(v: seq<real>, i: nat, j: nat)
    requires i < |v| && j < |v| && Before(v, i, j)
    ensures RankOf(v, i) < RankOf(v, j)
  {
    assert Lower(v, i) < Lower(v, j) by {
      assert i in Lower(v, j) && i !in Lower(v, i);
    }
    ProperSubsetSize(Lower(v, i), Lower(v, j));
  }

  lemma RankInRange(v: seq<real>, j: nat)
    requires j < |v|
    ensures RankOf(v, j) < |v|
  {
    var all := UpTo(|v|);
    assert Lower(v, j) < all by {
      assert j in all && j !in Lower(v, j);
    }
    ProperSubsetSize(Lower(v, j), all);
  }

  /** {0, .., n - 1}. */
  function UpTo(n: nat): (r: set<nat>)
    ensures |r| == n && forall k: nat {:trigger k in r} :: k in r <==> k < n
  {
    if n == 0 then {} else
      var below := UpTo(n - 1);
      assert n - 1 !in below;
      below + {n - 1}
  }

  /** The ranks of any vector are 0 .. n - 1 in some order. */
  lemma RanksArePermutation(v: seq<real>)
    ensures multiset(RankSeq(v)) == multiset(Arange(|v|))
  {
    var r := RankSeq(v);
    forall i, j | 0 <= i < j < |r| ensures r[i] != r[j] {
      if Before(v, i, j) { RankLess(v, i, j); } else { RankLess(v, j, i); }
    }
    forall i | 0 <= i < |r| ensures r[i] < |r| {
      RankInRange(v, i);
    }
    DistinctBelow(r);
  }

  function Arange(n: nat): (r: seq<nat>)
    ensures |r| == n
  {
    if n == 0 then [] else Arange(n - 1) + [n - 1]
  }

  lemma MultisetRemove(s: seq<nat>, at: nat)
    requires at < |s|
    ensures multiset(s) == multiset(s[..at] + s[at + 1..]) + multiset{s[at]}
  {
    assert s == s[..at] + [s[at]] + s[at + 1..];
  }

  ghost predicate DistinctUnder(s: seq<nat>) {
    && (forall p, q :: 0 <= p < q < |s| ==> s[p] != s[q])
    && (forall p :: 0 <= p < |s| ==> s[p] < |s|)
  }

  lemma RemoveLargest(s: seq<nat>, at: nat)
    requires DistinctUnder(s) && at < |s| && s[at] == |s| - 1
    ensures DistinctUnder(s[..at] + s[at + 1..])
  {
    var rest := s[..at] + s[at + 1..];
    forall p | 0 <= p < |rest| ensures rest[p] == s[if p < at then p else p + 1] {
    }
  }

  lemma ArangeStep(n: nat)
    requires n > 0
    ensures var last: nat := n - 1; multiset(Arange(n)) == multiset(Arange(last)) + multiset{last}
  {
  }

  /** n distinct numbers below n are 0 .. n - 1. */
  lemma {:induction false} DistinctBelow(s: seq<nat>)
    requires DistinctUnder(s)
    ensures multiset(s) == multiset(Arange(|s|))
  {
    if s != [] {
      var last: nat := |s| - 1;
      var at := LargestOccurs(s);
      var rest := s[..at] + s[at + 1..];
      RemoveLargest(s, at);
      MultisetRemove(s, at);
      hide DistinctUnder, Arange;
      DistinctBelow(rest);
      SameStep(multiset(s), multiset(rest), multiset(Arange(last)), multiset(Arange(|s|)), last) by { ArangeStep(|s|); }
    }
  }

  lemma SameStep(s: multiset<nat>, rest: multiset<nat>, front: multiset<nat>, whole: multiset<nat>, last: nat)
    requires s == rest + multiset{last} && rest == front && whole == front + multiset{last}
    ensures s == whole
  {}

  lemma LargestOccurs(s: seq<nat>) returns (at: nat)
    requires s != [] && DistinctUnder(s)
    ensures at < |s| && s[at] == |s| - 1
  {
    DistinctSize(s);
    assert Members(s) <= UpTo(|s|);
    if Members(s) < UpTo(|s|) {
      ProperSubsetSize(Members(s), UpTo(|s|));
      assert false;
    }
    assert |s| - 1 in UpTo(|s|);
    assert |s| - 1 in s;
    at :| at < |s| && s[at] == |s| - 1;
  }

  /** The smaller value, or the earlier of two equal ones, has the smaller rank. */
  lemma RanksAscend(v: seq<real>, i: nat, j: nat)
    requires i < |v| && j < |v| && (v[i] < v[j] || (v[i] == v[j] && i < j))
    ensures RankOf(v, i) < RankOf(v, j)
  {
    assert i in Lower(v, j) && i !in Lower(v, i);
    assert Lower(v, i) <= Lower(v, j);
    ProperSubsetSize(Lower(v, i), Lower(v, j));
  }
}
