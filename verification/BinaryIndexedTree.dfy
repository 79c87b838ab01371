/** The Fenwick tree: prefix sums under point updates. */
module BinaryIndexedTree {

  /** `i & -i`: the largest power of two dividing i. */
  function LowBit(i: nat): (b: nat)
    requires i > 0
    ensures 1 <= b <= i
  {
    if i % 2 == 1 then 1 else 2 * LowBit(i / 2)
  }

  predicate IsPowerOfTwo(b: nat) {
    b == 1 || (b > 0 && b % 2 == 0 && IsPowerOfTwo(b / 2))
  }

  /** LowBit is the power of two in i: dividing it out leaves an odd number. */
  lemma {:induction false} LowBitDivides(i: nat) returns (odd: nat)
    requires i > 0
    ensures IsPowerOfTwo(LowBit(i)) && i == odd * LowBit(i) && odd % 2 == 1
  {
    if i % 2 == 1 {
      odd := i;
    } else {
      odd := LowBitDivides(i / 2);
      assert odd * (2 * LowBit(i / 2)) == 2 * (odd * LowBit(i / 2));
    }
  }

  /** Between c and c + LowBit(c), the low bit is that of the offset. */
  lemma {:induction false} LowBitBetween(c: nat, d: nat)
    requires c > 0 && 0 < d < LowBit(c)
    ensures LowBit(c + d) == LowBit(d)
  {
    if d % 2 == 0 {
      LowBitBetween(c / 2, d / 2);
      assert (c + d) / 2 == c / 2 + d / 2;
    }
  }

  lemma {:induction false} LowBitNext(c: nat)
    requires c > 0
    ensures LowBit(c + LowBit(c)) >= 2 * LowBit(c)
  {
    if c % 2 == 0 {
      LowBitNext(c / 2);
      assert (c + LowBit(c)) / 2 == c / 2 + LowBit(c / 2);
    }
  }

  /** Node j of the tree covers position i. */
  predicate Covers(j: nat, i: int)
    requires j > 0
  {
    j - LowBit(j) < i <= j
  }

  /** From a node covering i, the next node covering i is one low bit further, and none lies between. */
  lemma NextCovering(j: nat, i: int)
    requires j > 0 && Covers(j, i)
    ensures Covers(j + LowBit(j), i)
    ensures forall k :: j < k < j + LowBit(j) ==> !Covers(k, i)
  {
    LowBitNext(j);
    forall k | j < k < j + LowBit(j) ensures !Covers(k, i) {
      LowBitBetween(j, k - j);
    }
  }

  /** The sum of c over positions lo + 1 .. hi. */
  function Sum(c: seq<int>, lo: int, hi: int): int
    requires 0 <= lo && hi < |c|
    decreases hi - lo
  {
    if hi <= lo then 0 else Sum(c, lo, hi - 1) + c[hi]
  }

  lemma {:induction false} SumSplit(c: seq<int>, lo: int, mid: int, hi: int)
    requires 0 <= lo <= mid <= hi < |c|
    ensures Sum(c, lo, hi) == Sum(c, lo, mid) + Sum(c, mid, hi)
    decreases hi - mid
  {
    if mid < hi {
      SumSplit(c, lo, mid, hi - 1);
    }
  }

  lemma {:induction false} SumUpdate(c: seq<int>, lo: int, hi: int, i: int, delta: int)
    requires 0 <= lo && hi < |c| && 0 <= i < |c|
    ensures Sum(c[i := c[i] + delta], lo, hi) == Sum(c, lo, hi) + if lo < i <= hi then delta else 0
    decreases hi - lo
  {
    if lo < hi {
      SumUpdate(c, lo, hi - 1, i, delta);
    }
  }

  lemma {:induction false} SumZero(c: seq<int>, lo: int, hi: int)
    requires 0 <= lo && hi < |c| && forall k :: 0 <= k < |c| ==> c[k] == 0
    ensures Sum(c, lo, hi) == 0
    decreases hi - lo
  {
    if lo < hi {
      SumZero(c, lo, hi - 1);
    }
  }

  /** The contents after a run of additions, and the total a prefix query must then see. */
  function AfterAdds(c: seq<int>, adds: seq<(int, int)>): (r: seq<int>)
    ensures |r| == |c|
  {
    if adds == [] then c
    else
      var r, (i, delta) := AfterAdds(c, adds[..|adds| - 1]), adds[|adds| - 1];
      if 0 < i < |c| then r[i := r[i] + delta] else r
  }

  function DeltasUpTo(adds: seq<(int, int)>, i: int): int {
    if adds == [] then 0
    else DeltasUpTo(adds[..|adds| - 1], i) + if 0 < adds[|adds| - 1].0 <= i then adds[|adds| - 1].1 else 0
  }

  /** Prefix sums after any run of additions are the totals of the deltas added at or below the position. */
  lemma {:induction false} PrefixOfRun(size: nat, adds: seq<(int, int)>, i: int)
    requires 0 <= i <= size
    ensures Sum(AfterAdds(seq(size + 1, _ => 0), adds), 0, i) == DeltasUpTo(adds, i)
  {
    var zero := seq(size + 1, _ => 0);
    if adds == [] {
      SumZero(zero, 0, i);
    } else {
      var front := adds[..|adds| - 1];
      PrefixOfRun(size, front, i);
      var (j, delta) := adds[|adds| - 1];
      if 0 < j <= size {
        SumUpdate(AfterAdds(zero, front), 0, i, j, delta);
      }
    }
  }

  class Fenwick {
    const size: nat
    const tree: array<int>
    /** The deltas added so far, position by position; position 0 is never used. */
    ghost var counts: seq<int>

    ghost predicate Valid()
      reads this, tree
    {
      && tree.Length == size + 1 == |counts|
      && forall j {:trigger tree[j]} :: 0 < j <= size ==> tree[j] == Sum(counts, j - LowBit(j), j)
    }

    constructor (size: nat)
      ensures Valid() && fresh(tree) && this.size == size
      ensures counts == seq(size + 1, _ => 0)
    {
      this.size := size;
      tree := new int[size + 1](_ => 0);
      counts := seq(size + 1, _ => 0);
      new;
      forall j | 0 < j <= size ensures tree[j] == Sum(counts, j - LowBit(j), j) {
        SumZero(counts, j - LowBit(j), j);
      }
    }

    /** Adds delta at a position; a position outside 1 .. size is ignored. */
    method Add(position: int, delta: int)
      requires Valid()
      modifies this, tree
      ensures Valid()
      ensures counts == if 0 < position <= size
                        then old(counts)[position := old(counts)[position] + delta]
                        else old(counts)
    {
      var index := position;
      ghost var target := if 0 < position <= size then counts[position := counts[position] + delta] else counts;
      assert forall j :: 0 < j < position ==> !Covers(j, position);
      while 0 < index <= size
        invariant tree.Length == size + 1 && counts == old(counts)
        invariant 0 < position ==> 0 < index && Covers(index, position)
        invariant position <= 0 ==> index == position
        invariant forall j {:trigger tree[j]} :: 0 < j <= size ==>
          tree[j] == old(tree[j]) + if 0 < position && j < index && Covers(j, position) then delta else 0
        decreases size - index
      {
        NextCovering(index, position);
        tree[index] := tree[index] + delta;
        index := index + LowBit(index);
      }
      forall j | 0 < j <= size ensures tree[j] == Sum(target, j - LowBit(j), j) {
        if 0 < position <= size {
          SumUpdate(counts, j - LowBit(j), j, position, delta);
        }
      }
      counts := target;
    }

    /** The sum of everything added at positions 1 .. position. */
    method Prefix(position: int) returns (total: int)
      requires Valid() && position <= size
      ensures total == if position <= 0 then 0 else Sum(counts, 0, position)
    {
      total := 0;
      var index := position;
      while index > 0
        invariant index <= size && (0 < position ==> 0 <= index <= position)
        invariant index > 0 ==> position > 0
        invariant 0 < position ==> total + Sum(counts, 0, index) == Sum(counts, 0, position)
        invariant position <= 0 ==> total == 0
      {
        SumSplit(counts, 0, index - LowBit(index), index);
        total := total + tree[index];
        index := index - LowBit(index);
      }
    }
  }
}
