/** Cells of a panel: a finite value, or nothing usable (NaN or an infinity). */
module Cells {

  datatype Cell = Missing | Val(v: real)

  /** How many cells of w satisfy p. */
  function CountIf(w: seq<Cell>, p: Cell -> bool): nat {
    if w == [] then 0 else CountIf(w[..|w| - 1], p) + if p(w[|w| - 1]) then 1 else 0
  }

  lemma {:induction false} CountConcat(a: seq<Cell>, b: seq<Cell>, p: Cell -> bool)
    ensures CountIf(a + b, p) == CountIf(a, p) + CountIf(b, p)
  {
    if b == [] {
      assert a + b == a;
    } else {
      CountConcat(a, b[..|b| - 1], p);
      assert (a + b)[..|a + b| - 1] == a + b[..|b| - 1];
    }
  }

  lemma {:induction false} CountSame(w: seq<Cell>, p: Cell -> bool, q: Cell -> bool)
    requires forall c :: c in w ==> p(c) == q(c)
    ensures CountIf(w, p) == CountIf(w, q)
  {
    if w != [] {
      CountSame(w[..|w| - 1], p, q);
    }
  }

  lemma {:induction false} CountMono(w: seq<Cell>, p: Cell -> bool, q: Cell -> bool)
    requires forall c :: c in w && p(c) ==> q(c)
    ensures CountIf(w, p) <= CountIf(w, q)
  {
    if w != [] {
      CountMono(w[..|w| - 1], p, q);
    }
  }

  /** Counts over disjoint conditions add up. */
  lemma {:induction false} CountSplit(w: seq<Cell>, p: Cell -> bool, q: Cell -> bool, both: Cell -> bool)
    requires forall c :: c in w ==> !(p(c) && q(c)) && both(c) == (p(c) || q(c))
    ensures CountIf(w, both) == CountIf(w, p) + CountIf(w, q)
  {
    if w != [] {
      CountSplit(w[..|w| - 1], p, q, both);
    }
  }

  /** A slice holds no more than the whole. */
  lemma CountSlice(w: seq<Cell>, lo: nat, hi: nat, p: Cell -> bool)
    requires lo <= hi <= |w|
    ensures CountIf(w[lo..hi], p) <= CountIf(w, p)
  {
    hide CountIf;
    assert w == w[..lo] + (w[lo..hi] + w[hi..]);
    CountConcat(w[..lo], w[lo..hi] + w[hi..], p);
    CountConcat(w[lo..hi], w[hi..], p);
  }
}
