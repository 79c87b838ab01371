/** What several modules share: optional values, small numeric functions, the order of texts, facts about sequences and sets. */
module Basics {

  datatype Option<+T> = None | Some(value: T)

  /** The tolerance below which a denominator counts as zero. */
  const EPS := 0.000000000001

  function Min(a: int, b: int): int {
    if a <= b then a else b
  }

  function AbsOf(x: real): real {
    if x < 0.0 then -x else x
  }

  lemma NegativeProduct(x: real, y: real)
    requires x > 0.0 && y < 0.0
    ensures x * y < 0.0
  {
  }

  lemma AppendAssociative<T>(a: seq<T>, b: seq<T>, c: seq<T>)
    ensures (a + b) + c == a + (b + c)
  {
  }

  function Reversed<T>(s: seq<T>): (r: seq<T>)
    ensures |r| == |s| && forall i :: 0 <= i < |s| ==> r[i] == s[|s| - 1 - i]
  {
    if s == [] then [] else Reversed(s[1..]) + [s[0]]
  }

  lemma SubsetSize<T>(a: set<T>, b: set<T>)
    requires a <= b
    ensures |a| <= |b|
  {
    assert b == a + (b - a);
  }

  lemma {:induction false} ProperSubsetSize<T>(a: set<T>, b: set<T>)
    requires a < b
    ensures |a| < |b|
  {
    var x :| x in b && x !in a;
    SubsetSize(a, b - {x});
  }

  // ---------------------------------------------------------------- sums and sets over a range

  /** The sum of f over lo .. hi - 1. */
  ghost function Total(f: int -> real, lo: int, hi: int): real
    decreases hi - lo
  {
    if hi <= lo then 0.0 else Total(f, lo, hi - 1) + f(hi - 1)
  }

  lemma {:induction false} TotalSame(f: int -> real, g: int -> real, lo: int, hi: int)
    requires forall i :: lo <= i < hi ==> f(i) == g(i)
    ensures Total(f, lo, hi) == Total(g, lo, hi)
    decreases hi - lo
  {
    if lo < hi {
      TotalSame(f, g, lo, hi - 1);
    }
  }

  /** The numbers in lo .. hi - 1 with a property. */
  ghost function Among(lo: int, hi: int, p: int -> bool): set<int> {
    set i | lo <= i < hi && p(i)
  }

  lemma AmongStep(lo: int, hi: int, p: int -> bool)
    requires lo < hi
    ensures |Among(lo, hi, p)| == |Among(lo, hi - 1, p)| + if p(hi - 1) then 1 else 0
  {
    var before := Among(lo, hi - 1, p);
    if p(hi - 1) {
      assert Among(lo, hi, p) == before + {hi - 1} && hi - 1 !in before;
    } else {
      assert Among(lo, hi, p) == before;
    }
  }

  // ---------------------------------------------------------------- the order of texts

  predicate TextAtMost(a: string, b: string) {
    a == [] || (b != [] && (a[0] < b[0] || (a[0] == b[0] && TextAtMost(a[1..], b[1..]))))
  }

  lemma {:induction false} TextTotal(a: string, b: string)
    ensures TextAtMost(a, b) || TextAtMost(b, a)
  {
    if a != [] && b != [] && a[0] == b[0] {
      TextTotal(a[1..], b[1..]);
    }
  }

  lemma {:induction false} TextTransitive(a: string, b: string, c: string)
    requires TextAtMost(a, b) && TextAtMost(b, c)
    ensures TextAtMost(a, c)
  {
    if a != [] && a[0] == b[0] && b[0] == c[0] {
      TextTransitive(a[1..], b[1..], c[1..]);
    }
  }

  lemma {:induction false} TextAntisymmetric(a: string, b: string)
    requires TextAtMost(a, b) && TextAtMost(b, a)
    ensures a == b
  {
    if a != [] && b != [] {
      TextAntisymmetric(a[1..], b[1..]);
      assert a == [a[0]] + a[1..] && b == [b[0]] + b[1..];
    }
  }

  /** At place d the texts differ for the first time, and a has the smaller character there. */
  ghost predicate SmallerAt(a: string, b: string, d: nat) {
    d < |a| && d < |b| && a[..d] == b[..d] && a[d] < b[d]
  }

  /** The order is the dictionary's: a begins b, or has the smaller character where they first differ. */
  lemma {:induction false} TextAtMostIff(a: string, b: string)
    ensures TextAtMost(a, b) <==> a <= b || exists d: nat :: SmallerAt(a, b, d)
  {
    if a != [] && b != [] {
      if a[0] == b[0] {
        TextAtMostIff(a[1..], b[1..]);
        assert a == [a[0]] + a[1..] && b == [b[0]] + b[1..];
        assert a <= b <==> a[1..] <= b[1..];
        forall d: nat ensures SmallerAt(a[1..], b[1..], d) <==> SmallerAt(a, b, d + 1) {
          SmallerShift(a, b, d);
        }
        if d: nat :| SmallerAt(a, b, d) {
          assert SmallerAt(a[1..], b[1..], d - 1);
        }
        if d: nat :| SmallerAt(a[1..], b[1..], d) {
          assert SmallerAt(a, b, d + 1);
        }
      } else {
        assert a[0] < b[0] ==> SmallerAt(a, b, 0);
        forall d: nat | 0 < d <= |a| && d <= |b| ensures a[..d] != b[..d] {
          assert a[..d][0] == a[0] && b[..d][0] == b[0];
        }
      }
    }
  }

  lemma SmallerShift(a: string, b: string, d: nat)
    requires a != [] && b != [] && a[0] == b[0]
    ensures SmallerAt(a[1..], b[1..], d) <==> SmallerAt(a, b, d + 1)
  {
    if d + 1 <= |a| && d + 1 <= |b| {
      assert a[..d + 1] == [a[0]] + a[1..][..d] && b[..d + 1] == [b[0]] + b[1..][..d];
    }
  }
}
