/** The import-cycle gate: Tarjan's search for strongly connected components.
    The class follows the source's mutable search; everything it must keep is stated over the value `Search`. */
module ImportCycles {

  import opened Basics
  import opened Graphs

  /** A snapshot of the search. `popped` lists every component in the order it left the stack and
      `open` holds the modules whose call is still running; both exist for the proof only. */
  datatype Search = Search(
    idx: map<Node, nat>,
    stack: seq<Node>,
    next: nat,
    popped: seq<set<Node>>,
    open: set<Node>)

  /** The discovery number of x, or -1. */
  function Num(idx: map<Node, nat>, x: Node): int {
    if x in idx then idx[x] else -1
  }

  ghost function Union(sets: seq<set<Node>>): set<Node> {
    if sets == [] then {} else Union(sets[..|sets| - 1]) + sets[|sets| - 1]
  }

  /** Discovered modules are exactly those on the stack and those popped; the stack follows discovery order. */
  ghost predicate Numbered(s: Search) {
    && s.idx.Keys == Elements(s.stack) + Union(s.popped)
    && Elements(s.stack) !! Union(s.popped)
    && (forall i, j :: 0 <= i < j < |s.stack| ==> Num(s.idx, s.stack[i]) < Num(s.idx, s.stack[j]))
    && (forall x :: x in s.idx ==> Num(s.idx, x) < s.next)
  }

  /** y reaches an open module numbered no higher than y. */
  ghost predicate ReachesOpen(g: Graph, idx: map<Node, nat>, open: set<Node>, y: Node) {
    exists x :: x in open && Num(idx, x) <= Num(idx, y) && Reaches(g, y, x)
  }

  /** An open module reaches whatever lies above it on the stack. */
  ghost predicate OpenReachUp(g: Graph, s: Search) {
    forall x, y {:trigger Reaches(g, x, y)} :: x in s.open && y in s.stack && Num(s.idx, x) <= Num(s.idx, y) ==> Reaches(g, x, y)
  }

  ghost predicate StackReachesOpen(g: Graph, s: Search) {
    forall y {:trigger ReachesOpen(g, s.idx, s.open, y)} :: y in s.stack ==> ReachesOpen(g, s.idx, s.open, y)
  }

  /** A module whose call has returned has no undiscovered successor. */
  ghost predicate FinishedExplored(g: Graph, s: Search) {
    forall x {:trigger Successors(g, x)} :: x in s.idx && x !in s.open ==> Successors(g, x) <= s.idx.Keys
  }

  ghost predicate Linked(g: Graph, s: Search) {
    s.open <= Elements(s.stack) && OpenReachUp(g, s) && StackReachesOpen(g, s) && FinishedExplored(g, s)
  }

  /** The k-th popped set is a component, new, whose edges lead only to itself and to components popped before it. */
  ghost predicate SettledAt(g: Graph, popped: seq<set<Node>>, k: nat)
    requires k < |popped|
  {
    && IsComponent(g, popped[k])
    && popped[k] !! Union(popped[..k])
    && forall x :: x in popped[k] ==> Successors(g, x) <= Union(popped[..k + 1])
  }

  ghost predicate Settled(g: Graph, popped: seq<set<Node>>) {
    forall k {:trigger SettledAt(g, popped, k)} :: 0 <= k < |popped| ==> SettledAt(g, popped, k)
  }

  ghost predicate Inv(g: Graph, s: Search) {
    match s
    case Search(_, _, _, popped, _) => Numbered(s) && Linked(g, s) && Settled(g, popped)
  }

  /** What a call may change: it pushes, pops what it pushed, and numbers new modules upwards. */
  ghost predicate Extends(s0: Search, s: Search) {
    && s0.stack <= s.stack
    && s0.popped <= s.popped
    && s0.next <= s.next
    && (forall x :: x in s0.idx ==> x in s.idx && Num(s.idx, x) == Num(s0.idx, x))
    && (forall x :: x in s.idx && x !in s0.idx ==> s0.next <= Num(s.idx, x))
  }

  /** Every edge from the stack at or above `base` into `below` ends at a number of at least `bound`. */
  ghost predicate EdgesBounded(g: Graph, s: Search, base: nat, below: seq<Node>, bound: int) {
    forall i, w {:trigger w in Successors(g, s.stack[i])} ::
      base <= i < |s.stack| && w in Successors(g, s.stack[i]) && w in below ==> bound <= Num(s.idx, w)
  }

  ghost predicate LowWitness(g: Graph, idx: map<Node, nat>, below: seq<Node>, v: Node, low: int) {
    exists y :: y in below && Num(idx, y) == low && Reaches(g, v, y)
  }

  // ---------------------------------------------------------------- the steps of the search

  lemma UnionAppend(sets: seq<set<Node>>, c: set<Node>)
    ensures Union(sets + [c]) == Union(sets) + c
  {
    assert (sets + [c])[..|sets|] == sets;
  }

  lemma {:induction false} UnionMember(sets: seq<set<Node>>, x: Node)
    ensures x in Union(sets) <==> exists k :: 0 <= k < |sets| && x in sets[k]
  {
    if sets != [] {
      var front := sets[..|sets| - 1];
      UnionMember(front, x);
      assert forall k :: 0 <= k < |front| ==> front[k] == sets[k];
    }
  }

  lemma {:induction false} UnionPrefix(sets: seq<set<Node>>, k: nat)
    requires k <= |sets|
    ensures Union(sets[..k]) <= Union(sets)
  {
    if k < |sets| {
      var front := sets[..|sets| - 1];
      UnionPrefix(front, k);
      assert front[..k] == sets[..k];
    } else {
      assert sets[..k] == sets;
    }
  }

  /** No edge leads out of the modules already popped. */
  lemma PoppedClosed(g: Graph, popped: seq<set<Node>>)
    requires Settled(g, popped)
    ensures Closed(g, Union(popped))
  {
    forall x | x in Union(popped) ensures Successors(g, x) <= Union(popped) {
      UnionMember(popped, x);
      var k :| 0 <= k < |popped| && x in popped[k];
      assert SettledAt(g, popped, k);
      UnionPrefix(popped, k + 1);
    }
  }

  function Discovered(s: Search, v: Node): Search {
    s.(idx := s.idx[v := s.next], stack := s.stack + [v], next := s.next + 1, open := s.open + {v})
  }

  /** A new number on top keeps the stack in the order of discovery. */
  lemma DiscoverOrder(idx: map<Node, nat>, stack: seq<Node>, v: Node, n: nat)
    requires forall i, j :: 0 <= i < j < |stack| ==> Num(idx, stack[i]) < Num(idx, stack[j])
    requires forall i :: 0 <= i < |stack| ==> stack[i] in idx && stack[i] != v && Num(idx, stack[i]) < n
    ensures var all, up := stack + [v], idx[v := n];
      forall i, j :: 0 <= i < j < |all| ==> Num(up, all[i]) < Num(up, all[j])
  {
    var all, up := stack + [v], idx[v := n];
    forall i, j | 0 <= i < j < |all| ensures Num(up, all[i]) < Num(up, all[j]) {
      assert all[i] == stack[i] && Num(up, all[i]) == Num(idx, stack[i]);
      assert j < |stack| ==> all[j] == stack[j] && Num(up, all[j]) == Num(idx, stack[j]);
    }
  }

  lemma DiscoverExtends(s: Search, v: Node)
    requires v !in s.idx
    ensures Extends(s, Discovered(s, v))
  {
  }

  lemma ElementsAppend(stack: seq<Node>, v: Node)
    ensures Elements(stack + [v]) == Elements(stack) + {v}
    ensures forall i :: 0 <= i < |stack| ==> stack[i] in Elements(stack)
  {
  }

  lemma DiscoverNumbered(s: Search, v: Node)
    requires Numbered(s) && v !in s.idx
    ensures Numbered(Discovered(s, v)) && Extends(s, Discovered(s, v))
  {
    hide Elements, Union, Extends;
    DiscoverExtends(s, v);
    ElementsAppend(s.stack, v);
    assert forall i :: 0 <= i < |s.stack| ==> s.stack[i] in s.idx;
    DiscoverOrder(s.idx, s.stack, v, s.next);
    var t := Discovered(s, v);
    assert t.idx.Keys == s.idx.Keys + {v};
    assert Elements(t.stack) == Elements(s.stack) + {v};
  }

  lemma DiscoverLinked(g: Graph, s: Search, v: Node)
    requires Numbered(s) && Linked(g, s) && v !in s.idx
    requires forall x :: x in s.open ==> Reaches(g, x, v)
    ensures Linked(g, Discovered(s, v))
  {
    var t := Discovered(s, v);
    ReachesSelf(g, v);
    assert OpenReachUp(g, t) by {
      forall x, y | x in t.open && y in t.stack && Num(t.idx, x) <= Num(t.idx, y) ensures Reaches(g, x, y) {
        if x != v && y != v {
          assert x in s.open && y in s.stack && Num(s.idx, x) <= Num(s.idx, y);
        }
      }
    }
    assert StackReachesOpen(g, t) by {
      forall y | y in t.stack ensures ReachesOpen(g, t.idx, t.open, y) {
        if y == v {
          assert v in t.open;
        } else {
          assert ReachesOpen(g, s.idx, s.open, y);
          var x :| x in s.open && Num(s.idx, x) <= Num(s.idx, y) && Reaches(g, y, x);
          assert x in t.open && Num(t.idx, x) == Num(s.idx, x);
        }
      }
    }
  }

  lemma Discover(g: Graph, s: Search, v: Node)
    requires Inv(g, s) && v !in s.idx
    requires forall x :: x in s.open ==> Reaches(g, x, v)
    ensures Inv(g, Discovered(s, v)) && Extends(s, Discovered(s, v))
  {
    DiscoverNumbered(s, v);
    DiscoverLinked(g, s, v);
  }

  /** The state at the end of v's loop: v is the only open module from position `base` up. */
  ghost predicate Explored(g: Graph, s: Search, v: Node, base: nat) {
    && Inv(g, s)
    && base < |s.stack| && s.stack[base] == v && v in s.open
    && s.open - {v} <= Elements(s.stack[..base])
    && Successors(g, v) <= s.idx.Keys
  }

  lemma SplitStack(s: Search, base: nat)
    requires Numbered(s) && base < |s.stack|
    ensures Elements(s.stack) == Elements(s.stack[..base]) + Elements(s.stack[base..])
    ensures forall x :: x in s.stack[..base] ==> x in s.stack && Num(s.idx, x) < Num(s.idx, s.stack[base])
    ensures forall x :: x in s.stack[base..] ==> x in s.stack && Num(s.idx, s.stack[base]) <= Num(s.idx, x)
    ensures Elements(s.stack[..base]) !! Elements(s.stack[base..])
  {
    assert s.stack == s.stack[..base] + s.stack[base..];
    forall x | x in s.stack[base..] ensures x in s.stack && Num(s.idx, s.stack[base]) <= Num(s.idx, x) {
      var i :| 0 <= i < |s.stack| - base && s.stack[base..][i] == x;
      assert x == s.stack[base + i];
    }
  }

  /** Everything from v's position up is in v's component. */
  lemma TopIsMutual(g: Graph, s: Search, v: Node, base: nat, y: Node)
    requires Explored(g, s, v, base) && y in s.stack[base..]
    ensures Mutual(g, v, y)
  {
    SplitStack(s, base);
    assert ReachesOpen(g, s.idx, s.open, y);
    var x :| x in s.open && Num(s.idx, x) <= Num(s.idx, y) && Reaches(g, y, x);
    if x != v {
      assert x in s.stack[..base];
      assert Num(s.idx, x) <= Num(s.idx, v) && Reaches(g, x, v);
      ReachesTrans(g, y, x, v);
    }
  }

  /** With no edge to a lower number, nothing outside the popped modules can be reached from the top of the stack. */
  lemma TopIsClosed(g: Graph, s: Search, v: Node, base: nat)
    requires Explored(g, s, v, base) && EdgesBounded(g, s, base, s.stack[..base], Num(s.idx, v))
    ensures Closed(g, Union(s.popped) + Elements(s.stack[base..]))
  {
    SplitStack(s, base);
    PoppedClosed(g, s.popped);
    forall x, w | x in s.stack[base..] && w in Successors(g, x)
      ensures w in Union(s.popped) + Elements(s.stack[base..])
    {
      assert w in s.idx by {
        if x != v { assert x !in s.open; }
      }
      if w in s.stack[..base] {
      }
    }
  }

  function Popped(s: Search, v: Node, base: nat): Search
    requires base <= |s.stack|
  {
    s.(stack := s.stack[..base], popped := s.popped + [Elements(s.stack[base..])], open := s.open - {v})
  }

  lemma TopIsComponent(g: Graph, s: Search, v: Node, base: nat)
    requires Explored(g, s, v, base) && EdgesBounded(g, s, base, s.stack[..base], Num(s.idx, v))
    ensures IsComponent(g, Elements(s.stack[base..]))
  {
    var c := Elements(s.stack[base..]);
    SplitStack(s, base);
    assert v in c by { assert s.stack[base..][0] == v; }
    TopIsClosed(g, s, v, base);
    PoppedClosed(g, s.popped);
    forall x, y | x in c ensures y in c <==> Mutual(g, x, y) {
      TopIsMutual(g, s, v, base, x);
      if y in c {
        TopIsMutual(g, s, v, base, y);
        ReachesTrans(g, x, v, y);
        ReachesTrans(g, y, v, x);
      }
      if Mutual(g, x, y) {
        ClosedReaches(g, Union(s.popped) + c, x, y);
        if y in Union(s.popped) {
          ClosedReaches(g, Union(s.popped), y, x);
          assert false;
        }
      }
    }
  }

  lemma PopNumbered(s: Search, v: Node, base: nat)
    requires Numbered(s) && base < |s.stack|
    ensures Numbered(Popped(s, v, base))
  {
    var t := Popped(s, v, base);
    SplitStack(s, base);
    UnionAppend(s.popped, Elements(s.stack[base..]));
  }

  /** Open modules below `base` keep their links when the top is cut off. */
  lemma CutLinked(g: Graph, s: Search, v: Node, base: nat)
    requires Explored(g, s, v, base)
    ensures Linked(g, Popped(s, v, base))
  {
    var t := Popped(s, v, base);
    SplitStack(s, base);
    forall y | y in t.stack ensures ReachesOpen(g, t.idx, t.open, y) {
      assert ReachesOpen(g, s.idx, s.open, y);
      var x :| x in s.open && Num(s.idx, x) <= Num(s.idx, y) && Reaches(g, y, x);
      assert x in t.open;
    }
  }

  lemma SettledAppend(g: Graph, popped: seq<set<Node>>, c: set<Node>)
    requires Settled(g, popped) && IsComponent(g, c) && Closed(g, Union(popped) + c) && c !! Union(popped)
    ensures Settled(g, popped + [c])
  {
    var all := popped + [c];
    UnionAppend(popped, c);
    assert all[..|all|] == all;
    forall k | 0 <= k < |all| ensures SettledAt(g, all, k) {
      if k < |popped| {
        assert SettledAt(g, popped, k);
        assert all[..k + 1] == popped[..k + 1] && all[..k] == popped[..k];
      } else {
        assert all[..k] == popped;
      }
    }
  }

  lemma PopComponentStep(g: Graph, s: Search, v: Node, base: nat)
    requires Explored(g, s, v, base) && EdgesBounded(g, s, base, s.stack[..base], Num(s.idx, v))
    ensures Inv(g, Popped(s, v, base))
  {
    PopNumbered(s, v, base);
    CutLinked(g, s, v, base);
    TopIsComponent(g, s, v, base);
    TopIsClosed(g, s, v, base);
    SplitStack(s, base);
    SettledAppend(g, s.popped, Elements(s.stack[base..]));
  }

  /** Closing v leaves an open module for what reached v, if v reaches a lower one. */
  lemma StillReachesOpen(g: Graph, idx: map<Node, nat>, open: set<Node>, v: Node, x0: Node, y: Node)
    requires x0 in open && Num(idx, x0) < Num(idx, v) && Reaches(g, v, x0) && ReachesOpen(g, idx, open, y)
    ensures ReachesOpen(g, idx, open - {v}, y)
  {
    hide Reaches;
    var x :| x in open && Num(idx, x) <= Num(idx, y) && Reaches(g, y, x);
    if x == v {
      ReachesTrans(g, y, v, x0);
      assert x0 in open - {v};
    } else {
      assert x in open - {v};
    }
  }

  function WithoutOpen(s: Search, v: Node): Search {
    s.(open := s.open - {v})
  }

  lemma CloseReachUp(g: Graph, s: Search, v: Node)
    requires OpenReachUp(g, s)
    ensures OpenReachUp(g, WithoutOpen(s, v))
  {
    hide Reaches;
  }

  lemma CloseExplored(g: Graph, s: Search, v: Node)
    requires FinishedExplored(g, s) && Successors(g, v) <= s.idx.Keys
    ensures FinishedExplored(g, WithoutOpen(s, v))
  {
  }

  lemma CloseStack(g: Graph, s: Search, v: Node, x0: Node)
    requires StackReachesOpen(g, s) && x0 in s.open && Num(s.idx, x0) < Num(s.idx, v) && Reaches(g, v, x0)
    ensures StackReachesOpen(g, WithoutOpen(s, v))
  {
    hide Reaches, ReachesOpen;
    var t := WithoutOpen(s, v);
    forall y | y in t.stack ensures ReachesOpen(g, t.idx, t.open, y) {
      assert ReachesOpen(g, s.idx, s.open, y);
      StillReachesOpen(g, s.idx, s.open, v, x0, y);
    }
  }

  /** v stays on the stack below a lower link: it can be closed without breaking the invariant. */
  lemma LeaveStep(g: Graph, s: Search, v: Node, base: nat, low: int)
    requires Explored(g, s, v, base) && low < Num(s.idx, v) && LowWitness(g, s.idx, s.stack[..base], v, low)
    ensures Inv(g, s.(open := s.open - {v}))
  {
    var x0 := LowerOpen(g, s, v, base, low);
    CloseReachUp(g, s, v);
    CloseExplored(g, s, v);
    CloseStack(g, s, v, x0);
    assert Numbered(WithoutOpen(s, v));
    hide Numbered, OpenReachUp, StackReachesOpen, FinishedExplored, Settled, LowWitness;
  }

  lemma LowerOpen(g: Graph, s: Search, v: Node, base: nat, low: int) returns (x0: Node)
    requires Explored(g, s, v, base) && low < Num(s.idx, v) && LowWitness(g, s.idx, s.stack[..base], v, low)
    ensures x0 in s.open && Num(s.idx, x0) < Num(s.idx, v) && Reaches(g, v, x0)
  {
    var y0 :| y0 in s.stack[..base] && Num(s.idx, y0) == low && Reaches(g, v, y0);
    assert y0 in s.stack;
    assert ReachesOpen(g, s.idx, s.open, y0);
    x0 :| x0 in s.open && Num(s.idx, x0) <= Num(s.idx, y0) && Reaches(g, y0, x0);
    ReachesTrans(g, v, y0, x0);
  }

  // ---------------------------------------------------------------- one call of the recursive search

  /** While v's call runs, started in state s0, v sits right above the stack it found. */
  ghost predicate Running(s0: Search, s: Search, v: Node) {
    && v !in s0.idx
    && s0.open <= Elements(s0.stack)
    && s.open == s0.open + {v}
    && Extends(s0, s)
    && s0.stack + [v] <= s.stack
    && Num(s.idx, v) == s0.next
  }

  /** The running link `low` of v while the successors in `todo` are still to be handled. */
  ghost predicate LowSoFar(g: Graph, s0: Search, s: Search, v: Node, low: int, todo: set<Node>) {
    && low <= s0.next
    && LowWitness(g, s.idx, s0.stack + [v], v, low)
    && EdgesBounded(g, s, |s0.stack| + 1, s0.stack, low)
    && Handled(g, s0, s, v, low, todo)
  }

  ghost predicate Handled(g: Graph, s0: Search, s: Search, v: Node, low: int, todo: set<Node>) {
    forall w :: w in Successors(g, v) && w !in todo ==> w in s.idx && (w in s0.stack ==> low <= Num(s.idx, w))
  }

  /** What a finished call guarantees: v's whole component has been popped,
      or v stays on the stack with a link below its own number. */
  ghost predicate Outcome(g: Graph, s0: Search, s: Search, v: Node, low: int) {
    || (s.stack == s0.stack && |s.popped| > 0 && v in s.popped[|s.popped| - 1] && low == Num(s.idx, v))
    || (v in s.stack && low < Num(s.idx, v) && LowWitness(g, s.idx, s0.stack, v, low))
  }

  ghost predicate Returned(g: Graph, s0: Search, s: Search, v: Node, low: int) {
    && s.open == s0.open
    && Extends(s0, s)
    && v in s.idx && s0.next <= Num(s.idx, v)
    && EdgesBounded(g, s, |s0.stack|, s0.stack, low)
    && Outcome(g, s0, s, v, low)
  }

  /** Numbers below v's lie below v on the stack, and so do the modules opened before it. */
  lemma StackShape(s0: Search, s: Search, v: Node)
    requires Numbered(s0) && Numbered(s) && Running(s0, s, v)
    ensures |s0.stack| < |s.stack| && s.stack[|s0.stack|] == v && s.stack[..|s0.stack|] == s0.stack
    ensures v in s.stack && v in s.open
    ensures forall x :: x in s.stack && Num(s.idx, x) < s0.next ==> x in s0.stack
    ensures forall x :: x in s0.stack ==> x in s.stack && Num(s.idx, x) < s0.next
  {
    var base := |s0.stack|;
    assert s.stack[base] == (s0.stack + [v])[base];
    assert s.stack[..base] == s0.stack;
    SplitStack(s, base);
    forall x | x in s.stack && Num(s.idx, x) < s0.next ensures x in s0.stack {
      assert x !in s.stack[base..];
    }
  }

  lemma RunStart(g: Graph, s0: Search, v: Node)
    requires Inv(g, s0) && v !in s0.idx
    requires forall x :: x in s0.open ==> Reaches(g, x, v)
    ensures Inv(g, Discovered(s0, v)) && Running(s0, Discovered(s0, v), v)
    ensures LowSoFar(g, s0, Discovered(s0, v), v, s0.next, Successors(g, v))
  {
    Discover(g, s0, v);
    ReachesSelf(g, v);
    assert v in s0.stack + [v];
  }

  lemma OpenReachesSuccessor(g: Graph, s0: Search, s: Search, v: Node, w: Node)
    requires Inv(g, s) && Numbered(s0) && Running(s0, s, v) && w in Successors(g, v)
    ensures forall x :: x in s.open ==> Reaches(g, x, w)
  {
    StackShape(s0, s, v);
    forall x | x in s.open ensures Reaches(g, x, w) {
      assert Reaches(g, x, v);
      ReachesStep(g, x, v, w);
    }
  }

  /** The branches for a successor already numbered. */
  lemma RunKnown(g: Graph, s0: Search, s: Search, v: Node, low: int, todo: set<Node>, w: Node)
    requires Numbered(s0) && Numbered(s) && Running(s0, s, v) && LowSoFar(g, s0, s, v, low, todo)
    requires w in Successors(g, v) && w in s.idx
    ensures w in s.stack ==> LowSoFar(g, s0, s, v, Min(low, Num(s.idx, w)), todo - {w})
    ensures w !in s.stack ==> LowSoFar(g, s0, s, v, low, todo - {w})
  {
    StackShape(s0, s, v);
    if w in s.stack && Num(s.idx, w) < low {
      ReachesSelf(g, v);
      ReachesStep(g, v, v, w);
      assert w in s0.stack + [v];
    }
  }

  lemma ExtendsTrans(a: Search, b: Search, c: Search)
    requires Extends(a, b) && Extends(b, c)
    ensures Extends(a, c)
  {
  }

  lemma LowAfterReturn(g: Graph, s0: Search, s: Search, t: Search, v: Node, low: int, w: Node, lw: int)
    requires Numbered(s0) && Numbered(s) && Running(s0, s, v) && low <= s0.next
    requires LowWitness(g, s.idx, s0.stack + [v], v, low)
    requires w in Successors(g, v) && Extends(s, t) && Outcome(g, s, t, w, lw) && s.next <= Num(t.idx, w)
    ensures LowWitness(g, t.idx, s0.stack + [v], v, Min(low, lw))
  {
    StackShape(s0, s, v);
    if low <= lw {
      var y :| y in s0.stack + [v] && Num(s.idx, y) == low && Reaches(g, v, y);
      assert y in s.stack && y in s.idx;
    } else {
      var y :| y in s.stack && Num(t.idx, y) == lw && Reaches(g, w, y);
      assert y in s.idx && y in s0.stack + [v];
      ReachesSelf(g, v);
      ReachesStep(g, v, v, w);
      ReachesTrans(g, v, w, y);
    }
  }

  /** A bound for the old part of the stack and one for the new part bound the whole. */
  lemma CombineBounds(g: Graph, s: Search, t: Search, base: nat, below: seq<Node>, low: int, lw: int)
    requires s.stack <= t.stack && forall x :: x in below ==> x in s.stack && Num(t.idx, x) == Num(s.idx, x)
    requires EdgesBounded(g, s, base, below, low) && EdgesBounded(g, t, |s.stack|, s.stack, lw)
    ensures EdgesBounded(g, t, base, below, Min(low, lw))
  {
    hide Successors;
    forall i, x {:trigger x in Successors(g, t.stack[i])} | base <= i < |t.stack| && x in Successors(g, t.stack[i]) && x in below
      ensures Min(low, lw) <= Num(t.idx, x)
    {
      if i < |s.stack| {
        assert s.stack[i] == t.stack[i];
        assert x in Successors(g, s.stack[i]);
      }
    }
  }

  lemma EdgesAfterReturn(g: Graph, s0: Search, s: Search, t: Search, v: Node, low: int, lw: int)
    requires Numbered(s0) && Numbered(s) && Running(s0, s, v) && Extends(s, t)
    requires EdgesBounded(g, s, |s0.stack| + 1, s0.stack, low)
    requires EdgesBounded(g, t, |s.stack|, s.stack, lw)
    ensures EdgesBounded(g, t, |s0.stack| + 1, s0.stack, Min(low, lw))
  {
    StackShape(s0, s, v);
    assert forall x :: x in s0.stack ==> x in s.stack && x in s.idx;
    hide EdgesBounded, Numbered, Successors;
    CombineBounds(g, s, t, |s0.stack| + 1, s0.stack, low, lw);
  }

  lemma RunningAfterReturn(s0: Search, s: Search, t: Search, v: Node)
    requires Numbered(s) && Running(s0, s, v) && Extends(s, t) && s.open == t.open
    ensures Running(s0, t, v)
  {
    ExtendsTrans(s0, s, t);
    assert v in s.stack by { assert s.stack[|s0.stack|] == (s0.stack + [v])[|s0.stack|]; }
  }

  lemma HandledAfterReturn(g: Graph, s0: Search, s: Search, t: Search, v: Node, low: int, lw: int, todo: set<Node>, w: Node)
    requires Numbered(s) && Extends(s, t) && s.next <= Num(t.idx, w) && s0.stack <= s.stack && w in t.idx
    requires Handled(g, s0, s, v, low, todo)
    ensures Handled(g, s0, t, v, Min(low, lw), todo - {w})
  {
    forall x | x in Successors(g, v) && x !in todo - {w}
      ensures x in t.idx && (x in s0.stack ==> Min(low, lw) <= Num(t.idx, x))
    {
      assert x in s0.stack ==> x in s.stack && x in s.idx;
    }
  }

  /** The branch that recurses: the callee's link is folded in, whether or not it popped. */
  lemma RunReturn(g: Graph, s0: Search, s: Search, t: Search, v: Node, low: int, todo: set<Node>, w: Node, lw: int)
    requires Numbered(s0) && Numbered(s) && Running(s0, s, v) && LowSoFar(g, s0, s, v, low, todo)
    requires w in Successors(g, v) && Numbered(t) && Returned(g, s, t, w, lw)
    ensures Running(s0, t, v) && LowSoFar(g, s0, t, v, Min(low, lw), todo - {w})
  {
    RunningAfterReturn(s0, s, t, v);
    LowAfterReturn(g, s0, s, t, v, low, w, lw);
    EdgesAfterReturn(g, s0, s, t, v, low, lw);
    assert s0.stack <= s.stack;
    HandledAfterReturn(g, s0, s, t, v, low, lw, todo, w);
    hide Numbered, Extends, Running, LowWitness, EdgesBounded, Outcome, Handled;
  }

  lemma RunEnd(g: Graph, s0: Search, s: Search, v: Node, low: int)
    requires Inv(g, s) && Numbered(s0) && Running(s0, s, v) && LowSoFar(g, s0, s, v, low, {})
    ensures Explored(g, s, v, |s0.stack|) && EdgesBounded(g, s, |s0.stack|, s0.stack, low)
  {
    StackShape(s0, s, v);
  }

  lemma ReturnPopped(g: Graph, s0: Search, s: Search, v: Node, low: int)
    requires Inv(g, s) && Numbered(s0) && Running(s0, s, v) && LowSoFar(g, s0, s, v, low, {})
    requires low == Num(s.idx, v)
    ensures |s0.stack| < |s.stack| && s.stack[|s0.stack|] == v
    ensures Inv(g, Popped(s, v, |s0.stack|)) && Returned(g, s0, Popped(s, v, |s0.stack|), v, low)
  {
    var base := |s0.stack|;
    StackShape(s0, s, v);
    RunEnd(g, s0, s, v, low);
    PopComponentStep(g, s, v, base);
    assert s.stack[base..][0] == v;
    assert v !in s0.open;
  }

  lemma ReturnLinked(g: Graph, s0: Search, s: Search, v: Node, low: int)
    requires Inv(g, s) && Numbered(s0) && Running(s0, s, v) && LowSoFar(g, s0, s, v, low, {})
    requires low != Num(s.idx, v)
    ensures Inv(g, s.(open := s.open - {v})) && Returned(g, s0, s.(open := s.open - {v}), v, low)
  {
    StackShape(s0, s, v);
    RunEnd(g, s0, s, v, low);
    var y :| y in s0.stack + [v] && Num(s.idx, y) == low && Reaches(g, v, y);
    assert y in s0.stack;
    LeaveStep(g, s, v, |s0.stack|, low);
    assert v !in s0.open;
  }

  // ---------------------------------------------------------------- the mutable search

  /** The components worth reporting, in the order they were popped. */
  ghost function Reported(popped: seq<set<Node>>): seq<set<Node>> {
    if popped == [] then []
    else
      var front, last := Reported(popped[..|popped| - 1]), popped[|popped| - 1];
      if |last| > 1 then front + [last] else front
  }

  lemma ReportedAppend(popped: seq<set<Node>>, c: set<Node>)
    ensures Reported(popped + [c]) == if |c| > 1 then Reported(popped) + [c] else Reported(popped)
  {
    assert (popped + [c])[..|popped|] == popped;
  }

  lemma {:induction false} NoDuplicates(s: seq<Node>)
    requires forall i, j :: 0 <= i < j < |s| ==> s[i] != s[j]
    ensures |Elements(s)| == |s|
  {
    if s != [] {
      var front := s[..|s| - 1];
      NoDuplicates(front);
      assert Elements(s) == Elements(front) + {s[|s| - 1]};
    }
  }

  /** Links recorded before are still there, unchanged. */
  ghost predicate Keeps(before: map<Node, int>, after: map<Node, int>) {
    forall x :: x in before ==> x in after && after[x] == before[x]
  }

  lemma KeepsPush(before: map<Node, int>, v: Node, l: int)
    requires v !in before
    ensures Keeps(before, before[v := l])
  {
  }

  lemma KeepsStep(a: map<Node, int>, b: map<Node, int>, c: map<Node, int>, v: Node)
    requires Keeps(a, b) && Keeps(b - {v}, c) && v !in a
    ensures Keeps(a, c)
  {
  }

  class CycleSearch {
    const graph: Graph
    var idx: map<Node, nat>
    var low: map<Node, int>
    var stack: seq<Node>
    var onStack: set<Node>
    var next: nat
    var errors: seq<set<Node>>
    ghost var popped: seq<set<Node>>
    ghost var open: set<Node>

    ghost function State(): Search
      reads this
    {
      Search(idx, stack, next, popped, open)
    }

    ghost predicate Valid()
      reads this
    {
      && Inv(graph, State())
      && onStack == Elements(stack)
      && low.Keys == idx.Keys
      && errors == Reported(popped)
    }

    constructor (graph: Graph)
      ensures Valid() && this.graph == graph && idx == map[] && open == {} && popped == []
    {
      this.graph := graph;
      idx, low, stack, onStack, next, errors, popped, open := map[], map[], [], {}, 0, [], [], {};
    }

    /** Discovers v and everything reachable from it, popping each component whose first module this call meets. */
    method StrongConnect(v: Node, ghost nodes: set<Node>)
      requires Valid() && Closed(graph, nodes) && idx.Keys <= nodes
      requires v in nodes && v !in idx
      requires forall x :: x in open ==> Reaches(graph, x, v)
      modifies this
      ensures Valid() && idx.Keys <= nodes && v in idx
      ensures Returned(graph, old(State()), State(), v, low[v])
      ensures Keeps(old(low), low)
      decreases nodes - idx.Keys, 0
    {
      ghost var s0 := State();
      var todo := Successors(graph, v);
      assert todo <= nodes;
      hide Numbered, Linked, Settled, Running, LowSoFar, Returned, Reported, Closed, Elements, Reaches, Successors, Keeps;
      RunStart(graph, s0, v);
      Push(v);
      KeepsPush(old(low), v, low[v]);
      while todo != {}
        invariant Valid() && idx.Keys <= nodes && v in idx
        invariant Keeps(old(low), low)
        invariant todo <= nodes && todo <= Successors(graph, v)
        invariant Running(s0, State(), v) && LowSoFar(graph, s0, State(), v, low[v], todo)
        decreases todo
      {
        var w :| w in todo;
        ghost var before := low;
        VisitSuccessor(v, w, nodes, s0, todo);
        KeepsStep(old(low), before, low, v);
        todo := todo - {w};
      }
      Finish(v, s0);
    }

    /** The end of v's call: pop its component when its link never went below its own number. */
    method Finish(v: Node, ghost s0: Search)
      requires Valid() && v in idx
      requires Numbered(s0) && Running(s0, State(), v) && LowSoFar(graph, s0, State(), v, low[v], {})
      modifies this`stack, this`onStack, this`errors, this`popped, this`open
      ensures Valid() && Returned(graph, s0, State(), v, low[v])
    {
      hide Numbered, Linked, Settled, Running, LowSoFar, Returned, Reported, Elements, Reaches;
      ghost var s := State();
      if low[v] == idx[v] {
        ReturnPopped(graph, s0, s, v, low[v]);
        PopComponent(v, |s0.stack|);
      } else {
        ReturnLinked(graph, s0, s, v, low[v]);
        open := open - {v};
      }
    }

    /** Numbers v and puts it on the stack. */
    method Push(v: Node)
      requires Valid() && Inv(graph, Discovered(State(), v))
      modifies this
      ensures Valid() && State() == Discovered(old(State()), v) && low == old(low)[v := old(next)]
    {
      StackAppend(stack, v);
      hide Inv, Reported, Elements;
      idx, low := idx[v := next], low[v := next];
      next := next + 1;
      stack, onStack, open := stack + [v], onStack + {v}, open + {v};
    }

    /** The body of v's loop: recurse into an undiscovered successor, or look at one still on the stack. */
    method VisitSuccessor(v: Node, w: Node, ghost nodes: set<Node>, ghost s0: Search, ghost todo: set<Node>)
      requires Valid() && Closed(graph, nodes) && idx.Keys <= nodes
      requires v in idx && w in Successors(graph, v) && w in nodes
      requires Numbered(s0) && Running(s0, State(), v) && LowSoFar(graph, s0, State(), v, low[v], todo)
      modifies this
      ensures Valid() && old(idx.Keys) <= idx.Keys <= nodes && v in idx
      ensures Running(s0, State(), v) && LowSoFar(graph, s0, State(), v, low[v], todo - {w})
      ensures Keeps(old(low) - {v}, low)
      decreases nodes - idx.Keys, 1
    {
      hide Numbered, Linked, Settled, Running, LowSoFar, Returned, Reported, Closed, Elements, Reaches;
      ghost var s, l := State(), low[v];
      if w !in idx {
        OpenReachesSuccessor(graph, s0, s, v, w);
        StrongConnect(w, nodes);
        RunReturn(graph, s0, s, State(), v, l, todo, w, low[w]);
        low := low[v := Min(low[v], low[w])];
      } else {
        RunKnown(graph, s0, s, v, l, todo, w);
        StackMembers(stack, w);
        if w in onStack {
          low := low[v := Min(low[v], idx[w])];
        }
      }
    }

    /** The pop loop: takes modules off the stack down to and including v. */
    method PopComponent(v: Node, ghost base: nat)
      requires Valid() && base < |stack| && stack[base] == v
      requires Inv(graph, Popped(State(), v, base))
      modifies this`stack, this`onStack, this`errors, this`popped, this`open
      ensures Valid() && State() == Popped(old(State()), v, base)
    {
      hide Numbered, Linked, Settled, Reported;
      ghost var s := State();
      var comp := PopDownTo(v, base);
      ReportedAppend(popped, Elements(comp));
      if |comp| > 1 {
        errors := errors + [Elements(comp)];
      }
      popped, open := popped + [Elements(s.stack[base..])], open - {v};
      assert State() == Popped(s, v, base);
    }

    /** The loop itself: what comes off is the stack from v up, each module once. */
    method PopDownTo(v: Node, ghost base: nat) returns (comp: seq<Node>)
      requires Numbered(State()) && onStack == Elements(stack) && base < |stack| && stack[base] == v
      modifies this`stack, this`onStack
      ensures stack == old(stack)[..base] && onStack == Elements(stack)
      ensures |Elements(comp)| == |comp| && Elements(comp) == Elements(old(stack)[base..])
    {
      ghost var s := State();
      hide Numbered;
      comp := [];
      while true
        invariant base < |stack| && stack == s.stack[..|stack|]
        invariant |comp| + |stack| == |s.stack|
        invariant forall i :: 0 <= i < |comp| ==> comp[i] == s.stack[|s.stack| - 1 - i]
        invariant onStack == Elements(stack)
        decreases |stack|
      {
        var w := stack[|stack| - 1];
        DropLast(s, stack);
        stack, onStack := stack[..|stack| - 1], onStack - {w};
        comp := comp + [w];
        if w == v {
          break;
        }
      }
      Distinct(s);
      ReversedElements(s, s.stack[base..], comp);
    }
  }

  lemma Distinct(s: Search)
    requires Numbered(s)
    ensures forall i, j :: 0 <= i < j < |s.stack| ==> s.stack[i] != s.stack[j]
  {
    forall i, j | 0 <= i < j < |s.stack| ensures s.stack[i] != s.stack[j] {
      assert Num(s.idx, s.stack[i]) < Num(s.idx, s.stack[j]);
    }
  }

  lemma StackAppend(stack: seq<Node>, v: Node)
    ensures Elements(stack + [v]) == Elements(stack) + {v}
  {
  }

  lemma StackMembers(stack: seq<Node>, w: Node)
    ensures w in Elements(stack) <==> w in stack
  {
  }

  lemma DropLast(s: Search, stack: seq<Node>)
    requires Numbered(s) && 0 < |stack| <= |s.stack| && stack == s.stack[..|stack|]
    ensures Elements(stack[..|stack| - 1]) == Elements(stack) - {stack[|stack| - 1]}
  {
    Distinct(s);
    assert forall i :: 0 <= i < |stack| ==> stack[i] == s.stack[i];
  }

  lemma ReversedElements(s: Search, a: seq<Node>, b: seq<Node>)
    requires Numbered(s) && |a| <= |s.stack| && a == s.stack[|s.stack| - |a|..]
    requires |a| == |b| && forall i :: 0 <= i < |a| ==> b[i] == a[|a| - 1 - i]
    ensures Elements(a) == Elements(b) && |Elements(b)| == |b|
  {
    Distinct(s);
    NoDuplicates(b);
    forall x | x in a ensures x in b {
      var i :| 0 <= i < |a| && a[i] == x;
      assert b[|a| - 1 - i] == x;
    }
  }

  // ---------------------------------------------------------------- the gate

  /** The popped components partition `nodes`, in reverse topological order. */
  ghost predicate IsReverseTopological(g: Graph, nodes: set<Node>, popped: seq<set<Node>>) {
    Settled(g, popped) && Union(popped) == nodes
  }

  /** The report lists exactly the components of two or more modules, each once. */
  ghost predicate IsCycleReport(g: Graph, nodes: set<Node>, errors: seq<set<Node>>) {
    && (forall c: set<Node> :: c in errors <==> c <= nodes && IsComponent(g, c) && |c| > 1)
    && (forall i, j :: 0 <= i < j < |errors| ==> errors[i] !! errors[j])
  }

  lemma ComponentUnique(g: Graph, c: set<Node>, d: set<Node>, x: Node)
    requires IsComponent(g, c) && IsComponent(g, d) && x in c && x in d
    ensures c == d
  {
    forall y ensures y in c <==> y in d {
      assert y in c <==> Mutual(g, x, y);
      assert y in d <==> Mutual(g, x, y);
    }
  }

  lemma {:induction false} ReportedMember(popped: seq<set<Node>>, c: set<Node>)
    ensures c in Reported(popped) <==> c in popped && |c| > 1
  {
    if popped != [] {
      var front := popped[..|popped| - 1];
      ReportedMember(front, c);
      assert c in popped <==> c in front || c == popped[|popped| - 1];
    }
  }

  lemma {:induction false} ReportedDisjoint(g: Graph, popped: seq<set<Node>>)
    requires Settled(g, popped)
    ensures forall i, j :: 0 <= i < j < |Reported(popped)| ==> Reported(popped)[i] !! Reported(popped)[j]
  {
    if popped != [] {
      var front, last := popped[..|popped| - 1], popped[|popped| - 1];
      forall k | 0 <= k < |front| ensures SettledAt(g, front, k) {
        assert SettledAt(g, popped, k);
        assert front[..k] == popped[..k] && front[..k + 1] == popped[..k + 1];
      }
      ReportedDisjoint(g, front);
      assert SettledAt(g, popped, |popped| - 1);
      forall i | 0 <= i < |Reported(front)| ensures Reported(front)[i] !! last {
        var c := Reported(front)[i];
        ReportedMember(front, c);
        forall x | x in c ensures x !in last {
          UnionMember(front, x);
        }
      }
    }
  }

  /** Whatever order the components were popped in, filtering them gives the exact report. */
  lemma ReportIsExact(g: Graph, nodes: set<Node>, popped: seq<set<Node>>)
    requires IsReverseTopological(g, nodes, popped)
    ensures IsCycleReport(g, nodes, Reported(popped))
  {
    ReportedDisjoint(g, popped);
    forall c: set<Node> ensures c in Reported(popped) <==> c <= nodes && IsComponent(g, c) && |c| > 1 {
      ReportedMember(popped, c);
      if c in popped {
        var k :| 0 <= k < |popped| && popped[k] == c;
        assert SettledAt(g, popped, k);
        forall x | x in c ensures x in nodes { UnionMember(popped, x); }
      }
      if c <= nodes && IsComponent(g, c) {
        var x :| x in c;
        UnionMember(popped, x);
        var k :| 0 <= k < |popped| && x in popped[k];
        assert SettledAt(g, popped, k);
        ComponentUnique(g, c, popped[k], x);
      }
    }
  }

  /** Components leave the stack in reverse topological order: no edge leads to a component popped later. */
  lemma NoEdgeToLaterComponent(g: Graph, popped: seq<set<Node>>, i: nat, j: nat, x: Node, y: Node)
    requires Settled(g, popped) && i < j < |popped|
    requires x in popped[i] && y in popped[j]
    ensures y !in Successors(g, x)
  {
    assert SettledAt(g, popped, i) && SettledAt(g, popped, j);
    var before := popped[..j];
    assert before[..i + 1] == popped[..i + 1];
    UnionPrefix(before, i + 1);
  }

  /** Two distinct modules are reported together exactly when each reaches the other. */
  lemma ReportedTogether(g: Graph, nodes: set<Node>, errors: seq<set<Node>>, x: Node, y: Node)
    requires Closed(g, nodes) && IsCycleReport(g, nodes, errors)
    requires x in nodes && y in nodes && x != y
    ensures Mutual(g, x, y) <==> exists c :: c in errors && x in c && y in c
  {
    if Mutual(g, x, y) {
      var c := ComponentOf(g, nodes, x);
      assert y in c;
      assert {x, y} <= c;
      SubsetSize({x, y}, c);
      assert c in errors;
    }
    if exists c :: c in errors && x in c && y in c {
      var c :| c in errors && x in c && y in c;
      assert IsComponent(g, c);
    }
  }

  lemma ComponentOf(g: Graph, nodes: set<Node>, x: Node) returns (c: set<Node>)
    requires Closed(g, nodes) && x in nodes
    ensures IsComponent(g, c) && x in c && c <= nodes
  {
    c := set y | y in nodes && Mutual(g, x, y);
    ReachesSelf(g, x);
    assert x in c;
    forall a, b | a in c ensures b in c <==> Mutual(g, a, b) {
      if b in c {
        ReachesTrans(g, a, x, b);
        ReachesTrans(g, b, x, a);
      }
      if Mutual(g, a, b) {
        ReachesTrans(g, x, a, b);
        ReachesTrans(g, b, a, x);
        ClosedReaches(g, nodes, x, b);
      }
    }
  }

  lemma TwoMembers(c: set<Node>) returns (x: Node, y: Node)
    requires |c| > 1
    ensures x in c && y in c && x != y
  {
    x :| x in c;
    if c <= {x} {
      SubsetSize(c, {x});
      assert false;
    }
    y :| y in c && y != x;
  }

  /** The gate passes exactly when no two distinct modules import each other, directly or not. */
  lemma GatePasses(g: Graph, nodes: set<Node>, errors: seq<set<Node>>)
    requires Closed(g, nodes) && IsCycleReport(g, nodes, errors)
    ensures errors == [] <==> forall x, y :: x in nodes && y in nodes && Mutual(g, x, y) ==> x == y
  {
    if errors == [] {
      forall x, y | x in nodes && y in nodes && Mutual(g, x, y) ensures x == y {
        if x != y { ReportedTogether(g, nodes, errors, x, y); }
      }
    } else {
      var c := errors[0];
      assert c in errors;
      var x, y := TwoMembers(c);
      ReportedTogether(g, nodes, errors, x, y);
    }
  }

  /** When no call is running, everything discovered has been popped. */
  lemma SearchDone(g: Graph, s: Search)
    requires Inv(g, s) && s.open == {}
    ensures s.stack == [] && Union(s.popped) == s.idx.Keys
  {
    if s.stack != [] {
      var anchored := s.stack[0] in s.stack && ReachesOpen(g, s.idx, s.open, s.stack[0]);
      assert false;
    }
  }

  method CheckImportCycles(files: seq<Node>, graph: Graph) returns (errors: seq<set<Node>>, ghost popped: seq<set<Node>>)
    requires Closed(graph, Elements(files))
    ensures IsReverseTopological(graph, Elements(files), popped) && errors == Reported(popped)
    ensures IsCycleReport(graph, Elements(files), errors)
  {
    hide Numbered, Linked, Settled, Union, Reported, IsCycleReport;
    var search := new CycleSearch(graph);
    ghost var nodes := Elements(files);
    for i := 0 to |files|
      invariant search.Valid() && search.graph == graph && search.open == {} && search.idx.Keys <= nodes
      invariant fresh(search)
      invariant forall k :: 0 <= k < i ==> files[k] in search.idx
    {
      hide Inv, Returned;
      if files[i] !in search.idx {
        ghost var before := search.State();
        search.StrongConnect(files[i], nodes);
        StillDiscovered(graph, before, search.State(), files[i], search.low[files[i]]);
      }
    }
    SearchDone(graph, search.State());
    errors, popped := search.errors, search.popped;
    ReportIsExact(graph, nodes, popped);
  }

  lemma StillDiscovered(g: Graph, s0: Search, s: Search, v: Node, low: int)
    requires Returned(g, s0, s, v, low)
    ensures s.open == s0.open && s0.idx.Keys <= s.idx.Keys
  {
  }
}
