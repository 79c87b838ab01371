/** Tree search over formulas: nodes are numbered in creation order, so a parent's number is below its child's. */
module MctsSearch {

  import opened Basics
  import opened FactorDsl
  import opened Formula
  import opened AlphaZoo
  import opened MiningHooks
  import ZooJournal

  // ---------------------------------------------------------------- the shape of the tree

  /** parent[v] for every node but the root, which has -1. */
  predicate IsParentList(parent: seq<int>) {
    |parent| > 0 && parent[0] == -1 && forall v :: 0 < v < |parent| ==> 0 <= parent[v] < v
  }

  /** v lies in the subtree of a. */
  predicate Descends(parent: seq<int>, a: nat, v: int)
    requires IsParentList(parent) && v < |parent|
    decreases v
  {
    v >= 0 && (v == a || Descends(parent, a, parent[v]))
  }

  /** How many of the first m nodes lie in the subtree of a. */
  function SubtreeSize(parent: seq<int>, a: nat, m: nat): nat
    requires IsParentList(parent) && m <= |parent|
  {
    if m == 0 then 0 else SubtreeSize(parent, a, m - 1) + if Descends(parent, a, m - 1) then 1 else 0
  }

  function SubtreeScore(parent: seq<int>, scores: seq<real>, a: nat, m: nat): real
    requires IsParentList(parent) && m <= |parent| == |scores|
  {
    if m == 0 then 0.0 else SubtreeScore(parent, scores, a, m - 1) + if Descends(parent, a, m - 1) then scores[m - 1] else 0.0
  }

  /** kids lists the children of every node in creation order. */
  ghost predicate ListsChildren(parent: seq<int>, kids: seq<seq<nat>>) {
    && |kids| == |parent|
    && (forall p, i :: 0 <= p < |kids| && 0 <= i < |kids[p]| ==> p < kids[p][i] < |parent| && parent[kids[p][i]] == p)
    && (forall v :: 0 < v < |parent| && 0 <= parent[v] < |kids| ==> v in kids[parent[v]])
    && (forall p, i, j :: 0 <= p < |kids| && 0 <= i < j < |kids[p]| ==> kids[p][i] < kids[p][j])
  }

  /** Every node's statistics are those of its subtree; only the root's leave the root itself out. */
  ghost predicate Tallied(parent: seq<int>, scores: seq<real>, visits: seq<nat>, value: seq<real>)
    requires IsParentList(parent) && |scores| == |visits| == |value| == |parent|
  {
    forall a: nat {:trigger visits[a]} {:trigger value[a]} :: a < |parent| ==>
      && visits[a] == SubtreeSize(parent, a, |parent|) - (if a == 0 then 1 else 0)
      && value[a] == SubtreeScore(parent, scores, a, |parent|) - (if a == 0 then scores[0] else 0.0)
  }

  /** Adding a last node does not move the others. */
  lemma {:induction false} DescendsAppend(parent: seq<int>, p: nat, a: nat, v: int)
    requires IsParentList(parent) && p < |parent| && v < |parent|
    ensures IsParentList(parent + [p]) && Descends(parent + [p], a, v) == Descends(parent, a, v)
    decreases v
  {
    if v > 0 {
      DescendsAppend(parent, p, a, parent[v]);
    }
  }

  lemma {:induction false} SubtreeAppend(parent: seq<int>, p: nat, scores: seq<real>, score: real, a: nat, m: nat)
    requires IsParentList(parent) && p < |parent| && m <= |parent| == |scores|
    ensures IsParentList(parent + [p])
    ensures SubtreeSize(parent + [p], a, m) == SubtreeSize(parent, a, m)
    ensures SubtreeScore(parent + [p], scores + [score], a, m) == SubtreeScore(parent, scores, a, m)
  {
    if m > 0 {
      SubtreeAppend(parent, p, scores, score, a, m - 1);
      DescendsAppend(parent, p, a, m - 1);
    }
  }

  /** A new leaf adds one to the size, and its score to the sum, of exactly its ancestors. */
  lemma LeafCounts(parent: seq<int>, p: nat, scores: seq<real>, score: real, a: nat)
    requires IsParentList(parent) && p < |parent| == |scores|
    ensures var up, n := parent + [p], |parent|;
      && IsParentList(up)
      && SubtreeSize(up, a, n + 1) == SubtreeSize(parent, a, n) + (if Descends(up, a, n) then 1 else 0)
      && SubtreeScore(up, scores + [score], a, n + 1)
         == SubtreeScore(parent, scores, a, n) + (if Descends(up, a, n) then score else 0.0)
  {
    SubtreeAppend(parent, p, scores, score, a, |parent|);
  }

  lemma {:induction false} NothingBelowItself(parent: seq<int>, a: nat, m: nat)
    requires IsParentList(parent) && m <= |parent| && m <= a
    ensures SubtreeSize(parent, a, m) == 0
  {
    if m > 0 {
      NothingBelowItself(parent, a, m - 1);
      DescendsUp(parent, a, m - 1);
    }
  }

  lemma {:induction false} DescendsUp(parent: seq<int>, a: nat, v: int)
    requires IsParentList(parent) && v < |parent|
    ensures Descends(parent, a, v) ==> a <= v
    decreases v
  {
    if v > 0 { DescendsUp(parent, a, parent[v]); }
  }

  lemma {:induction false} NoScoreBelowItself(parent: seq<int>, scores: seq<real>, a: nat, m: nat)
    requires IsParentList(parent) && m <= |parent| == |scores| && m <= a
    ensures SubtreeScore(parent, scores, a, m) == 0.0
  {
    if m > 0 {
      NoScoreBelowItself(parent, scores, a, m - 1);
      DescendsUp(parent, a, m - 1);
    }
  }

  /** Every node has itself in its subtree, so every non-root node has been visited. */
  lemma {:induction false} SubtreePositive(parent: seq<int>, a: nat, m: nat)
    requires IsParentList(parent) && a < m <= |parent|
    ensures SubtreeSize(parent, a, m) >= 1
  {
    if a < m - 1 { SubtreePositive(parent, a, m - 1); }
  }

  lemma {:induction false} AllDescendFromRoot(parent: seq<int>, v: nat)
    requires IsParentList(parent) && v < |parent|
    ensures Descends(parent, 0, v)
  {
    if v > 0 { AllDescendFromRoot(parent, parent[v]); }
  }

  lemma {:induction false} RootSize(parent: seq<int>, m: nat)
    requires IsParentList(parent) && m <= |parent|
    ensures SubtreeSize(parent, 0, m) == m
  {
    if m > 0 {
      RootSize(parent, m - 1);
      AllDescendFromRoot(parent, m - 1);
    }
  }

  // ---------------------------------------------------------------- preorder

  ghost predicate Forward(kids: seq<seq<nat>>) {
    forall p, i :: 0 <= p < |kids| && 0 <= i < |kids[p]| ==> p < kids[p][i] < |kids|
  }

  function Preorder(kids: seq<seq<nat>>, v: nat): (order: seq<nat>)
    requires Forward(kids) && v < |kids|
    ensures |order| >= 1
    decreases |kids| - v, 1, 0
  {
    [v] + PreorderOf(kids, kids[v], v)
  }

  function PreorderOf(kids: seq<seq<nat>>, vs: seq<nat>, above: nat): seq<nat>
    requires Forward(kids) && forall i :: 0 <= i < |vs| ==> above < vs[i] < |kids|
    decreases |kids| - above, 0, |vs|
  {
    if vs == [] then [] else Preorder(kids, vs[0]) + PreorderOf(kids, vs[1..], above)
  }

  ghost function Flattened(parts: seq<seq<nat>>): seq<nat> {
    if parts == [] then [] else parts[0] + Flattened(parts[1..])
  }

  lemma {:induction false} PreorderOfIs(kids: seq<seq<nat>>, vs: seq<nat>, above: nat)
    requires Forward(kids) && forall i :: 0 <= i < |vs| ==> above < vs[i] < |kids|
    ensures PreorderOf(kids, vs, above) == Flattened(seq(|vs|, i requires 0 <= i < |vs| => Preorder(kids, vs[i])))
  {
    if vs != [] {
      PreorderOfIs(kids, vs[1..], above);
      var all := seq(|vs|, i requires 0 <= i < |vs| => Preorder(kids, vs[i]));
      assert all[1..] == seq(|vs| - 1, i requires 0 <= i < |vs| - 1 => Preorder(kids, vs[1..][i]));
    }
  }

  /** The order: a node, and then the orders of its children, oldest child first. */
  lemma PreorderIs(kids: seq<seq<nat>>, v: nat)
    requires Forward(kids) && v < |kids|
    ensures Preorder(kids, v) == [v] + Flattened(seq(|kids[v]|, i requires 0 <= i < |kids[v]| => Preorder(kids, kids[v][i])))
  {
    PreorderOfIs(kids, kids[v], v);
  }

  /** What a stack, top last, still has to visit. */
  function ToVisit(kids: seq<seq<nat>>, stack: seq<nat>): seq<nat>
    requires Forward(kids) && forall i :: 0 <= i < |stack| ==> stack[i] < |kids|
  {
    if stack == [] then [] else Preorder(kids, stack[|stack| - 1]) + ToVisit(kids, stack[..|stack| - 1])
  }

  lemma ToVisitTop(kids: seq<seq<nat>>, stack: seq<nat>, v: nat)
    requires Forward(kids) && (forall i :: 0 <= i < |stack| ==> stack[i] < |kids|) && v < |kids|
    ensures ToVisit(kids, stack + [v]) == Preorder(kids, v) + ToVisit(kids, stack)
  {
    assert (stack + [v])[..|stack|] == stack;
  }

  lemma {:induction false} PushReversed(kids: seq<seq<nat>>, stack: seq<nat>, vs: seq<nat>, above: nat)
    requires Forward(kids) && (forall i :: 0 <= i < |stack| ==> stack[i] < |kids|)
    requires forall i :: 0 <= i < |vs| ==> above < vs[i] < |kids|
    ensures ToVisit(kids, stack + Reversed<nat>(vs)) == PreorderOf(kids, vs, above) + ToVisit(kids, stack)
  {
    if vs == [] {
      assert stack + Reversed<nat>(vs) == stack;
    } else {
      var under := stack + Reversed<nat>(vs[1..]);
      assert stack + Reversed<nat>(vs) == under + [vs[0]];
      PushReversed(kids, stack, vs[1..], above);
      ToVisitTop(kids, under, vs[0]);
      hide ToVisit, Preorder;
      var first, rest, later := Preorder(kids, vs[0]), PreorderOf(kids, vs[1..], above), ToVisit(kids, stack);
      assert (first + rest) + later == first + (rest + later);
    }
  }

  /** b is the first node of the largest score in visiting order. */
  ghost predicate IsFirstBest(order: seq<nat>, scores: seq<real>, b: nat) {
    && (forall i :: 0 <= i < |order| ==> order[i] < |scores|) && b < |scores|
    && exists i :: 0 <= i < |order| && order[i] == b
         && (forall j :: 0 <= j < i ==> scores[order[j]] < scores[b])
         && (forall j :: i <= j < |order| ==> scores[order[j]] <= scores[b])
  }

  lemma {:induction false} PreorderCovers(parent: seq<int>, kids: seq<seq<nat>>, a: nat, v: nat)
    requires IsParentList(parent) && ListsChildren(parent, kids) && Forward(kids) && a < |parent| && v < |parent|
    requires Descends(parent, a, v)
    ensures v in Preorder(kids, a)
    decreases v
  {
    if v != a {
      var p := parent[v];
      PreorderCovers(parent, kids, a, p);
      PreorderClosed(kids, a, p, v);
    }
  }

  /** Preorder contains the children of what it contains. */
  lemma {:induction false} PreorderClosed(kids: seq<seq<nat>>, a: nat, p: nat, c: nat)
    requires Forward(kids) && a < |kids| && p < |kids| && p in Preorder(kids, a) && c in kids[p]
    ensures c in Preorder(kids, a)
    decreases |kids| - a, 1, 0
  {
    if p == a {
      HeadsListed(kids, kids[a], a, c);
    } else {
      PreorderOfClosed(kids, kids[a], a, p, c);
    }
  }

  lemma {:induction false} HeadsListed(kids: seq<seq<nat>>, vs: seq<nat>, above: nat, c: nat)
    requires Forward(kids) && (forall i :: 0 <= i < |vs| ==> above < vs[i] < |kids|) && c in vs
    ensures c in PreorderOf(kids, vs, above)
  {
    if c != vs[0] {
      HeadsListed(kids, vs[1..], above, c);
    }
  }

  lemma {:induction false} PreorderOfClosed(kids: seq<seq<nat>>, vs: seq<nat>, above: nat, p: nat, c: nat)
    requires Forward(kids) && (forall i :: 0 <= i < |vs| ==> above < vs[i] < |kids|)
    requires p < |kids| && p in PreorderOf(kids, vs, above) && c in kids[p]
    ensures c in PreorderOf(kids, vs, above)
    decreases |kids| - above, 0, |vs|
  {
    if p in Preorder(kids, vs[0]) {
      PreorderClosed(kids, vs[0], p, c);
    } else {
      PreorderOfClosed(kids, vs[1..], above, p, c);
    }
  }

  // ---------------------------------------------------------------- the growing tree

  /** The hooks and parameters of a search. The generator sees the iteration and the node's tree, from which the source
      makes its prompt; uct bounds a child from its value, its visits and its parent's visits. */
  datatype Setting = Setting(
    construct: (nat, Expr) -> Reply,
    judge: Expr -> Verdict,
    intOf: string -> Option<int>,
    fields: set<Field>,
    threshold: real,
    branching: int,
    uct: (real, nat, nat) -> real)

  /** The first position of the largest value. */
  function FirstLargest(s: seq<real>): (i: nat)
    requires s != []
    ensures i < |s| && (forall j :: 0 <= j < |s| ==> s[j] <= s[i]) && forall j :: 0 <= j < i ==> s[j] < s[i]
  {
    if |s| == 1 then 0
    else
      var i := FirstLargest(s[..|s| - 1]);
      if s[|s| - 1] > s[i] then |s| - 1 else i
  }

  lemma FirstLargestUnique(s: seq<real>, at: nat)
    requires at < |s| && (forall j :: 0 <= j < |s| ==> s[j] <= s[at]) && forall j :: 0 <= j < at ==> s[j] < s[at]
    ensures FirstLargest(s) == at
  {
  }

  function BoundsOf(uct: (real, nat, nat) -> real, children: seq<nat>, value: seq<real>, visits: seq<nat>, own: nat): (b: seq<real>)
    requires |value| == |visits| && forall i :: 0 <= i < |children| ==> children[i] < |visits|
    ensures |b| == |children|
  {
    seq(|children|, i requires 0 <= i < |children| => uct(value[children[i]], visits[children[i]], own))
  }

  /** The first child without a visit; if all have some, the first whose bound, made of its value, its visits and the node's
      own, no other child's exceeds; without children the node itself. */
  ghost predicate Selected(children: seq<nat>, visits: seq<nat>, value: seq<real>, own: nat, uct: (real, nat, nat) -> real,
                           node: nat, selected: nat)
    requires |value| == |visits| && forall i :: 0 <= i < |children| ==> children[i] < |visits|
  {
    if children == [] then selected == node
    else
      exists at :: 0 <= at < |children| && selected == children[at] &&
        if exists c :: c in children && visits[c] == 0 then
          visits[selected] == 0 && forall j :: 0 <= j < at ==> visits[children[j]] != 0
        else
          && (forall j :: 0 <= j < |children| ==>
                uct(value[children[j]], visits[children[j]], own) <= uct(value[selected], visits[selected], own))
          && (forall j :: 0 <= j < at ==>
                uct(value[children[j]], visits[children[j]], own) < uct(value[selected], visits[selected], own))
  }

  lemma UnvisitedSelected(children: seq<nat>, visits: seq<nat>, value: seq<real>, own: nat, uct: (real, nat, nat) -> real,
                          node: nat, at: nat)
    requires |value| == |visits| && forall i :: 0 <= i < |children| ==> children[i] < |visits|
    requires at < |children| && visits[children[at]] == 0 && forall j :: 0 <= j < at ==> visits[children[j]] != 0
    ensures Selected(children, visits, value, own, uct, node, children[at])
  {
    assert children[at] in children;
  }

  lemma BestSelected(children: seq<nat>, visits: seq<nat>, value: seq<real>, own: nat, uct: (real, nat, nat) -> real,
                     node: nat, at: nat)
    requires |value| == |visits| && forall i :: 0 <= i < |children| ==> children[i] < |visits|
    requires at < |children| && forall j :: 0 <= j < |children| ==> visits[children[j]] != 0
    requires var b := BoundsOf(uct, children, value, visits, own); IsBest(b, |b|, at)
    ensures Selected(children, visits, value, own, uct, node, children[at])
  {
    var b := BoundsOf(uct, children, value, visits, own);
    assert forall j :: 0 <= j < |children| ==> b[j] == uct(value[children[j]], visits[children[j]], own);
    hide BoundsOf;
  }

  /** Of the first n bounds the one at `at` is the first that no other exceeds. */
  ghost predicate IsBest(b: seq<real>, n: nat, at: nat) {
    at < n <= |b| && (forall j :: 0 <= j < n ==> b[j] <= b[at]) && forall j :: 0 <= j < at ==> b[j] < b[at]
  }

  lemma BestSoFar(b: seq<real>, n: nat, at: nat)
    requires n < |b| && (n > 0 ==> IsBest(b, n, at))
    ensures n == 0 || b[n] > b[at] ==> IsBest(b, n + 1, n)
    ensures n > 0 && b[n] <= b[at] ==> IsBest(b, n + 1, at)
  {
  }

  lemma BestIsChosen(b: seq<real>, at: nat)
    requires IsBest(b, |b|, at)
    ensures FirstLargest(b) == at
  {
    FirstLargestUnique(b, at);
  }

  lemma NoneSelected(visits: seq<nat>, value: seq<real>, own: nat, uct: (real, nat, nat) -> real, node: nat)
    requires |value| == |visits|
    ensures Selected([], visits, value, own, uct, node, node)
  {
  }

  class SearchTree {
    var exprs: seq<Expr>
    var parent: seq<int>
    var kids: seq<seq<nat>>
    var scores: seq<real>
    var visits: seq<nat>
    var value: seq<real>

    ghost predicate Shaped()
      reads this
    {
      && IsParentList(parent) && ListsChildren(parent, kids)
      && |exprs| == |scores| == |visits| == |value| == |parent|
    }

    ghost predicate Valid()
      reads this
    {
      Shaped() && Tallied(parent, scores, visits, value)
    }

    constructor (seed: Expr, score: real)
      ensures Valid() && exprs == [seed] && scores == [score] && parent == [-1] && kids == [[]]
    {
      exprs, parent, kids, scores, visits, value := [seed], [-1], [[]], [score], [0], [0.0];
      new;
      RootSize(parent, 1);
      assert SubtreeScore(parent, scores, 0, 1) == scores[0];
    }

    /** `_uct_select`: the first unvisited child, else the first child of the largest bound, else the node itself. */
    method UctSelect(node: nat, uct: (real, nat, nat) -> real) returns (selected: nat)
      requires Shaped() && node < |parent|
      ensures kids[node] == [] ==> selected == node
      ensures kids[node] != [] ==> selected in kids[node]
      ensures (forall c :: c in kids[node] ==> visits[c] != 0) && kids[node] != [] ==> selected == ChildChosen(node, uct)
      ensures Selected(kids[node], visits, value, visits[node], uct, node, selected)
    {
      hide Selected, IsBest;
      selected := node;
      var best := 0.0;
      var children := kids[node];
      ghost var at, bounds := 0, Bounds(node, uct);
      ghost var vs, us, own := visits, value, visits[node];
      if children == [] {
        NoneSelected(vs, us, own, uct, node);
        return;
      }
      for i := 0 to |children|
        invariant i > 0 ==> at < i && children[at] == selected && best == bounds[at] && IsBest(bounds, i, at)
        invariant forall j :: 0 <= j < i ==> vs[children[j]] != 0
      {
        var child := children[i];
        if visits[child] == 0 {
          assert child in kids[node];
          UnvisitedSelected(children, vs, us, own, uct, node, i);
          return child;
        }
        var bound := uct(value[child], visits[child], visits[node]);
        assert bound == bounds[i];
        BestSoFar(bounds, i, at);
        if i == 0 || bound > best {
          selected, best, at := child, bound, i;
        }
      }
      BestIsChosen(bounds, at);
      BestSelected(children, vs, us, own, uct, node, at);
    }

    /** The selection bounds of a node's children, in order. */
    ghost function Bounds(node: nat, uct: (real, nat, nat) -> real): (b: seq<real>)
      requires Shaped() && node < |parent|
      reads this
      ensures |b| == |kids[node]|
    {
      BoundsOf(uct, kids[node], value, visits, visits[node])
    }

    ghost function ChildChosen(node: nat, uct: (real, nat, nat) -> real): (c: nat)
      requires Shaped() && node < |parent| && kids[node] != []
      reads this
      ensures node < c < |parent|
    {
      kids[node][FirstLargest(Bounds(node, uct))]
    }

    /** Where the descent from a node ends: the first node on the way that has room for a child. */
    ghost function DescentFrom(node: nat, branching: int, uct: (real, nat, nat) -> real): (d: nat)
      requires Shaped() && node < |parent|
      reads this
      ensures d < |parent|
      decreases |parent| - node
    {
      if kids[node] == [] || |kids[node]| < branching then node
      else DescentFrom(ChildChosen(node, uct), branching, uct)
    }

    /** No node but the root is unvisited. */
    lemma AllVisited()
      requires Valid()
      ensures forall v :: 0 < v < |parent| ==> visits[v] > 0
    {
      forall v: nat | 0 < v < |parent| ensures visits[v] > 0 {
        SubtreePositive(parent, v, |parent|);
      }
    }

    /** Descends while a node is full; a child's number is larger, so the descent ends. */
    method Descend(branching: int, uct: (real, nat, nat) -> real) returns (node: nat)
      requires Valid()
      ensures node == DescentFrom(0, branching, uct) && (kids[node] == [] || |kids[node]| < branching)
    {
      AllVisited();
      node := 0;
      while kids[node] != [] && |kids[node]| >= branching
        invariant node < |parent| && DescentFrom(node, branching, uct) == DescentFrom(0, branching, uct)
        decreases |parent| - node
      {
        var next := UctSelect(node, uct);
        node := next;
      }
    }

    /** Appends a leaf below p, its statistics still zero. */
    method AddLeaf(p: nat, e: Expr, score: real) returns (child: nat)
      requires Shaped() && p < |parent|
      modifies this
      ensures Shaped() && child == |old(parent)| && parent == old(parent) + [p]
      ensures exprs == old(exprs) + [e] && scores == old(scores) + [score]
      ensures visits == old(visits) + [0] && value == old(value) + [0.0]
      ensures kids == old(kids)[p := old(kids)[p] + [child]] + [[]]
    {
      child := |parent|;
      ChildAppend(parent, kids, p);
      exprs, parent, scores := exprs + [e], parent + [p], scores + [score];
      visits, value := visits + [0], value + [0.0];
      kids := kids[p := kids[p] + [child]] + [[]];
    }

    /** `_backprop`: from the node to the root, one more visit and the node's score each. */
    method Backprop(node: nat)
      requires Shaped() && node < |parent|
      modifies this`visits, this`value
      ensures Shaped()
      ensures forall a: nat :: a < |parent| ==>
        && visits[a] == old(visits)[a] + (if Descends(parent, a, node) then 1 else 0)
        && value[a] == old(value)[a] + (if Descends(parent, a, node) then scores[node] else 0.0)
    {
      var cursor: int := node;
      while cursor >= 0
        invariant Shaped() && -1 <= cursor < |parent|
        invariant forall a: nat :: a < |parent| && Descends(parent, a, cursor) ==> Descends(parent, a, node)
        invariant forall a: nat :: a < |parent| && Descends(parent, a, node) && !Descends(parent, a, cursor) ==> cursor < a
        invariant forall a: nat :: a < |parent| ==>
          var passed := Descends(parent, a, node) && !Descends(parent, a, cursor);
          && visits[a] == old(visits)[a] + (if passed then 1 else 0)
          && value[a] == old(value)[a] + (if passed then scores[node] else 0.0)
        decreases cursor
      {
        DescendsStep(parent, cursor);
        visits := visits[cursor := visits[cursor] + 1];
        value := value[cursor := value[cursor] + scores[node]];
        cursor := parent[cursor];
      }
    }

    /** `_evaluate_into`: the score of a tree; an accepted tree is deposited in the zoo. */
    static method EvaluateInto(h: Setting, zoo: Zoo, e: Expr) returns (raised: Option<Exception>, verdict: Verdict)
      requires zoo.Valid() && zoo.intOf == h.intOf && FactorDsl.Valid(e)
      modifies zoo
      ensures zoo.Valid() && raised == EvaluationError(h.fields, e)
      ensures raised.Some? ==> zoo.State() == old(zoo.State())
      ensures raised.None? ==> verdict == h.judge(e) && zoo.State() == Deposited(h, old(zoo.State()), e)
    {
      verdict := h.judge(e);
      raised := EvaluationError(h.fields, e);
      if raised.None? && verdict.accepted {
        EntryConsistent(h.intOf, e, verdict, 0);
        var _ := zoo.Add(EntryFor(e, verdict, 0), h.threshold);
      }
    }

    /** A new leaf below a node with room, back-propagated. */
    method Graft(p: nat, e: Expr, score: real, branching: int)
      requires Valid() && Bounded(branching) && p < |parent| && (kids[p] == [] || |kids[p]| < branching)
      modifies this
      ensures Valid() && Bounded(branching)
      ensures parent == old(parent) + [p] && exprs == old(exprs) + [e] && scores == old(scores) + [score]
    {
      var child := AddLeaf(p, e, score);
      Backprop(child);
      TallyLeaf(old(parent), old(scores), old(visits), old(value), p, score, visits, value);
    }

    /** One iteration: descend, expand, evaluate, back-propagate. An exception leaves tree and zoo as they were. */
    method Iterate(i: nat, h: Setting, zoo: Zoo) returns (raised: Option<Exception>, verdict: Verdict)
      requires Valid() && Bounded(h.branching) && AllValid(exprs) && zoo.Valid() && zoo.intOf == h.intOf
      modifies this, zoo
      ensures Valid() && Bounded(h.branching) && AllValid(exprs) && zoo.Valid()
      ensures var step := StepOf(h, i, old(exprs)[old(DescentFrom(0, h.branching, h.uct))]);
        raised == if step.Ok? then None else Some(step.error)
      ensures raised.Some? ==> zoo.State() == old(zoo.State()) && unchanged(this)
      ensures raised.None? ==> |parent| == |old(parent)| + 1 && parent[|old(parent)|] == old(DescentFrom(0, h.branching, h.uct))
      ensures raised.None? ==> parent[..|old(parent)|] == old(parent) && exprs[..|old(parent)|] == old(exprs)
      ensures raised.None? ==> scores[..|old(parent)|] == old(scores)
      ensures raised.None? ==> var child := |old(parent)|;
        && StepOf(h, i, exprs[parent[child]]) == Ok(exprs[child]) && verdict == h.judge(exprs[child])
        && scores[child] == ScoreOf(verdict) && zoo.State() == Deposited(h, old(zoo.State()), exprs[child])
    {
      var p := Descend(h.branching, h.uct);
      var e := exprs[p];
      verdict := h.judge(e);
      GeneratedSound(h.intOf, h.construct(i, e));
      hide FactorDsl.Validate, ParseExpr, Deposited;
      match Generated(h.intOf, h.construct(i, e)) {
        case Ok(expansion) => e := expansion;
        case Raises(error) =>
          if error != ValueError {
            return Some(error), verdict;
          }
      }
      raised, verdict := EvaluateInto(h, zoo, e);
      if raised.Some? {
        return;
      }
      Graft(p, e, ScoreOf(verdict), h.branching);
    }

    /** No node has more than max(1, branching) children. */
    ghost predicate Bounded(branching: int)
      reads this
    {
      forall v :: 0 <= v < |kids| ==> |kids[v]| <= 1 || |kids[v]| <= branching
    }

    /** `_best_node`: depth first with an explicit stack, keeping the first node of the largest score. */
    method BestNode() returns (best: nat)
      requires Shaped()
      ensures Forward(kids) && IsFirstBest(Preorder(kids, 0), scores, best)
    {
      best := 0;
      var stack: seq<nat> := [0];
      ghost var visited: seq<nat> := [];
      assert Forward(kids);
      FirstStack(kids);
      hide Forward, IsParentList, ListsChildren, ToVisit, Preorder, IsFirstBest;
      while stack != []
        invariant forall i :: 0 <= i < |stack| ==> stack[i] < |kids|
        invariant visited + ToVisit(kids, stack) == Preorder(kids, 0)
        invariant if visited == [] then best == 0 && stack == [0] else IsFirstBest(visited, scores, best)
        decreases |ToVisit(kids, stack)|
      {
        var node := stack[|stack| - 1];
        StackStep(kids, visited, stack);
        BestExtends(visited, scores, best, node);
        stack := stack[..|stack| - 1];
        if scores[node] > scores[best] {
          best := node;
        }
        stack := stack + Reversed<nat>(kids[node]);
        visited := visited + [node];
      }
      NothingLeft(kids, visited);
    }
  }

  lemma FirstStack(kids: seq<seq<nat>>)
    requires Forward(kids) && |kids| > 0
    ensures [] + ToVisit(kids, [0]) == Preorder(kids, 0)
  {
    ToVisitTop(kids, [], 0);
    assert [] + [0] == [0];
  }

  lemma NothingLeft(kids: seq<seq<nat>>, visited: seq<nat>)
    requires Forward(kids)
    ensures visited + ToVisit(kids, []) == visited
  {
  }

  /** Popping a node and pushing its children, last first, goes on with the preorder. */
  lemma StackStep(kids: seq<seq<nat>>, visited: seq<nat>, stack: seq<nat>)
    requires Forward(kids) && stack != [] && forall i :: 0 <= i < |stack| ==> stack[i] < |kids|
    ensures var node := stack[|stack| - 1]; var next := stack[..|stack| - 1] + Reversed<nat>(kids[node]);
      && (forall i :: 0 <= i < |next| ==> next[i] < |kids|)
      && (visited + [node]) + ToVisit(kids, next) == visited + ToVisit(kids, stack)
      && |ToVisit(kids, next)| < |ToVisit(kids, stack)|
  {
    var node, rest := stack[|stack| - 1], stack[..|stack| - 1];
    assert stack == rest + [node];
    ToVisitTop(kids, rest, node);
    PushReversed(kids, rest, kids[node], node);
    hide ToVisit;
    assert Preorder(kids, node) == [node] + PreorderOf(kids, kids[node], node);
    assert ToVisit(kids, stack) == [node] + ToVisit(kids, rest + Reversed<nat>(kids[node]));
  }

  function ScoreOf(v: Verdict): real {
    if v.accepted then v.score else 0.0
  }

  lemma BestExtends(visited: seq<nat>, scores: seq<real>, best: nat, node: nat)
    requires node < |scores| && (visited == [] ==> best == node)
    requires visited != [] ==> IsFirstBest(visited, scores, best)
    ensures best < |scores|
    ensures IsFirstBest(visited + [node], scores, if scores[node] > scores[best] then node else best)
  {
    var order := visited + [node];
    if visited == [] {
      assert order[0] == best;
    } else if scores[node] > scores[best] {
      assert order[|visited|] == node;
      assert forall j :: 0 <= j < |visited| ==> scores[order[j]] <= scores[best];
    } else {
      var i :| 0 <= i < |visited| && visited[i] == best
        && (forall j :: 0 <= j < i ==> scores[visited[j]] < scores[best])
        && (forall j :: i <= j < |visited| ==> scores[visited[j]] <= scores[best]);
      assert order[i] == best;
    }
  }

  /** Stepping from a node to its parent leaves exactly that node behind. */
  lemma DescendsStep(parent: seq<int>, cursor: nat)
    requires IsParentList(parent) && cursor < |parent|
    ensures forall a: nat :: a < |parent| ==>
      (Descends(parent, a, cursor) <==> a == cursor || Descends(parent, a, parent[cursor]))
    ensures !Descends(parent, cursor, parent[cursor])
  {
    DescendsUp(parent, cursor, parent[cursor]);
  }

  lemma ChildAppend(parent: seq<int>, kids: seq<seq<nat>>, p: nat)
    requires IsParentList(parent) && ListsChildren(parent, kids) && p < |parent|
    ensures IsParentList(parent + [p])
    ensures ListsChildren(parent + [p], kids[p := kids[p] + [|parent|]] + [[]])
  {
    var up, more := parent + [p], kids[p := kids[p] + [|parent|]] + [[]];
    assert more[p] == kids[p] + [|parent|];
    assert forall q :: 0 <= q < |kids| && q != p ==> more[q] == kids[q];
    forall v | 0 < v < |up| && 0 <= up[v] < |more| ensures v in more[up[v]] {
      if v < |parent| {
        assert v in kids[parent[v]];
        if parent[v] == p { assert v in kids[p]; }
      } else {
        assert more[p][|kids[p]|] == v;
      }
    }
  }

  /** A leaf below p, back-propagated, keeps every node's tally exact. */
  lemma TallyLeaf(parent: seq<int>, scores: seq<real>, visits: seq<nat>, value: seq<real>, p: nat, score: real,
                  visits': seq<nat>, value': seq<real>)
    requires IsParentList(parent) && p < |parent| == |scores| == |visits| == |value|
    requires Tallied(parent, scores, visits, value)
    requires |visits'| == |value'| == |parent| + 1 && IsParentList(parent + [p])
    requires forall a: nat :: a < |parent| + 1 ==>
      && visits'[a] == (visits + [0])[a] + (if Descends(parent + [p], a, |parent|) then 1 else 0)
      && value'[a] == (value + [0.0])[a] + (if Descends(parent + [p], a, |parent|) then score else 0.0)
    ensures Tallied(parent + [p], scores + [score], visits', value')
  {
    var n := |parent|;
    forall a: nat | a < n + 1
      ensures visits'[a] == SubtreeSize(parent + [p], a, n + 1) - (if a == 0 then 1 else 0)
      ensures value'[a] == SubtreeScore(parent + [p], scores + [score], a, n + 1) - (if a == 0 then scores[0] else 0.0)
    {
      LeafCounts(parent, p, scores, score, a);
      if a == n {
        NothingBelowItself(parent, n, n);
        NoScoreBelowItself(parent, scores, n, n);
      } else {
        assert visits[a] == SubtreeSize(parent, a, n) - (if a == 0 then 1 else 0);
      }
    }
  }

  // ---------------------------------------------------------------- the search

  /** `_expand_expr`: a ValueError leaves the node's own tree, any other exception passes. */
  function ExpansionOf(h: Setting, i: nat, from: Expr): Parsed {
    match Generated(h.intOf, h.construct(i, from))
    case Ok(e) => Ok(e)
    case Raises(error) => if error == ValueError then Ok(from) else Raises(error)
  }

  /** What iteration i makes of a node's tree: a new tree that can be evaluated, or an exception. */
  function StepOf(h: Setting, i: nat, from: Expr): Parsed {
    match ExpansionOf(h, i, from)
    case Raises(error) => Raises(error)
    case Ok(e) =>
      match EvaluationError(h.fields, e)
      case Some(error) => Raises(error)
      case None => Ok(e)
  }

  /** A new node holds the tree parsed from the answer, or its parent's tree when the answer is a ValueError. */
  lemma StepMakes(h: Setting, i: nat, from: Expr)
    requires StepOf(h, i, from).Ok?
    ensures var reply, e := h.construct(i, from), StepOf(h, i, from).expr;
      && EvaluationError(h.fields, e).None?
      && match reply
         case Answer(json) => ParseExpr(h.intOf, json) == Ok(e) || (ParseExpr(h.intOf, json) == Raises(ValueError) && e == from)
         case Failure(error) => error == ValueError && e == from
  {
    hide ParseExpr, EvaluationError;
  }

  /** An iteration raises exactly when the generator or the parser raises something else than ValueError, or the answer
      is well-formed and names a column the panel lacks. */
  lemma StepRaisesIff(h: Setting, i: nat, from: Expr)
    requires EvaluationError(h.fields, from).None?
    ensures var reply := h.construct(i, from);
      StepOf(h, i, from).Raises? <==>
        ((exists error :: ReplyEscapes(h.intOf, reply, error))
         || (reply.Answer? && WellFormed(h.intOf, reply.json) && LacksColumn(h.fields, reply.json)))
  {
    var reply := h.construct(i, from);
    forall error ensures ReplyEscapes(h.intOf, reply, error) <==> error != ValueError && Generated(h.intOf, reply) == Raises(error) {
      ReplyEscapesIff(h.intOf, reply, error);
    }
    if reply.Answer? {
      ParsesIff(h.intOf, reply.json);
      if WellFormed(h.intOf, reply.json) {
        LacksColumnIff(h.intOf, h.fields, reply.json);
      }
    }
    hide ParseExpr, WellFormed, ReplyEscapes, LacksColumn, EvaluationError;
    var generated := Generated(h.intOf, reply);
    if generated.Raises? && generated.error != ValueError {
      assert ReplyEscapes(h.intOf, reply, generated.error);
    }
  }

  /** An answer with a list as window makes any iteration raise TypeError. */
  lemma ListWindowStops(h: Setting, i: nat, from: Expr)
    requires h.construct(i, from) == Answer(RankWithWindow(JList([])))
    ensures StepOf(h, i, from) == Raises(TypeError)
  {
    ListWindowRaisesTypeError(h.intOf);
    hide ParseExpr;
  }

  ghost predicate AllValid(exprs: seq<Expr>) {
    forall v :: 0 <= v < |exprs| ==> FactorDsl.Valid(exprs[v])
  }

  /** The zoo after evaluating one tree. */
  ghost function Deposited(h: Setting, s: Store, e: Expr): (r: Store)
    requires AllConsistent(h.intOf, s.entries) && FactorDsl.Valid(e)
    ensures AllConsistent(h.intOf, r.entries)
  {
    var v := h.judge(e);
    if !v.accepted then s
    else
      EntryConsistent(h.intOf, e, v, 0);
      Added(h.intOf, s, EntryFor(e, v, 0), h.threshold)
  }

  /** The zoo after evaluating trees in order. */
  ghost function DepositsOf(h: Setting, s: Store, exprs: seq<Expr>): (r: Store)
    requires AllConsistent(h.intOf, s.entries) && AllValid(exprs)
    ensures AllConsistent(h.intOf, r.entries)
  {
    if exprs == [] then s else Deposited(h, DepositsOf(h, s, exprs[..|exprs| - 1]), exprs[|exprs| - 1])
  }

  /** Depositing keeps the zoo sound. */
  lemma {:induction false} DepositsSound(h: Setting, s: Store, exprs: seq<Expr>)
    requires Sound(h.intOf, s, h.threshold) && AllValid(exprs)
    ensures Sound(h.intOf, DepositsOf(h, s, exprs), h.threshold)
  {
    if exprs != [] {
      var front, e := exprs[..|exprs| - 1], exprs[|exprs| - 1];
      DepositsSound(h, s, front);
      EntryConsistent(h.intOf, e, h.judge(e), 0);
      hide FactorDsl.Validate, Consistent, Sound, EntryFor, Added;
      if h.judge(e).accepted {
        AddedSound(h.intOf, DepositsOf(h, s, front), EntryFor(e, h.judge(e), 0), h.threshold);
      }
    }
  }

  lemma {:induction false} DepositsClean(h: Setting, s: Store, exprs: seq<Expr>)
    requires AllConsistent(h.intOf, s.entries) && AllValid(exprs)
    ensures ZooJournal.Grown(s, DepositsOf(h, s, exprs), ZooJournal.CleanRecord)
  {
    if exprs != [] {
      var front, e := exprs[..|exprs| - 1], exprs[|exprs| - 1];
      var t, entry := DepositsOf(h, s, front), EntryFor(e, h.judge(e), 0);
      DepositsClean(h, s, front);
      ZooJournal.EntryClean(e, h.judge(e), 0);
      EntryConsistent(h.intOf, e, h.judge(e), 0);
      hide FactorDsl.Validate, Consistent, EntryFor, Crowded, ZooJournal.CleanRecord;
      ZooJournal.GrownByOne(t, DepositsOf(h, s, exprs), FactorRecord(entry), ZooJournal.CleanRecord);
      hide ZooJournal.Grown;
      ZooJournal.GrownMore(s, t, DepositsOf(h, s, exprs), ZooJournal.CleanRecord);
    }
  }

  /** The deposits of a search never keep the zoo's file from opening again. */
  lemma DepositsReopen(h: Setting, s: Store, exprs: seq<Expr>, show: real -> string, decode: string -> Option<Record>, file: string)
    requires Sound(h.intOf, s, h.threshold) && AllValid(exprs)
    requires ZooJournal.OnFile(show, decode, file, s, DepositsOf(h, s, exprs))
    ensures ZooJournal.Reopens(show, decode, file, s, DepositsOf(h, s, exprs))
  {
    DepositsClean(h, s, exprs);
    DepositsSound(h, s, exprs);
    var t := DepositsOf(h, s, exprs);
    hide *;
    ZooJournal.CleanReopens(h.intOf, s, t, h.threshold, show, decode, file);
  }

  datatype SearchResult = SearchResult(best: Expr, bestScore: real, visited: nat, accepted: seq<string>)

  datatype SearchOutcome = Found(result: SearchResult) | Escaped(error: Exception)

  /** The result is the first node in preorder of the largest score. */
  ghost predicate ReportsBest(kids: seq<seq<nat>>, scores: seq<real>, exprs: seq<Expr>, result: SearchResult) {
    && Forward(kids) && |kids| == |scores| == |exprs| > 0
    && exists b: nat :: (b < |exprs| && IsFirstBest(Preorder(kids, 0), scores, b)
         && result.best == exprs[b] && result.bestScore == scores[b])
  }

  /** The next iteration on this tree raises the error. */
  ghost predicate StopsAt(h: Setting, tree: SearchTree, error: Exception)
    requires tree.Valid()
    reads tree
  {
    StepOf(h, |tree.parent| - 1, tree.exprs[tree.DescentFrom(0, h.branching, h.uct)]) == Raises(error)
  }

  /** `search_mcts`: after every iteration has succeeded the first best node, or the exception of the first that did not. */
  method SearchMcts(seed: Expr, iterations: nat, h: Setting, zoo: Zoo) returns (outcome: SearchOutcome, tree: SearchTree)
    requires FactorDsl.Valid(seed) && zoo.Valid() && zoo.intOf == h.intOf
    modifies zoo
    ensures fresh(tree) && tree.Valid() && tree.Bounded(h.branching) && AllValid(tree.exprs) && zoo.Valid()
    ensures EvaluationError(h.fields, seed).Some? ==>
      outcome == Escaped(EvaluationError(h.fields, seed).value) && zoo.State() == old(zoo.State())
    ensures EvaluationError(h.fields, seed).None? ==>
      && Built(seed, h, tree.parent, tree.exprs, tree.scores)
      && zoo.State() == DepositsOf(h, old(zoo.State()), tree.exprs)
    ensures EvaluationError(h.fields, seed).None? && outcome.Escaped? ==>
      |tree.parent| <= iterations && StopsAt(h, tree, outcome.error)
    ensures outcome.Found? ==> |tree.parent| == iterations + 1 && outcome.result.visited == iterations
    ensures outcome.Found? ==> outcome.result.accepted == AcceptedOf(h.judge, tree.exprs)
    ensures outcome.Found? ==> ReportsBest(tree.kids, tree.scores, tree.exprs, outcome.result)
    ensures outcome.Found? ==> forall v :: 0 <= v <= iterations ==> tree.scores[v] <= outcome.result.bestScore
  {
    hide FactorDsl.Validate, Deposited, StepOf, EvaluationError;
    tree := new SearchTree(seed, ScoreOf(h.judge(seed)));
    var raised, verdict := SearchTree.EvaluateInto(h, zoo, seed);
    if raised.Some? {
      return Escaped(raised.value), tree;
    }
    ghost var s0 := old(zoo.State());
    var accepted := if verdict.accepted then [ToFormula(seed)] else [];
    ExploredStart(seed, h, s0);
    hide Explored, Built, AcceptedOf, DepositsOf, IsParentList, ListsChildren, Tallied, AllConsistent;
    for i := 0 to iterations
      invariant fresh(tree) && tree.Valid() && tree.Bounded(h.branching) && |tree.parent| == i + 1 && AllValid(tree.exprs)
      invariant zoo.Valid()
      invariant Explored(seed, h, s0, tree.parent, tree.exprs, tree.scores, accepted, zoo.State())
    {
      ghost var parent, exprs, scores, s := tree.parent, tree.exprs, tree.scores, zoo.State();
      raised, verdict := tree.Iterate(i, h, zoo);
      if raised.Some? {
        ExploredEnd(seed, h, s0, tree.parent, tree.exprs, tree.scores, accepted, zoo.State());
        outcome := Escaped(raised.value);
        return;
      }
      ExploredStep(seed, h, s0, parent, exprs, scores, accepted, s, tree.parent, tree.exprs, tree.scores);
      if verdict.accepted {
        accepted := accepted + [ToFormula(tree.exprs[i + 1])];
      }
    }
    var best := tree.BestNode();
    OneListEach(tree.parent, tree.kids);
    BestOfAll(tree.parent, tree.kids, tree.scores, best);
    ExploredEnd(seed, h, s0, tree.parent, tree.exprs, tree.scores, accepted, zoo.State());
    var result := SearchResult(tree.exprs[best], tree.scores[best], iterations, accepted);
    assert ReportsBest(tree.kids, tree.scores, tree.exprs, result);
    outcome := Found(result);
  }

  /** Node 1 is what the first iteration made of the seed. */
  lemma SecondNode(seed: Expr, h: Setting, parent: seq<int>, exprs: seq<Expr>, scores: seq<real>)
    requires Built(seed, h, parent, exprs, scores) && |exprs| > 1
    ensures StepOf(h, 0, seed) == Ok(exprs[1])
  {
    hide StepOf;
    assert StepOf(h, 0, exprs[parent[1]]) == Ok(exprs[1]);
  }

  lemma OnlySeed(seed: Expr, h: Setting, parent: seq<int>, exprs: seq<Expr>, scores: seq<real>)
    requires Built(seed, h, parent, exprs, scores) && StepOf(h, 0, seed).Raises?
    ensures exprs == [seed]
  {
    hide StepOf;
    if |exprs| > 1 {
      SecondNode(seed, h, parent, exprs, scores);
    }
  }

  /** A search whose first answer has a list as window ends in the TypeError, with the seed its only node. */
  method StoppedSearch(seed: Expr, iterations: nat, h: Setting, zoo: Zoo) returns (outcome: SearchOutcome, tree: SearchTree)
    requires FactorDsl.Valid(seed) && EvaluationError(h.fields, seed).None? && iterations > 0 && zoo.Valid() && zoo.intOf == h.intOf
    requires h.construct(0, seed) == Answer(RankWithWindow(JList([])))
    modifies zoo
    ensures outcome == Escaped(TypeError) && tree.exprs == [seed] && zoo.State() == Deposited(h, old(zoo.State()), seed)
  {
    hide FactorDsl.Validate, Deposited, StepOf, EvaluationError;
    ListWindowStops(h, 0, seed);
    ghost var s0 := old(zoo.State());
    outcome, tree := SearchMcts(seed, iterations, h, zoo);
    OnlySeed(seed, h, tree.parent, tree.exprs, tree.scores);
    assert [] + [seed] == [seed];
    DepositsAppend(h, s0, [], seed);
  }

  lemma OneListEach(parent: seq<int>, kids: seq<seq<nat>>)
    requires ListsChildren(parent, kids)
    ensures |kids| == |parent|
  {
  }

  /** Node 0 is the seed; node v > 0 is what iteration v - 1 made of its parent; scores are those of the evaluation. */
  ghost predicate Built(seed: Expr, h: Setting, parent: seq<int>, exprs: seq<Expr>, scores: seq<real>) {
    && |parent| == |exprs| == |scores| > 0 && exprs[0] == seed && IsParentList(parent)
    && (forall v :: 0 <= v < |scores| ==> scores[v] == ScoreOf(h.judge(exprs[v])))
    && (forall v :: 0 < v < |exprs| ==> StepOf(h, v - 1, exprs[parent[v]]) == Ok(exprs[v]))
  }

  /** The tree is built as described, the accepted formulas are those that passed, and the zoo holds the deposits. */
  ghost predicate Explored(seed: Expr, h: Setting, s0: Store, parent: seq<int>, exprs: seq<Expr>, scores: seq<real>,
                           accepted: seq<string>, s: Store)
    requires AllConsistent(h.intOf, s0.entries) && AllValid(exprs)
  {
    Built(seed, h, parent, exprs, scores) && accepted == AcceptedOf(h.judge, exprs) && s == DepositsOf(h, s0, exprs)
  }

  /** A node scores what its evaluation scores if it accepts, and zero otherwise. */
  lemma BuiltScores(seed: Expr, h: Setting, parent: seq<int>, exprs: seq<Expr>, scores: seq<real>, v: nat)
    requires Built(seed, h, parent, exprs, scores) && v < |scores|
    ensures scores[v] == if h.judge(exprs[v]).accepted then h.judge(exprs[v]).score else 0.0
  {
    hide StepOf;
  }

  lemma ExploredStart(seed: Expr, h: Setting, s0: Store)
    requires FactorDsl.Valid(seed) && AllConsistent(h.intOf, s0.entries)
    ensures Explored(seed, h, s0, [-1], [seed], [ScoreOf(h.judge(seed))],
                     if h.judge(seed).accepted then [ToFormula(seed)] else [], Deposited(h, s0, seed))
  {
    hide Deposited, FactorDsl.Validate;
    AcceptedAppend(h.judge, [], seed);
    DepositsAppend(h, s0, [], seed);
    assert [] + [seed] == [seed];
  }

  lemma ExploredStep(seed: Expr, h: Setting, s0: Store, parent: seq<int>, exprs: seq<Expr>, scores: seq<real>,
                     accepted: seq<string>, s: Store, parent': seq<int>, exprs': seq<Expr>, scores': seq<real>)
    requires AllConsistent(h.intOf, s0.entries) && AllValid(exprs) && AllValid(exprs') && AllConsistent(h.intOf, s.entries)
    requires Explored(seed, h, s0, parent, exprs, scores, accepted, s) && IsParentList(parent')
    requires |parent| == |exprs| == |scores|
    requires var n := |parent|;
      && |parent'| == |exprs'| == |scores'| == n + 1
      && parent'[..n] == parent && exprs'[..n] == exprs && scores'[..n] == scores
    requires var n := |parent|;
      StepOf(h, n - 1, exprs'[parent'[n]]) == Ok(exprs'[n]) && scores'[n] == ScoreOf(h.judge(exprs'[n]))
    ensures var e := exprs'[|parent|];
      Explored(seed, h, s0, parent', exprs', scores',
               if h.judge(e).accepted then accepted + [ToFormula(e)] else accepted, Deposited(h, s, e))
  {
    hide Deposited, FactorDsl.Validate, StepOf;
    BuiltAppend(seed, h, parent, exprs, scores, parent', exprs', scores');
    AcceptedAppend(h.judge, exprs, exprs'[|parent|]);
    DepositsAppend(h, s0, exprs, exprs'[|parent|]);
  }

  lemma ExploredEnd(seed: Expr, h: Setting, s0: Store, parent: seq<int>, exprs: seq<Expr>, scores: seq<real>,
                    accepted: seq<string>, s: Store)
    requires AllConsistent(h.intOf, s0.entries) && AllValid(exprs)
    requires Explored(seed, h, s0, parent, exprs, scores, accepted, s)
    ensures Built(seed, h, parent, exprs, scores) && accepted == AcceptedOf(h.judge, exprs) && s == DepositsOf(h, s0, exprs)
  {
  }

  lemma BuiltAppend(seed: Expr, h: Setting, parent: seq<int>, exprs: seq<Expr>, scores: seq<real>,
                    parent': seq<int>, exprs': seq<Expr>, scores': seq<real>)
    requires Built(seed, h, parent, exprs, scores) && IsParentList(parent')
    requires var n := |parent|;
      && |parent'| == |exprs'| == |scores'| == n + 1
      && parent'[..n] == parent && exprs'[..n] == exprs && scores'[..n] == scores
    requires var n := |parent|;
      StepOf(h, n - 1, exprs'[parent'[n]]) == Ok(exprs'[n]) && scores'[n] == ScoreOf(h.judge(exprs'[n]))
    ensures Built(seed, h, parent', exprs', scores') && exprs' == exprs + [exprs'[|exprs|]]
  {
    hide StepOf, ScoreOf;
    var n := |parent|;
    forall v | 0 < v < n + 1 ensures StepOf(h, v - 1, exprs'[parent'[v]]) == Ok(exprs'[v]) {
      if v < n {
        assert exprs'[v] == exprs'[..n][v] && parent'[v] == parent'[..n][v];
        assert exprs'[parent[v]] == exprs'[..n][parent[v]];
      }
    }
    forall v | 0 <= v < n + 1 ensures scores'[v] == ScoreOf(h.judge(exprs'[v])) {
      if v < n {
        assert exprs'[v] == exprs'[..n][v] && scores'[v] == scores'[..n][v];
      }
    }
  }

  /** The formulas of the expressions that pass evaluation, in creation order. */
  function AcceptedOf(judge: Expr -> Verdict, exprs: seq<Expr>): seq<string>
    requires forall e | e in exprs :: FactorDsl.Valid(e)
  {
    if exprs == [] then []
    else
      var front, last := AcceptedOf(judge, exprs[..|exprs| - 1]), exprs[|exprs| - 1];
      if judge(last).accepted then front + [ToFormula(last)] else front
  }

  lemma AcceptedAppend(judge: Expr -> Verdict, exprs: seq<Expr>, e: Expr)
    requires AllValid(exprs) && FactorDsl.Valid(e)
    ensures AcceptedOf(judge, exprs + [e]) == AcceptedOf(judge, exprs) + if judge(e).accepted then [ToFormula(e)] else []
  {
    assert (exprs + [e])[..|exprs|] == exprs;
  }

  lemma DepositsAppend(h: Setting, s: Store, exprs: seq<Expr>, e: Expr)
    requires AllConsistent(h.intOf, s.entries) && AllValid(exprs) && FactorDsl.Valid(e)
    ensures AllValid(exprs + [e]) && DepositsOf(h, s, exprs + [e]) == Deposited(h, DepositsOf(h, s, exprs), e)
  {
    hide Deposited, FactorDsl.Validate;
    assert (exprs + [e])[..|exprs|] == exprs;
  }

  /** The first best in preorder has the largest score of the whole tree. */
  lemma BestOfAll(parent: seq<int>, kids: seq<seq<nat>>, scores: seq<real>, best: nat)
    requires IsParentList(parent) && ListsChildren(parent, kids) && Forward(kids) && |scores| == |parent|
    requires IsFirstBest(Preorder(kids, 0), scores, best)
    ensures forall v :: 0 <= v < |parent| ==> scores[v] <= scores[best]
  {
    forall v: nat | v < |parent| ensures scores[v] <= scores[best] {
      AllDescendFromRoot(parent, v);
      PreorderCovers(parent, kids, 0, v);
    }
  }
}
