/** Directed graphs over module names, paths and reachability. */
module Graphs {

  type Node = string
  type Graph = map<Node, set<Node>>

  /** The adjacency lookup `graph.get(v, ())`. */
  function Successors(g: Graph, v: Node): set<Node> {
    if v in g then g[v] else {}
  }

  ghost predicate IsPath(g: Graph, p: seq<Node>) {
    |p| > 0 && (|p| == 1 || (p[1] in Successors(g, p[0]) && IsPath(g, p[1..])))
  }

  ghost predicate IsPathFromTo(g: Graph, p: seq<Node>, x: Node, y: Node) {
    IsPath(g, p) && p[0] == x && p[|p| - 1] == y
  }

  /** A path of zero or more edges leads from x to y. */
  ghost predicate Reaches(g: Graph, x: Node, y: Node) {
    exists p :: IsPathFromTo(g, p, x, y)
  }

  /** A path of one or more edges leads from x to y. */
  ghost predicate ReachesByEdges(g: Graph, x: Node, y: Node) {
    exists p :: IsPathFromTo(g, p, x, y) && |p| >= 2
  }

  ghost predicate Mutual(g: Graph, x: Node, y: Node) {
    Reaches(g, x, y) && Reaches(g, y, x)
  }

  /** A strongly connected component: a nonempty class of mutual reachability. */
  ghost predicate IsComponent(g: Graph, c: set<Node>) {
    c != {} && forall x, y :: x in c ==> (y in c <==> Mutual(g, x, y))
  }

  ghost predicate Closed(g: Graph, c: set<Node>) {
    forall x :: x in c ==> Successors(g, x) <= c
  }

  function Elements(s: seq<Node>): set<Node> {
    set x | x in s
  }

  lemma ReachesSelf(g: Graph, x: Node)
    ensures Reaches(g, x, x)
  {
    assert IsPathFromTo(g, [x], x, x);
  }

  lemma {:induction false} PathConcat(g: Graph, p: seq<Node>, q: seq<Node>)
    requires IsPath(g, p) && IsPath(g, q) && p[|p| - 1] == q[0]
    ensures IsPath(g, p + q[1..]) && (p + q[1..])[|p + q[1..]| - 1] == q[|q| - 1]
  {
    if |p| == 1 {
      assert p + q[1..] == q;
    } else {
      PathConcat(g, p[1..], q);
      assert (p + q[1..])[1..] == p[1..] + q[1..];
    }
  }

  lemma ReachesStep(g: Graph, x: Node, y: Node, z: Node)
    requires Reaches(g, x, y) && z in Successors(g, y)
    ensures Reaches(g, x, z) && ReachesByEdges(g, x, z)
  {
    var p :| IsPathFromTo(g, p, x, y);
    PathConcat(g, p, [y, z]);
    assert IsPathFromTo(g, p + [y, z][1..], x, z);
  }

  lemma ReachesTrans(g: Graph, x: Node, y: Node, z: Node)
    requires Reaches(g, x, y) && Reaches(g, y, z)
    ensures Reaches(g, x, z)
  {
    var p :| IsPathFromTo(g, p, x, y);
    var q :| IsPathFromTo(g, q, y, z);
    PathConcat(g, p, q);
    assert IsPathFromTo(g, p + q[1..], x, z);
  }

  /** A closed set is never left: the argument behind every completeness claim below. */
  lemma {:induction false} ClosedPath(g: Graph, c: set<Node>, p: seq<Node>)
    requires Closed(g, c) && IsPath(g, p) && p[0] in c
    ensures p[|p| - 1] in c
  {
    if |p| > 1 {
      ClosedPath(g, c, p[1..]);
    }
  }

  lemma ClosedReaches(g: Graph, c: set<Node>, x: Node, y: Node)
    requires Closed(g, c) && x in c && Reaches(g, x, y)
    ensures y in c
  {
    var p :| IsPathFromTo(g, p, x, y);
    ClosedPath(g, c, p);
  }
}
