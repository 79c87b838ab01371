/** Structural similarity and the forbidden-motif search: multisets of genes over all subtrees. */
module Similarity {

  import opened Basics
  import opened FactorDsl
  import opened Formula

  /** The genes of all subtrees of e, with multiplicity. */
  ghost function Genes(e: Expr): multiset<string>
    requires Valid(e)
    decreases e, 1
  {
    multiset{AbstractGene(e)} + GenesOf(e.children)
  }

  ghost function GenesOf(es: seq<Expr>): multiset<string>
    requires forall c | c in es :: Valid(c)
    decreases es, 0
  {
    if es == [] then multiset{} else Genes(es[0]) + GenesOf(es[1..])
  }

  ghost predicate IsSubtree(s: Expr, e: Expr)
    decreases e
  {
    s == e || exists c | c in e.children :: IsSubtree(s, c)
  }

  lemma {:induction false} GenesConcat(a: seq<Expr>, b: seq<Expr>)
    requires (forall c | c in a :: Valid(c)) && (forall c | c in b :: Valid(c))
    ensures GenesOf(a + b) == GenesOf(a) + GenesOf(b)
  {
    if a == [] {
      assert a + b == b;
    } else {
      assert (a + b)[1..] == a[1..] + b;
      GenesConcat(a[1..], b);
    }
  }

  lemma {:induction false} ComplexityConcat(a: seq<Expr>, b: seq<Expr>)
    ensures ComplexitySum(a + b) == ComplexitySum(a) + ComplexitySum(b)
  {
    if a == [] {
      assert a + b == b;
    } else {
      assert (a + b)[1..] == a[1..] + b;
      ComplexityConcat(a[1..], b);
    }
  }

  lemma PopPushGenes(rest: seq<Expr>, node: Expr)
    requires Valid(node) && forall c | c in rest :: Valid(c)
    ensures GenesOf(rest + [node]) == multiset{AbstractGene(node)} + GenesOf(rest + node.children)
  {
    GenesConcat(rest, [node]);
    GenesConcat(rest, node.children);
    assert GenesOf([node]) == Genes(node);
  }

  lemma PopPushSize(rest: seq<Expr>, node: Expr)
    ensures ComplexitySum(rest + [node]) == 1 + ComplexitySum(rest + node.children)
  {
    ComplexityConcat(rest, [node]);
    ComplexityConcat(rest, node.children);
    assert ComplexitySum([node]) == Complexity(node);
  }

  /** Taking the top of the stack and pushing its children keeps the genes still to be met. */
  lemma PopPush(stack: seq<Expr>)
    requires stack != [] && forall c | c in stack :: Valid(c)
    ensures var node, rest := stack[|stack| - 1], stack[..|stack| - 1];
      && (forall c | c in rest + node.children :: Valid(c))
      && GenesOf(stack) == multiset{AbstractGene(node)} + GenesOf(rest + node.children)
      && ComplexitySum(stack) == 1 + ComplexitySum(rest + node.children)
  {
    hide GenesOf, ComplexitySum, AbstractGene, FactorDsl.Validate;
    var node, rest := stack[|stack| - 1], stack[..|stack| - 1];
    ChildrenValid(node);
    assert stack == rest + [node];
    assert forall c | c in rest :: c in stack;
    PopPushGenes(rest, node);
    PopPushSize(rest, node);
  }

  lemma OneTree(e: Expr)
    requires Valid(e)
    ensures GenesOf([e]) == Genes(e)
  {
    assert GenesOf([]) == multiset{};
  }

  lemma NoTrees()
    ensures GenesOf([]) == multiset{}
  {}

  /** `_subtree_genes`: an explicit stack instead of recursion. */
  method SubtreeGenes(e: Expr) returns (genes: multiset<string>)
    requires Valid(e)
    ensures genes == Genes(e) && |genes| == Complexity(e)
  {
    genes := multiset{};
    var stack := [e];
    GeneCount(e);
    OneTree(e);
    hide Genes, GenesOf, Valid, Complexity, ComplexitySum, AbstractGene;
    while stack != []
      invariant forall c | c in stack :: Valid(c)
      invariant genes + GenesOf(stack) == Genes(e)
      decreases ComplexitySum(stack)
    {
      PopPush(stack);
      var node := stack[|stack| - 1];
      stack := stack[..|stack| - 1];
      genes := genes + multiset{AbstractGene(node)};
      stack := stack + node.children;
    }
    NoTrees();
  }

  lemma {:induction false} GeneCount(e: Expr)
    requires Valid(e)
    ensures |Genes(e)| == Complexity(e)
    decreases e, 1
  {
    GeneCountOf(e.children);
  }

  lemma {:induction false} GeneCountOf(es: seq<Expr>)
    requires forall c | c in es :: Valid(c)
    ensures |GenesOf(es)| == ComplexitySum(es)
    decreases es, 0
  {
    if es != [] {
      GeneCount(es[0]);
      GeneCountOf(es[1..]);
    }
  }

  /** A gene is met exactly when some subtree has it. */
  lemma {:induction false} GeneOfSubtree(e: Expr, g: string)
    requires Valid(e)
    ensures g in Genes(e) <==> exists s :: Valid(s) && IsSubtree(s, e) && AbstractGene(s) == g
    decreases e, 1
  {
    GeneOfSome(e.children, g);
    SubtreeUnfold(e, e);
    hide IsSubtree, GenesOf;
    if g in GenesOf(e.children) {
      var c, s :| c in e.children && Valid(s) && IsSubtree(s, c) && AbstractGene(s) == g;
      SubtreeUnfold(s, e);
    }
    if exists s :: Valid(s) && IsSubtree(s, e) && AbstractGene(s) == g {
      var s :| Valid(s) && IsSubtree(s, e) && AbstractGene(s) == g;
      SubtreeUnfold(s, e);
    }
  }

  lemma SubtreeUnfold(s: Expr, e: Expr)
    ensures IsSubtree(s, e) <==> s == e || exists c | c in e.children :: IsSubtree(s, c)
  {
  }

  lemma {:induction false} GeneOfSome(es: seq<Expr>, g: string)
    requires forall c | c in es :: Valid(c)
    ensures g in GenesOf(es) <==> exists c, s :: c in es && Valid(s) && IsSubtree(s, c) && AbstractGene(s) == g
    decreases es, 0
  {
    if es != [] {
      GeneOfSubtree(es[0], g);
      GeneOfSome(es[1..], g);
      if g in Genes(es[0]) {
        var s :| Valid(s) && IsSubtree(s, es[0]) && AbstractGene(s) == g;
        assert es[0] in es;
      }
      if g in GenesOf(es[1..]) {
        var c, s :| c in es[1..] && Valid(s) && IsSubtree(s, c) && AbstractGene(s) == g;
        assert c in es;
      }
      if exists c, s :: c in es && Valid(s) && IsSubtree(s, c) && AbstractGene(s) == g {
        var c, s :| c in es && Valid(s) && IsSubtree(s, c) && AbstractGene(s) == g;
        assert c == es[0] || c in es[1..];
      }
    }
  }

  /** The genes already looked at are not forbidden, and with those on the stack they are the genes of the tree. */
  ghost predicate Cleared(e: Expr, stack: seq<Expr>, seen: multiset<string>, forbidden: set<string>)
    requires Valid(e)
  {
    && (forall c | c in stack :: Valid(c))
    && seen + GenesOf(stack) == Genes(e)
    && forall g | g in seen :: g !in forbidden
  }

  lemma ClearedStep(e: Expr, stack: seq<Expr>, seen: multiset<string>, forbidden: set<string>)
    requires Valid(e) && Cleared(e, stack, seen, forbidden) && stack != []
    ensures Valid(stack[|stack| - 1])
    ensures var node, rest := stack[|stack| - 1], stack[..|stack| - 1];
      && AbstractGene(node) in Genes(e)
      && ComplexitySum(rest + node.children) < ComplexitySum(stack)
      && (AbstractGene(node) !in forbidden ==> Cleared(e, rest + node.children, seen + multiset{AbstractGene(node)}, forbidden))
  {
    var node, rest := stack[|stack| - 1], stack[..|stack| - 1];
    PopPush(stack);
    ChildrenValid(node);
    assert forall c | c in rest :: c in stack;
    hide AbstractGene, Genes, GenesOf, ComplexitySum, FactorDsl.Validate;
    MoveOne(seen, AbstractGene(node), GenesOf(rest + node.children));
  }

  lemma ChildrenValid(e: Expr)
    requires Valid(e)
    ensures forall c | c in e.children :: Valid(c)
  {
  }

  lemma MoveOne(seen: multiset<string>, g: string, rest: multiset<string>)
    ensures seen + (multiset{g} + rest) == (seen + multiset{g}) + rest
    ensures g in seen + (multiset{g} + rest)
  {
  }

  lemma ClearedStart(e: Expr, forbidden: set<string>)
    requires Valid(e)
    ensures Cleared(e, [e], multiset{}, forbidden)
  {
    assert GenesOf([e]) == Genes(e);
  }

  lemma ClearedEnd(e: Expr, seen: multiset<string>, forbidden: set<string>)
    requires Valid(e) && Cleared(e, [], seen, forbidden)
    ensures forall g | g in Genes(e) :: g !in forbidden
  {
  }

  /** `violates_fsa`: true exactly when some subtree's gene is forbidden. */
  method ViolatesFsa(e: Expr, forbidden: set<string>) returns (found: bool)
    requires Valid(e)
    ensures found <==> exists g :: g in Genes(e) && g in forbidden
  {
    if forbidden == {} {
      return false;
    }
    var stack := [e];
    ghost var seen: multiset<string> := multiset{};
    ClearedStart(e, forbidden);
    hide Cleared, Genes, GenesOf, AbstractGene, FactorDsl.Validate;
    while stack != []
      invariant Cleared(e, stack, seen, forbidden)
      decreases ComplexitySum(stack)
    {
      ClearedStep(e, stack, seen, forbidden);
      var node := stack[|stack| - 1];
      stack := stack[..|stack| - 1];
      if AbstractGene(node) in forbidden {
        return true;
      }
      seen := seen + multiset{AbstractGene(node)};
      stack := stack + node.children;
    }
    ClearedEnd(e, seen, forbidden);
    return false;
  }

  // ---------------------------------------------------------------- Jaccard similarity

  ghost function Union(a: multiset<string>, b: multiset<string>): multiset<string> {
    a + (b - a)
  }

  ghost function Jaccard(a: multiset<string>, b: multiset<string>): real {
    if |Union(a, b)| == 0 then 1.0 else |a * b| as real / |Union(a, b)| as real
  }

  ghost function SimilarityOf(a: Expr, b: Expr): real
    requires Valid(a) && Valid(b)
  {
    Jaccard(Genes(a), Genes(b))
  }

  /** `Counter | Counter` takes the larger multiplicity of each gene. */
  lemma UnionIsMax(a: multiset<string>, b: multiset<string>, g: string)
    ensures Union(a, b)[g] == if a[g] >= b[g] then a[g] else b[g]
  {
  }

  method SubtreeSimilarity(a: Expr, b: Expr) returns (s: real)
    requires Valid(a) && Valid(b)
    ensures s == SimilarityOf(a, b)
  {
    var genesA := SubtreeGenes(a);
    var genesB := SubtreeGenes(b);
    var intersection, union := |genesA * genesB|, |genesA + (genesB - genesA)|;
    if union == 0 {
      return 1.0;
    }
    s := intersection as real / union as real;
  }

  lemma MultisetSize(a: multiset<string>, b: multiset<string>)
    requires a <= b
    ensures |a| <= |b| && (|a| == |b| ==> a == b)
  {
    assert b == a + (b - a);
    if |a| == |b| {
      assert |b - a| == 0;
      assert b - a == multiset{};
    }
  }

  lemma UnionSymmetric(a: multiset<string>, b: multiset<string>)
    ensures Union(a, b) == Union(b, a) && a * b == b * a
  {
  }

  /** The common part is no larger than the union, and as large exactly for equal multisets. */
  lemma CommonPart(a: multiset<string>, b: multiset<string>)
    ensures |a * b| <= |Union(a, b)| && (|a * b| == |Union(a, b)| <==> a == b)
  {
    var u := Union(a, b);
    assert a * b <= a <= u && a * b <= b <= u;
    MultisetSize(a * b, u);
    if |a * b| == |u| {
      assert a == a * b == b;
    }
    if a == b {
      assert a * b == a && u == a;
    }
  }

  lemma JaccardLaws(a: multiset<string>, b: multiset<string>)
    ensures Jaccard(a, b) == Jaccard(b, a)
    ensures 0.0 <= Jaccard(a, b) <= 1.0
    ensures Jaccard(a, b) == 1.0 <==> a == b
  {
    UnionSymmetric(a, b);
    CommonPart(a, b);
    hide Union;
    if |Union(a, b)| != 0 {
      RatioInUnit(|a * b|, |Union(a, b)|);
    }
  }

  /** The smaller and the larger multiplicity of each gene. */
  ghost predicate MinAndMax(a: multiset<string>, b: multiset<string>, shared: multiset<string>, all: multiset<string>) {
    && (forall g :: shared[g] == if a[g] <= b[g] then a[g] else b[g])
    && (forall g :: all[g] == if a[g] <= b[g] then b[g] else a[g])
  }

  lemma MinAndMaxAre(a: multiset<string>, b: multiset<string>, shared: multiset<string>, all: multiset<string>)
    requires MinAndMax(a, b, shared, all)
    ensures shared == a * b && all == Union(a, b)
  {
  }

  /** s is the share i has of u. */
  predicate IsShare(s: real, i: nat, u: nat) {
    u > 0 && s * u as real == i as real
  }

  lemma QuotientIsShare(i: nat, u: nat)
    requires u > 0
    ensures IsShare(i as real / u as real, i, u)
  {
  }

  lemma JaccardIs(a: multiset<string>, b: multiset<string>)
    requires |a| > 0
    ensures IsShare(Jaccard(a, b), |a * b|, |Union(a, b)|)
  {
    MultisetSize(a, Union(a, b));
    hide Union, IsShare;
    QuotientIsShare(|a * b|, |Union(a, b)|);
  }

  /** The similarity is the share that the genes two trees have in common, each as often as the tree that has it less often
      does, have of all their genes, each as often as the tree that has it more often does. */
  lemma SimilarityIs(a: Expr, b: Expr, shared: multiset<string>, all: multiset<string>)
    requires Valid(a) && Valid(b) && MinAndMax(Genes(a), Genes(b), shared, all)
    ensures IsShare(SimilarityOf(a, b), |shared|, |all|)
  {
    hide Genes, Union, Jaccard, MinAndMax, IsShare, FactorDsl.Validate;
    MinAndMaxAre(Genes(a), Genes(b), shared, all);
    GeneCount(a);
    JaccardIs(Genes(a), Genes(b));
  }

  lemma LargerProduct(q: real, b: real)
    requires q > 1.0 && b > 0.0
    ensures q * b > b
  {
  }

  lemma RatioInUnit(i: nat, u: nat)
    requires i <= u && u > 0
    ensures 0.0 <= i as real / u as real <= 1.0
    ensures i as real / u as real == 1.0 <==> i == u
  {
    var a, b := i as real, u as real;
    var q := a / b;
    assert q * b == a;
    if q > 1.0 {
      LargerProduct(q, b);
    }
    if q < 0.0 {
      NegativeProduct(b, q);
    }
    if q == 1.0 {
      assert a == b;
    }
    if i == u {
      assert q * b == b;
    }
  }

  // ---------------------------------------------------------------- similarity one

  lemma {:induction false} SubtreeSmaller(s: Expr, e: Expr)
    requires IsSubtree(s, e)
    ensures Complexity(s) <= Complexity(e) && (Complexity(s) == Complexity(e) ==> s == e)
    decreases e
  {
    if s != e {
      var i :| 0 <= i < |e.children| && IsSubtree(s, e.children[i]);
      SubtreeSmaller(s, e.children[i]);
      ComplexityOfChild(e.children, i);
    }
  }

  lemma {:induction false} SameTreeSameGenes(a: Expr, b: Expr)
    requires Valid(a) && Valid(b) && SameTree(a, b, false)
    ensures Genes(a) == Genes(b)
    decreases a, 1
  {
    GeneInjective(a, b);
    SameTreesSameGenes(a.children, b.children);
  }

  lemma {:induction false} SameTreesSameGenes(a: seq<Expr>, b: seq<Expr>)
    requires |a| == |b| && (forall c | c in a :: Valid(c)) && (forall c | c in b :: Valid(c))
    requires forall i | 0 <= i < |a| :: SameTree(a[i], b[i], false)
    ensures GenesOf(a) == GenesOf(b)
    decreases a, 0
  {
    if a != [] {
      SameTreeSameGenes(a[0], b[0]);
      SameTreesSameGenes(a[1..], b[1..]);
    }
  }

  lemma {:induction false} SameTreeSameSize(a: Expr, b: Expr)
    requires Valid(a) && Valid(b) && SameTree(a, b, false)
    ensures Complexity(a) == Complexity(b)
  {
    SameTreeSameGenes(a, b);
    GeneCount(a);
    GeneCount(b);
  }

  /** Equal gene multisets come from trees equal up to windows: the root's gene can only sit at the root. */
  lemma SameGenesSameTree(a: Expr, b: Expr)
    requires Valid(a) && Valid(b)
    ensures Genes(a) == Genes(b) <==> SameTree(a, b, false)
  {
    if Genes(a) == Genes(b) {
      GeneCount(a);
      GeneCount(b);
      GeneOfSubtree(b, AbstractGene(a));
      var s :| Valid(s) && IsSubtree(s, b) && AbstractGene(s) == AbstractGene(a);
      GeneInjective(s, a);
      SameTreeSameSize(s, a);
      SubtreeSmaller(s, b);
      GeneInjective(a, b);
    }
    if SameTree(a, b, false) {
      SameTreeSameGenes(a, b);
    }
  }

  /** Similarity is symmetric, lies in [0, 1], and is 1 exactly for trees equal up to window values. */
  lemma SimilarityLaws(a: Expr, b: Expr)
    requires Valid(a) && Valid(b)
    ensures SimilarityOf(a, b) == SimilarityOf(b, a)
    ensures 0.0 <= SimilarityOf(a, b) <= 1.0
    ensures SimilarityOf(a, b) == 1.0 <==> SameTree(a, b, false)
  {
    JaccardLaws(Genes(a), Genes(b));
    SameGenesSameTree(a, b);
  }
}
