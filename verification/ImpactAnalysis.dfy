/** Impact analysis: inverting the import graph, the worklist over it, and the tests it selects. */
module ImpactAnalysis {

  import opened Basics
  import opened Graphs

  /** `dependents` lists, for every imported module, exactly the modules that import it. */
  ghost predicate IsReverse(deps: Graph, dependents: Graph) {
    forall a, b :: a in Successors(dependents, b) <==> b in Successors(deps, a)
  }

  method ReverseDependencies(deps: Graph) returns (dependents: Graph)
    ensures IsReverse(deps, dependents)
    ensures forall b :: b in dependents ==> dependents[b] != {}
  {
    dependents := map[];
    var modules := deps.Keys;
    while modules != {}
      invariant modules <= deps.Keys
      invariant forall a, b :: a in Successors(dependents, b) <==> a !in modules && b in Successors(deps, a)
      invariant forall b :: b in dependents ==> dependents[b] != {}
      decreases modules
    {
      var m :| m in modules;
      var imports := deps[m];
      while imports != {}
        invariant imports <= deps[m]
        invariant forall a, b :: a in Successors(dependents, b) <==>
          b in Successors(deps, a) && (a !in modules || (a == m && b !in imports))
        invariant forall b :: b in dependents ==> dependents[b] != {}
        decreases imports
      {
        var imported :| imported in imports;
        ghost var before := dependents;
        dependents := dependents[imported := Successors(dependents, imported) + {m}];
        imports := imports - {imported};
        assert forall b :: Successors(dependents, b) == Successors(before, b) + if b == imported then {m} else {};
      }
      modules := modules - {m};
    }
  }

  lemma {:induction false} PathAppend(g: Graph, p: seq<Node>, z: Node)
    requires IsPath(g, p) && z in Successors(g, p[|p| - 1])
    ensures IsPath(g, p + [z])
  {
    PathConcat(g, p, [p[|p| - 1], z]);
    assert [p[|p| - 1], z][1..] == [z];
  }

  lemma {:induction false} PathReversed(g: Graph, h: Graph, p: seq<Node>)
    requires IsReverse(g, h) && IsPath(g, p)
    ensures IsPath(h, Reversed(p))
    ensures Reversed(p)[0] == p[|p| - 1] && Reversed(p)[|p| - 1] == p[0]
  {
    if |p| == 1 {
      assert Reversed(p) == Reversed(p[1..]) + [p[0]];
    } else {
      PathReversed(g, h, p[1..]);
      PathAppend(h, Reversed(p[1..]), p[0]);
    }
  }

  /** Following the inverted graph forwards is following the imports backwards. */
  lemma ReverseReaches(deps: Graph, dependents: Graph, x: Node, m: Node)
    requires IsReverse(deps, dependents)
    ensures ReachesByEdges(dependents, m, x) <==> ReachesByEdges(deps, x, m)
  {
    if ReachesByEdges(dependents, m, x) {
      var p :| IsPathFromTo(dependents, p, m, x) && |p| >= 2;
      PathReversed(dependents, deps, p);
      assert IsPathFromTo(deps, Reversed(p), x, m);
    }
    if ReachesByEdges(deps, x, m) {
      var p :| IsPathFromTo(deps, p, x, m) && |p| >= 2;
      PathReversed(deps, dependents, p);
      assert IsPathFromTo(dependents, Reversed(p), m, x);
    }
  }

  /** Anything containing the direct successors of m and closed under edges contains all that m reaches by an edge or more. */
  lemma ClosedUnderEdges(g: Graph, c: set<Node>, m: Node, x: Node)
    requires Successors(g, m) <= c && Closed(g, c) && ReachesByEdges(g, m, x)
    ensures x in c
  {
    var p :| IsPathFromTo(g, p, m, x) && |p| >= 2;
    ClosedPath(g, c, p[1..]);
  }

  /** `list(s)`: the elements of a set in some order. */
  method ListOf(s: set<Node>) returns (l: seq<Node>)
    ensures forall x :: x in l <==> x in s
  {
    l := [];
    var rest := s;
    while rest != {}
      invariant rest <= s && forall x :: x in l <==> x in s && x !in rest
      decreases rest
    {
      var x :| x in rest;
      l, rest := l + [x], rest - {x};
    }
  }

  function Vertices(g: Graph): set<Node> {
    set v, w | v in g && w in g[v] :: w
  }

  lemma FirstEdge(g: Graph, m: Node, x: Node)
    requires x in Successors(g, m)
    ensures ReachesByEdges(g, m, x)
  {
    ReachesSelf(g, m);
    ReachesStep(g, m, m, x);
  }

  lemma NextEdge(g: Graph, m: Node, v: Node, x: Node)
    requires ReachesByEdges(g, m, v) && x in Successors(g, v)
    ensures ReachesByEdges(g, m, x)
  {
    ReachesStep(g, m, v, x);
  }

  /** The worklist visits exactly the modules that import `m`, directly or through others; the queue may hold duplicates. */
  method TransitiveDependents(m: Node, dependents: Graph) returns (visited: set<Node>)
    ensures forall x :: x in visited <==> ReachesByEdges(dependents, m, x)
  {
    hide ReachesByEdges;
    visited := {};
    var queue := ListOf(Successors(dependents, m));
    forall x | x in queue ensures ReachesByEdges(dependents, m, x) {
      FirstEdge(dependents, m, x);
    }
    assert forall x :: x in queue ==> x in Vertices(dependents);
    while queue != []
      invariant visited <= Vertices(dependents) && forall x :: x in queue ==> x in Vertices(dependents)
      invariant forall x :: x in visited || x in queue ==> ReachesByEdges(dependents, m, x)
      invariant forall x :: x in Successors(dependents, m) ==> x in visited || x in queue
      invariant forall v, w :: v in visited && w in Successors(dependents, v) ==> w in visited || w in queue
      decreases Vertices(dependents) - visited, |queue|
    {
      var current := queue[|queue| - 1];
      ghost var popped := queue;
      queue := queue[..|queue| - 1];
      assert forall x :: x in popped ==> x == current || x in queue;
      if current !in visited {
        visited := visited + {current};
        var more := ListOf(Successors(dependents, current));
        forall x | x in more ensures ReachesByEdges(dependents, m, x) && x in Vertices(dependents) {
          NextEdge(dependents, m, current, x);
        }
        queue := queue + more;
      }
    }
    forall x | ReachesByEdges(dependents, m, x) ensures x in visited {
      ClosedUnderEdges(dependents, visited, m, x);
    }
  }

  // ---------------------------------------------------------------- selecting tests

  /** A modified file as the selector sees it. */
  datatype ModifiedFile =
    | NotPython(path: string)
    | TestFile(path: string)
    | SourceFile(path: string, stem: string, dotted: Option<Node>)

  /** s is what follows the last dot of the name. */
  ghost predicate EndsIn(name: string, s: string) {
    '.' !in s && (name == s || exists p :: name == p + "." + s)
  }

  /** `split('.')[-1]`. */
  function LastSegment(name: string): string {
    if name == [] then []
    else if '.' in name[1..] then LastSegment(name[1..])
    else if name[0] == '.' then name[1..] else name
  }

  lemma {:induction false} NameEndsIn(name: string)
    ensures EndsIn(name, LastSegment(name))
  {
    if name != [] {
      var rest, s := name[1..], LastSegment(name);
      if '.' in rest {
        NameEndsIn(rest);
        assert rest != s;
        var p :| rest == p + "." + s;
        assert name == ([name[0]] + p) + "." + s;
      } else if name[0] == '.' {
        assert name == "" + "." + s;
      } else {
        assert name == [name[0]] + rest;
      }
    }
  }

  /** Of two texts that differ in length, behind the same dotted name, the longer has a dot. */
  lemma LongerHasDot(name: string, p: string, s: string, s': string)
    requires name == p + "." + s && |s'| > |s| && |s'| <= |name| && name[|name| - |s'|..] == s'
    ensures '.' in s'
  {
    assert name[|p|] == '.' && |p| == |name| - |s| - 1;
    assert s'[|p| - (|name| - |s'|)] == name[|p|];
  }

  lemma EndsInSuffix(name: string, s: string)
    requires EndsIn(name, s)
    ensures |s| <= |name| && name[|name| - |s|..] == s
  {
    if name != s {
      var p :| name == p + "." + s;
    }
  }

  /** There is only one such text. */
  lemma EndsInUnique(name: string, s: string, s': string)
    requires EndsIn(name, s) && EndsIn(name, s')
    ensures s == s'
  {
    EndsInSuffix(name, s);
    EndsInSuffix(name, s');
    if |s| < |s'| && name != s {
      var p :| name == p + "." + s;
      LongerHasDot(name, p, s, s');
    }
    if |s'| < |s| && name != s' {
      var p :| name == p + "." + s';
      LongerHasDot(name, p, s', s);
    }
  }

  /** The path of a module's test in the tests directory. */
  function TestNamed(testsDir: string, stem: string): string {
    testsDir + "/test_" + stem + ".py"
  }

  /** s names the file itself or, behind its last dot, a module that imports the file's module, directly or not. */
  ghost predicate NamesTest(deps: Graph, stem: string, dotted: Option<Node>, s: string) {
    s == stem || (dotted.Some? && exists x :: ReachesByEdges(deps, x, dotted.value) && EndsIn(x, s))
  }

  /** t tests file f: an existing test in the tests directory that is named so; a test tests itself. */
  ghost predicate TestsFile(deps: Graph, testsDir: string, existing: set<string>, f: ModifiedFile, t: string) {
    match f
    case NotPython(_) => false
    case TestFile(p) => t == p
    case SourceFile(_, stem, dotted) =>
      t in existing && exists s :: NamesTest(deps, stem, dotted, s) && t == testsDir + "/test_" + s + ".py"
  }

  ghost predicate SortedPaths(paths: seq<string>) {
    forall i, j :: 0 <= i < j < |paths| ==> TextAtMost(paths[i], paths[j]) && paths[i] != paths[j]
  }

  /** Inserting a path into a sorted list of others. */
  function InsertPath(paths: seq<string>, p: string): (r: seq<string>)
    requires SortedPaths(paths) && p !in paths
    ensures SortedPaths(r) && forall x :: x in r <==> x in paths || x == p
  {
    if paths == [] then [p]
    else
      var front, last := paths[..|paths| - 1], paths[|paths| - 1];
      assert forall x :: x in paths <==> x in front || x == last;
      TextTotal(last, p);
      if TextAtMost(last, p) then
        assert forall i :: 0 <= i < |paths| ==> TextAtMost(paths[i], p) by {
          forall i | 0 <= i < |paths| ensures TextAtMost(paths[i], p) {
            if i < |paths| - 1 { TextTransitive(paths[i], last, p); }
          }
        }
        paths + [p]
      else
        var r := InsertPath(front, p);
        assert forall i :: 0 <= i < |r| ==> TextAtMost(r[i], last) && r[i] != last by {
          forall i | 0 <= i < |r| ensures TextAtMost(r[i], last) && r[i] != last {
            assert r[i] in r;
          }
        }
        r + [last]
  }

  /** `sorted(selected, key=str)`. */
  method SortPaths(selected: set<string>) returns (paths: seq<string>)
    ensures SortedPaths(paths) && forall p :: p in paths <==> p in selected
  {
    paths := [];
    var rest := selected;
    while rest != {}
      invariant rest <= selected && SortedPaths(paths) && forall p :: p in paths <==> p in selected && p !in rest
      decreases rest
    {
      var p :| p in rest;
      paths, rest := InsertPath(paths, p), rest - {p};
    }
  }

  lemma NonEmptyToo(a: seq<string>, b: seq<string>)
    requires a != [] && forall p :: p in a <==> p in b
    ensures b != []
  {
    assert a[0] in a;
  }

  /** A set of paths has one sorted list. */
  lemma {:induction false} SortedPathsUnique(a: seq<string>, b: seq<string>)
    requires SortedPaths(a) && SortedPaths(b) && forall p :: p in a <==> p in b
    ensures a == b
  {
    if a == [] {
      if b != [] {
        NonEmptyToo(b, a);
      }
    } else {
      NonEmptyToo(a, b);
      SameFirstPath(a, b);
      RestOfPaths(a, b);
      SortedPathsUnique(a[1..], b[1..]);
      assert a == [a[0]] + a[1..] && b == [b[0]] + b[1..];
    }
  }

  lemma SameFirstPath(a: seq<string>, b: seq<string>)
    requires SortedPaths(a) && SortedPaths(b) && a != [] && b != [] && forall p :: p in a <==> p in b
    ensures a[0] == b[0]
  {
    assert a[0] in a && b[0] in b;
    var i :| 0 <= i < |a| && a[i] == b[0];
    var j :| 0 <= j < |b| && b[j] == a[0];
    if i > 0 && j > 0 {
      TextAntisymmetric(a[0], b[0]);
    }
  }

  lemma RestOfPaths(a: seq<string>, b: seq<string>)
    requires SortedPaths(a) && SortedPaths(b) && a != [] && b != [] && a[0] == b[0] && forall p :: p in a <==> p in b
    ensures SortedPaths(a[1..]) && SortedPaths(b[1..]) && forall p :: p in a[1..] <==> p in b[1..]
  {
    forall p ensures p in a[1..] <==> p in a && p != a[0] {
      assert a == [a[0]] + a[1..];
    }
    forall p ensures p in b[1..] <==> p in b && p != b[0] {
      assert b == [b[0]] + b[1..];
    }
  }

  /** No test is found for the file. */
  ghost predicate Silent(deps: Graph, testsDir: string, existing: set<string>, f: ModifiedFile) {
    forall t :: !TestsFile(deps, testsDir, existing, f, t)
  }

  /** The files for which no test is found, in their order. */
  ghost function SilentFiles(deps: Graph, testsDir: string, existing: set<string>, files: seq<ModifiedFile>): seq<ModifiedFile> {
    if files == [] then []
    else
      var n := |files| - 1;
      SilentFiles(deps, testsDir, existing, files[..n])
      + if Silent(deps, testsDir, existing, files[n]) then [files[n]] else []
  }

  /** What a selection is: the tests of the files, sorted and each once, and the files without tests in their order. */
  ghost predicate Selects(deps: Graph, testsDir: string, existing: set<string>, files: seq<ModifiedFile>,
                          tests: seq<string>, warnings: seq<ModifiedFile>)
  {
    && SortedPaths(tests)
    && (forall t :: t in tests <==> exists f :: f in files && TestsFile(deps, testsDir, existing, f, t))
    && warnings == SilentFiles(deps, testsDir, existing, files)
  }

  /** Nothing about it is left open. */
  lemma SelectionIsDetermined(deps: Graph, testsDir: string, existing: set<string>, files: seq<ModifiedFile>,
                              tests: seq<string>, warnings: seq<ModifiedFile>, tests': seq<string>, warnings': seq<ModifiedFile>)
    requires Selects(deps, testsDir, existing, files, tests, warnings) && Selects(deps, testsDir, existing, files, tests', warnings')
    ensures tests == tests' && warnings == warnings'
  {
    hide TestsFile, SilentFiles;
    SortedPathsUnique(tests, tests');
  }

  /** `select_tests`: the selected paths, sorted and each once, and one warning, the file itself, per file that
      contributed nothing. */
  method SelectTests(files: seq<ModifiedFile>, deps: Graph, dependents: Graph, testsDir: string, existing: set<string>)
    returns (tests: seq<string>, warnings: seq<ModifiedFile>)
    requires IsReverse(deps, dependents)
    ensures Selects(deps, testsDir, existing, files, tests, warnings)
  {
    var selected: set<string> := {};
    warnings := [];
    for i := 0 to |files|
      invariant forall t :: t in selected <==> exists f :: f in files[..i] && TestsFile(deps, testsDir, existing, f, t)
      invariant warnings == SilentFiles(deps, testsDir, existing, files[..i])
    {
      var file := files[i];
      assert forall f :: f in files[..i + 1] <==> f in files[..i] || f == file;
      assert files[..i + 1][..i] == files[..i];
      var found := TestsOf(file, deps, dependents, testsDir, existing);
      if found == {} {
        assert Silent(deps, testsDir, existing, file);
        warnings := warnings + [file];
      } else {
        assert !Silent(deps, testsDir, existing, file) by {
          var t :| t in found;
        }
        selected := selected + found;
      }
    }
    assert files[..|files|] == files;
    tests := SortPaths(selected);
  }

  /** The existing test of a module that imports a modified file's module, directly or not, is selected, however deep the
      module lies. */
  lemma DependentSelected(deps: Graph, testsDir: string, existing: set<string>, files: seq<ModifiedFile>, tests: seq<string>,
                          warnings: seq<ModifiedFile>, f: ModifiedFile, x: Node, package: string, s: string)
    requires Selects(deps, testsDir, existing, files, tests, warnings)
    requires f in files && f.SourceFile? && f.dotted.Some? && ReachesByEdges(deps, x, f.dotted.value)
    requires '.' !in s && (x == s || x == package + "." + s) && testsDir + "/test_" + s + ".py" in existing
    ensures testsDir + "/test_" + s + ".py" in tests
  {
    hide ReachesByEdges;
    assert EndsIn(x, s);
    assert NamesTest(deps, f.stem, f.dotted, s);
    assert TestsFile(deps, testsDir, existing, f, testsDir + "/test_" + s + ".py");
  }

  /** One file's share of the selection. */
  method TestsOf(f: ModifiedFile, deps: Graph, dependents: Graph, testsDir: string, existing: set<string>) returns (found: set<string>)
    requires IsReverse(deps, dependents)
    ensures forall t :: t in found <==> TestsFile(deps, testsDir, existing, f, t)
  {
    match f
    case NotPython(_) => found := {};
    case TestFile(p) => found := {p};
    case SourceFile(_, stem, dotted) =>
      var candidates := {TestNamed(testsDir, stem)};
      if dotted.Some? {
        var impacted := TransitiveDependents(dotted.value, dependents);
        forall x ensures x in impacted <==> ReachesByEdges(deps, x, dotted.value) {
          ReverseReaches(deps, dependents, x, dotted.value);
        }
        candidates := candidates + (set x | x in impacted :: TestNamed(testsDir, LastSegment(x)));
      }
      found := candidates * existing;
      CandidatesNamed(deps, testsDir, stem, dotted, candidates);
  }

  /** The candidates are the paths of the tests named for the file. */
  lemma CandidatesNamed(deps: Graph, testsDir: string, stem: string, dotted: Option<Node>, candidates: set<string>)
    requires forall t :: t in candidates <==>
      (t == TestNamed(testsDir, stem)
       || (dotted.Some? && exists x :: ReachesByEdges(deps, x, dotted.value) && t == TestNamed(testsDir, LastSegment(x))))
    ensures forall t :: t in candidates <==> exists s :: NamesTest(deps, stem, dotted, s) && t == testsDir + "/test_" + s + ".py"
  {
    hide ReachesByEdges, LastSegment;
    forall t ensures t in candidates <==> exists s :: NamesTest(deps, stem, dotted, s) && t == testsDir + "/test_" + s + ".py" {
      if t in candidates && t != TestNamed(testsDir, stem) {
        var x :| ReachesByEdges(deps, x, dotted.value) && t == TestNamed(testsDir, LastSegment(x));
        NameEndsIn(x);
        assert NamesTest(deps, stem, dotted, LastSegment(x));
      }
      if t == TestNamed(testsDir, stem) {
        assert NamesTest(deps, stem, dotted, stem);
      }
      if s :| NamesTest(deps, stem, dotted, s) && t == testsDir + "/test_" + s + ".py" {
        if s != stem {
          var x :| ReachesByEdges(deps, x, dotted.value) && EndsIn(x, s);
          NameEndsIn(x);
          EndsInUnique(x, s, LastSegment(x));
        }
      }
    }
  }
}
