/** Incremental propagation of a file tree: a manifest-driven plan, then independent copies that may fail. */
module Propagation {

  import opened Basics

  type Path = string
  type Bytes = seq<bv8>
  type Digest = string

  /** A regular file: its bytes and modification time. Its size is the number of its bytes. */
  datatype File = File(bytes: Bytes, mtime: int)

  type Tree = map<Path, File>

  /** One line of the manifest. */
  datatype Entry = Entry(digest: Digest, size: nat, mtime: int, dstMtime: int)

  type Manifest = map<Path, Entry>

  /** What is fixed during a run: the digest, and which relative paths are in scope (not excluded, inside the destination). */
  datatype Setup = Setup(digest: Bytes -> Digest, inScope: Path -> bool)

  /** The digest tells any two contents apart. */
  ghost predicate CollisionFree(setup: Setup) {
    forall x, y :: setup.digest(x) == setup.digest(y) ==> x == y
  }

  // ---------------------------------------------------------------- the plan

  /** The source and the destination look exactly as the manifest recorded them. */
  predicate Fast(f: File, dst: Tree, previous: Manifest, p: Path) {
    && p in previous
    && previous[p].size == |f.bytes| && previous[p].mtime == f.mtime
    && p in dst && |dst[p].bytes| == |f.bytes| && dst[p].mtime == previous[p].dstMtime
  }

  /** `content_matches`: same size, then same digest. */
  predicate ContentMatches(setup: Setup, dst: Tree, p: Path, size: nat, digest: Digest) {
    p in dst && |dst[p].bytes| == size && setup.digest(dst[p].bytes) == digest
  }

  predicate Writes(setup: Setup, f: File, dst: Tree, previous: Manifest, p: Path) {
    !Fast(f, dst, previous, p) && !ContentMatches(setup, dst, p, |f.bytes|, setup.digest(f.bytes))
  }

  function EntryOf(setup: Setup, f: File, dst: Tree, previous: Manifest, p: Path): Entry {
    var write := Writes(setup, f, dst, previous, p);
    Entry(
      if Fast(f, dst, previous, p) then previous[p].digest else setup.digest(f.bytes),
      |f.bytes|, f.mtime, if write || p !in dst then f.mtime else dst[p].mtime)
  }

  /** The source paths a run looks at. */
  function Scoped(setup: Setup, src: Tree): set<Path> {
    set p | p in src && setup.inScope(p)
  }

  /** The paths whose copy is attempted. */
  function Pending(setup: Setup, src: Tree, dst: Tree, previous: Manifest): set<Path> {
    set p | p in Scoped(setup, src) && Writes(setup, src[p], dst, previous, p)
  }

  function ManifestOf(setup: Setup, src: Tree, dst: Tree, previous: Manifest): Manifest {
    map p | p in Scoped(setup, src) :: EntryOf(setup, src[p], dst, previous, p)
  }

  datatype Action = Action(path: Path, file: File, write: bool, existed: bool)

  /** The plan once every source path outside `rest` has been looked at. */
  ghost predicate Planned(setup: Setup, src: Tree, dst: Tree, previous: Manifest, rest: set<Path>, actions: seq<Action>, manifest: Manifest) {
    && manifest.Keys == Scoped(setup, src) - rest
    && (forall p :: p in manifest ==> manifest[p] == EntryOf(setup, src[p], dst, previous, p))
    && (forall i :: 0 <= i < |actions| ==> ActionFor(setup, src, dst, previous, actions[i]))
    && (forall i, j :: 0 <= i < j < |actions| ==> actions[i].path != actions[j].path)
    && PathsOf(actions) == Scoped(setup, src) - rest
  }

  lemma PlanSkip(setup: Setup, src: Tree, dst: Tree, previous: Manifest, rest: set<Path>, actions: seq<Action>, manifest: Manifest, p: Path)
    requires Planned(setup, src, dst, previous, rest, actions, manifest) && !setup.inScope(p)
    ensures Planned(setup, src, dst, previous, rest - {p}, actions, manifest)
  {
    assert Scoped(setup, src) - (rest - {p}) == Scoped(setup, src) - rest;
  }

  lemma PlanStep(setup: Setup, src: Tree, dst: Tree, previous: Manifest, rest: set<Path>, actions: seq<Action>, manifest: Manifest, p: Path)
    requires Planned(setup, src, dst, previous, rest, actions, manifest) && p in rest && p in Scoped(setup, src)
    ensures var a := Action(p, src[p], Writes(setup, src[p], dst, previous, p), p in dst);
      Planned(setup, src, dst, previous, rest - {p}, actions + [a], manifest[p := EntryOf(setup, src[p], dst, previous, p)])
  {
    hide Writes, EntryOf;
    var a := Action(p, src[p], Writes(setup, src[p], dst, previous, p), p in dst);
    assert forall i :: 0 <= i < |actions| ==> actions[i].path in PathsOf(actions);
    PathsAppend(actions, a);
    hide PathsOf, Scoped;
    assert Scoped(setup, src) - (rest - {p}) == (Scoped(setup, src) - rest) + {p};
    assert p !in PathsOf(actions);
    assert ActionFor(setup, src, dst, previous, a);
    hide ActionFor;
  }

  lemma PlanDone(setup: Setup, src: Tree, dst: Tree, previous: Manifest, actions: seq<Action>, manifest: Manifest)
    requires Planned(setup, src, dst, previous, {}, actions, manifest)
    ensures manifest == ManifestOf(setup, src, dst, previous)
    ensures forall i :: 0 <= i < |actions| ==> ActionFor(setup, src, dst, previous, actions[i])
    ensures forall i, j :: 0 <= i < j < |actions| ==> actions[i].path != actions[j].path
    ensures PathsOf(actions) == Scoped(setup, src) && |actions| == |Scoped(setup, src)|
  {
    hide ActionFor, PathsOf, EntryOf, Writes;
    assert Scoped(setup, src) - {} == Scoped(setup, src);
    PathsCount(actions);
  }

  lemma PlanStart(setup: Setup, src: Tree, dst: Tree, previous: Manifest)
    ensures Planned(setup, src, dst, previous, src.Keys, [], map[])
  {
    assert Scoped(setup, src) - src.Keys == {};
  }

  /** `_plan`: one action and one manifest entry per path in scope. */
  method Plan(setup: Setup, src: Tree, dst: Tree, previous: Manifest) returns (actions: seq<Action>, manifest: Manifest)
    ensures manifest == ManifestOf(setup, src, dst, previous)
    ensures forall i :: 0 <= i < |actions| ==> ActionFor(setup, src, dst, previous, actions[i])
    ensures forall i, j :: 0 <= i < j < |actions| ==> actions[i].path != actions[j].path
    ensures PathsOf(actions) == Scoped(setup, src) && |actions| == |Scoped(setup, src)|
  {
    PlanStart(setup, src, dst, previous);
    hide Planned, Writes, EntryOf, ActionFor, PathsOf, ManifestOf;
    actions, manifest := [], map[];
    var rest := src.Keys;
    while rest != {}
      invariant rest <= src.Keys && Planned(setup, src, dst, previous, rest, actions, manifest)
      decreases rest
    {
      var p :| p in rest;
      if setup.inScope(p) {
        PlanStep(setup, src, dst, previous, rest, actions, manifest, p);
        var file := src[p];
        manifest := manifest[p := EntryOf(setup, file, dst, previous, p)];
        actions := actions + [Action(p, file, Writes(setup, file, dst, previous, p), p in dst)];
      } else {
        PlanSkip(setup, src, dst, previous, rest, actions, manifest, p);
      }
      rest := rest - {p};
    }
    PlanDone(setup, src, dst, previous, actions, manifest);
  }

  ghost predicate ActionFor(setup: Setup, src: Tree, dst: Tree, previous: Manifest, a: Action) {
    && a.path in Scoped(setup, src) && a.file == src[a.path]
    && a.write == Writes(setup, a.file, dst, previous, a.path) && a.existed == (a.path in dst)
  }

  function PathsOf(actions: seq<Action>): set<Path> {
    set i | 0 <= i < |actions| :: actions[i].path
  }

  lemma PathsAppend(actions: seq<Action>, a: Action)
    ensures PathsOf(actions + [a]) == PathsOf(actions) + {a.path}
  {
    var all := actions + [a];
    forall p ensures p in PathsOf(all) <==> p in PathsOf(actions) || p == a.path {
      if p in PathsOf(actions) {
        var i :| 0 <= i < |actions| && actions[i].path == p;
        assert all[i].path == p;
      }
      if p == a.path { assert all[|actions|].path == p; }
    }
  }

  lemma {:induction false} PathsCount(actions: seq<Action>)
    requires forall i, j :: 0 <= i < j < |actions| ==> actions[i].path != actions[j].path
    ensures |PathsOf(actions)| == |actions|
  {
    if actions != [] {
      var front, last := actions[..|actions| - 1], actions[|actions| - 1];
      PathsCount(front);
      PathsAppend(front, last);
      assert actions == front + [last];
      assert last.path !in PathsOf(front);
    }
  }

  // ---------------------------------------------------------------- applying it

  /** The counters of a run; `skipped` is the source's `unchanged`. */
  class SyncStats {
    var scanned: nat
    var copied: nat
    var updated: nat
    var skipped: nat
    var failed: nat
    var bytesCopied: nat

    constructor (scanned: nat)
      ensures this.scanned == scanned && copied == updated == skipped == failed == bytesCopied == 0
    {
      this.scanned := scanned;
      copied, updated, skipped, failed, bytesCopied := 0, 0, 0, 0, 0;
    }

    /** Every scanned file is counted in exactly one of the other four. */
    ghost predicate Balanced()
      reads this
    {
      scanned == skipped + copied + updated + failed
    }
  }

  /** The destination once exactly the paths in `written` have been replaced by their source files, time included. */
  function Written(src: Tree, dst: Tree, written: set<Path>): Tree
    requires written <= src.Keys
  {
    map p | p in dst.Keys + written :: if p in written then src[p] else dst[p]
  }

  /** The paths a list of actions wants written. */
  function WritePaths(actions: seq<Action>): set<Path> {
    set i | 0 <= i < |actions| && actions[i].write :: actions[i].path
  }

  /** The sizes of those actions whose path has been written. */
  function BytesOf(actions: seq<Action>, written: set<Path>): nat {
    if actions == [] then 0
    else
      var last := actions[|actions| - 1];
      BytesOf(actions[..|actions| - 1], written) + if last.path in written then |last.file.bytes| else 0
  }

  lemma {:induction false} BytesAdd(actions: seq<Action>, written: set<Path>, at: nat)
    requires at < |actions| && actions[at].path !in written
    requires forall i, j :: 0 <= i < j < |actions| ==> actions[i].path != actions[j].path
    ensures BytesOf(actions, written + {actions[at].path}) == BytesOf(actions, written) + |actions[at].file.bytes|
  {
    var front := actions[..|actions| - 1];
    if at < |front| {
      BytesAdd(front, written, at);
    } else {
      BytesSame(front, written, actions[at].path);
    }
  }

  lemma {:induction false} BytesSame(actions: seq<Action>, written: set<Path>, p: Path)
    requires forall i :: 0 <= i < |actions| ==> actions[i].path != p
    ensures BytesOf(actions, written + {p}) == BytesOf(actions, written)
  {
    if actions != [] {
      BytesSame(actions[..|actions| - 1], written, p);
    }
  }

  lemma {:induction false} BytesNone(actions: seq<Action>)
    ensures BytesOf(actions, {}) == 0
  {
    if actions != [] {
      BytesNone(actions[..|actions| - 1]);
    }
  }

  /** Actions list distinct source files and know which of them the destination has. */
  ghost predicate ActionsOk(src: Tree, dst: Tree, actions: seq<Action>) {
    && (forall i :: 0 <= i < |actions| ==> actions[i].path in src && actions[i].file == src[actions[i].path])
    && (forall i :: 0 <= i < |actions| ==> actions[i].existed == (actions[i].path in dst))
    && (forall i, j :: 0 <= i < j < |actions| ==> actions[i].path != actions[j].path)
  }

  /** The counters of the copying loop: `rest` is still to be tried, `written` has been copied, the others failed. */
  ghost predicate Counted(wanted: set<Path>, existing: set<Path>, rest: set<Path>, written: set<Path>, failed: nat, updated: nat, copied: nat) {
    && rest + written <= wanted && written !! rest
    && failed + |written| + |rest| == |wanted|
    && updated == |written * existing| && copied == |written - existing|
  }

  /** The state of the copying loop, the destination included. */
  ghost predicate Applied(src: Tree, dst: Tree, actions: seq<Action>, rest: set<Path>, written: set<Path>,
                          after: Tree, failed: nat, updated: nat, copied: nat, bytesCopied: nat)
  {
    && Counted(WritePaths(actions), dst.Keys, rest, written, failed, updated, copied)
    && WritePaths(actions) <= src.Keys && written <= src.Keys
    && after == Written(src, dst, written)
    && bytesCopied == BytesOf(actions, written)
  }

  lemma WritePathsInSource(src: Tree, dst: Tree, actions: seq<Action>)
    requires ActionsOk(src, dst, actions)
    ensures WritePaths(actions) <= src.Keys
  {
  }

  lemma AppliedStart(src: Tree, dst: Tree, actions: seq<Action>)
    requires ActionsOk(src, dst, actions)
    ensures Applied(src, dst, actions, WritePaths(actions), {}, dst, 0, 0, 0, 0)
  {
    WritePathsInSource(src, dst, actions);
    BytesNone(actions);
    hide WritePaths, BytesOf, ActionsOk;
    assert {} * dst.Keys == {} && {} - dst.Keys == {};
  }

  lemma CountedTry(wanted: set<Path>, existing: set<Path>, rest: set<Path>, written: set<Path>, failed: nat, updated: nat, copied: nat, p: Path)
    requires Counted(wanted, existing, rest, written, failed, updated, copied) && p in rest
    ensures Counted(wanted, existing, rest - {p}, written, failed + 1, updated, copied)
    ensures Counted(wanted, existing, rest - {p}, written + {p}, failed,
                    updated + (if p in existing then 1 else 0), copied + (if p in existing then 0 else 1))
  {
    assert |rest - {p}| == |rest| - 1;
    CountWritten(written, p, existing);
    assert (rest - {p}) + (written + {p}) == rest + written;
  }

  lemma AppliedFailure(src: Tree, dst: Tree, actions: seq<Action>, rest: set<Path>, written: set<Path>,
                       after: Tree, failed: nat, updated: nat, copied: nat, bytesCopied: nat, p: Path)
    requires Applied(src, dst, actions, rest, written, after, failed, updated, copied, bytesCopied) && p in rest
    ensures Applied(src, dst, actions, rest - {p}, written, after, failed + 1, updated, copied, bytesCopied)
  {
    hide WritePaths, BytesOf, Written, Counted;
    CountedTry(WritePaths(actions), dst.Keys, rest, written, failed, updated, copied, p);
  }

  lemma WrittenAdd(src: Tree, dst: Tree, written: set<Path>, p: Path)
    requires written <= src.Keys && p in src
    ensures Written(src, dst, written + {p}) == Written(src, dst, written)[p := src[p]]
  {
  }

  lemma AppliedCopy(src: Tree, dst: Tree, actions: seq<Action>, rest: set<Path>, written: set<Path>,
                    after: Tree, failed: nat, updated: nat, copied: nat, bytesCopied: nat, at: nat, p: Path)
    requires ActionsOk(src, dst, actions) && at < |actions| && actions[at].path == p && p in rest && p in src
    requires Applied(src, dst, actions, rest, written, after, failed, updated, copied, bytesCopied)
    ensures Applied(src, dst, actions, rest - {p}, written + {p}, after[p := src[p]], failed,
                    updated + (if p in dst then 1 else 0), copied + (if p in dst then 0 else 1),
                    bytesCopied + |actions[at].file.bytes|)
  {
    hide WritePaths, BytesOf, Written;
    assert p !in written;
    BytesAdd(actions, written, at);
    hide Counted, ActionsOk;
    CountedTry(WritePaths(actions), dst.Keys, rest, written, failed, updated, copied, p);
    WrittenAdd(src, dst, written, p);
  }

  /** What the counters say once nothing is left to try. */
  lemma AppliedEnd(src: Tree, dst: Tree, actions: seq<Action>, written: set<Path>,
                   after: Tree, failed: nat, updated: nat, copied: nat, bytesCopied: nat)
    requires Applied(src, dst, actions, {}, written, after, failed, updated, copied, bytesCopied)
    ensures written <= WritePaths(actions) <= src.Keys && after == Written(src, dst, written)
    ensures failed == |WritePaths(actions)| - |written| && updated + copied == |written|
    ensures updated == |written * dst.Keys| && copied == |written - dst.Keys| && bytesCopied == BytesOf(actions, written)
  {
    SplitCount(written, dst.Keys);
  }

  lemma WriteAction(src: Tree, dst: Tree, actions: seq<Action>, p: Path)
    requires ActionsOk(src, dst, actions) && p in WritePaths(actions)
    ensures exists i :: 0 <= i < |actions| && actions[i].path == p
    ensures p in src
    ensures forall i :: 0 <= i < |actions| && actions[i].path == p ==> actions[i].file == src[p] && actions[i].existed == (p in dst)
  {
  }

  /** The loop of `_apply`: the copies finish in any order and any of them may fail. */
  method CopyPending(src: Tree, dst: Tree, actions: seq<Action>)
    returns (after: Tree, failed: nat, updated: nat, copied: nat, bytesCopied: nat, ghost written: set<Path>)
    requires ActionsOk(src, dst, actions)
    ensures Applied(src, dst, actions, {}, written, after, failed, updated, copied, bytesCopied)
    ensures failed + updated + copied == |WritePaths(actions)|
    ensures forall p :: p !in WritePaths(actions) ==> (p in after <==> p in dst) && (p in dst ==> after[p] == dst[p])
  {
    AppliedStart(src, dst, actions);
    hide Applied, ActionsOk, WritePaths, Written, BytesOf;
    failed, copied, updated, bytesCopied := 0, 0, 0, 0;
    after, written := dst, {};
    var rest := WritePaths(actions);
    while rest != {}
      invariant rest <= WritePaths(actions)
      invariant Applied(src, dst, actions, rest, written, after, failed, updated, copied, bytesCopied)
      decreases rest
    {
      var p :| p in rest;
      WriteAction(src, dst, actions, p);
      var at :| 0 <= at < |actions| && actions[at].path == p;
      if * {
        AppliedFailure(src, dst, actions, rest, written, after, failed, updated, copied, bytesCopied, p);
        failed := failed + 1;
      } else {
        AppliedCopy(src, dst, actions, rest, written, after, failed, updated, copied, bytesCopied, at, p);
        after := after[p := actions[at].file];
        if actions[at].existed {
          updated := updated + 1;
        } else {
          copied := copied + 1;
        }
        bytesCopied := bytesCopied + |actions[at].file.bytes|;
        written := written + {p};
      }
      rest := rest - {p};
    }
    AppliedEnd(src, dst, actions, written, after, failed, updated, copied, bytesCopied);
    OthersUntouched(src, dst, actions, written);
  }

  lemma OthersUntouched(src: Tree, dst: Tree, actions: seq<Action>, written: set<Path>)
    requires written <= WritePaths(actions) <= src.Keys
    ensures var after := Written(src, dst, written);
      forall p :: p !in WritePaths(actions) ==> (p in after <==> p in dst) && (p in dst ==> after[p] == dst[p])
  {
  }

  /** `_apply`: what was written, and the counters that report it. */
  method Apply(src: Tree, dst: Tree, actions: seq<Action>) returns (after: Tree, stats: SyncStats, ghost written: set<Path>)
    requires ActionsOk(src, dst, actions)
    ensures written <= WritePaths(actions) <= src.Keys && after == Written(src, dst, written)
    ensures fresh(stats) && stats.Balanced() && stats.scanned == |actions|
    ensures stats.failed == |WritePaths(actions)| - |written| && stats.skipped == |actions| - |WritePaths(actions)|
    ensures stats.updated == |written * dst.Keys| && stats.copied == |written - dst.Keys|
    ensures stats.bytesCopied == BytesOf(actions, written)
  {
    WritePathsCount(actions);
    var failed, updated, copied, bytesCopied;
    after, failed, updated, copied, bytesCopied, written := CopyPending(src, dst, actions);
    AppliedEnd(src, dst, actions, written, after, failed, updated, copied, bytesCopied);
    hide Applied, ActionsOk, WritePaths, Written, BytesOf;
    stats := new SyncStats(|actions|);
    stats.skipped, stats.failed, stats.copied, stats.updated := |actions| - |WritePaths(actions)|, failed, copied, updated;
    stats.bytesCopied := bytesCopied;
  }

  lemma CountWritten(written: set<Path>, p: Path, existing: set<Path>)
    requires p !in written
    ensures |written + {p}| == |written| + 1
    ensures |(written + {p}) * existing| == |written * existing| + if p in existing then 1 else 0
    ensures |(written + {p}) - existing| == |written - existing| + if p in existing then 0 else 1
  {
    if p in existing {
      assert (written + {p}) * existing == written * existing + {p};
      assert (written + {p}) - existing == written - existing;
    } else {
      assert (written + {p}) * existing == written * existing;
      assert (written + {p}) - existing == (written - existing) + {p};
    }
  }

  lemma SplitCount(written: set<Path>, existing: set<Path>)
    ensures |written| == |written * existing| + |written - existing|
  {
    assert written == (written * existing) + (written - existing);
  }

  lemma {:induction false} WritePathsCount(actions: seq<Action>)
    requires forall i, j :: 0 <= i < j < |actions| ==> actions[i].path != actions[j].path
    ensures |WritePaths(actions)| <= |actions| && WritePaths(actions) <= PathsOf(actions)
  {
    PathsCount(actions);
    SubsetSize(WritePaths(actions), PathsOf(actions));
  }

  lemma WritePathsArePending(setup: Setup, src: Tree, dst: Tree, previous: Manifest, actions: seq<Action>)
    requires forall i :: 0 <= i < |actions| ==> ActionFor(setup, src, dst, previous, actions[i])
    requires PathsOf(actions) == Scoped(setup, src)
    ensures WritePaths(actions) == Pending(setup, src, dst, previous)
  {
    forall p | p in Pending(setup, src, dst, previous) ensures p in WritePaths(actions) {
      assert p in PathsOf(actions);
      var i :| 0 <= i < |actions| && actions[i].path == p;
      assert ActionFor(setup, src, dst, previous, actions[i]);
    }
  }

  /** `sync_tree`: a dry run plans and touches nothing; otherwise the pending files are copied and the new manifest saved. */
  method SyncTree(setup: Setup, srcIsDir: bool, src: Tree, dst: Tree, previous: Manifest, dryRun: bool)
    returns (after: Tree, manifest: Manifest, stats: SyncStats, ghost written: set<Path>)
    ensures fresh(stats) && stats.Balanced()
    ensures !srcIsDir ==> after == dst && manifest == previous && written == {} && stats.scanned == 0
    ensures srcIsDir ==> stats.scanned == |Scoped(setup, src)|
    ensures srcIsDir ==> stats.skipped == |Scoped(setup, src)| - |Pending(setup, src, dst, previous)|
    ensures srcIsDir && dryRun ==> after == dst && manifest == previous && written == {}
    ensures srcIsDir && dryRun ==> stats.copied == |Pending(setup, src, dst, previous)|
    ensures srcIsDir && !dryRun ==> written <= Pending(setup, src, dst, previous) && after == Written(src, dst, written)
    ensures srcIsDir && !dryRun ==> manifest == ManifestOf(setup, src, dst, previous)
    ensures srcIsDir && !dryRun ==> stats.failed == |Pending(setup, src, dst, previous)| - |written|
    ensures srcIsDir && !dryRun ==> stats.updated == |written * dst.Keys| && stats.copied == |written - dst.Keys|
    ensures stats.failed == 0 && srcIsDir && !dryRun ==> written == Pending(setup, src, dst, previous)
  {
    after, manifest, written := dst, previous, {};
    if !srcIsDir {
      stats := new SyncStats(0);
      return;
    }
    var actions, planned := Plan(setup, src, dst, previous);
    PlanFits(setup, src, dst, previous, actions);
    hide ActionFor, ActionsOk, Scoped, Pending, PathsOf, WritePaths, ManifestOf, Written, BytesOf;
    if dryRun {
      stats := new SyncStats(|actions|);
      stats.skipped := |actions| - |WritePaths(actions)|;
      stats.copied := |actions| - stats.skipped;
      return;
    }
    after, stats, written := Apply(src, dst, actions);
    manifest := planned;
    if stats.failed == 0 {
      FullSubset(written, WritePaths(actions));
    }
  }

  /** A plan's actions can be applied, and write the pending paths. */
  lemma PlanFits(setup: Setup, src: Tree, dst: Tree, previous: Manifest, actions: seq<Action>)
    requires forall i :: 0 <= i < |actions| ==> ActionFor(setup, src, dst, previous, actions[i])
    requires forall i, j :: 0 <= i < j < |actions| ==> actions[i].path != actions[j].path
    requires PathsOf(actions) == Scoped(setup, src)
    ensures ActionsOk(src, dst, actions)
    ensures WritePaths(actions) == Pending(setup, src, dst, previous) && |WritePaths(actions)| <= |actions|
  {
    WritePathsArePending(setup, src, dst, previous, actions);
    WritePathsCount(actions);
    hide WritePaths, Pending, PathsOf, Writes;
  }

  lemma FullSubset(a: set<Path>, b: set<Path>)
    requires a <= b && |a| == |b|
    ensures a == b
  {
    assert b == a + (b - a);
    assert |b - a| == 0;
  }

  // ---------------------------------------------------------------- why skipping is safe

  /** Stamps are honest: at one path, a size and a time go with one content, in the source and in the destination alike. */
  ghost predicate Honest(tree: Tree, content: (Path, nat, int) -> Bytes) {
    forall p :: p in tree ==> tree[p].bytes == content(p, |tree[p].bytes|, tree[p].mtime)
  }

  /** Each manifest line pairs a source stamp and a destination stamp of equal content. */
  ghost predicate ManifestSound(m: Manifest, content: (Path, nat, int) -> Bytes) {
    forall p :: p in m ==> content(p, m[p].size, m[p].mtime) == content(p, m[p].size, m[p].dstMtime)
  }

  /** A file the plan leaves alone already has the source's content. */
  lemma SkippedEqual(setup: Setup, src: Tree, dst: Tree, previous: Manifest, content: (Path, nat, int) -> Bytes, p: Path)
    requires CollisionFree(setup) && Honest(src, content) && Honest(dst, content) && ManifestSound(previous, content)
    requires p in Scoped(setup, src) && p !in Pending(setup, src, dst, previous)
    ensures p in dst && dst[p].bytes == src[p].bytes
  {
    assert !Writes(setup, src[p], dst, previous, p);
  }

  /** Convergence: with no failed write every file in scope ends up equal, and nothing else in the destination changes. */
  lemma Converges(setup: Setup, src: Tree, dst: Tree, previous: Manifest, content: (Path, nat, int) -> Bytes)
    requires CollisionFree(setup) && Honest(src, content) && Honest(dst, content) && ManifestSound(previous, content)
    ensures var after := Written(src, dst, Pending(setup, src, dst, previous));
      && (forall p :: p in Scoped(setup, src) ==> p in after && after[p].bytes == src[p].bytes)
      && (forall p :: p !in Scoped(setup, src) ==> (p in after <==> p in dst) && (p in dst ==> after[p] == dst[p]))
  {
    var after := Written(src, dst, Pending(setup, src, dst, previous));
    forall p | p in Scoped(setup, src) ensures p in after && after[p].bytes == src[p].bytes {
      if p !in Pending(setup, src, dst, previous) {
        SkippedEqual(setup, src, dst, previous, content, p);
      }
    }
  }

  /** The manifest a run saves is sound again, whichever of its copies failed. */
  lemma ManifestStaysSound(setup: Setup, src: Tree, dst: Tree, previous: Manifest, content: (Path, nat, int) -> Bytes)
    requires CollisionFree(setup) && Honest(src, content) && Honest(dst, content) && ManifestSound(previous, content)
    ensures ManifestSound(ManifestOf(setup, src, dst, previous), content)
  {
    var m := ManifestOf(setup, src, dst, previous);
    forall p | p in m ensures content(p, m[p].size, m[p].mtime) == content(p, m[p].size, m[p].dstMtime) {
      if p !in Pending(setup, src, dst, previous) {
        SkippedEqual(setup, src, dst, previous, content, p);
      }
    }
  }

  /** Each manifest line carries the digest of the content its source stamp stands for. */
  ghost predicate DigestsTrue(setup: Setup, m: Manifest, content: (Path, nat, int) -> Bytes) {
    forall p :: p in m ==> m[p].digest == setup.digest(content(p, m[p].size, m[p].mtime))
  }

  /** The lines a run saves carry the digest, size and time of the source files, whether they were taken over or computed. */
  lemma ManifestDescribesSource(setup: Setup, src: Tree, dst: Tree, previous: Manifest, content: (Path, nat, int) -> Bytes)
    requires Honest(src, content) && DigestsTrue(setup, previous, content)
    ensures var m := ManifestOf(setup, src, dst, previous);
      && m.Keys == (set p | p in src && setup.inScope(p))
      && (forall p :: p in m ==> m[p].digest == setup.digest(src[p].bytes) && m[p].size == |src[p].bytes| && m[p].mtime == src[p].mtime)
      && DigestsTrue(setup, m, content)
  {
  }

  lemma WrittenHonest(src: Tree, dst: Tree, written: set<Path>, content: (Path, nat, int) -> Bytes)
    requires written <= src.Keys && Honest(src, content) && Honest(dst, content)
    ensures Honest(Written(src, dst, written), content)
  {
  }

  /** The manifest after a series of runs, each from its own source and destination. */
  function ManifestAfter(setup: Setup, runs: seq<(Tree, Tree)>): Manifest {
    if runs == [] then map[]
    else
      var (src, dst) := runs[|runs| - 1];
      ManifestOf(setup, src, dst, ManifestAfter(setup, runs[..|runs| - 1]))
  }

  /** However often and between whatever honest states a tree is propagated, the manifest stays sound. */
  lemma {:induction false} RunsKeepManifestSound(setup: Setup, runs: seq<(Tree, Tree)>, content: (Path, nat, int) -> Bytes)
    requires CollisionFree(setup)
    requires forall i :: 0 <= i < |runs| ==> Honest(runs[i].0, content) && Honest(runs[i].1, content)
    ensures ManifestSound(ManifestAfter(setup, runs), content)
  {
    if runs != [] {
      var n := |runs| - 1;
      RunsKeepManifestSound(setup, runs[..n], content);
      ManifestStaysSound(setup, runs[n].0, runs[n].1, ManifestAfter(setup, runs[..n]), content);
    }
  }

  /** One run: its source, and the paths it managed to write. */
  datatype Run = Run(src: Tree, written: set<Path>)

  ghost predicate RunsOk(runs: seq<Run>, content: (Path, nat, int) -> Bytes) {
    forall i :: 0 <= i < |runs| ==> Honest(runs[i].src, content) && runs[i].written <= runs[i].src.Keys
  }

  /** Destination and manifest after consecutive runs, each on what the one before left. */
  function AfterRuns(setup: Setup, dst: Tree, runs: seq<Run>): (Tree, Manifest)
    requires forall i :: 0 <= i < |runs| ==> runs[i].written <= runs[i].src.Keys
  {
    if runs == [] then (dst, map[])
    else
      var (d, m) := AfterRuns(setup, dst, runs[..|runs| - 1]);
      var last := runs[|runs| - 1];
      (Written(last.src, d, last.written), ManifestOf(setup, last.src, d, m))
  }

  lemma {:induction false} ConsecutiveRunsSound(setup: Setup, dst: Tree, runs: seq<Run>, content: (Path, nat, int) -> Bytes)
    requires CollisionFree(setup) && Honest(dst, content) && RunsOk(runs, content)
    ensures var (d, m) := AfterRuns(setup, dst, runs); Honest(d, content) && ManifestSound(m, content) && DigestsTrue(setup, m, content)
  {
    if runs != [] {
      var front, last := runs[..|runs| - 1], runs[|runs| - 1];
      ConsecutiveRunsSound(setup, dst, front, content);
      var (d, m) := AfterRuns(setup, dst, front);
      hide Honest, ManifestSound, CollisionFree, ManifestOf, Written, DigestsTrue;
      WrittenHonest(last.src, d, last.written, content);
      ManifestStaysSound(setup, last.src, d, m, content);
      ManifestDescribesSource(setup, last.src, d, m, content);
    }
  }

  /** After any consecutive runs, with whatever changes of the source and whatever failures, one run without a failure
      makes every file in scope equal and touches nothing else. */
  lemma RunsConverge(setup: Setup, dst: Tree, runs: seq<Run>, src: Tree, content: (Path, nat, int) -> Bytes)
    requires CollisionFree(setup) && Honest(dst, content) && RunsOk(runs, content) && Honest(src, content)
    ensures var (d, m) := AfterRuns(setup, dst, runs); var after := Written(src, d, Pending(setup, src, d, m));
      && (forall p :: p in Scoped(setup, src) ==> p in after && after[p].bytes == src[p].bytes)
      && (forall p :: p !in Scoped(setup, src) ==> (p in after <==> p in d) && (p in d ==> after[p] == d[p]))
  {
    ConsecutiveRunsSound(setup, dst, runs, content);
    var (d, m) := AfterRuns(setup, dst, runs);
    hide Honest, ManifestSound, CollisionFree, Pending, Written, Scoped, AfterRuns;
    Converges(setup, src, d, m, content);
  }

  // ---------------------------------------------------------------- the second run

  /** A second run over unchanged trees takes the fast path for every file and writes nothing. */
  lemma SecondRunIdle(setup: Setup, src: Tree, dst: Tree, previous: Manifest)
    ensures var after, m := Written(src, dst, Pending(setup, src, dst, previous)), ManifestOf(setup, src, dst, previous);
      && (forall p :: p in Scoped(setup, src) ==> Fast(src[p], after, m, p))
      && Pending(setup, src, after, m) == {}
      && ManifestOf(setup, src, after, m) == m
  {
    var after, m := Written(src, dst, Pending(setup, src, dst, previous)), ManifestOf(setup, src, dst, previous);
    forall p | p in Scoped(setup, src) ensures Fast(src[p], after, m, p) {
      if p !in Pending(setup, src, dst, previous) {
        assert !Writes(setup, src[p], dst, previous, p);
      }
    }
  }

  /** Without a manifest the second run compares contents, and still writes nothing. */
  lemma SecondRunWithoutManifest(setup: Setup, src: Tree, dst: Tree)
    ensures Pending(setup, src, Written(src, dst, Pending(setup, src, dst, map[])), map[]) == {}
  {
    var pending := Pending(setup, src, dst, map[]);
    forall p | p in Scoped(setup, src) ensures !Writes(setup, src[p], Written(src, dst, pending), map[], p) {
      if p !in pending {
        assert !Writes(setup, src[p], dst, map[], p);
      }
    }
  }

  /** The destination file carries the source file's size and time. */
  predicate SameStamp(f: File, dst: Tree, p: Path) {
    p in dst && |dst[p].bytes| == |f.bytes| && dst[p].mtime == f.mtime
  }

  /** A failed write is tried again by the next run exactly when the stale file's stamp differs from the source's. */
  lemma FailedRetriedIff(setup: Setup, src: Tree, dst: Tree, previous: Manifest, written: set<Path>, p: Path)
    requires written <= Pending(setup, src, dst, previous)
    requires p in Pending(setup, src, dst, previous) && p !in written
    ensures p in Pending(setup, src, Written(src, dst, written), ManifestOf(setup, src, dst, previous))
      <==> !SameStamp(src[p], dst, p)
  {
    assert Writes(setup, src[p], dst, previous, p);
  }

  /** With honest stamps a failed write is always tried again. */
  lemma FailedAlwaysRetried(setup: Setup, src: Tree, dst: Tree, previous: Manifest, written: set<Path>, p: Path,
                            content: (Path, nat, int) -> Bytes)
    requires Honest(src, content) && Honest(dst, content)
    requires written <= Pending(setup, src, dst, previous)
    requires p in Pending(setup, src, dst, previous) && p !in written
    ensures p in Pending(setup, src, Written(src, dst, written), ManifestOf(setup, src, dst, previous))
  {
    FailedRetriedIff(setup, src, dst, previous, written, p);
    assert Writes(setup, src[p], dst, previous, p);
  }

  /** A stale file with the source's size and time, whose first overwrite fails, is skipped from then on. */
  lemma FailedWriteForgotten(setup: Setup)
    requires setup.inScope("a") && setup.digest([1]) != setup.digest([2])
    ensures var src, dst: Tree := map["a" := File([1], 7)], map["a" := File([2], 7)];
      && Pending(setup, src, dst, map[]) == {"a"}
      && Pending(setup, src, dst, ManifestOf(setup, src, dst, map[])) == {}
  {
    var src, dst: Tree := map["a" := File([1], 7)], map["a" := File([2], 7)];
    assert Writes(setup, src["a"], dst, map[], "a");
    FailedRetriedIff(setup, src, dst, map[], {}, "a");
    assert Written(src, dst, {}) == dst;
  }
}
