/** The factor zoo: deduplicating store, exact index, failure counts and append-only journal. */
module AlphaZoo {

  import opened Basics
  import opened FactorDsl
  import opened Formula
  import opened Similarity
  import opened TopSelection

  datatype Record = FactorRecord(entry: ZooEntry) | FailureRecord(mode: string, formula: string)

  /** The tree an entry stores, once parsed. */
  function TreeOf(intOf: string -> Option<int>, entry: ZooEntry): Expr
    requires Parses(intOf, entry)
  {
    ParseExpr(intOf, entry.tree).expr
  }

  predicate Parses(intOf: string -> Option<int>, entry: ZooEntry) {
    ParseExpr(intOf, entry.tree).Ok?
  }

  /** The stored tree parses and its formula is the stored formula. */
  predicate Consistent(intOf: string -> Option<int>, entry: ZooEntry) {
    Parses(intOf, entry) && (ParseSound(intOf, entry.tree); ToFormula(TreeOf(intOf, entry)) == entry.formula)
  }

  lemma StoredTree(intOf: string -> Option<int>, entry: ZooEntry)
    requires Consistent(intOf, entry)
    ensures Parses(intOf, entry) && Valid(TreeOf(intOf, entry)) && Canonical(TreeOf(intOf, entry))
  {
    ParseSound(intOf, entry.tree);
  }

  // ---------------------------------------------------------------- the store as a value

  /** What is in memory, and the journal behind it. */
  datatype Store = Store(entries: seq<ZooEntry>, failures: map<string, nat>, journal: seq<Record>)

  ghost predicate AllConsistent(intOf: string -> Option<int>, entries: seq<ZooEntry>) {
    forall i :: 0 <= i < |entries| ==> Consistent(intOf, entries[i])
  }

  /** A stored entry clashes with the candidate: same formula, or similarity at or over the threshold. */
  ghost predicate Clashes(intOf: string -> Option<int>, existing: ZooEntry, e: Expr, threshold: real)
    requires Valid(e) && Consistent(intOf, existing)
  {
    existing.formula == ToFormula(e) || SimilarityOf(e, TreeOf(intOf, existing)) >= threshold
  }

  ghost predicate Crowded(intOf: string -> Option<int>, entries: seq<ZooEntry>, e: Expr, threshold: real)
    requires Valid(e) && AllConsistent(intOf, entries)
  {
    exists i :: 0 <= i < |entries| && Clashes(intOf, entries[i], e, threshold)
  }

  /** A stored formula equals the tree's, or a stored tree is at least as similar as the threshold. */
  ghost predicate Alike(intOf: string -> Option<int>, entries: seq<ZooEntry>, e: Expr, threshold: real)
    requires Valid(e) && AllConsistent(intOf, entries)
  {
    exists i :: 0 <= i < |entries|
      && (entries[i].formula == ToFormula(e) || SimilarityOf(e, TreeOf(intOf, entries[i])) >= threshold)
  }

  lemma AlikeIsCrowded(intOf: string -> Option<int>, entries: seq<ZooEntry>, e: Expr, threshold: real)
    requires Valid(e) && AllConsistent(intOf, entries)
    ensures Crowded(intOf, entries, e, threshold) <==> Alike(intOf, entries, e, threshold)
  {
    hide SimilarityOf, ToFormula;
    if i :| 0 <= i < |entries| && Clashes(intOf, entries[i], e, threshold) {
      assert Alike(intOf, entries, e, threshold);
    }
    if Alike(intOf, entries, e, threshold) {
      var i :| 0 <= i < |entries|
        && (entries[i].formula == ToFormula(e) || SimilarityOf(e, TreeOf(intOf, entries[i])) >= threshold);
      assert Clashes(intOf, entries[i], e, threshold);
    }
  }

  ghost function Added(intOf: string -> Option<int>, s: Store, entry: ZooEntry, threshold: real): Store
    requires AllConsistent(intOf, s.entries) && Consistent(intOf, entry)
  {
    if Crowded(intOf, s.entries, TreeOf(intOf, entry), threshold) then s
    else s.(entries := s.entries + [entry], journal := s.journal + [FactorRecord(entry)])
  }

  function Bumped(failures: map<string, nat>, mode: string): map<string, nat> {
    failures[mode := (if mode in failures then failures[mode] else 0) + 1]
  }

  function Failed(s: Store, mode: string, formula: string): Store {
    s.(failures := Bumped(s.failures, mode), journal := s.journal + [FailureRecord(mode, formula)])
  }

  /** `_load`: the entries and failure counts a journal describes, line by line. */
  function Replay(journal: seq<Record>): Store {
    if journal == [] then Store([], map[], [])
    else
      var s := Replay(journal[..|journal| - 1]);
      match journal[|journal| - 1]
      case FactorRecord(entry) => Store(s.entries + [entry], s.failures, journal)
      case FailureRecord(mode, _) => Store(s.entries, Bumped(s.failures, mode), journal)
  }

  /** The later entry has another formula than the earlier one, and its tree is less similar than the threshold. */
  ghost predicate Apart(intOf: string -> Option<int>, earlier: ZooEntry, later: ZooEntry, threshold: real)
    requires Consistent(intOf, earlier) && Consistent(intOf, later)
  {
    && earlier.formula != later.formula
    && SimilarityOf(TreeOf(intOf, later), TreeOf(intOf, earlier)) < threshold
  }

  /** All formulas differ and all pairs of trees are less similar than the threshold. */
  ghost predicate Original(intOf: string -> Option<int>, entries: seq<ZooEntry>, threshold: real)
    requires AllConsistent(intOf, entries)
  {
    forall i, j :: 0 <= i < j < |entries| ==> Apart(intOf, entries[i], entries[j], threshold)
  }

  /** The representation invariant: memory is the replay of the records in the journal, and the entries are original. How the
      records come back from the file is the subject of ZooJournal. */
  ghost predicate Sound(intOf: string -> Option<int>, s: Store, threshold: real) {
    s == Replay(s.journal) && AllConsistent(intOf, s.entries) && Original(intOf, s.entries, threshold)
  }

  lemma ReplayAppend(journal: seq<Record>, r: Record)
    ensures Replay(journal + [r]) ==
      var s := Replay(journal);
      match r
      case FactorRecord(entry) => Store(s.entries + [entry], s.failures, journal + [r])
      case FailureRecord(mode, _) => Store(s.entries, Bumped(s.failures, mode), journal + [r])
  {
    assert (journal + [r])[..|journal|] == journal;
  }

  lemma ApartFromStored(intOf: string -> Option<int>, entries: seq<ZooEntry>, entry: ZooEntry, threshold: real, i: nat)
    requires AllConsistent(intOf, entries) && Consistent(intOf, entry) && i < |entries|
    requires Valid(TreeOf(intOf, entry)) && !Crowded(intOf, entries, TreeOf(intOf, entry), threshold)
    ensures Apart(intOf, entries[i], entry, threshold)
  {
    assert !Clashes(intOf, entries[i], TreeOf(intOf, entry), threshold);
  }

  lemma OriginalAppend(intOf: string -> Option<int>, entries: seq<ZooEntry>, entry: ZooEntry, threshold: real)
    requires AllConsistent(intOf, entries) && Original(intOf, entries, threshold) && Consistent(intOf, entry)
    requires Valid(TreeOf(intOf, entry)) && !Crowded(intOf, entries, TreeOf(intOf, entry), threshold)
    ensures AllConsistent(intOf, entries + [entry]) && Original(intOf, entries + [entry], threshold)
  {
    hide Consistent, Apart, Crowded, TreeOf, FactorDsl.Validate;
    var all := entries + [entry];
    forall i, j | 0 <= i < j < |all| ensures Apart(intOf, all[i], all[j], threshold) {
      if j == |entries| {
        ApartFromStored(intOf, entries, entry, threshold, i);
      }
    }
  }

  lemma AddedSound(intOf: string -> Option<int>, s: Store, entry: ZooEntry, threshold: real)
    requires Sound(intOf, s, threshold) && Consistent(intOf, entry)
    ensures Sound(intOf, Added(intOf, s, entry, threshold), threshold)
  {
    StoredTree(intOf, entry);
    if !Crowded(intOf, s.entries, TreeOf(intOf, entry), threshold) {
      ReplayAppend(s.journal, FactorRecord(entry));
      OriginalAppend(intOf, s.entries, entry, threshold);
      hide Original, AllConsistent, Replay, Crowded, Consistent;
    }
  }

  lemma FailedSound(intOf: string -> Option<int>, s: Store, mode: string, formula: string, threshold: real)
    requires Sound(intOf, s, threshold)
    ensures Sound(intOf, Failed(s, mode, formula), threshold)
  {
    ReplayAppend(s.journal, FailureRecord(mode, formula));
  }

  // ---------------------------------------------------------------- runs

  datatype Operation = AddEntry(entry: ZooEntry) | RecordFailure(mode: string, formula: string)

  ghost predicate OperationOk(intOf: string -> Option<int>, op: Operation) {
    op.AddEntry? ==> Consistent(intOf, op.entry)
  }

  ghost function Step(intOf: string -> Option<int>, s: Store, op: Operation, threshold: real): Store
    requires AllConsistent(intOf, s.entries) && OperationOk(intOf, op)
  {
    match op
    case AddEntry(entry) => Added(intOf, s, entry, threshold)
    case RecordFailure(mode, formula) => Failed(s, mode, formula)
  }

  lemma StepConsistent(intOf: string -> Option<int>, s: Store, op: Operation, threshold: real)
    requires AllConsistent(intOf, s.entries) && OperationOk(intOf, op)
    ensures AllConsistent(intOf, Step(intOf, s, op, threshold).entries)
  {
  }

  ghost function Run(intOf: string -> Option<int>, s: Store, ops: seq<Operation>, threshold: real): (r: Store)
    requires AllConsistent(intOf, s.entries) && forall op :: op in ops ==> OperationOk(intOf, op)
    ensures AllConsistent(intOf, r.entries)
    decreases |ops|
  {
    if ops == [] then s
    else
      StepConsistent(intOf, s, ops[0], threshold);
      Run(intOf, Step(intOf, s, ops[0], threshold), ops[1..], threshold)
  }

  /** Whatever is added or recorded, in any order: the records replay to memory and no two entries are alike. */
  lemma {:induction false} RunSound(intOf: string -> Option<int>, s: Store, ops: seq<Operation>, threshold: real)
    requires Sound(intOf, s, threshold) && forall op :: op in ops ==> OperationOk(intOf, op)
    ensures Sound(intOf, Run(intOf, s, ops, threshold), threshold)
    decreases |ops|
  {
    if ops != [] {
      assert OperationOk(intOf, ops[0]);
      match ops[0] {
        case AddEntry(entry) => AddedSound(intOf, s, entry, threshold);
        case RecordFailure(mode, formula) => FailedSound(intOf, s, mode, formula, threshold);
      }
      RunSound(intOf, Step(intOf, s, ops[0], threshold), ops[1..], threshold);
    }
  }

  /** The best of a sound zoo do not depend on the order in which its entries came in. */
  lemma TopKOrderless(intOf: string -> Option<int>, s: Store, threshold: real, other: seq<ZooEntry>, k: int, cap: Option<int>)
    requires Sound(intOf, s, threshold) && multiset(other) == multiset(s.entries)
    ensures TopKOf(s.entries, k, cap) == TopKOf(other, k, cap)
  {
    assert DistinctFormulas(s.entries) by {
      forall i, j | 0 <= i < j < |s.entries| ensures s.entries[i].formula != s.entries[j].formula {
        assert Apart(intOf, s.entries[i], s.entries[j], threshold);
      }
    }
    OrderDoesNotMatter(s.entries, other, k, cap);
  }

  /** How often a failure mode has been counted, and how many failure records name it. */
  function CountOf(failures: map<string, nat>, mode: string): nat {
    if mode in failures then failures[mode] else 0
  }

  function RecordsOf(journal: seq<Record>, mode: string): nat {
    if journal == [] then 0
    else
      var last := journal[|journal| - 1];
      RecordsOf(journal[..|journal| - 1], mode) + if last.FailureRecord? && last.mode == mode then 1 else 0
  }

  /** Every mode is counted once for each failure record that names it. */
  lemma {:induction false} FailuresCounted(journal: seq<Record>, mode: string)
    ensures CountOf(Replay(journal).failures, mode) == RecordsOf(journal, mode)
  {
    if journal != [] {
      FailuresCounted(journal[..|journal| - 1], mode);
    }
  }

  // ---------------------------------------------------------------- the mutable zoo

  function FormulasOf(entries: seq<ZooEntry>): set<string> {
    set i | 0 <= i < |entries| :: entries[i].formula
  }

  class Zoo {
    const intOf: string -> Option<int>
    var entries: seq<ZooEntry>
    var formulas: set<string>
    var failures: map<string, nat>
    var journal: seq<Record>

    ghost function State(): Store
      reads this
    {
      Store(entries, failures, journal)
    }

    /** Memory is the replay of the journal's records, and the index is exact. */
    ghost predicate Loaded()
      reads this
    {
      formulas == FormulasOf(entries) && State() == Replay(journal)
    }

    ghost predicate Valid()
      reads this
    {
      AllConsistent(intOf, entries) && Loaded()
    }

    /** Hydrates the zoo from the records of a journal, one by one. */
    constructor (intOf: string -> Option<int>, lines: seq<Record>)
      ensures Loaded() && this.intOf == intOf && State() == Replay(lines)
      ensures AllConsistent(intOf, Replay(lines).entries) ==> Valid()
    {
      this.intOf := intOf;
      entries, formulas, failures, journal := [], {}, map[], lines;
      new;
      assert lines[..0] == [];
      for i := 0 to |lines|
        invariant entries == Replay(lines[..i]).entries && failures == Replay(lines[..i]).failures
        invariant journal == lines && this.intOf == intOf
      {
        assert lines[..i + 1] == lines[..i] + [lines[i]];
        ReplayAppend(lines[..i], lines[i]);
        match lines[i] {
          case FactorRecord(entry) => entries := entries + [entry];
          case FailureRecord(mode, _) => failures := Bumped(failures, mode);
        }
      }
      assert lines[..|lines|] == lines;
      ReplayKeepsJournal(lines);
      formulas := FormulasOf(entries);
    }

    /** `is_similar`: the exact index first, then every stored tree. */
    method IsSimilar(e: Expr, threshold: real) returns (similar: bool)
      requires Valid() && FactorDsl.Valid(e)
      ensures similar <==> Crowded(intOf, entries, e, threshold)
    {
      hide FactorDsl.Validate, ToFormula, ParseExpr, SimilarityOf, Replay;
      var formula := ToFormula(e);
      if formula in formulas {
        var i :| 0 <= i < |entries| && entries[i].formula == formula;
        assert Clashes(intOf, entries[i], e, threshold);
        return true;
      }
      for i := 0 to |entries|
        invariant forall j :: 0 <= j < i ==> !Clashes(intOf, entries[j], e, threshold)
      {
        assert entries[i].formula in formulas;
        StoredTree(intOf, entries[i]);
        var s := SubtreeSimilarity(e, ParseExpr(intOf, entries[i].tree).expr);
        assert Clashes(intOf, entries[i], e, threshold) <==> s >= threshold;
        if s >= threshold {
          return true;
        }
      }
      return false;
    }

    /** `add`: stores and journals the entry unless it is crowded out. */
    method Add(entry: ZooEntry, threshold: real) returns (added: bool)
      requires Valid() && Consistent(intOf, entry)
      modifies this
      ensures Valid() && State() == Added(intOf, old(State()), entry, threshold)
      ensures added <==> !Crowded(intOf, old(entries), TreeOf(intOf, entry), threshold)
      ensures added <==> !Alike(intOf, old(entries), TreeOf(intOf, entry), threshold)
    {
      hide Alike;
      var candidate := ParseExpr(intOf, entry.tree).expr;
      AlikeIsCrowded(intOf, entries, candidate, threshold);
      var similar := IsSimilar(candidate, threshold);
      if similar {
        return false;
      }
      ReplayAppend(journal, FactorRecord(entry));
      FormulasAppend(entries, entry);
      entries := entries + [entry];
      formulas := formulas + {entry.formula};
      journal := journal + [FactorRecord(entry)];
      added := true;
    }

    method RecordFailure(formula: string, mode: string)
      requires Valid()
      modifies this
      ensures Valid() && State() == Failed(old(State()), mode, formula)
    {
      ReplayAppend(journal, FailureRecord(mode, formula));
      failures := Bumped(failures, mode);
      journal := journal + [FailureRecord(mode, formula)];
    }
  }

  lemma FormulasAppend(entries: seq<ZooEntry>, entry: ZooEntry)
    ensures FormulasOf(entries + [entry]) == FormulasOf(entries) + {entry.formula}
  {
    var all := entries + [entry];
    forall f ensures f in FormulasOf(all) <==> f in FormulasOf(entries) || f == entry.formula {
      if f in FormulasOf(entries) {
        var i :| 0 <= i < |entries| && entries[i].formula == f;
        assert all[i].formula == f;
      }
      if f == entry.formula {
        assert all[|entries|].formula == f;
      }
    }
  }

  lemma {:induction false} ReplayKeepsJournal(journal: seq<Record>)
    ensures Replay(journal).journal == journal
  {
  }
}
