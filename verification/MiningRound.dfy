/** One mining round: hypotheses through generation, gates, evaluation and the zoo. */
module MiningRound {

  import opened Basics
  import opened FactorDsl
  import opened Formula
  import opened Similarity
  import opened TopSelection
  import opened AlphaZoo
  import opened MiningHooks
  import JournalText
  import ZooJournal

  const MAX_FEEDBACK := 6
  const ALIGNMENT_MIN := 0.5

  /** Why a plan was rejected. */
  datatype Reason =
    | Generation
    | TooComplex(nodes: nat)
    | Motif
    | Unoriginal
    | Misaligned(score: real)
    | BadMetrics(reasons: seq<string>)

  /** `_gate_mode`: the text before the colon, under which a failure is counted. */
  function ModeOf(r: Reason): string {
    match r
    case Generation => "generacion"
    case TooComplex(_) => "complejidad"
    case Motif => "fsa"
    case Unoriginal => "originalidad"
    case Misaligned(_) => "alineacion"
    case BadMetrics(_) => "metricas"
  }

  datatype Config = Config(maxNodes: int, forbidden: set<string>, threshold: real)

  /** What the generator is given for a plan. The position in the round is not part of the source's context; with it the
      generator may answer equal plans differently. */
  datatype Context = Context(round: int, position: nat, hypothesis: string, feedback: seq<Reason>)

  /** The injected hooks and the columns of the panel: the generator, the optional alignment score, and the evaluator,
      which is asked only about trees the panel has the columns for; intOf reads numerals. */
  datatype Hooks = Hooks(
    construct: Context -> Reply,
    align: Option<(string, string) -> real>,
    judge: Expr -> Verdict,
    intOf: string -> Option<int>,
    fields: set<Field>)

  // ---------------------------------------------------------------- what one plan does

  datatype Outcome = Accepted(entry: ZooEntry) | Rejected(formula: string, reason: Reason) | Escaped(error: Exception)

  /** Some gene of the tree is forbidden. */
  ghost predicate HasMotif(e: Expr, forbidden: set<string>)
    requires Valid(e)
  {
    exists g :: g in Genes(e) && g in forbidden
  }

  /** `_gate`: the cheap checks in their order. */
  ghost function GateOf(cfg: Config, h: Hooks, entries: seq<ZooEntry>, e: Expr, hypothesis: string): Option<Reason>
    requires Valid(e) && AllConsistent(h.intOf, entries)
  {
    if Complexity(e) > cfg.maxNodes then Some(TooComplex(Complexity(e)))
    else if HasMotif(e, cfg.forbidden) then Some(Motif)
    else if Crowded(h.intOf, entries, e, cfg.threshold) then Some(Unoriginal)
    else if h.align.Some? && h.align.value(hypothesis, ToFormula(e)) < ALIGNMENT_MIN then
      Some(Misaligned(h.align.value(hypothesis, ToFormula(e))))
    else None
  }

  ghost predicate StoreOk(h: Hooks, s: Store) {
    AllConsistent(h.intOf, s.entries)
  }

  /** `_process`: evaluation is outside the handler of ValueError, so a missing column ends the round. */
  ghost function ProcessOf(cfg: Config, h: Hooks, s: Store, c: Context): (r: (Store, Outcome))
    requires StoreOk(h, s)
    ensures StoreOk(h, r.0)
  {
    GeneratedSound(h.intOf, h.construct(c));
    match Generated(h.intOf, h.construct(c))
    case Raises(error) => (s, if error == ValueError then Rejected("", Generation) else Escaped(error))
    case Ok(e) =>
      var formula, gate := ToFormula(e), GateOf(cfg, h, s.entries, e, c.hypothesis);
      if gate.Some? then (Failed(s, ModeOf(gate.value), formula), Rejected(formula, gate.value))
      else
        match EvaluationError(h.fields, e)
        case Some(error) => (s, Escaped(error))
        case None =>
          var v := h.judge(e);
          if !v.accepted then (Failed(s, ModeOf(BadMetrics(v.reasons)), formula), Rejected(formula, BadMetrics(v.reasons)))
          else
            EntryConsistent(h.intOf, e, v, c.round);
            var entry := EntryFor(e, v, c.round);
            (Added(h.intOf, s, entry, cfg.threshold), Accepted(entry))
  }

  // ---------------------------------------------------------------- what a round does

  /** The state of a round; `escaped` once an exception has ended it. */
  datatype Round = Round(
    store: Store, feedback: seq<Reason>, accepted: seq<ZooEntry>, rejected: seq<(string, Reason)>, escaped: Option<Exception>)

  /** `self._feedback[-MAX_FEEDBACK:]`. */
  function Recent(feedback: seq<Reason>): (r: seq<Reason>)
    ensures |r| <= MAX_FEEDBACK
  {
    if |feedback| <= MAX_FEEDBACK then feedback else feedback[|feedback| - MAX_FEEDBACK..]
  }

  ghost function RoundOf(cfg: Config, h: Hooks, s: Store, feedback: seq<Reason>, plans: seq<string>, round: int): (r: Round)
    requires StoreOk(h, s)
    ensures StoreOk(h, r.store)
  {
    if plans == [] then Round(s, feedback, [], [], None)
    else
      var n := |plans| - 1;
      var r := RoundOf(cfg, h, s, feedback, plans[..n], round);
      AfterPlan(cfg, h, r, Context(round, n, plans[n], Recent(r.feedback)))
  }

  /** One more plan, unless the round has already ended. */
  ghost function AfterPlan(cfg: Config, h: Hooks, r: Round, c: Context): (r': Round)
    requires StoreOk(h, r.store)
    ensures StoreOk(h, r'.store)
  {
    if r.escaped.Some? then r
    else
      var (store, outcome) := ProcessOf(cfg, h, r.store, c);
      match outcome
      case Accepted(entry) => r.(store := store, accepted := r.accepted + [entry])
      case Rejected(formula, reason) =>
        r.(store := store, rejected := r.rejected + [(formula, reason)], feedback := Recent(r.feedback + [reason]))
      case Escaped(error) => r.(store := store, escaped := Some(error))
  }

  function FailureLines(journal: seq<Record>): nat {
    if journal == [] then 0 else FailureLines(journal[..|journal| - 1]) + if journal[|journal| - 1].FailureRecord? then 1 else 0
  }

  function Named(rejected: seq<(string, Reason)>): nat {
    if rejected == [] then 0 else Named(rejected[..|rejected| - 1]) + if rejected[|rejected| - 1].0 != "" then 1 else 0
  }

  lemma FormulaNotEmpty(e: Expr)
    requires Valid(e)
    ensures ToFormula(e) != ""
  {
    if e.op.Some? { OperatorNamesAreNames(e.op.value); }
  }

  lemma LinesAppend(journal: seq<Record>, r: Record)
    ensures FailureLines(journal + [r]) == FailureLines(journal) + if r.FailureRecord? then 1 else 0
  {
    assert (journal + [r])[..|journal|] == journal;
  }

  /** One plan accepts, rejects or escapes; the zoo and the journal grow by exactly that. */
  lemma ProcessConserves(cfg: Config, h: Hooks, s: Store, c: Context)
    requires StoreOk(h, s)
    ensures var (t, o) := ProcessOf(cfg, h, s, c);
      match o
      case Accepted(entry) => t.entries == s.entries + [entry] && FailureLines(t.journal) == FailureLines(s.journal)
      case Rejected(formula, _) => t.entries == s.entries
        && FailureLines(t.journal) == FailureLines(s.journal) + if formula != "" then 1 else 0
      case Escaped(_) => t == s
  {
    GeneratedSound(h.intOf, h.construct(c));
    match Generated(h.intOf, h.construct(c))
    case Raises(_) =>
    case Ok(e) =>
      FormulaNotEmpty(e);
      var gate, v := GateOf(cfg, h, s.entries, e, c.hypothesis), h.judge(e);
      if gate.Some? {
        LinesAppend(s.journal, FailureRecord(ModeOf(gate.value), ToFormula(e)));
      } else if !v.accepted {
        LinesAppend(s.journal, FailureRecord(ModeOf(BadMetrics(v.reasons)), ToFormula(e)));
      } else {
        EntryConsistent(h.intOf, e, v, c.round);
        LinesAppend(s.journal, FactorRecord(EntryFor(e, v, c.round)));
      }
  }

  /** The zoo has grown by the accepted entries and the journal by one failure for each rejection with a formula. */
  ghost predicate Accounted(s: Store, r: Round, plans: nat) {
    && |r.accepted| + |r.rejected| <= plans && (|r.accepted| + |r.rejected| == plans <==> r.escaped.None?)
    && r.store.entries == s.entries + r.accepted
    && FailureLines(r.store.journal) == FailureLines(s.journal) + Named(r.rejected)
  }

  lemma PlanAccounted(cfg: Config, h: Hooks, s: Store, r: Round, plans: nat, c: Context)
    requires StoreOk(h, s) && StoreOk(h, r.store) && Accounted(s, r, plans)
    ensures Accounted(s, AfterPlan(cfg, h, r, c), plans + 1)
  {
    if r.escaped.None? {
      ProcessConserves(cfg, h, r.store, c);
      var (t, o) := ProcessOf(cfg, h, r.store, c);
      hide ProcessOf, FailureLines;
      if o.Rejected? {
        assert (r.rejected + [(o.formula, o.reason)])[..|r.rejected|] == r.rejected;
      }
      if o.Accepted? {
        assert (s.entries + r.accepted) + [o.entry] == s.entries + (r.accepted + [o.entry]);
      }
    }
  }

  /** Conservation: unless an exception ends the round every plan is accepted or rejected, the zoo grows by exactly the
      accepted entries, and each rejection that has a formula leaves exactly one failure. */
  lemma {:induction false} RoundConserves(cfg: Config, h: Hooks, s: Store, feedback: seq<Reason>, plans: seq<string>, round: int)
    requires StoreOk(h, s)
    ensures Accounted(s, RoundOf(cfg, h, s, feedback, plans, round), |plans|)
  {
    if plans != [] {
      var n := |plans| - 1;
      var r := RoundOf(cfg, h, s, feedback, plans[..n], round);
      RoundConserves(cfg, h, s, feedback, plans[..n], round);
      PlanAccounted(cfg, h, s, r, n, Context(round, n, plans[n], Recent(r.feedback)));
      hide Accounted, AfterPlan, Recent, StoreOk;
    }
  }

  /** The hook scores hypothesis and formula below one half. */
  predicate Misfit(h: Hooks, hypothesis: string, formula: string) {
    h.align.Some? && h.align.value(hypothesis, formula) < 0.5
  }

  /** What becomes of a plan whose answer parses to e: the first of the conditions that holds rejects it, evaluation may
      raise, and otherwise it is accepted with the entry made of the tree and its evaluation. */
  ghost predicate Decided(cfg: Config, h: Hooks, s: Store, c: Context, e: Expr, t: Store, o: Outcome)
    requires StoreOk(h, s) && Valid(e)
  {
    var formula, nodes, v := ToFormula(e), Complexity(e), h.judge(e);
    var motif := exists g :: g in Genes(e) && g in cfg.forbidden;
    var alike := Alike(h.intOf, s.entries, e, cfg.threshold);
    var passed := nodes <= cfg.maxNodes && !motif && !alike && !Misfit(h, c.hypothesis, formula);
    && (o == Rejected(formula, TooComplex(nodes)) <==> nodes > cfg.maxNodes)
    && (o == Rejected(formula, Motif) <==> nodes <= cfg.maxNodes && motif)
    && (o == Rejected(formula, Unoriginal) <==> nodes <= cfg.maxNodes && !motif && alike)
    && (o.Rejected? && o.reason.Misaligned? <==>
        nodes <= cfg.maxNodes && !motif && !alike && Misfit(h, c.hypothesis, formula))
    && (o.Escaped? <==> passed && EvaluationError(h.fields, e).Some?)
    && (o == Rejected(formula, BadMetrics(v.reasons)) <==> passed && EvaluationError(h.fields, e).None? && !v.accepted)
    && (o.Accepted? <==> passed && EvaluationError(h.fields, e).None? && v.accepted)
    && (o.Accepted? ==>
        && o.entry == ZooEntry(formula, ToDict(e), ClassifyFamily(e), v.score, v.rankIc, c.round)
        && t.entries == s.entries + [o.entry] && t.journal == s.journal + [FactorRecord(o.entry)])
  }

  /** The alignment gate is the one half of the source. */
  lemma GateDecides(cfg: Config, h: Hooks, entries: seq<ZooEntry>, e: Expr, hypothesis: string)
    requires Valid(e) && AllConsistent(h.intOf, entries)
    ensures var g, nodes := GateOf(cfg, h, entries, e, hypothesis), Complexity(e);
      var motif := exists g :: g in Genes(e) && g in cfg.forbidden;
      var alike := Alike(h.intOf, entries, e, cfg.threshold);
      && (g == Some(TooComplex(nodes)) <==> nodes > cfg.maxNodes)
      && (g == Some(Motif) <==> nodes <= cfg.maxNodes && motif)
      && (g == Some(Unoriginal) <==> nodes <= cfg.maxNodes && !motif && alike)
      && (g.Some? && g.value.Misaligned? <==> nodes <= cfg.maxNodes && !motif && !alike && Misfit(h, hypothesis, ToFormula(e)))
      && (g.None? <==> nodes <= cfg.maxNodes && !motif && !alike && !Misfit(h, hypothesis, ToFormula(e)))
      && (g.Some? ==> !g.value.BadMetrics? && !g.value.Generation? && (g.value.TooComplex? ==> g.value.nodes == nodes))
  {
    AlikeIsCrowded(h.intOf, entries, e, cfg.threshold);
    hide Crowded, Alike, Genes, Complexity, ToFormula;
  }

  lemma GateFailure(cfg: Config, h: Hooks, s: Store, c: Context, e: Expr)
    requires StoreOk(h, s) && Generated(h.intOf, h.construct(c)) == Ok(e) && Valid(e)
    ensures var g, o := GateOf(cfg, h, s.entries, e, c.hypothesis), ProcessOf(cfg, h, s, c).1;
      && (g.Some? ==> o == Rejected(ToFormula(e), g.value))
      && (g.None? ==> o.Escaped? || o.Accepted? || (o.Rejected? && o.reason.BadMetrics?))
      && (g.None? && EvaluationError(h.fields, e).Some? <==> o.Escaped?)
      && (g.None? && EvaluationError(h.fields, e).None? && !h.judge(e).accepted ==> o == Rejected(ToFormula(e), BadMetrics(h.judge(e).reasons)))
      && (g.None? && EvaluationError(h.fields, e).None? && h.judge(e).accepted <==> o.Accepted?)
  {
    hide GateOf, EvaluationError, EntryFor, Added;
  }

  lemma AcceptedEntry(cfg: Config, h: Hooks, s: Store, c: Context, e: Expr)
    requires StoreOk(h, s) && Generated(h.intOf, h.construct(c)) == Ok(e) && Valid(e)
    requires ProcessOf(cfg, h, s, c).1.Accepted?
    ensures var (t, o) := ProcessOf(cfg, h, s, c); var v := h.judge(e);
      && o.entry == ZooEntry(ToFormula(e), ToDict(e), ClassifyFamily(e), v.score, v.rankIc, c.round)
      && t.entries == s.entries + [o.entry] && t.journal == s.journal + [FactorRecord(o.entry)]
  {
    ProcessConserves(cfg, h, s, c);
    hide GateOf, EvaluationError, FailureLines;
  }

  /** Every plan is decided so; an answer that does not parse is rejected as such or lets its exception out. */
  lemma ProcessDecides(cfg: Config, h: Hooks, s: Store, c: Context)
    requires StoreOk(h, s)
    ensures var (t, o) := ProcessOf(cfg, h, s, c);
      match Generated(h.intOf, h.construct(c))
      case Raises(error) => t == s && o == if error == ValueError then Rejected("", Generation) else Escaped(error)
      case Ok(e) => Valid(e) && Decided(cfg, h, s, c, e, t, o)
  {
    GeneratedSound(h.intOf, h.construct(c));
    match Generated(h.intOf, h.construct(c))
    case Raises(_) =>
    case Ok(e) =>
      GateDecides(cfg, h, s.entries, e, c.hypothesis);
      GateFailure(cfg, h, s, c, e);
      if ProcessOf(cfg, h, s, c).1.Accepted? {
        AcceptedEntry(cfg, h, s, c, e);
      }
      hide ProcessOf, GateOf, EvaluationError, Alike, Misfit, Complexity, ToFormula, Genes, StoreOk, FactorDsl.Validate;
  }

  /** What the gates promise of an accepted entry and the hypothesis it was made for. */
  ghost predicate AdmittedFor(cfg: Config, h: Hooks, hypothesis: string, round: int, entry: ZooEntry) {
    exists e :: Valid(e) && Canonical(e) && Complexity(e) <= cfg.maxNodes
      && (forall g :: g in Genes(e) ==> g !in cfg.forbidden)
      && (h.align.Some? ==> h.align.value(hypothesis, entry.formula) >= 0.5)
      && EvaluationError(h.fields, e).None? && h.judge(e).accepted
      && entry == ZooEntry(ToFormula(e), ToDict(e), ClassifyFamily(e), h.judge(e).score, h.judge(e).rankIc, round)
  }

  ghost predicate Admitted(cfg: Config, h: Hooks, plans: seq<string>, round: int, entry: ZooEntry) {
    exists i :: 0 <= i < |plans| && AdmittedFor(cfg, h, plans[i], round, entry)
  }

  lemma ProcessAdmits(cfg: Config, h: Hooks, s: Store, c: Context)
    requires StoreOk(h, s)
    ensures var o := ProcessOf(cfg, h, s, c).1; o.Accepted? ==> AdmittedFor(cfg, h, c.hypothesis, c.round, o.entry)
  {
    GeneratedSound(h.intOf, h.construct(c));
    ProcessDecides(cfg, h, s, c);
    hide ProcessOf, GateOf, EvaluationError, Alike, Complexity, Genes, FactorDsl.Validate, ParseExpr;
  }

  /** Every accepted entry was made for one of the plans, fits it as far as the alignment hook can tell, met the node limit,
      avoided the forbidden motifs and passed evaluation. */
  lemma {:induction false} RoundAdmits(cfg: Config, h: Hooks, s: Store, feedback: seq<Reason>, plans: seq<string>, round: int)
    requires StoreOk(h, s)
    ensures forall entry :: entry in RoundOf(cfg, h, s, feedback, plans, round).accepted ==> Admitted(cfg, h, plans, round, entry)
  {
    if plans != [] {
      var n := |plans| - 1;
      RoundAdmits(cfg, h, s, feedback, plans[..n], round);
      var r := RoundOf(cfg, h, s, feedback, plans[..n], round);
      ProcessAdmits(cfg, h, r.store, Context(round, n, plans[n], Recent(r.feedback)));
      hide AdmittedFor, ProcessOf, Recent, StoreOk;
      forall entry | Admitted(cfg, h, plans[..n], round, entry) ensures Admitted(cfg, h, plans, round, entry) {
        var i :| 0 <= i < n && AdmittedFor(cfg, h, plans[..n][i], round, entry);
        assert plans[i] == plans[..n][i];
      }
    }
  }

  lemma ProcessSound(cfg: Config, h: Hooks, s: Store, c: Context)
    requires Sound(h.intOf, s, cfg.threshold)
    ensures Sound(h.intOf, ProcessOf(cfg, h, s, c).0, cfg.threshold)
  {
    GeneratedSound(h.intOf, h.construct(c));
    match Generated(h.intOf, h.construct(c))
    case Raises(_) =>
    case Ok(e) =>
      var gate, v := GateOf(cfg, h, s.entries, e, c.hypothesis), h.judge(e);
      if gate.Some? {
        FailedSound(h.intOf, s, ModeOf(gate.value), ToFormula(e), cfg.threshold);
      } else if !v.accepted {
        FailedSound(h.intOf, s, ModeOf(BadMetrics(v.reasons)), ToFormula(e), cfg.threshold);
      } else {
        EntryConsistent(h.intOf, e, v, c.round);
        AddedSound(h.intOf, s, EntryFor(e, v, c.round), cfg.threshold);
      }
  }

  /** A round keeps the zoo sound: entries stay pairwise original and the journal still replays to memory. */
  lemma {:induction false} RoundSound(cfg: Config, h: Hooks, s: Store, feedback: seq<Reason>, plans: seq<string>, round: int)
    requires Sound(h.intOf, s, cfg.threshold)
    ensures Sound(h.intOf, RoundOf(cfg, h, s, feedback, plans, round).store, cfg.threshold)
  {
    if plans != [] {
      var n := |plans| - 1;
      RoundSound(cfg, h, s, feedback, plans[..n], round);
      var r := RoundOf(cfg, h, s, feedback, plans[..n], round);
      ProcessSound(cfg, h, r.store, Context(round, n, plans[n], Recent(r.feedback)));
      hide ProcessOf, Recent;
    }
  }

  lemma ModeClean(r: Reason)
    ensures !JournalText.HasSeparator(ModeOf(r))
  {
  }

  lemma ProcessClean(cfg: Config, h: Hooks, s: Store, c: Context)
    requires StoreOk(h, s)
    ensures ZooJournal.Grown(s, ProcessOf(cfg, h, s, c).0, ZooJournal.CleanRecord)
  {
    var t := ProcessOf(cfg, h, s, c).0;
    GeneratedSound(h.intOf, h.construct(c));
    match Generated(h.intOf, h.construct(c))
    case Raises(_) => ZooJournal.GrownByOne(s, t, FailureRecord("", ""), ZooJournal.CleanRecord);
    case Ok(e) =>
      var gate, v := GateOf(cfg, h, s.entries, e, c.hypothesis), h.judge(e);
      var reason := if gate.Some? then gate.value else BadMetrics(v.reasons);
      ZooJournal.FormulaClean(e);
      ModeClean(reason);
      ZooJournal.EntryClean(e, v, c.round);
      EntryConsistent(h.intOf, e, v, c.round);
      var failed, entry := FailureRecord(ModeOf(reason), ToFormula(e)), EntryFor(e, v, c.round);
      assert ZooJournal.CleanRecord(failed);
      assert t.journal in {s.journal, s.journal + [failed], s.journal + [FactorRecord(entry)]};
      hide ProcessOf, ZooJournal.CleanRecord, EntryFor, ModeOf;
      if t.journal == s.journal + [FactorRecord(entry)] {
        ZooJournal.GrownByOne(s, t, FactorRecord(entry), ZooJournal.CleanRecord);
      } else {
        ZooJournal.GrownByOne(s, t, failed, ZooJournal.CleanRecord);
      }
  }

  lemma {:induction false} RoundClean(cfg: Config, h: Hooks, s: Store, feedback: seq<Reason>, plans: seq<string>, round: int)
    requires StoreOk(h, s)
    ensures ZooJournal.Grown(s, RoundOf(cfg, h, s, feedback, plans, round).store, ZooJournal.CleanRecord)
  {
    if plans != [] {
      var n := |plans| - 1;
      RoundClean(cfg, h, s, feedback, plans[..n], round);
      var r := RoundOf(cfg, h, s, feedback, plans[..n], round);
      var c := Context(round, n, plans[n], Recent(r.feedback));
      ProcessClean(cfg, h, r.store, c);
      hide ProcessOf, Recent, StoreOk, ZooJournal.Grown;
      ZooJournal.GrownMore(s, r.store, ProcessOf(cfg, h, r.store, c).0, ZooJournal.CleanRecord);
    }
  }

  /** What a round writes into the zoo's file never keeps it from opening again, with what the round has left in memory. */
  lemma RoundReopens(cfg: Config, h: Hooks, s: Store, feedback: seq<Reason>, plans: seq<string>, round: int,
                     show: real -> string, decode: string -> Option<Record>, file: string)
    requires Sound(h.intOf, s, cfg.threshold)
    requires ZooJournal.OnFile(show, decode, file, s, RoundOf(cfg, h, s, feedback, plans, round).store)
    ensures ZooJournal.Reopens(show, decode, file, s, RoundOf(cfg, h, s, feedback, plans, round).store)
  {
    RoundClean(cfg, h, s, feedback, plans, round);
    RoundSound(cfg, h, s, feedback, plans, round);
    var t := RoundOf(cfg, h, s, feedback, plans, round).store;
    hide *;
    ZooJournal.CleanReopens(h.intOf, s, t, cfg.threshold, show, decode, file);
  }

  /** The reasons of the rejections, in order. */
  function ReasonsOf(rejected: seq<(string, Reason)>): (r: seq<Reason>)
    ensures |r| == |rejected| && forall i :: 0 <= i < |r| ==> r[i] == rejected[i].1
  {
    seq(|rejected|, i requires 0 <= i < |rejected| => rejected[i].1)
  }

  /** The last six of a list, or all of it. */
  ghost predicate LastSix(all: seq<Reason>, last: seq<Reason>) {
    |last| == (if |all| < 6 then |all| else 6) && all[|all| - |last|..] == last
  }

  lemma LastSixAppend(all: seq<Reason>, last: seq<Reason>, r: Reason)
    requires LastSix(all, last)
    ensures LastSix(all + [r], Recent(last + [r]))
  {
    var more := all + [r];
    assert more[|all| - |last|..] == last + [r];
    var recent := Recent(last + [r]);
    assert more[|more| - |recent|..] == recent;
  }

  lemma PlanFeedback(cfg: Config, h: Hooks, r: Round, c: Context, before: seq<Reason>)
    requires StoreOk(h, r.store) && LastSix(before + ReasonsOf(r.rejected), r.feedback)
    ensures var r' := AfterPlan(cfg, h, r, c); LastSix(before + ReasonsOf(r'.rejected), r'.feedback)
  {
    if r.escaped.None? {
      var o := ProcessOf(cfg, h, r.store, c).1;
      hide ProcessOf, LastSix, Recent;
      if o.Rejected? {
        LastSixAppend(before + ReasonsOf(r.rejected), r.feedback, o.reason);
        assert before + ReasonsOf(r.rejected + [(o.formula, o.reason)]) == before + ReasonsOf(r.rejected) + [o.reason];
      }
    }
  }

  /** The feedback is always the last six reasons, those of earlier rounds before those of this one. */
  lemma {:induction false} RoundFeedback(cfg: Config, h: Hooks, s: Store, feedback: seq<Reason>, plans: seq<string>, round: int)
    requires StoreOk(h, s) && |feedback| <= 6
    ensures var r := RoundOf(cfg, h, s, feedback, plans, round); LastSix(feedback + ReasonsOf(r.rejected), r.feedback)
  {
    if plans == [] {
      assert feedback + ReasonsOf([]) == feedback;
    } else {
      var n := |plans| - 1;
      var r := RoundOf(cfg, h, s, feedback, plans[..n], round);
      RoundFeedback(cfg, h, s, feedback, plans[..n], round);
      hide ProcessOf, LastSix, AfterPlan, Recent;
      PlanFeedback(cfg, h, r, Context(round, n, plans[n], Recent(r.feedback)), feedback);
    }
  }

  /** The name under which a rejection is counted. */
  ghost predicate CountedAs(r: Reason, mode: string) {
    || (r.TooComplex? && mode == "complejidad") || (r.Motif? && mode == "fsa") || (r.Unoriginal? && mode == "originalidad")
    || (r.Misaligned? && mode == "alineacion") || (r.BadMetrics? && mode == "metricas")
  }

  /** How many rejections are counted under a mode; a failed generation has no formula and is not. */
  ghost function CountedIn(rejected: seq<(string, Reason)>, mode: string): nat {
    if rejected == [] then 0
    else
      var n := |rejected| - 1;
      CountedIn(rejected[..n], mode) + if rejected[n].0 != "" && CountedAs(rejected[n].1, mode) then 1 else 0
  }

  /** Since s the failures of a mode have grown by the rejections counted under it. */
  ghost predicate Tallied(s: Store, r: Round, mode: string) {
    CountOf(r.store.failures, mode) == CountOf(s.failures, mode) + CountedIn(r.rejected, mode)
  }

  lemma ModeCounts(r: Reason, mode: string)
    requires !r.Generation?
    ensures CountedAs(r, mode) <==> ModeOf(r) == mode
  {
  }

  lemma ProcessCounts(cfg: Config, h: Hooks, s: Store, c: Context, mode: string)
    requires StoreOk(h, s)
    ensures var (t, o) := ProcessOf(cfg, h, s, c);
      CountOf(t.failures, mode) == CountOf(s.failures, mode)
        + if o.Rejected? && o.formula != "" && CountedAs(o.reason, mode) then 1 else 0
  {
    GeneratedSound(h.intOf, h.construct(c));
    match Generated(h.intOf, h.construct(c))
    case Raises(_) =>
    case Ok(e) =>
      FormulaNotEmpty(e);
      GateDecides(cfg, h, s.entries, e, c.hypothesis);
      var gate, v := GateOf(cfg, h, s.entries, e, c.hypothesis), h.judge(e);
      var reason := if gate.Some? then gate.value else BadMetrics(v.reasons);
      ModeCounts(reason, mode);
      EntryConsistent(h.intOf, e, v, c.round);
      hide GateOf, EvaluationError, EntryFor, ModeOf, CountedAs, Alike, Genes, Misfit;
  }

  /** The zoo's failure counts grow by exactly the rejections of each kind. */
  lemma {:induction false} RoundTallied(cfg: Config, h: Hooks, s: Store, feedback: seq<Reason>, plans: seq<string>, round: int, mode: string)
    requires StoreOk(h, s)
    ensures Tallied(s, RoundOf(cfg, h, s, feedback, plans, round), mode)
  {
    if plans != [] {
      var n := |plans| - 1;
      var r := RoundOf(cfg, h, s, feedback, plans[..n], round);
      var c := Context(round, n, plans[n], Recent(r.feedback));
      RoundTallied(cfg, h, s, feedback, plans[..n], round, mode);
      ProcessCounts(cfg, h, r.store, c, mode);
      var o := ProcessOf(cfg, h, r.store, c).1;
      hide ProcessOf, CountedAs, Recent, StoreOk;
      if r.escaped.None? && o.Rejected? {
        assert (r.rejected + [(o.formula, o.reason)])[..|r.rejected|] == r.rejected;
      }
    }
  }

  // ---------------------------------------------------------------- exceptions that leave a round

  /** The generator's answer lets an exception out: of the parser, or, past the gates, of the evaluation. */
  ghost predicate BadReply(cfg: Config, h: Hooks, s: Store, c: Context)
    requires StoreOk(h, s)
  {
    var reply := h.construct(c);
    || (exists error :: ReplyEscapes(h.intOf, reply, error))
    || (reply.Answer? && WellFormed(h.intOf, reply.json) && LacksColumn(h.fields, reply.json)
        && PassesGates(cfg, h, s, reply.json, c.hypothesis))
  }

  ghost predicate PassesGates(cfg: Config, h: Hooks, s: Store, json: Json, hypothesis: string)
    requires StoreOk(h, s) && WellFormed(h.intOf, json)
  {
    ParsesIff(h.intOf, json);
    ParseSound(h.intOf, json);
    GateOf(cfg, h, s.entries, ParseExpr(h.intOf, json).expr, hypothesis).None?
  }

  lemma ProcessEscapesIff(cfg: Config, h: Hooks, s: Store, c: Context)
    requires StoreOk(h, s)
    ensures ProcessOf(cfg, h, s, c).1.Escaped? <==> BadReply(cfg, h, s, c)
  {
    var reply := h.construct(c);
    forall error ensures ReplyEscapes(h.intOf, reply, error) <==> error != ValueError && Generated(h.intOf, reply) == Raises(error) {
      ReplyEscapesIff(h.intOf, reply, error);
    }
    if reply.Answer? {
      ParsesIff(h.intOf, reply.json);
      if WellFormed(h.intOf, reply.json) {
        LacksColumnIff(h.intOf, h.fields, reply.json);
      }
    }
    GeneratedSound(h.intOf, reply);
    hide ParseExpr, WellFormed, ReplyEscapes, LacksColumn, EvaluationError, GateOf, FactorDsl.Validate, Canonical;
    var generated := Generated(h.intOf, reply);
    if generated.Raises? && generated.error != ValueError {
      assert ReplyEscapes(h.intOf, reply, generated.error);
    }
  }

  /** What the round has come to before plan i, and the context the generator then gets. */
  ghost function ContextOf(cfg: Config, h: Hooks, s: Store, feedback: seq<Reason>, plans: seq<string>, i: nat, round: int): Context
    requires StoreOk(h, s) && i < |plans|
  {
    Context(round, i, plans[i], Recent(RoundOf(cfg, h, s, feedback, plans[..i], round).feedback))
  }

  ghost predicate BadPlan(cfg: Config, h: Hooks, s: Store, feedback: seq<Reason>, plans: seq<string>, i: nat, round: int)
    requires StoreOk(h, s)
  {
    i < |plans| &&
    BadReply(cfg, h, RoundOf(cfg, h, s, feedback, plans[..i], round).store, ContextOf(cfg, h, s, feedback, plans, i, round))
  }

  /** An exception leaves the round exactly when some plan gets an answer that lets one out. */
  lemma {:induction false} RoundEscapesIff(cfg: Config, h: Hooks, s: Store, feedback: seq<Reason>, plans: seq<string>, round: int)
    requires StoreOk(h, s)
    ensures RoundOf(cfg, h, s, feedback, plans, round).escaped.Some? <==> exists i: nat :: BadPlan(cfg, h, s, feedback, plans, i, round)
  {
    if plans != [] {
      LastPlanEscapes(cfg, h, s, feedback, plans, round);
      var n := |plans| - 1;
      var front := plans[..n];
      RoundEscapesIff(cfg, h, s, feedback, front, round);
      forall i: nat | i != n
        ensures BadPlan(cfg, h, s, feedback, plans, i, round) <==> BadPlan(cfg, h, s, feedback, front, i, round)
      {
        if i < n {
          assert plans[..i] == front[..i];
        }
      }
      assert !BadPlan(cfg, h, s, feedback, front, n, round);
      hide RoundOf, BadPlan;
      if exists i: nat :: BadPlan(cfg, h, s, feedback, front, i, round) {
        var i: nat :| BadPlan(cfg, h, s, feedback, front, i, round);
        assert BadPlan(cfg, h, s, feedback, plans, i, round);
      }
    } else {
      assert forall i: nat :: !BadPlan(cfg, h, s, feedback, plans, i, round);
    }
  }

  lemma LastPlanEscapes(cfg: Config, h: Hooks, s: Store, feedback: seq<Reason>, plans: seq<string>, round: int)
    requires StoreOk(h, s) && plans != []
    ensures RoundOf(cfg, h, s, feedback, plans, round).escaped.Some? <==>
      (RoundOf(cfg, h, s, feedback, plans[..|plans| - 1], round).escaped.Some?
       || BadPlan(cfg, h, s, feedback, plans, |plans| - 1, round))
  {
    var n := |plans| - 1;
    ProcessEscapesIff(cfg, h, RoundOf(cfg, h, s, feedback, plans[..n], round).store, ContextOf(cfg, h, s, feedback, plans, n, round));
    hide BadReply, ProcessOf, Recent, StoreOk;
  }

  /** If every answer has plain windows and names only columns of a panel with closing prices, no exception leaves the round. */
  lemma NothingEscapes(cfg: Config, h: Hooks, s: Store, feedback: seq<Reason>, plans: seq<string>, round: int)
    requires StoreOk(h, s)
    requires forall c :: h.construct(c).Answer? && PlainWindows(h.construct(c).json) && !LacksColumn(h.fields, h.construct(c).json)
    ensures RoundOf(cfg, h, s, feedback, plans, round).escaped.None?
  {
    RoundEscapesIff(cfg, h, s, feedback, plans, round);
    forall i: nat ensures !BadPlan(cfg, h, s, feedback, plans, i, round) {
      if i < |plans| {
        var c := ContextOf(cfg, h, s, feedback, plans, i, round);
        PlainAnswer(cfg, h, RoundOf(cfg, h, s, feedback, plans[..i], round).store, c);
      }
    }
  }

  lemma PlainAnswer(cfg: Config, h: Hooks, s: Store, c: Context)
    requires StoreOk(h, s)
    requires h.construct(c).Answer? && PlainWindows(h.construct(c).json) && !LacksColumn(h.fields, h.construct(c).json)
    ensures !BadReply(cfg, h, s, c)
  {
    var reply := h.construct(c);
    OnlyValueErrors(h.intOf, reply.json);
    forall error ensures !ReplyEscapes(h.intOf, reply, error) {
      ReplyEscapesIff(h.intOf, reply, error);
    }
  }

  /** One plan whose answer lets an exception out ends the round with that exception. */
  lemma FirstPlanEscapes(cfg: Config, h: Hooks, s: Store, feedback: seq<Reason>, plan: string, round: int)
    requires StoreOk(h, s)
    ensures var o := ProcessOf(cfg, h, s, Context(round, 0, plan, Recent(feedback))).1;
      o.Escaped? ==> RoundOf(cfg, h, s, feedback, [plan], round).escaped == Some(o.error)
  {
    assert RoundOf(cfg, h, s, feedback, [plan][..0], round) == Round(s, feedback, [], [], None);
    hide ProcessOf;
  }

  /** A list as window: TypeError. */
  lemma ListWindowEscapes(cfg: Config, h: Hooks, s: Store, feedback: seq<Reason>, plan: string, round: int)
    requires StoreOk(h, s)
    requires h.construct(Context(round, 0, plan, Recent(feedback))) == Answer(RankWithWindow(JList([])))
    ensures RoundOf(cfg, h, s, feedback, [plan], round).escaped == Some(TypeError)
  {
    ListWindowRaisesTypeError(h.intOf);
    hide ParseExpr, RoundOf;
    FirstPlanEscapes(cfg, h, s, feedback, plan, round);
  }

  /** An infinite window: OverflowError. */
  lemma InfiniteWindowEscapes(cfg: Config, h: Hooks, s: Store, feedback: seq<Reason>, plan: string, round: int)
    requires StoreOk(h, s)
    requires h.construct(Context(round, 0, plan, Recent(feedback))) == Answer(RankWithWindow(JInfinite))
    ensures RoundOf(cfg, h, s, feedback, [plan], round).escaped == Some(OverflowError)
  {
    InfiniteWindowRaisesOverflowError(h.intOf);
    hide ParseExpr, RoundOf;
    FirstPlanEscapes(cfg, h, s, feedback, plan, round);
  }

  /** A well-formed answer naming a column the panel lacks, past the gates of an empty zoo: ValueError, although the round
      handles the ValueErrors of generation. */
  lemma AbsentColumnEscapes(cfg: Config, h: Hooks, s: Store, feedback: seq<Reason>, plan: string, round: int)
    requires s.entries == [] && cfg.maxNodes >= 1 && cfg.forbidden == {} && h.align.None? && Volume !in h.fields
    requires h.construct(Context(round, 0, plan, Recent(feedback))) == Answer(JObj(Some(JStr("volume")), None, None, None))
    ensures StoreOk(h, s) && RoundOf(cfg, h, s, feedback, [plan], round).escaped == Some(ValueError)
  {
    NamesRoundTrip(Rank, Volume);
    assert ParseExpr(h.intOf, JObj(Some(JStr("volume")), None, None, None)) == Ok(Leaf(Volume));
    assert Complexity(Leaf(Volume)) == 1 && LeafFields(Leaf(Volume)) == {Volume};
    assert GateOf(cfg, h, s.entries, Leaf(Volume), plan) == None;
    hide ParseExpr, RoundOf, GateOf, LeafFields;
    FirstPlanEscapes(cfg, h, s, feedback, plan, round);
  }

  /** A panel without closing prices: KeyError, even for a factor that does not read them. */
  lemma NoClosingPricesEscape(cfg: Config, h: Hooks, s: Store, feedback: seq<Reason>, plan: string, round: int)
    requires s.entries == [] && cfg.maxNodes >= 1 && cfg.forbidden == {} && h.align.None? && h.fields == {Volume}
    requires h.construct(Context(round, 0, plan, Recent(feedback))) == Answer(JObj(Some(JStr("volume")), None, None, None))
    ensures StoreOk(h, s) && RoundOf(cfg, h, s, feedback, [plan], round).escaped == Some(KeyError)
  {
    NamesRoundTrip(Rank, Volume);
    assert ParseExpr(h.intOf, JObj(Some(JStr("volume")), None, None, None)) == Ok(Leaf(Volume));
    assert Complexity(Leaf(Volume)) == 1 && LeafFields(Leaf(Volume)) == {Volume};
    assert GateOf(cfg, h, s.entries, Leaf(Volume), plan) == None;
    hide ParseExpr, RoundOf, GateOf, LeafFields;
    FirstPlanEscapes(cfg, h, s, feedback, plan, round);
  }

  // ---------------------------------------------------------------- the loop as it runs

  class MiningLoop {
    const zoo: Zoo
    const cfg: Config
    const hooks: Hooks
    var feedback: seq<Reason>

    ghost predicate Valid()
      reads this, zoo
    {
      zoo.Valid() && zoo.intOf == hooks.intOf
    }

    constructor (zoo: Zoo, cfg: Config, hooks: Hooks)
      requires zoo.Valid() && zoo.intOf == hooks.intOf
      ensures Valid() && this.zoo == zoo && this.cfg == cfg && this.hooks == hooks && feedback == []
    {
      this.zoo, this.cfg, this.hooks, feedback := zoo, cfg, hooks, [];
    }

    method Gate(e: Expr, hypothesis: string) returns (reason: Option<Reason>)
      requires Valid() && FactorDsl.Valid(e)
      ensures reason == GateOf(cfg, hooks, zoo.entries, e, hypothesis)
    {
      var nodes := Complexity(e);
      if nodes > cfg.maxNodes {
        return Some(TooComplex(nodes));
      }
      var motif := ViolatesFsa(e, cfg.forbidden);
      if motif {
        return Some(Motif);
      }
      var similar := zoo.IsSimilar(e, cfg.threshold);
      if similar {
        return Some(Unoriginal);
      }
      if hooks.align.Some? {
        var score := hooks.align.value(hypothesis, ToFormula(e));
        if score < ALIGNMENT_MIN {
          return Some(Misaligned(score));
        }
      }
      return None;
    }

    /** `_process`: the rejection after `add` is never reached, because the gate has already asked the same question. */
    method Process(c: Context) returns (outcome: Outcome)
      requires Valid()
      modifies zoo
      ensures Valid()
      ensures (zoo.State(), outcome) == ProcessOf(cfg, hooks, old(zoo.State()), c)
    {
      hide ParseExpr, Canonical, FactorDsl.Validate;
      var reply := hooks.construct(c);
      GeneratedSound(hooks.intOf, reply);
      match Generated(hooks.intOf, reply) {
        case Raises(error) => outcome := if error == ValueError then Rejected("", Generation) else Escaped(error);
        case Ok(e) =>
          var formula := ToFormula(e);
          var reason := Gate(e, c.hypothesis);
          if reason.Some? {
            zoo.RecordFailure(formula, ModeOf(reason.value));
            return Rejected(formula, reason.value);
          }
          var raised := EvaluationError(hooks.fields, e);
          if raised.Some? {
            return Escaped(raised.value);
          }
          var verdict := hooks.judge(e);
          if !verdict.accepted {
            zoo.RecordFailure(formula, ModeOf(BadMetrics(verdict.reasons)));
            return Rejected(formula, BadMetrics(verdict.reasons));
          }
          EntryConsistent(hooks.intOf, e, verdict, c.round);
          var entry := EntryFor(e, verdict, c.round);
          var added := zoo.Add(entry, cfg.threshold);
          if !added {
            assert false;
          }
          outcome := Accepted(entry);
      }
    }

    method RunRound(plans: seq<string>, round: int)
      returns (accepted: seq<ZooEntry>, rejected: seq<(string, Reason)>, escaped: Option<Exception>)
      requires Valid()
      modifies this, zoo
      ensures Valid()
      ensures Round(zoo.State(), feedback, accepted, rejected, escaped)
           == RoundOf(cfg, hooks, old(zoo.State()), old(feedback), plans, round)
    {
      hide RoundOf, ProcessOf, AllConsistent, Recent;
      accepted, rejected, escaped := [], [], None;
      ghost var s0, f0 := zoo.State(), feedback;
      NoPlans(cfg, hooks, s0, f0, plans, round);
      for i := 0 to |plans|
        invariant Valid() && escaped.None? && StoreOk(hooks, s0)
        invariant Round(zoo.State(), feedback, accepted, rejected, escaped) == RoundOf(cfg, hooks, s0, f0, plans[..i], round)
      {
        RoundUnfold(cfg, hooks, s0, f0, plans, i, round);
        var outcome := Process(Context(round, i, plans[i], Recent(feedback)));
        match outcome {
          case Accepted(entry) =>
            accepted := accepted + [entry];
          case Rejected(formula, reason) =>
            rejected := rejected + [(formula, reason)];
            feedback := Recent(feedback + [reason]);
          case Escaped(error) =>
            escaped := Some(error);
            EscapeIsFinal(cfg, hooks, s0, f0, plans, i + 1, round);
            return;
        }
      }
      assert plans[..|plans|] == plans;
    }
  }

  lemma NoPlans(cfg: Config, h: Hooks, s: Store, feedback: seq<Reason>, plans: seq<string>, round: int)
    requires StoreOk(h, s)
    ensures RoundOf(cfg, h, s, feedback, plans[..0], round) == Round(s, feedback, [], [], None)
  {
  }

  lemma RoundUnfold(cfg: Config, h: Hooks, s: Store, feedback: seq<Reason>, plans: seq<string>, i: nat, round: int)
    requires StoreOk(h, s) && i < |plans|
    ensures var r := RoundOf(cfg, h, s, feedback, plans[..i], round);
      RoundOf(cfg, h, s, feedback, plans[..i + 1], round) == AfterPlan(cfg, h, r, Context(round, i, plans[i], Recent(r.feedback)))
  {
    assert plans[..i + 1][..i] == plans[..i];
  }

  lemma {:induction false} EscapeIsFinal(cfg: Config, h: Hooks, s: Store, feedback: seq<Reason>, plans: seq<string>, n: nat, round: int)
    requires StoreOk(h, s) && n <= |plans| && RoundOf(cfg, h, s, feedback, plans[..n], round).escaped.Some?
    ensures RoundOf(cfg, h, s, feedback, plans, round) == RoundOf(cfg, h, s, feedback, plans[..n], round)
  {
    if n < |plans| {
      var front := plans[..|plans| - 1];
      assert front[..n] == plans[..n];
      EscapeIsFinal(cfg, h, s, feedback, front, n, round);
    } else {
      assert plans[..n] == plans;
    }
  }
}
