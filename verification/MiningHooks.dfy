/** What a mining round and a tree search share: the generator's answers, what evaluating a tree needs, what is stored of it. */
module MiningHooks {

  import opened Basics
  import opened FactorDsl
  import opened Formula
  import opened Similarity
  import opened TopSelection
  import opened AlphaZoo

  datatype Verdict = Verdict(accepted: bool, score: real, rankIc: real, reasons: seq<string>)

  /** What a call of the generator ends in. */
  datatype Reply = Answer(json: Json) | Failure(error: Exception)

  /** `parse_expr(construct(...))`. */
  function Generated(intOf: string -> Option<int>, reply: Reply): Parsed {
    match reply
    case Answer(json) => ParseExpr(intOf, json)
    case Failure(error) => Raises(error)
  }

  lemma GeneratedSound(intOf: string -> Option<int>, reply: Reply)
    ensures Generated(intOf, reply).Ok? ==> Valid(Generated(intOf, reply).expr) && Canonical(Generated(intOf, reply).expr)
  {
    if reply.Answer? {
      ParseSound(intOf, reply.json);
    }
  }

  /** `evaluate_factor` on a panel with these columns: a leaf without a column is a ValueError, a panel without closing
      prices a KeyError when the forward returns are taken. */
  function EvaluationError(fields: set<Field>, e: Expr): Option<Exception> {
    if !(LeafFields(e) <= fields) then Some(ValueError) else if Close !in fields then Some(KeyError) else None
  }

  // ---------------------------------------------------------------- answers that let an exception out

  /** The field names in a well-formed value. */
  function NamedFields(data: Json): set<Field>
    decreases data, 1
  {
    if !data.JObj? then {}
    else if data.field.Some? then
      var f := FieldNamed(NameOf(data.field)); if f.Some? then {f.value} else {}
    else if data.children.Some? && data.children.value.JList? then NamedAmong(data.children.value.items)
    else {}
  }

  function NamedAmong(items: seq<Json>): set<Field>
    decreases items, 0
  {
    if items == [] then {} else NamedFields(items[0]) + NamedAmong(items[1..])
  }

  /** The tree parsed from a value reads exactly the fields the value names. */
  lemma {:induction false} ParsedFields(intOf: string -> Option<int>, data: Json)
    requires WellFormed(intOf, data)
    ensures ParseExpr(intOf, data).Ok? && LeafFields(ParseExpr(intOf, data).expr) == NamedFields(data)
    decreases data, 1
  {
    ParsesIff(intOf, data);
    if data.field.None? {
      ParsedFieldsAll(intOf, data.children.value.items);
      LeafFieldsOfChildren(ParseExpr(intOf, data).expr);
      hide LeafFields;
    }
  }

  function FieldsAmong(es: seq<Expr>): set<Field> {
    if es == [] then {} else LeafFields(es[0]) + FieldsAmong(es[1..])
  }

  lemma {:induction false} FieldsAmongMember(es: seq<Expr>, f: Field)
    ensures f in FieldsAmong(es) <==> exists i :: 0 <= i < |es| && f in LeafFields(es[i])
  {
    if es != [] {
      FieldsAmongMember(es[1..], f);
      assert forall i :: 0 <= i < |es| - 1 ==> es[1..][i] == es[i + 1];
    }
  }

  lemma LeafFieldsOfChildren(e: Expr)
    requires e.op.Some?
    ensures LeafFields(e) == FieldsAmong(e.children)
  {
    forall f ensures f in LeafFields(e) <==> f in FieldsAmong(e.children) {
      FieldsAmongMember(e.children, f);
    }
  }

  lemma {:induction false} ParsedFieldsAll(intOf: string -> Option<int>, items: seq<Json>)
    requires forall c | c in items :: WellFormed(intOf, c)
    ensures FieldsAmong(ParseAll(intOf, items).0) == NamedAmong(items)
    decreases items, 0
  {
    if items != [] {
      ParsedFields(intOf, items[0]);
      ParsedFieldsAll(intOf, items[1..]);
      var rest := ParseAll(intOf, items[1..]).0;
      assert ([ParseExpr(intOf, items[0]).expr] + rest)[1..] == rest;
    }
  }

  /** Generating raises something else than ValueError: the hook did, or the parser on its answer. */
  predicate ReplyEscapes(intOf: string -> Option<int>, reply: Reply, error: Exception) {
    error != ValueError &&
    match reply
    case Answer(json) => Escapes(intOf, json, error)
    case Failure(raised) => raised == error
  }

  lemma ReplyEscapesIff(intOf: string -> Option<int>, reply: Reply, error: Exception)
    ensures ReplyEscapes(intOf, reply, error) <==> error != ValueError && Generated(intOf, reply) == Raises(error)
  {
    if reply.Answer? && error != ValueError {
      EscapesIff(intOf, reply.json, error);
    }
  }

  /** The panel lacks a column the answer names, or the closing prices. */
  predicate LacksColumn(fields: set<Field>, json: Json) {
    !(NamedFields(json) <= fields) || Close !in fields
  }

  lemma LacksColumnIff(intOf: string -> Option<int>, fields: set<Field>, json: Json)
    requires WellFormed(intOf, json)
    ensures ParseExpr(intOf, json).Ok?
    ensures LacksColumn(fields, json) <==> EvaluationError(fields, ParseExpr(intOf, json).expr).Some?
  {
    ParsedFields(intOf, json);
  }

  // ---------------------------------------------------------------- families

  function OpsOf(e: Expr): set<Operator>
    decreases e
  {
    (if e.op.Some? then {e.op.value} else {}) + set i, o | 0 <= i < |e.children| && o in OpsOf(e.children[i]) :: o
  }

  function FieldsOf(e: Expr): set<Field>
    decreases e
  {
    (if e.field.Some? then {e.field.value} else {}) + set i, f | 0 <= i < |e.children| && f in FieldsOf(e.children[i]) :: f
  }

  /** `classify_family`: the first rule that applies. */
  function ClassifyFamily(e: Expr): FactorFamily {
    var ops, fields := OpsOf(e), FieldsOf(e);
    if TsStd in ops || ZScore in ops then Volatility
    else if TsMax in ops && TsMin in ops then Range
    else if Volume in fields && (Div in ops || Scale in ops) then LiquidityVolume
    else if TsCorr in ops then PriceVolume
    else if Delta in ops then Trend
    else if Rank in ops then MeanReversion
    else Other
  }

  /** Some node of the tree has the operator, or the field. */
  ghost predicate Uses(e: Expr, op: Operator) {
    exists n :: IsSubtree(n, e) && n.op == Some(op)
  }

  ghost predicate ReadsField(e: Expr, f: Field) {
    exists n :: IsSubtree(n, e) && n.field == Some(f)
  }

  lemma UsesUnfold(e: Expr, op: Operator)
    ensures Uses(e, op) <==> e.op == Some(op) || exists i :: 0 <= i < |e.children| && Uses(e.children[i], op)
  {
    if n :| IsSubtree(n, e) && n.op == Some(op) {
      if n != e {
        var c :| c in e.children && IsSubtree(n, c);
        assert Uses(c, op);
      }
    }
    if e.op == Some(op) {
      assert IsSubtree(e, e);
    }
    if i :| 0 <= i < |e.children| && Uses(e.children[i], op) {
      var n :| IsSubtree(n, e.children[i]) && n.op == Some(op);
      assert IsSubtree(n, e);
    }
  }

  lemma {:induction false} OpsOfIff(e: Expr, op: Operator)
    ensures op in OpsOf(e) <==> Uses(e, op)
    decreases e
  {
    UsesUnfold(e, op);
    hide Uses;
    forall i | 0 <= i < |e.children| ensures op in OpsOf(e.children[i]) <==> Uses(e.children[i], op) {
      OpsOfIff(e.children[i], op);
    }
  }

  lemma ReadsUnfold(e: Expr, f: Field)
    ensures ReadsField(e, f) <==> e.field == Some(f) || exists i :: 0 <= i < |e.children| && ReadsField(e.children[i], f)
  {
    if n :| IsSubtree(n, e) && n.field == Some(f) {
      if n != e {
        var c :| c in e.children && IsSubtree(n, c);
        assert ReadsField(c, f);
      }
    }
    if e.field == Some(f) {
      assert IsSubtree(e, e);
    }
    if i :| 0 <= i < |e.children| && ReadsField(e.children[i], f) {
      var n :| IsSubtree(n, e.children[i]) && n.field == Some(f);
      assert IsSubtree(n, e);
    }
  }

  lemma {:induction false} FieldsOfIff(e: Expr, f: Field)
    ensures f in FieldsOf(e) <==> ReadsField(e, f)
    decreases e
  {
    ReadsUnfold(e, f);
    hide ReadsField;
    forall i | 0 <= i < |e.children| ensures f in FieldsOf(e.children[i]) <==> ReadsField(e.children[i], f) {
      FieldsOfIff(e.children[i], f);
    }
  }

  /** The family of a tree, told by its nodes. */
  lemma FamilyIs(e: Expr)
    ensures var f := ClassifyFamily(e);
      var volatile := Uses(e, TsStd) || Uses(e, ZScore);
      var ranged := Uses(e, TsMax) && Uses(e, TsMin);
      var liquid := ReadsField(e, Volume) && (Uses(e, Div) || Uses(e, Scale));
      && (f == Volatility <==> volatile)
      && (f == Range <==> !volatile && ranged)
      && (f == LiquidityVolume <==> !volatile && !ranged && liquid)
      && (f == PriceVolume <==> !volatile && !ranged && !liquid && Uses(e, TsCorr))
      && (f == Trend <==> !volatile && !ranged && !liquid && !Uses(e, TsCorr) && Uses(e, Delta))
      && (f == MeanReversion <==> !volatile && !ranged && !liquid && !Uses(e, TsCorr) && !Uses(e, Delta) && Uses(e, Rank))
  {
    forall op: Operator ensures op in OpsOf(e) <==> Uses(e, op) {
      OpsOfIff(e, op);
    }
    FieldsOfIff(e, Volume);
    hide Uses, ReadsField, OpsOf, FieldsOf;
  }

  // ---------------------------------------------------------------- what is stored

  function EntryFor(e: Expr, v: Verdict, round: int): ZooEntry
    requires Valid(e)
  {
    ZooEntry(ToFormula(e), ToDict(e), ClassifyFamily(e), v.score, v.rankIc, round)
  }

  lemma {:induction false} CleanSameTree(e: Expr)
    requires Valid(e)
    ensures Valid(Clean(e)) && SameTree(Clean(e), e, true)
    decreases e
  {
    if e.op.Some? {
      forall i | 0 <= i < |e.children| ensures Valid(Clean(e.children[i])) && SameTree(Clean(e.children[i]), e.children[i], true) {
        CleanSameTree(e.children[i]);
      }
      forall c | c in CleanAll(e.children) ensures Valid(c) {
        var i :| 0 <= i < |e.children| && CleanAll(e.children)[i] == c;
      }
    }
  }

  /** The entry of a valid tree is consistent, and parses back to the tree less the fields of its inner nodes. */
  lemma EntryConsistent(intOf: string -> Option<int>, e: Expr, v: Verdict, round: int)
    requires Valid(e)
    ensures Consistent(intOf, EntryFor(e, v, round)) && TreeOf(intOf, EntryFor(e, v, round)) == Clean(e)
    ensures Canonical(e) ==> TreeOf(intOf, EntryFor(e, v, round)) == e
  {
    ParsePrinted(intOf, e);
    CleanSameTree(e);
    FormulaInjective(Clean(e), e);
    CleanIffCanonical(e);
  }
}
