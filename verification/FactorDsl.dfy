/** The factor language: its syntax trees, validation, and JSON form. */
module FactorDsl {

  import opened Basics

  datatype Field = Open | High | Low | Close | Volume | Returns

  datatype Operator =
    | Rank | TsRank | TsMean | TsStd | TsMax | TsMin | Delta | ZScore
    | Scale | Sign | Abs | Log | Add | Sub | Mul | Div | TsCorr

  const MIN_WINDOW := 2
  const MAX_WINDOW := 250

  function Arity(op: Operator): nat {
    match op
    case Add | Sub | Mul | Div | TsCorr => 2
    case _ => 1
  }

  predicate Windowed(op: Operator) {
    match op
    case TsRank | TsMean | TsStd | TsMax | TsMin | Delta | ZScore | TsCorr => true
    case _ => false
  }

  /** A node as the source stores it; nothing in the shape itself rules out nonsense combinations. */
  datatype Expr = Expr(op: Option<Operator>, field: Option<Field>, window: Option<int>, children: seq<Expr>)

  function Leaf(f: Field): Expr {
    Expr(None, Some(f), None, [])
  }

  function Apply(op: Operator, children: seq<Expr>, window: Option<int>): Expr {
    Expr(Some(op), None, window, children)
  }

  function Complexity(e: Expr): (n: nat)
    ensures n >= 1
    decreases e, 1
  {
    1 + ComplexitySum(e.children)
  }

  function ComplexitySum(es: seq<Expr>): nat
    decreases es, 0
  {
    if es == [] then 0 else Complexity(es[0]) + ComplexitySum(es[1..])
  }

  // ---------------------------------------------------------------- validation

  /** `expr.window or 0`: a missing window reads as zero. */
  function WindowOr0(e: Expr): int {
    if e.window.Some? then e.window.value else 0
  }

  predicate NodeOk(e: Expr) {
    match e.op
    case None => e.field.Some? && e.children == [] && e.window.None?
    case Some(op) =>
      && |e.children| == Arity(op)
      && (if Windowed(op) then MIN_WINDOW <= WindowOr0(e) <= MAX_WINDOW else e.window.None?)
  }

  /** `validate_expr` raises exactly when this is false. */
  predicate Validate(e: Expr, maxNodes: Option<int>)
    decreases e
  {
    && NodeOk(e)
    && (e.op.Some? ==>
        && (forall c | c in e.children :: Validate(c, maxNodes))
        && (maxNodes.Some? ==> Complexity(e) <= maxNodes.value))
  }

  predicate Valid(e: Expr) {
    Validate(e, None)
  }

  lemma {:induction false} ComplexityOfChild(es: seq<Expr>, i: nat)
    requires i < |es|
    ensures Complexity(es[i]) <= ComplexitySum(es)
  {
    if i > 0 {
      ComplexityOfChild(es[1..], i - 1);
    }
  }

  /** The limit checked at every level is the limit at the root; a bare leaf is never measured. */
  lemma {:induction false} NodeLimit(e: Expr, m: int)
    ensures Validate(e, Some(m)) <==> Valid(e) && (e.op.Some? ==> Complexity(e) <= m)
  {
    if e.op.Some? {
      forall i | 0 <= i < |e.children|
        ensures Complexity(e) <= m ==> (Validate(e.children[i], Some(m)) <==> Valid(e.children[i]))
        ensures Validate(e.children[i], Some(m)) ==> Valid(e.children[i])
      {
        NodeLimit(e.children[i], m);
        ComplexityOfChild(e.children, i);
      }
    }
  }

  /** No inner node carries a field: what the constructors build, and what validation does not check. */
  predicate Canonical(e: Expr)
    decreases e
  {
    (e.op.Some? ==> e.field.None?) && forall c | c in e.children :: Canonical(c)
  }

  /** The tree without the fields that inner nodes may carry. */
  function Clean(e: Expr): (r: Expr)
    decreases e, 1
  {
    if e.op.None? then e else Expr(e.op, None, e.window, CleanAll(e.children))
  }

  function CleanAll(es: seq<Expr>): (r: seq<Expr>)
    ensures |r| == |es| && forall i :: 0 <= i < |es| ==> r[i] == Clean(es[i])
    decreases es, 0
  {
    if es == [] then [] else [Clean(es[0])] + CleanAll(es[1..])
  }

  lemma {:induction false} CleanIffCanonical(e: Expr)
    requires Valid(e)
    ensures Clean(e) == e <==> Canonical(e)
  {
    if e.op.Some? {
      forall i | 0 <= i < |e.children| ensures Clean(e.children[i]) == e.children[i] <==> Canonical(e.children[i]) {
        CleanIffCanonical(e.children[i]);
      }
      if Canonical(e) {
        assert CleanAll(e.children) == e.children;
      }
      if Clean(e) == e {
        assert forall i :: 0 <= i < |e.children| ==> CleanAll(e.children)[i] == e.children[i];
      }
    }
  }

  /** What a node must be: a leaf has a field and nothing else; the correlation and the arithmetic of two panels have two
      children and the others one; the rolling operators have a window from 2 to 250 and the others none. */
  lemma NodeRules(e: Expr)
    ensures NodeOk(e) <==>
      if e.op.None? then e.field.Some? && e.children == [] && e.window.None?
      else
        && |e.children| == (if e.op.value in {Add, Sub, Mul, Div, TsCorr} then 2 else 1)
        && if e.op.value in {TsRank, TsMean, TsStd, TsMax, TsMin, Delta, ZScore, TsCorr}
           then e.window.Some? && 2 <= e.window.value <= 250 else e.window.None?
  {
  }

  // ---------------------------------------------------------------- names

  function FieldName(f: Field): string {
    match f
    case Open => "open"
    case High => "high"
    case Low => "low"
    case Close => "close"
    case Volume => "volume"
    case Returns => "returns"
  }

  function OperatorName(op: Operator): string {
    match op
    case Rank => "rank"
    case TsRank => "ts_rank"
    case TsMean => "ts_mean"
    case TsStd => "ts_std"
    case TsMax => "ts_max"
    case TsMin => "ts_min"
    case Delta => "delta"
    case ZScore => "zscore"
    case Scale => "scale"
    case Sign => "sign"
    case Abs => "abs"
    case Log => "log"
    case Add => "add"
    case Sub => "sub"
    case Mul => "mul"
    case Div => "div"
    case TsCorr => "ts_corr"
  }

  const FIELDS: seq<Field> := [Open, High, Low, Close, Volume, Returns]
  const OPERATORS: seq<Operator> :=
    [Rank, TsRank, TsMean, TsStd, TsMax, TsMin, Delta, ZScore, Scale, Sign, Abs, Log, Add, Sub, Mul, Div, TsCorr]

  /** `Field(name)`: the field of that name, if any. */
  function FieldNamed(name: string): Option<Field> {
    FindField(FIELDS, name)
  }

  function FindField(fs: seq<Field>, name: string): Option<Field> {
    if fs == [] then None else if FieldName(fs[0]) == name then Some(fs[0]) else FindField(fs[1..], name)
  }

  function OperatorNamed(name: string): Option<Operator> {
    FindOperator(OPERATORS, name)
  }

  function FindOperator(ops: seq<Operator>, name: string): Option<Operator> {
    if ops == [] then None else if OperatorName(ops[0]) == name then Some(ops[0]) else FindOperator(ops[1..], name)
  }

  lemma OperatorNamesDistinct(a: Operator, b: Operator)
    ensures OperatorName(a) == OperatorName(b) ==> a == b
  {
    var x, y := OperatorName(a), OperatorName(b);
    if |x| == |y| {
      assert x == y ==> forall i :: 0 <= i < |x| ==> x[i] == y[i];
    }
  }

  lemma FieldNamesDistinct(a: Field, b: Field)
    ensures FieldName(a) == FieldName(b) ==> a == b
  {
    var x, y := FieldName(a), FieldName(b);
    if |x| == |y| {
      assert x == y ==> forall i :: 0 <= i < |x| ==> x[i] == y[i];
    }
  }

  lemma {:induction false} FindOperatorHit(ops: seq<Operator>, op: Operator)
    requires op in ops
    ensures FindOperator(ops, OperatorName(op)) == Some(op)
  {
    OperatorNamesDistinct(ops[0], op);
    if ops[0] != op {
      FindOperatorHit(ops[1..], op);
    }
  }

  lemma {:induction false} FindFieldHit(fs: seq<Field>, f: Field)
    requires f in fs
    ensures FindField(fs, FieldName(f)) == Some(f)
  {
    FieldNamesDistinct(fs[0], f);
    if fs[0] != f {
      FindFieldHit(fs[1..], f);
    }
  }

  lemma NamesRoundTrip(op: Operator, f: Field)
    ensures OperatorNamed(OperatorName(op)) == Some(op) && FieldNamed(FieldName(f)) == Some(f)
  {
    FindOperatorHit(OPERATORS, op);
    FindFieldHit(FIELDS, f);
  }

  /** The registered names of the rolling operators. */
  lemma RollingNames()
    ensures OperatorNamed("ts_rank") == Some(TsRank) && OperatorNamed("ts_mean") == Some(TsMean) && OperatorNamed("ts_std") == Some(TsStd)
    ensures OperatorNamed("ts_max") == Some(TsMax) && OperatorNamed("ts_min") == Some(TsMin) && OperatorNamed("delta") == Some(Delta)
    ensures OperatorNamed("zscore") == Some(ZScore) && OperatorNamed("ts_corr") == Some(TsCorr)
  {
    NamesRoundTrip(TsRank, Open);
    NamesRoundTrip(TsMean, Open);
    NamesRoundTrip(TsStd, Open);
    NamesRoundTrip(TsMax, Open);
    NamesRoundTrip(TsMin, Open);
    NamesRoundTrip(Delta, Open);
    NamesRoundTrip(ZScore, Open);
    NamesRoundTrip(TsCorr, Open);
    hide OperatorNamed;
  }

  /** The registered names of the other operators. */
  lemma RowNames()
    ensures OperatorNamed("rank") == Some(Rank) && OperatorNamed("scale") == Some(Scale) && OperatorNamed("sign") == Some(Sign)
    ensures OperatorNamed("abs") == Some(Abs) && OperatorNamed("log") == Some(Log) && OperatorNamed("add") == Some(Add)
    ensures OperatorNamed("sub") == Some(Sub) && OperatorNamed("mul") == Some(Mul) && OperatorNamed("div") == Some(Div)
  {
    NamesRoundTrip(Rank, Open);
    NamesRoundTrip(Scale, Open);
    NamesRoundTrip(Sign, Open);
    NamesRoundTrip(Abs, Open);
    NamesRoundTrip(Log, Open);
    NamesRoundTrip(Add, Open);
    NamesRoundTrip(Sub, Open);
    NamesRoundTrip(Mul, Open);
    NamesRoundTrip(Div, Open);
    hide OperatorNamed;
  }

  /** The registered names of the fields. */
  lemma FieldNames()
    ensures FieldNamed("open") == Some(Open) && FieldNamed("high") == Some(High) && FieldNamed("low") == Some(Low)
    ensures FieldNamed("close") == Some(Close) && FieldNamed("volume") == Some(Volume) && FieldNamed("returns") == Some(Returns)
  {
    NamesRoundTrip(Rank, Open);
    NamesRoundTrip(Rank, High);
    NamesRoundTrip(Rank, Low);
    NamesRoundTrip(Rank, Close);
    NamesRoundTrip(Rank, Volume);
    NamesRoundTrip(Rank, Returns);
    hide FieldNamed;
  }

  // ---------------------------------------------------------------- JSON

  /** A decoded JSON value; a number may be infinite or no number. Of an object only the four keys the parser asks for
      matter; an absent key is None. */
  datatype Json =
    | JNull
    | JBool(b: bool)
    | JInt(n: int)
    | JReal(r: real)
    | JInfinite
    | JNaN
    | JStr(s: string)
    | JList(items: seq<Json>)
    | JObj(field: Option<Json>, op: Option<Json>, children: Option<Json>, window: Option<Json>)

  /** The exceptions that matter here; HookError stands for any other an injected hook may raise. */
  datatype Exception = ValueError | TypeError | OverflowError | KeyError | HookError

  /** What a call to the parser ends in. */
  datatype Parsed = Ok(expr: Expr) | Raises(error: Exception)

  function ToDict(e: Expr): Json
    requires Valid(e)
    decreases e, 1
  {
    if e.op.None? then JObj(Some(JStr(FieldName(e.field.value))), None, None, None)
    else
      JObj(None, Some(JStr(OperatorName(e.op.value))), Some(JList(ToDicts(e.children))),
        if e.window.Some? then Some(JInt(e.window.value)) else None)
  }

  function ToDicts(es: seq<Expr>): (r: seq<Json>)
    requires forall c | c in es :: Valid(c)
    ensures |r| == |es|
    decreases es, 0
  {
    if es == [] then [] else [ToDict(es[0])] + ToDicts(es[1..])
  }

  function Truncate(r: real): int {
    if r >= 0.0 then r.Floor else -((-r).Floor)
  }

  datatype Converted = Number(n: int) | Fails(error: Exception)

  /** `int(x)`; intOf reads a string, None standing for the ValueError of a string that is no number. */
  function ToInt(intOf: string -> Option<int>, j: Json): Converted {
    match j
    case JInt(n) => Number(n)
    case JBool(b) => Number(if b then 1 else 0)
    case JReal(r) => Number(Truncate(r))
    case JInfinite => Fails(OverflowError)
    case JNaN => Fails(ValueError)
    case JStr(s) => if intOf(s).Some? then Number(intOf(s).value) else Fails(ValueError)
    case _ => Fails(TypeError)
  }

  /** A number with a fraction is cut towards zero, and a truth value counts as one or zero. */
  lemma NumbersRead(intOf: string -> Option<int>, r: real)
    ensures ToInt(intOf, JReal(r)).Number?
    ensures var n := ToInt(intOf, JReal(r)).n as real; if r >= 0.0 then n <= r < n + 1.0 else n - 1.0 < r <= n
    ensures ToInt(intOf, JBool(true)) == Number(1) && ToInt(intOf, JBool(false)) == Number(0)
  {
  }

  /** `str(x)` as a registered name; only a string can spell one. */
  function NameOf(j: Option<Json>): string {
    if j.Some? && j.value.JStr? then j.value.s else ""
  }

  function ParseExpr(intOf: string -> Option<int>, data: Json): Parsed
    decreases data, 1
  {
    if !data.JObj? then Raises(ValueError)
    else if data.field.Some? then
      var f := FieldNamed(NameOf(data.field));
      if f.Some? then Ok(Leaf(f.value)) else Raises(ValueError)
    else
      var op := OperatorNamed(NameOf(data.op));
      if op.None? then Raises(ValueError)
      else if data.children.Some? && !data.children.value.JList? then Raises(ValueError)
      else
        var (children, failure) := if data.children.Some? then ParseAll(intOf, data.children.value.items) else ([], ValueError);
        if data.children.Some? && |children| < |data.children.value.items| then Raises(failure)
        else
          match WindowOf(intOf, data.window)
          case Fails(error) => Raises(error)
          case Number(n) =>
            var e := Apply(op.value, children, if HasWindow(data.window) then Some(n) else None);
            if Valid(e) then Ok(e) else Raises(ValueError)
  }

  predicate HasWindow(w: Option<Json>) {
    w.Some? && !w.value.JNull?
  }

  function WindowOf(intOf: string -> Option<int>, w: Option<Json>): Converted {
    if HasWindow(w) then ToInt(intOf, w.value) else Number(0)
  }

  /** The trees parsed before the first failure, and that failure. */
  function ParseAll(intOf: string -> Option<int>, items: seq<Json>): (r: (seq<Expr>, Exception))
    ensures |r.0| <= |items|
    decreases items, 0
  {
    if items == [] then ([], ValueError)
    else
      match ParseExpr(intOf, items[0])
      case Raises(error) => ([], error)
      case Ok(e) =>
        var rest := ParseAll(intOf, items[1..]);
        ([e] + rest.0, rest.1)
  }

  /** Whatever the parser accepts passes validation and comes from the constructors. */
  lemma {:induction false} ParseSound(intOf: string -> Option<int>, data: Json)
    ensures ParseExpr(intOf, data).Ok? ==> Valid(ParseExpr(intOf, data).expr) && Canonical(ParseExpr(intOf, data).expr)
    decreases data, 1
  {
    if data.JObj? && data.children.Some? && data.children.value.JList? {
      ParseAllCanonical(intOf, data.children.value.items);
    }
  }

  lemma {:induction false} ParseAllCanonical(intOf: string -> Option<int>, items: seq<Json>)
    ensures forall c | c in ParseAll(intOf, items).0 :: Canonical(c)
    decreases items, 0
  {
    if items != [] {
      ParseSound(intOf, items[0]);
      ParseAllCanonical(intOf, items[1..]);
    }
  }

  /** Printing then parsing gives the tree back, less the fields its inner nodes may carry. */
  lemma {:induction false} ParsePrinted(intOf: string -> Option<int>, e: Expr)
    requires Valid(e)
    ensures ParseExpr(intOf, ToDict(e)) == Ok(Clean(e)) && Valid(Clean(e))
    decreases e, 1
  {
    if e.op.None? {
      NamesRoundTrip(Rank, e.field.value);
    } else {
      NamesRoundTrip(e.op.value, Open);
      ParsePrintedAll(intOf, e.children);
      forall c | c in CleanAll(e.children) ensures Valid(c) {
        var i :| 0 <= i < |e.children| && CleanAll(e.children)[i] == c;
        ParsePrinted(intOf, e.children[i]);
      }
    }
  }

  lemma {:induction false} ParsePrintedAll(intOf: string -> Option<int>, es: seq<Expr>)
    requires forall c | c in es :: Valid(c)
    ensures ParseAll(intOf, ToDicts(es)).0 == CleanAll(es)
    decreases es, 0
  {
    if es != [] {
      ParsePrinted(intOf, es[0]);
      ParsePrintedAll(intOf, es[1..]);
      assert ToDicts(es)[1..] == ToDicts(es[1..]);
    }
  }

  /** The documented law parse_expr(to_dict(e)) == e holds exactly when no inner node carries a field. */
  lemma RoundTripIff(intOf: string -> Option<int>, e: Expr)
    requires Valid(e)
    ensures ParseExpr(intOf, ToDict(e)) == Ok(e) <==> Canonical(e)
  {
    ParsePrinted(intOf, e);
    CleanIffCanonical(e);
  }

  /** A tree that passes validation and does not survive the round trip. */
  lemma RoundTripFails(intOf: string -> Option<int>)
    ensures var e := Expr(Some(Rank), Some(Close), None, [Leaf(Close)]);
      Valid(e) && ParseExpr(intOf, ToDict(e)) != Ok(e)
  {
    var e := Expr(Some(Rank), Some(Close), None, [Leaf(Close)]);
    RoundTripIff(intOf, e);
  }

  // ---------------------------------------------------------------- which values parse, and which escape

  predicate WindowOk(intOf: string -> Option<int>, op: Operator, w: Option<Json>) {
    if Windowed(op) then HasWindow(w) && ToInt(intOf, w.value).Number? && MIN_WINDOW <= ToInt(intOf, w.value).n <= MAX_WINDOW
    else !HasWindow(w)
  }

  /** The value is written as the language asks: known names, the right number of children, windows where they belong. */
  predicate WellFormed(intOf: string -> Option<int>, data: Json)
    decreases data
  {
    && data.JObj?
    && if data.field.Some? then FieldNamed(NameOf(data.field)).Some?
       else
         var op := OperatorNamed(NameOf(data.op));
         && op.Some? && data.children.Some? && data.children.value.JList?
         && |data.children.value.items| == Arity(op.value) && WindowOk(intOf, op.value, data.window)
         && forall c | c in data.children.value.items :: WellFormed(intOf, c)
  }

  /** The parser accepts exactly the well-formed values. */
  lemma {:induction false} ParsesIff(intOf: string -> Option<int>, data: Json)
    ensures ParseExpr(intOf, data).Ok? <==> WellFormed(intOf, data)
    decreases data, 1
  {
    if data.JObj? && data.children.Some? && data.children.value.JList? {
      ParsesAllIff(intOf, data.children.value.items);
      ParseAllValid(intOf, data.children.value.items);
    }
  }

  lemma {:induction false} ParsesAllIff(intOf: string -> Option<int>, items: seq<Json>)
    ensures |ParseAll(intOf, items).0| == |items| <==> forall c | c in items :: WellFormed(intOf, c)
    decreases items, 0
  {
    if items != [] {
      ParsesIff(intOf, items[0]);
      ParsesAllIff(intOf, items[1..]);
      assert forall c :: c in items <==> c == items[0] || c in items[1..];
    }
  }

  lemma {:induction false} ParseAllValid(intOf: string -> Option<int>, items: seq<Json>)
    ensures forall c | c in ParseAll(intOf, items).0 :: Valid(c)
    decreases items, 0
  {
    if items != [] && ParseExpr(intOf, items[0]).Ok? {
      ParseSound(intOf, items[0]);
      ParseAllValid(intOf, items[1..]);
    }
  }

  /** Reading this window raises something else than ValueError. */
  predicate WindowEscapes(w: Option<Json>, error: Exception) {
    w.Some? &&
    match w.value
    case JList(_) => error == TypeError
    case JObj(_, _, _, _) => error == TypeError
    case JInfinite => error == OverflowError
    case _ => false
  }

  /** A known operator whose children are well-formed and whose window cannot be read, or the first child that is not
      well-formed is such a value. */
  predicate Escapes(intOf: string -> Option<int>, data: Json, error: Exception)
    decreases data, 1
  {
    && data.JObj? && data.field.None? && OperatorNamed(NameOf(data.op)).Some?
    && (data.children.Some? ==> data.children.value.JList?)
    && var items := if data.children.Some? then data.children.value.items else [];
    if forall c | c in items :: WellFormed(intOf, c) then WindowEscapes(data.window, error) else EscapesFirst(intOf, items, error)
  }

  predicate EscapesFirst(intOf: string -> Option<int>, items: seq<Json>, error: Exception)
    decreases items, 0
  {
    && items != []
    && if WellFormed(intOf, items[0]) then EscapesFirst(intOf, items[1..], error) else Escapes(intOf, items[0], error)
  }

  /** The parser raises something else than ValueError on exactly these values. */
  lemma {:induction false} EscapesIff(intOf: string -> Option<int>, data: Json, error: Exception)
    requires error != ValueError
    ensures ParseExpr(intOf, data) == Raises(error) <==> Escapes(intOf, data, error)
    decreases data, 1
  {
    if data.JObj? && data.children.Some? && data.children.value.JList? {
      ParsesAllIff(intOf, data.children.value.items);
      EscapesFirstIff(intOf, data.children.value.items, error);
    }
  }

  lemma {:induction false} EscapesFirstIff(intOf: string -> Option<int>, items: seq<Json>, error: Exception)
    requires error != ValueError
    ensures |ParseAll(intOf, items).0| < |items| ==> (ParseAll(intOf, items).1 == error <==> EscapesFirst(intOf, items, error))
    decreases items, 0
  {
    if items != [] {
      ParsesIff(intOf, items[0]);
      EscapesIff(intOf, items[0], error);
      EscapesFirstIff(intOf, items[1..], error);
    }
  }

  /** No window anywhere in the value is a list, an object or infinite. */
  predicate PlainWindows(data: Json)
    decreases data
  {
    data.JObj? ==>
      && (data.window.Some? ==> !data.window.value.JList? && !data.window.value.JObj? && !data.window.value.JInfinite?)
      && (data.children.Some? && data.children.value.JList? ==>
          forall c | c in data.children.value.items :: PlainWindows(c))
  }

  /** With plain windows the parser raises nothing but ValueError. */
  lemma {:induction false} OnlyValueErrors(intOf: string -> Option<int>, data: Json)
    requires PlainWindows(data)
    ensures ParseExpr(intOf, data).Ok? || ParseExpr(intOf, data) == Raises(ValueError)
    decreases data, 1
  {
    if data.JObj? && data.children.Some? && data.children.value.JList? {
      OnlyValueErrorsAll(intOf, data.children.value.items);
    }
  }

  lemma {:induction false} OnlyValueErrorsAll(intOf: string -> Option<int>, items: seq<Json>)
    requires forall c | c in items :: PlainWindows(c)
    ensures ParseAll(intOf, items).1 == ValueError
    decreases items, 0
  {
    if items != [] {
      OnlyValueErrors(intOf, items[0]);
      OnlyValueErrorsAll(intOf, items[1..]);
    }
  }

  function RankWithWindow(window: Json): Json {
    JObj(None, Some(JStr("rank")), None, Some(window))
  }

  /** A list given as a window escapes the parser as a TypeError. */
  lemma ListWindowRaisesTypeError(intOf: string -> Option<int>)
    ensures ParseExpr(intOf, RankWithWindow(JList([]))) == Raises(TypeError)
  {
    NamesRoundTrip(Rank, Open);
  }

  /** An infinite number given as a window, as `1e400` decodes, escapes the parser as an OverflowError. */
  lemma InfiniteWindowRaisesOverflowError(intOf: string -> Option<int>)
    ensures ParseExpr(intOf, RankWithWindow(JInfinite)) == Raises(OverflowError)
  {
    NamesRoundTrip(Rank, Open);
  }

  // ---------------------------------------------------------------- the columns a tree reads

  /** The fields at the leaves: what evaluating the tree looks up. */
  function LeafFields(e: Expr): set<Field>
    decreases e
  {
    if e.op.None? then (if e.field.Some? then {e.field.value} else {})
    else set i, f | 0 <= i < |e.children| && f in LeafFields(e.children[i]) :: f
  }
}
