/** The canonical formula text and the abstract gene: printing is uniquely readable. */
module Formula {

  import opened Basics
  import opened FactorDsl

  // ---------------------------------------------------------------- terms and their text

  /** What both printers print: a name, or a name applied to arguments; a window is a last argument. */
  datatype Term = Atom(name: string) | Call(name: string, args: seq<Term>)

  predicate NameChar(c: char) {
    'a' <= c <= 'z' || '0' <= c <= '9' || c == '_'
  }

  predicate IsName(s: string) {
    s != [] && forall c | c in s :: NameChar(c)
  }

  predicate WellNamed(t: Term)
    decreases t
  {
    IsName(t.name) && (t.Call? ==> t.args != [] && forall a | a in t.args :: WellNamed(a))
  }

  function Render(t: Term): string
    decreases t, 1
  {
    match t
    case Atom(name) => name
    case Call(name, args) => name + "(" + Join(args) + ")"
  }

  /** `", ".join(...)`. */
  function Join(ts: seq<Term>): string
    decreases ts, 0
  {
    if ts == [] then ""
    else if |ts| == 1 then Render(ts[0])
    else Render(ts[0]) + ", " + Join(ts[1..])
  }

  /** Text that can follow a complete term. */
  predicate Delimited(r: string) {
    r == [] || r[0] == ',' || r[0] == ')'
  }

  /** A name ends where the first other character begins. */
  lemma {:induction false} NameSplit(n1: string, n2: string, r1: string, r2: string)
    requires (forall c | c in n1 :: NameChar(c)) && (forall c | c in n2 :: NameChar(c))
    requires (r1 == [] || !NameChar(r1[0])) && (r2 == [] || !NameChar(r2[0]))
    requires n1 + r1 == n2 + r2
    ensures n1 == n2 && r1 == r2
  {
    assert if n1 == [] then n1 + r1 == r1 else (n1 + r1)[0] == n1[0] && (n1 + r1)[1..] == n1[1..] + r1;
    assert if n2 == [] then n2 + r2 == r2 else (n2 + r2)[0] == n2[0] && (n2 + r2)[1..] == n2[1..] + r2;
    if n1 != [] && n2 != [] {
      NameSplit(n1[1..], n2[1..], r1, r2);
    }
  }

  function AfterName(t: Term): string {
    match t
    case Atom(_) => ""
    case Call(_, args) => "(" + Join(args) + ")"
  }

  lemma RenderSplit(t: Term, r: string)
    ensures Render(t) + r == t.name + (AfterName(t) + r)
  {
    if t.Call? {
      assert Render(t) == t.name + AfterName(t);
      AppendAssociative(t.name, AfterName(t), r);
    } else {
      assert AfterName(t) + r == r;
    }
  }

  /** Text determines the term: no term's text followed by a delimiter is another's. */
  lemma {:induction false} UniqueReading(t1: Term, t2: Term, r1: string, r2: string)
    requires WellNamed(t1) && WellNamed(t2) && Delimited(r1) && Delimited(r2)
    requires Render(t1) + r1 == Render(t2) + r2
    ensures t1 == t2 && r1 == r2
    decreases t1, 1
  {
    hide Render, Join, NameChar;
    RenderSplit(t1, r1);
    RenderSplit(t2, r2);
    ContinuesAfterName(t1, r1);
    ContinuesAfterName(t2, r2);
    NameSplit(t1.name, t2.name, AfterName(t1) + r1, AfterName(t2) + r2);
    if t1.Call? {
      UniqueArgs(t1.args, t2.args, r1, r2);
    }
  }

  lemma ContinuesAfterName(t: Term, r: string)
    requires Delimited(r)
    ensures var s := AfterName(t) + r;
      if t.Atom? then s == r && (s == [] || !NameChar(s[0]))
      else s != [] && s[0] == '(' && !NameChar(s[0]) && s[1..] == Join(t.args) + (")" + r)
  {
    if t.Call? {
      AppendAssociative("(", Join(t.args), ")");
      AppendAssociative("(", Join(t.args) + ")", r);
      AppendAssociative(Join(t.args), ")", r);
    }
  }

  function AfterFirst(ts: seq<Term>, r: string): string
    requires ts != []
  {
    if |ts| == 1 then ")" + r else ", " + (Join(ts[1..]) + (")" + r))
  }

  lemma JoinSplit(ts: seq<Term>, r: string)
    requires ts != []
    ensures Join(ts) + (")" + r) == Render(ts[0]) + AfterFirst(ts, r)
  {
    if |ts| > 1 {
      var first, rest := Render(ts[0]), Join(ts[1..]);
      AppendAssociative(first + ", ", rest, ")" + r);
      AppendAssociative(first, ", ", rest + (")" + r));
    }
  }

  lemma {:induction false} UniqueArgs(a1: seq<Term>, a2: seq<Term>, r1: string, r2: string)
    requires a1 != [] && a2 != []
    requires (forall a | a in a1 :: WellNamed(a)) && (forall a | a in a2 :: WellNamed(a))
    requires Join(a1) + (")" + r1) == Join(a2) + (")" + r2)
    ensures a1 == a2 && r1 == r2
    decreases a1, 0
  {
    JoinSplit(a1, r1);
    JoinSplit(a2, r2);
    var s1, s2 := AfterFirst(a1, r1), AfterFirst(a2, r2);
    UniqueReading(a1[0], a2[0], s1, s2);
    assert s1[0] == if |a1| == 1 then ')' else ',';
    assert s2[0] == if |a2| == 1 then ')' else ',';
    if |a1| == 1 {
      assert s1[1..] == r1 && s2[1..] == r2;
    } else {
      assert s1[2..] == Join(a1[1..]) + (")" + r1);
      assert s2[2..] == Join(a2[1..]) + (")" + r2);
      UniqueArgs(a1[1..], a2[1..], r1, r2);
      assert a1 == [a1[0]] + a1[1..] && a2 == [a2[0]] + a2[1..];
    }
  }

  // ---------------------------------------------------------------- numbers

  function DigitChar(d: nat): char
    requires d < 10
  {
    '0' + d as char
  }

  /** A natural number in decimal. */
  function Digits(n: nat): (s: string)
    ensures IsName(s)
  {
    if n < 10 then [DigitChar(n)] else Digits(n / 10) + [DigitChar(n % 10)]
  }

  function IntText(n: int): string {
    if n < 0 then "-" + Digits(-n) else Digits(n)
  }

  lemma {:induction false} DigitsInjective(m: nat, n: nat)
    requires Digits(m) == Digits(n)
    ensures m == n
  {
    var s, t := Digits(m), Digits(n);
    assert s[|s| - 1] == DigitChar(m % 10) && t[|t| - 1] == DigitChar(n % 10);
    assert |s| >= 2 <==> m >= 10;
    assert |t| >= 2 <==> n >= 10;
    if m >= 10 {
      assert s[..|s| - 1] == Digits(m / 10) && t[..|t| - 1] == Digits(n / 10);
      DigitsInjective(m / 10, n / 10);
    }
  }

  /** The number a text of digits stands for. */
  function NumberOf(s: string): int {
    if s == "" then 0 else 10 * NumberOf(s[..|s| - 1]) + (s[|s| - 1] as int - '0' as int)
  }

  /** The digits of n, the first of them not zero unless it is the only one, stand for n. */
  lemma {:induction false} DigitsStandFor(n: nat)
    ensures NumberOf(Digits(n)) == n && (n >= 10 ==> Digits(n)[0] != '0')
    ensures n < 10 ==> |Digits(n)| == 1
  {
    var s := Digits(n);
    if n < 10 {
      assert s[..0] == "";
    } else {
      DigitsStandFor(n / 10);
      assert s[..|s| - 1] == Digits(n / 10);
      if n / 10 < 10 {
        assert s[0] == DigitChar(n / 10);
      }
    }
  }

  // ---------------------------------------------------------------- the two printers

  function FieldText(e: Expr): string
    requires Valid(e) && e.op.None?
  {
    FieldName(e.field.value)
  }

  /** `to_formula`. */
  function ToFormula(e: Expr): string
    requires Valid(e)
    decreases e, 1
  {
    if e.op.None? then FieldText(e)
    else
      var inner := FormulaList(e.children);
      var full := if e.window.Some? then inner + ", " + IntText(e.window.value) else inner;
      OperatorName(e.op.value) + "(" + full + ")"
  }

  function FormulaList(es: seq<Expr>): string
    requires forall c | c in es :: Valid(c)
    decreases es, 0
  {
    if es == [] then ""
    else if |es| == 1 then ToFormula(es[0])
    else ToFormula(es[0]) + ", " + FormulaList(es[1..])
  }

  /** `abstract_gene`: the formula with every window replaced by "t". */
  function AbstractGene(e: Expr): string
    requires Valid(e)
    decreases e, 1
  {
    if e.op.None? then FieldText(e)
    else
      var inner := GeneList(e.children);
      var full := if Windowed(e.op.value) then inner + ", t" else inner;
      OperatorName(e.op.value) + "(" + full + ")"
  }

  function GeneList(es: seq<Expr>): string
    requires forall c | c in es :: Valid(c)
    decreases es, 0
  {
    if es == [] then ""
    else if |es| == 1 then AbstractGene(es[0])
    else AbstractGene(es[0]) + ", " + GeneList(es[1..])
  }

  /** The term either printer prints; `exact` keeps the window, otherwise it becomes "t". */
  function TermOf(e: Expr, exact: bool): Term
    requires Valid(e)
    decreases e, 1
  {
    if e.op.None? then Atom(FieldText(e))
    else
      Call(OperatorName(e.op.value),
        TermsOf(e.children, exact) +
        if !Windowed(e.op.value) then [] else [Atom(if exact then IntText(e.window.value) else "t")])
  }

  function TermsOf(es: seq<Expr>, exact: bool): (ts: seq<Term>)
    requires forall c | c in es :: Valid(c)
    ensures |ts| == |es|
    decreases es, 0
  {
    if es == [] then [] else [TermOf(es[0], exact)] + TermsOf(es[1..], exact)
  }

  lemma {:induction false} TermsOfAt(es: seq<Expr>, exact: bool, i: nat)
    requires (forall c | c in es :: Valid(c)) && i < |es|
    ensures TermsOf(es, exact)[i] == TermOf(es[i], exact)
  {
    if i > 0 {
      TermsOfAt(es[1..], exact, i - 1);
    }
  }

  lemma OperatorNamesAreNames(op: Operator)
    ensures IsName(OperatorName(op))
  {
  }

  lemma FieldNamesAreNames(f: Field)
    ensures IsName(FieldName(f))
  {
  }

  lemma {:induction false} TermWellNamed(e: Expr, exact: bool)
    requires Valid(e)
    ensures WellNamed(TermOf(e, exact))
  {
    if e.op.None? {
      FieldNamesAreNames(e.field.value);
    } else {
      OperatorNamesAreNames(e.op.value);
      forall a | a in TermOf(e, exact).args ensures WellNamed(a) {
        var i :| 0 <= i < |TermOf(e, exact).args| && TermOf(e, exact).args[i] == a;
        if i < |e.children| {
          TermsOfAt(e.children, exact, i);
          TermWellNamed(e.children[i], exact);
        }
      }
    }
  }

  lemma {:induction false} JoinAppend(ts: seq<Term>, last: Term)
    requires ts != []
    ensures Join(ts + [last]) == Join(ts) + ", " + Render(last)
  {
    assert (ts + [last])[1..] == ts[1..] + [last];
    if |ts| == 1 {
      assert (ts + [last])[1..] == [last];
    } else {
      JoinAppend(ts[1..], last);
      assert Render(ts[0]) + ", " + (Join(ts[1..]) + ", " + Render(last))
          == Render(ts[0]) + ", " + Join(ts[1..]) + ", " + Render(last);
    }
  }

  lemma {:induction false} FormulaIsRender(e: Expr)
    requires Valid(e)
    ensures ToFormula(e) == Render(TermOf(e, true))
    decreases e, 1
  {
    if e.op.Some? {
      FormulaListIsJoin(e.children);
      if Windowed(e.op.value) {
        JoinAppend(TermsOf(e.children, true), Atom(IntText(e.window.value)));
      } else {
        assert TermsOf(e.children, true) + [] == TermsOf(e.children, true);
      }
    }
  }

  lemma {:induction false} FormulaListIsJoin(es: seq<Expr>)
    requires forall c | c in es :: Valid(c)
    ensures FormulaList(es) == Join(TermsOf(es, true))
    decreases es, 0
  {
    if es != [] {
      FormulaIsRender(es[0]);
      FormulaListIsJoin(es[1..]);
    }
  }

  lemma {:induction false} GeneIsRender(e: Expr)
    requires Valid(e)
    ensures AbstractGene(e) == Render(TermOf(e, false))
    decreases e, 1
  {
    if e.op.Some? {
      GeneListIsJoin(e.children);
      if Windowed(e.op.value) {
        JoinAppend(TermsOf(e.children, false), Atom("t"));
      } else {
        assert TermsOf(e.children, false) + [] == TermsOf(e.children, false);
      }
    }
  }

  lemma {:induction false} GeneListIsJoin(es: seq<Expr>)
    requires forall c | c in es :: Valid(c)
    ensures GeneList(es) == Join(TermsOf(es, false))
    decreases es, 0
  {
    if es != [] {
      GeneIsRender(es[0]);
      GeneListIsJoin(es[1..]);
    }
  }

  // ---------------------------------------------------------------- what equal text means

  /** Same tree up to unread fields and, unless exact, up to the values of windows. */
  predicate SameTree(a: Expr, b: Expr, exact: bool)
    requires Valid(a) && Valid(b)
    decreases a
  {
    && a.op == b.op
    && (if a.op.None? then a.field == b.field
        else
          && (exact ==> a.window == b.window)
          && |a.children| == |b.children|
          && forall i | 0 <= i < |a.children| :: SameTree(a.children[i], b.children[i], exact))
  }

  lemma {:induction false} SameTerm(a: Expr, b: Expr, exact: bool)
    requires Valid(a) && Valid(b)
    ensures TermOf(a, exact) == TermOf(b, exact) <==> SameTree(a, b, exact)
    decreases a
  {
    if a.op.None? && b.op.None? {
      FieldNamesDistinct(a.field.value, b.field.value);
    } else if a.op.Some? && b.op.Some? {
      OperatorNamesDistinct(a.op.value, b.op.value);
      if a.op == b.op {
        SameArguments(a, b, exact);
      }
    }
  }

  lemma {:induction false} SameArguments(a: Expr, b: Expr, exact: bool)
    requires Valid(a) && Valid(b) && a.op.Some? && a.op == b.op
    ensures TermOf(a, exact) == TermOf(b, exact) <==> SameTree(a, b, exact)
    decreases a, 0
  {
    forall i | 0 <= i < |a.children|
      ensures TermsOf(a.children, exact)[i] == TermsOf(b.children, exact)[i] <==> SameTree(a.children[i], b.children[i], exact)
    {
      TermsOfAt(a.children, exact, i);
      TermsOfAt(b.children, exact, i);
      SameTerm(a.children[i], b.children[i], exact);
    }
    var n := |a.children|;
    var s, t := TermOf(a, exact).args, TermOf(b, exact).args;
    assert s[..n] == TermsOf(a.children, exact) && t[..n] == TermsOf(b.children, exact);
    if Windowed(a.op.value) {
      assert s == s[..n] + [s[n]] && t == t[..n] + [t[n]];
      if exact && IntText(a.window.value) == IntText(b.window.value) {
        DigitsInjective(a.window.value, b.window.value);
      }
    } else {
      assert s == s[..n] && t == t[..n];
    }
    if SameTree(a, b, exact) {
      assert s[..n] == t[..n];
    }
    if s == t {
      assert forall i :: 0 <= i < n ==> s[..n][i] == t[..n][i];
    }
  }

  lemma RenderInjective(s: Term, t: Term)
    requires WellNamed(s) && WellNamed(t)
    ensures Render(s) == Render(t) <==> s == t
  {
    if Render(s) == Render(t) {
      assert Render(s) + [] == Render(t) + [];
      UniqueReading(s, t, [], []);
    }
  }

  /** Equal formulas are equal trees: deduplication by text is deduplication by syntax tree. */
  lemma FormulaInjective(a: Expr, b: Expr)
    requires Valid(a) && Valid(b)
    ensures ToFormula(a) == ToFormula(b) <==> SameTree(a, b, true)
    ensures Canonical(a) && Canonical(b) ==> (ToFormula(a) == ToFormula(b) <==> a == b)
  {
    FormulaIsRender(a);
    FormulaIsRender(b);
    TermWellNamed(a, true);
    TermWellNamed(b, true);
    RenderInjective(TermOf(a, true), TermOf(b, true));
    SameTerm(a, b, true);
    if Canonical(a) && Canonical(b) {
      SameCanonical(a, b);
    }
  }

  lemma {:induction false} SameCanonical(a: Expr, b: Expr)
    requires Valid(a) && Valid(b) && Canonical(a) && Canonical(b)
    ensures SameTree(a, b, true) <==> a == b
    decreases a
  {
    if a.op == b.op && |a.children| == |b.children| {
      forall i | 0 <= i < |a.children|
        ensures SameTree(a.children[i], b.children[i], true) <==> a.children[i] == b.children[i]
      {
        SameCanonical(a.children[i], b.children[i]);
      }
    }
  }

  /** Equal genes are equal trees up to the values of windows. */
  lemma GeneInjective(a: Expr, b: Expr)
    requires Valid(a) && Valid(b)
    ensures AbstractGene(a) == AbstractGene(b) <==> SameTree(a, b, false)
  {
    GeneIsRender(a);
    GeneIsRender(b);
    TermWellNamed(a, false);
    TermWellNamed(b, false);
    RenderInjective(TermOf(a, false), TermOf(b, false));
    SameTerm(a, b, false);
  }

  /** How a formula reads: the operator's name and, in brackets, the arguments in their order and the window. */
  lemma FormulaReads(op: Operator, a: Expr, b: Expr, w: int)
    requires Valid(a) && Valid(b)
    ensures Valid(Apply(op, [a], None)) ==>
      ToFormula(Apply(op, [a], None)) == OperatorName(op) + "(" + ToFormula(a) + ")"
    ensures Valid(Apply(op, [a], Some(w))) ==>
      ToFormula(Apply(op, [a], Some(w))) == OperatorName(op) + "(" + (ToFormula(a) + ", " + IntText(w)) + ")"
    ensures Valid(Apply(op, [a, b], None)) ==>
      ToFormula(Apply(op, [a, b], None)) == OperatorName(op) + "(" + (ToFormula(a) + ", " + ToFormula(b)) + ")"
    ensures Valid(Apply(op, [a, b], Some(w))) ==>
      ToFormula(Apply(op, [a, b], Some(w))) == OperatorName(op) + "(" + (ToFormula(a) + ", " + ToFormula(b) + ", " + IntText(w)) + ")"
  {
    assert FormulaList([a]) == ToFormula(a);
    assert [a, b][1..] == [b] && FormulaList([b]) == ToFormula(b);
    assert FormulaList([a, b]) == ToFormula(a) + ", " + ToFormula(b);
    hide FormulaList, OperatorName, IntText, NodeOk;
  }

  /** A gene reads like it, with t for the window. */
  lemma GeneReads(op: Operator, a: Expr, b: Expr, w: int)
    requires Valid(a) && Valid(b)
    ensures Valid(Apply(op, [a], None)) ==>
      AbstractGene(Apply(op, [a], None)) == OperatorName(op) + "(" + AbstractGene(a) + ")"
    ensures Valid(Apply(op, [a], Some(w))) ==>
      AbstractGene(Apply(op, [a], Some(w))) == OperatorName(op) + "(" + (AbstractGene(a) + ", t") + ")"
    ensures Valid(Apply(op, [a, b], None)) ==>
      AbstractGene(Apply(op, [a, b], None)) == OperatorName(op) + "(" + (AbstractGene(a) + ", " + AbstractGene(b)) + ")"
    ensures Valid(Apply(op, [a, b], Some(w))) ==>
      AbstractGene(Apply(op, [a, b], Some(w))) == OperatorName(op) + "(" + (AbstractGene(a) + ", " + AbstractGene(b) + ", t") + ")"
  {
    assert GeneList([a]) == AbstractGene(a);
    assert [a, b][1..] == [b] && GeneList([b]) == AbstractGene(b);
    assert GeneList([a, b]) == AbstractGene(a) + ", " + AbstractGene(b);
    hide GeneList, OperatorName;
  }
}
