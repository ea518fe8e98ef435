/** How frontend/src/Parser.cpp turns a match into nested conditionals on a fresh local. */
module MatchLowering {
  import opened Basics
  import opened MatchLanguage

  function Digit(d: nat): char
    requires d < 10
  {
    "0123456789"[d]
  }

  function Decimal(n: nat): string {
    if n < 10 then [Digit(n)] else Decimal(n / 10) + [Digit(n % 10)]
  }

  function SyntheticName(n: nat): string {
    MATCH_PREFIX + Decimal(n)
  }

  /** The name a handler gets that takes any exception. */
  function CatchName(n: nat): string {
    CATCH_PREFIX + Decimal(n)
  }

  predicate IsCatchAll(c: Case) {
    (c.pattern.Wildcard? || c.pattern.Binding?) && c.guard.None?
  }

  /** A block that binds the pattern's variable to the selector, cast to the pattern's types when it has some. */
  function Bind(selector: string, p: Pattern, e: Expr): Expr {
    match p
    case Binding(x) => Let(x, Variable(selector), e)
    case Typed(Some(x), types) => Let(x, Cast(Variable(selector), types), e)
    case _ => e
  }

  function TypeTests(selector: string, types: seq<string>, tested: Expr): Expr {
    if types == [] then tested
    else TypeTests(selector, types[1..], Or(tested, TypeTest(Variable(selector), types[0])))
  }

  function Comparison(selector: string, v: Value): Expr {
    Apply("==", Variable(selector), Literal(v))
  }

  function Comparisons(selector: string, values: seq<Value>, compared: Expr): Expr {
    if values == [] then compared
    else Comparisons(selector, values[1..], Or(compared, Comparison(selector, values[0])))
  }

  function PatternTest(selector: string, p: Pattern): Expr {
    match p
    case Typed(_, types) =>
      if types == [] then Empty else TypeTests(selector, types[1..], TypeTest(Variable(selector), types[0]))
    case Literals(values) =>
      if values == [] then Empty else Comparisons(selector, values[1..], Comparison(selector, values[0]))
    case _ => Empty
  }

  /** The condition of a case that is no catch-all. */
  function CaseCondition(selector: string, c: Case): Expr {
    match c.guard
    case None => PatternTest(selector, c.pattern)
    case Some(guard) =>
      if c.pattern.Wildcard? || c.pattern.Binding? then Bind(selector, c.pattern, guard)
      else And(PatternTest(selector, c.pattern), Bind(selector, c.pattern, guard))
  }

  function LowerCase(selector: string, c: Case, fallback: Expr): Expr {
    if IsCatchAll(c) then Bind(selector, c.pattern, c.body)
    else If(CaseCondition(selector, c), Bind(selector, c.pattern, c.body), fallback)
  }

  function LowerCases(selector: string, cases: seq<Case>): Expr {
    if cases == [] then Empty else LowerCase(selector, cases[0], LowerCases(selector, cases[1..]))
  }

  // ---------------------------------------------------------------------------------------------
  // The whole tree, with the parser's counter.

  datatype Lowered = Lowered(expr: Expr, next: nat)

  function Lower(e: Expr, n: nat): (r: Lowered)
    ensures n <= r.next
    decreases e, 1, 0
  {
    match e
    case Empty => Lowered(e, n)
    case Literal(_) => Lowered(e, n)
    case Variable(_) => Lowered(e, n)
    case Apply(op, left, right) =>
      var l := Lower(left, n);
      var r := Lower(right, l.next);
      Lowered(Apply(op, l.expr, r.expr), r.next)
    case And(left, right) =>
      var l := Lower(left, n);
      var r := Lower(right, l.next);
      Lowered(And(l.expr, r.expr), r.next)
    case Or(left, right) =>
      var l := Lower(left, n);
      var r := Lower(right, l.next);
      Lowered(Or(l.expr, r.expr), r.next)
    case If(condition, thenBranch, elseBranch) =>
      var c := Lower(condition, n);
      var t := Lower(thenBranch, c.next);
      var f := Lower(elseBranch, t.next);
      Lowered(If(c.expr, t.expr, f.expr), f.next)
    case Let(x, initializer, body) =>
      var i := Lower(initializer, n);
      var b := Lower(body, i.next);
      Lowered(Let(x, i.expr, b.expr), b.next)
    case Sequence(first, second) =>
      var f := Lower(first, n);
      var s := Lower(second, f.next);
      Lowered(Sequence(f.expr, s.expr), s.next)
    case Assign(x, value) =>
      var v := Lower(value, n);
      Lowered(Assign(x, v.expr), v.next)
    case Throw(exception) =>
      var x := Lower(exception, n);
      Lowered(Throw(x.expr), x.next)
    case TypeTest(operand, typeName) =>
      var o := Lower(operand, n);
      Lowered(TypeTest(o.expr, typeName), o.next)
    case Cast(operand, types) =>
      var o := Lower(operand, n);
      Lowered(Cast(o.expr, types), o.next)
    case While(condition, body) =>
      var c := Lower(condition, n);
      var b := Lower(body, c.next);
      Lowered(While(c.expr, b.expr), b.next)
    case Try(attempt, Some(x), handler) =>
      var a := Lower(attempt, n);
      var h := Lower(handler, a.next);
      Lowered(Try(a.expr, Some(x), h.expr), h.next)
    case Try(attempt, None, handler) =>
      var a := Lower(attempt, n);
      var h := Lower(handler, a.next + 1);
      Lowered(Try(a.expr, Some(CatchName(a.next)), h.expr), h.next)
    case Match(selector, cases) =>
      var s := Lower(selector, n);
      var cs := LowerInside(e, 0, s.next);
      Lowered(Let(SyntheticName(cs.next), s.expr, LowerCases(SyntheticName(cs.next), cs.cases)), cs.next + 1)
  }

  datatype LoweredCases = LoweredCases(cases: seq<Case>, next: nat)

  /** The cases from k on with their guards and bodies lowered, in parsing order. */
  function LowerInside(e: Expr, k: nat, n: nat): (r: LoweredCases)
    requires e.Match? && k <= |e.cases|
    ensures |r.cases| == |e.cases| - k && n <= r.next
    decreases e, 0, |e.cases| - k + 1
  {
    if k == |e.cases| then LoweredCases([], n)
    else
      var c := e.cases[k];
      var g := LowerGuard(e, k, n);
      var b := Lower(c.body, g.1);
      var rest := LowerInside(e, k + 1, b.next);
      LoweredCases([Case(c.pattern, g.0, b.expr)] + rest.cases, rest.next)
  }

  function LowerGuard(e: Expr, k: nat, n: nat): (r: (Option<Expr>, nat))
    requires e.Match? && k < |e.cases|
    ensures n <= r.1
    decreases e, 0, 0
  {
    match e.cases[k].guard
    case None => (None, n)
    case Some(guard) => var g := Lower(guard, n); (Some(g.expr), g.next)
  }
}
