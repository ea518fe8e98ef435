/** What the lowering of matches leaves, and how it numbers the locals it makes. */
module MatchForm {
  import opened Basics
  import opened MatchLanguage
  import opened MatchLowering

  // ---------------------------------------------------------------------------------------------
  // The lowered tree.

  /** No match is left, and every handler names its exception. */
  predicate IsCore(e: Expr) {
    match e
    case Empty => true
    case Literal(_) => true
    case Variable(_) => true
    case Apply(_, left, right) => IsCore(left) && IsCore(right)
    case And(left, right) => IsCore(left) && IsCore(right)
    case Or(left, right) => IsCore(left) && IsCore(right)
    case If(condition, thenBranch, elseBranch) => IsCore(condition) && IsCore(thenBranch) && IsCore(elseBranch)
    case Let(_, initializer, body) => IsCore(initializer) && IsCore(body)
    case Sequence(first, second) => IsCore(first) && IsCore(second)
    case Assign(_, value) => IsCore(value)
    case Throw(exception) => IsCore(exception)
    case TypeTest(operand, _) => IsCore(operand)
    case Cast(operand, _) => IsCore(operand)
    case While(condition, body) => IsCore(condition) && IsCore(body)
    case Try(attempt, binder, handler) => binder.Some? && IsCore(attempt) && IsCore(handler)
    case Match(_, _) => false
  }

  predicate IsCoreCase(c: Case) {
    (c.guard.Some? ==> IsCore(c.guard.value)) && IsCore(c.body)
  }

  lemma {:induction false} TypeTestsAreCore(selector: string, types: seq<string>, tested: Expr)
    requires IsCore(tested)
    ensures IsCore(TypeTests(selector, types, tested))
    decreases |types|
  {
    if types == [] {
    } else {
      TypeTestsAreCore(selector, types[1..], Or(tested, TypeTest(Variable(selector), types[0])));
    }
  }

  lemma {:induction false} ComparisonsAreCore(selector: string, values: seq<Value>, compared: Expr)
    requires IsCore(compared)
    ensures IsCore(Comparisons(selector, values, compared))
    decreases |values|
  {
    if values == [] {
    } else {
      ComparisonsAreCore(selector, values[1..], Or(compared, Comparison(selector, values[0])));
    }
  }

  lemma TestIsCore(selector: string, p: Pattern)
    ensures IsCore(PatternTest(selector, p))
  {
    if p.Typed? && p.types != [] {
      TypeTestsAreCore(selector, p.types[1..], TypeTest(Variable(selector), p.types[0]));
    }
    if p.Literals? && p.values != [] {
      ComparisonsAreCore(selector, p.values[1..], Comparison(selector, p.values[0]));
    }
  }

  lemma BindIsCore(selector: string, p: Pattern, e: Expr)
    requires IsCore(e)
    ensures IsCore(Bind(selector, p, e))
  {
  }

  lemma CaseIsCore(selector: string, c: Case, fallback: Expr)
    requires IsCoreCase(c) && IsCore(fallback)
    ensures IsCore(LowerCase(selector, c, fallback))
  {
    TestIsCore(selector, c.pattern);
    BindIsCore(selector, c.pattern, c.body);
    if c.guard.Some? {
      BindIsCore(selector, c.pattern, c.guard.value);
    }
  }

  lemma {:induction false} CasesAreCore(selector: string, cases: seq<Case>)
    requires forall c :: c in cases ==> IsCoreCase(c)
    ensures IsCore(LowerCases(selector, cases))
    decreases |cases|
  {
    if cases == [] {
    } else {
      assert IsCoreCase(cases[0]);
      CasesAreCore(selector, cases[1..]);
      CaseIsCore(selector, cases[0], LowerCases(selector, cases[1..]));
    }
  }

  /** Main result: lowering leaves neither a match nor a handler without a name. */
  lemma {:induction false} LoweredIsCore(e: Expr, n: nat)
    ensures IsCore(Lower(e, n).expr)
    decreases e, 1
  {
    match e
    case Empty =>
    case Literal(_) =>
    case Variable(_) =>
    case Apply(_, left, right) => PairIsCore(e, left, right, n);
    case And(left, right) => PairIsCore(e, left, right, n);
    case Or(left, right) => PairIsCore(e, left, right, n);
    case If(condition, thenBranch, elseBranch) =>
      PairIsCore(e, condition, thenBranch, n);
      LoweredIsCore(elseBranch, Lower(thenBranch, Lower(condition, n).next).next);
    case Let(_, initializer, body) => PairIsCore(e, initializer, body, n);
    case Sequence(first, second) => PairIsCore(e, first, second, n);
    case Assign(_, value) => LoweredIsCore(value, n);
    case Throw(exception) => LoweredIsCore(exception, n);
    case TypeTest(operand, _) => LoweredIsCore(operand, n);
    case Cast(operand, _) => LoweredIsCore(operand, n);
    case While(condition, body) => PairIsCore(e, condition, body, n);
    case Try(attempt, binder, handler) =>
      LoweredIsCore(attempt, n);
      var next := Lower(attempt, n).next;
      LoweredIsCore(handler, if binder.Some? then next else next + 1);
    case Match(_, _) => MatchIsCore(e, n);
  }

  lemma {:induction false} MatchIsCore(e: Expr, n: nat)
    requires e.Match?
    ensures IsCore(Lower(e, n).expr)
    decreases e, 0, |e.cases| + 1
  {
    LoweredIsCore(e.selector, n);
    var inside := LowerInside(e, 0, Lower(e.selector, n).next);
    InsideIsCore(e, 0, Lower(e.selector, n).next);
    CasesAreCore(SyntheticName(inside.next), inside.cases);
  }

  lemma {:induction false} PairIsCore(e: Expr, first: Expr, second: Expr, n: nat)
    requires first < e && second < e
    ensures IsCore(Lower(first, n).expr) && IsCore(Lower(second, Lower(first, n).next).expr)
    decreases e, 0
  {
    LoweredIsCore(first, n);
    LoweredIsCore(second, Lower(first, n).next);
  }

  lemma {:induction false} InsideIsCore(e: Expr, k: nat, n: nat)
    requires e.Match? && k <= |e.cases|
    ensures forall c :: c in LowerInside(e, k, n).cases ==> IsCoreCase(c)
    decreases e, 0, |e.cases| - k
  {
    if k == |e.cases| {
    } else {
      var g := LowerGuard(e, k, n);
      if e.cases[k].guard.Some? {
        LoweredIsCore(e.cases[k].guard.value, n);
      }
      LoweredIsCore(e.cases[k].body, g.1);
      InsideIsCore(e, k + 1, Lower(e.cases[k].body, g.1).next);
    }
  }

  /** A tree without matches and unnamed handlers is left as it is. */
  lemma {:induction false} CoreIsKept(e: Expr, n: nat)
    requires IsCore(e)
    ensures Lower(e, n) == Lowered(e, n)
    decreases e
  {
    match e
    case Empty =>
    case Literal(_) =>
    case Variable(_) =>
    case Apply(_, left, right) =>
      CoreIsKept(left, n);
      CoreIsKept(right, n);
    case And(left, right) =>
      CoreIsKept(left, n);
      CoreIsKept(right, n);
    case Or(left, right) =>
      CoreIsKept(left, n);
      CoreIsKept(right, n);
    case If(condition, thenBranch, elseBranch) =>
      CoreIsKept(condition, n);
      CoreIsKept(thenBranch, n);
      CoreIsKept(elseBranch, n);
    case Let(_, initializer, body) =>
      CoreIsKept(initializer, n);
      CoreIsKept(body, n);
    case Sequence(first, second) =>
      CoreIsKept(first, n);
      CoreIsKept(second, n);
    case Assign(_, value) => CoreIsKept(value, n);
    case Throw(exception) => CoreIsKept(exception, n);
    case TypeTest(operand, _) => CoreIsKept(operand, n);
    case Cast(operand, _) => CoreIsKept(operand, n);
    case While(condition, body) =>
      CoreIsKept(condition, n);
      CoreIsKept(body, n);
    case Try(attempt, _, handler) =>
      CoreIsKept(attempt, n);
      CoreIsKept(handler, n);
  }

  // ---------------------------------------------------------------------------------------------
  // Numbers.

  /** How many matches and unnamed handlers a tree holds. */
  function Made(e: Expr): nat
    decreases e, 1, 0
  {
    match e
    case Empty => 0
    case Literal(_) => 0
    case Variable(_) => 0
    case Apply(_, left, right) => Made(left) + Made(right)
    case And(left, right) => Made(left) + Made(right)
    case Or(left, right) => Made(left) + Made(right)
    case If(condition, thenBranch, elseBranch) => Made(condition) + Made(thenBranch) + Made(elseBranch)
    case Let(_, initializer, body) => Made(initializer) + Made(body)
    case Sequence(first, second) => Made(first) + Made(second)
    case Assign(_, value) => Made(value)
    case Throw(exception) => Made(exception)
    case TypeTest(operand, _) => Made(operand)
    case Cast(operand, _) => Made(operand)
    case While(condition, body) => Made(condition) + Made(body)
    case Try(attempt, binder, handler) => Made(attempt) + Made(handler) + if binder.None? then 1 else 0
    case Match(selector, _) => Made(selector) + MadeInCases(e, 0) + 1
  }

  function MadeInCases(e: Expr, k: nat): nat
    requires e.Match? && k <= |e.cases|
    decreases e, 0, |e.cases| - k
  {
    if k == |e.cases| then 0
    else
      (if e.cases[k].guard.Some? then Made(e.cases[k].guard.value) else 0) + Made(e.cases[k].body) +
      MadeInCases(e, k + 1)
  }

  /** Every match and every unnamed handler takes one number. */
  lemma {:induction false} NumbersTaken(e: Expr, n: nat)
    ensures Lower(e, n).next == n + Made(e)
    decreases e, 1
  {
    match e
    case Empty =>
    case Literal(_) =>
    case Variable(_) =>
    case Apply(_, left, right) => PairTaken(e, left, right, n);
    case And(left, right) => PairTaken(e, left, right, n);
    case Or(left, right) => PairTaken(e, left, right, n);
    case If(condition, thenBranch, elseBranch) =>
      PairTaken(e, condition, thenBranch, n);
      NumbersTaken(elseBranch, Lower(thenBranch, Lower(condition, n).next).next);
    case Let(_, initializer, body) => PairTaken(e, initializer, body, n);
    case Sequence(first, second) => PairTaken(e, first, second, n);
    case Assign(_, value) => NumbersTaken(value, n);
    case Throw(exception) => NumbersTaken(exception, n);
    case TypeTest(operand, _) => NumbersTaken(operand, n);
    case Cast(operand, _) => NumbersTaken(operand, n);
    case While(condition, body) => PairTaken(e, condition, body, n);
    case Try(_, _, _) => TryTaken(e, n);
    case Match(_, _) => MatchTaken(e, n);
  }

  lemma {:induction false} TryTaken(e: Expr, n: nat)
    requires e.Try?
    ensures Lower(e, n).next == n + Made(e) && Lower(e.attempt, n).next == n + Made(e.attempt)
    decreases e, 0
  {
    NumbersTaken(e.attempt, n);
    var next := Lower(e.attempt, n).next;
    NumbersTaken(e.handler, if e.binder.Some? then next else next + 1);
  }

  lemma {:induction false} MatchTaken(e: Expr, n: nat)
    requires e.Match?
    ensures LowerInside(e, 0, Lower(e.selector, n).next).next + 1 == n + Made(e)
    decreases e, 0, |e.cases| + 1
  {
    NumbersTaken(e.selector, n);
    CasesTaken(e, 0, Lower(e.selector, n).next);
  }

  lemma {:induction false} PairTaken(e: Expr, first: Expr, second: Expr, n: nat)
    requires first < e && second < e
    ensures Lower(first, n).next == n + Made(first)
    ensures Lower(second, Lower(first, n).next).next == n + Made(first) + Made(second)
    decreases e, 0
  {
    NumbersTaken(first, n);
    NumbersTaken(second, Lower(first, n).next);
  }

  lemma {:induction false} CasesTaken(e: Expr, k: nat, n: nat)
    requires e.Match? && k <= |e.cases|
    ensures LowerInside(e, k, n).next == n + MadeInCases(e, k)
    decreases e, 0, |e.cases| - k
  {
    if k == |e.cases| {
    } else {
      var g := LowerGuard(e, k, n);
      if e.cases[k].guard.Some? {
        NumbersTaken(e.cases[k].guard.value, n);
      }
      NumbersTaken(e.cases[k].body, g.1);
      CasesTaken(e, k + 1, Lower(e.cases[k].body, g.1).next);
    }
  }

  /** A match's selector takes its number behind everything inside of the match. */
  lemma SelectorNumber(e: Expr, n: nat, k: nat)
    requires e.Match? && k + 1 == n + Made(e)
    ensures var r := Lower(e, n).expr;
            r.Let? && r.name == SyntheticName(k) && r.initializer == Lower(e.selector, n).expr
  {
    MatchTaken(e, n);
    assert k == LowerInside(e, 0, Lower(e.selector, n).next).next;
  }

  /** An unnamed handler takes its number behind what it guards. */
  lemma HandlerNumber(e: Expr, n: nat, k: nat)
    requires e.Try? && e.binder.None? && k == n + Made(e.attempt)
    ensures Lower(e, n).expr == Try(Lower(e.attempt, n).expr, Some(CatchName(k)), Lower(e.handler, k + 1).expr)
  {
    TryTaken(e, n);
    assert k == Lower(e.attempt, n).next;
  }
}
