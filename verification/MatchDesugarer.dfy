/** The parser's lowering of a match, with its counter of fresh locals. */
module MatchDesugarer {
  import opened Basics
  import opened MatchLanguage
  import opened MatchLowering

  class Parser {
    var nextSyntheticLocal: nat

    constructor ()
      ensures nextSyntheticLocal == 0
    {
      nextSyntheticLocal := 0;
    }

    /** The blocks built from a match whose parts are lowered: the cases are folded from the last to the first. */
    method LowerMatch(selector: Expr, cases: seq<Case>) returns (block: Expr)
      modifies this`nextSyntheticLocal
      ensures block == Let(SyntheticName(old(nextSyntheticLocal)), selector,
                           LowerCases(SyntheticName(old(nextSyntheticLocal)), cases))
      ensures nextSyntheticLocal == old(nextSyntheticLocal) + 1
    {
      var selectorName := SyntheticName(nextSyntheticLocal);
      nextSyntheticLocal := nextSyntheticLocal + 1;
      var fallback := Empty;
      var k := |cases|;
      while k > 0
        invariant 0 <= k <= |cases| && nextSyntheticLocal == old(nextSyntheticLocal) + 1
        invariant fallback == LowerCases(selectorName, cases[k..])
      {
        k := k - 1;
        var current := cases[k];
        assert cases[k..][0] == current && cases[k..][1..] == cases[k + 1..];
        if IsCatchAll(current) {
          fallback := Bind(selectorName, current.pattern, current.body);
        } else {
          var condition := Condition(selectorName, current);
          fallback := If(condition, Bind(selectorName, current.pattern, current.body), fallback);
        }
      }
      assert cases[0..] == cases;
      block := Let(selectorName, selector, fallback);
    }

    static method Condition(selector: string, c: Case) returns (condition: Expr)
      ensures condition == CaseCondition(selector, c)
    {
      if c.pattern.Wildcard? || c.pattern.Binding? {
        return if c.guard.Some? then Bind(selector, c.pattern, c.guard.value) else Empty;
      }
      condition := Empty;
      if c.pattern.Typed? && c.pattern.types != [] {
        var types := c.pattern.types;
        condition := TypeTest(Variable(selector), types[0]);
        ghost var first := condition;
        var i := 1;
        while i < |types|
          invariant 1 <= i <= |types|
          invariant TypeTests(selector, types[1..], first) == TypeTests(selector, types[i..], condition)
        {
          assert types[i..][0] == types[i] && types[i..][1..] == types[i + 1..];
          condition := Or(condition, TypeTest(Variable(selector), types[i]));
          i := i + 1;
        }
      } else if c.pattern.Literals? && c.pattern.values != [] {
        var values := c.pattern.values;
        condition := Comparison(selector, values[0]);
        ghost var first := condition;
        var i := 1;
        while i < |values|
          invariant 1 <= i <= |values|
          invariant Comparisons(selector, values[1..], first) == Comparisons(selector, values[i..], condition)
        {
          assert values[i..][0] == values[i] && values[i..][1..] == values[i + 1..];
          condition := Or(condition, Comparison(selector, values[i]));
          i := i + 1;
        }
      }
      if c.guard.Some? {
        condition := And(condition, Bind(selector, c.pattern, c.guard.value));
      }
    }

    /** A handler without a name gets one before its body is read. */
    method LowerTry(e: Expr) returns (r: Expr)
      requires e.Try?
      modifies this`nextSyntheticLocal
      ensures Lowered(r, nextSyntheticLocal) == Lower(e, old(nextSyntheticLocal))
      decreases e, 0, 0
    {
      var a := LowerTree(e.attempt);
      var binder := e.binder;
      if binder.None? {
        binder := Some(CatchName(nextSyntheticLocal));
        nextSyntheticLocal := nextSyntheticLocal + 1;
      }
      var h := LowerTree(e.handler);
      r := Try(a, binder, h);
    }

    /** A whole tree, its matches lowered where their parsing ends. */
    method LowerTree(e: Expr) returns (r: Expr)
      modifies this`nextSyntheticLocal
      ensures Lowered(r, nextSyntheticLocal) == Lower(e, old(nextSyntheticLocal))
      decreases e, 1, 0
    {
      match e
      case Empty => r := e;
      case Literal(_) => r := e;
      case Variable(_) => r := e;
      case Apply(op, left, right) =>
        var l := LowerTree(left);
        var second := LowerTree(right);
        r := Apply(op, l, second);
      case And(left, right) =>
        var l := LowerTree(left);
        var second := LowerTree(right);
        r := And(l, second);
      case Or(left, right) =>
        var l := LowerTree(left);
        var second := LowerTree(right);
        r := Or(l, second);
      case If(condition, thenBranch, elseBranch) =>
        var c := LowerTree(condition);
        var t := LowerTree(thenBranch);
        var f := LowerTree(elseBranch);
        r := If(c, t, f);
      case Let(x, initializer, body) =>
        var i := LowerTree(initializer);
        var b := LowerTree(body);
        r := Let(x, i, b);
      case Sequence(first, second) =>
        var f := LowerTree(first);
        var s := LowerTree(second);
        r := Sequence(f, s);
      case Assign(x, value) =>
        var v := LowerTree(value);
        r := Assign(x, v);
      case Throw(exception) =>
        var x := LowerTree(exception);
        r := Throw(x);
      case TypeTest(operand, typeName) =>
        var o := LowerTree(operand);
        r := TypeTest(o, typeName);
      case Cast(operand, types) =>
        var o := LowerTree(operand);
        r := Cast(o, types);
      case While(condition, body) =>
        var c := LowerTree(condition);
        var b := LowerTree(body);
        r := While(c, b);
      case Try(_, _, _) => r := LowerTry(e);
      case Match(selector, _) =>
        var s := LowerTree(selector);
        var cases := LowerParts(e);
        r := LowerMatch(s, cases);
    }

    /** The cases with their guards and bodies lowered, in the order they are parsed. */
    method LowerParts(e: Expr) returns (lowered: seq<Case>)
      requires e.Match?
      modifies this`nextSyntheticLocal
      ensures LoweredCases(lowered, nextSyntheticLocal) == LowerInside(e, 0, old(nextSyntheticLocal))
      decreases e, 0, 0
    {
      lowered := [];
      var k := 0;
      while k < |e.cases|
        invariant 0 <= k <= |e.cases|
        invariant var rest := LowerInside(e, k, nextSyntheticLocal);
                  LowerInside(e, 0, old(nextSyntheticLocal)) == LoweredCases(lowered + rest.cases, rest.next)
      {
        var c := e.cases[k];
        ghost var n := nextSyntheticLocal;
        var guard: Option<Expr> := None;
        if c.guard.Some? {
          var g := LowerTree(c.guard.value);
          guard := Some(g);
        }
        assert (guard, nextSyntheticLocal) == LowerGuard(e, k, n);
        var body := LowerTree(c.body);
        ghost var rest := LowerInside(e, k + 1, nextSyntheticLocal);
        assert LowerInside(e, k, n) == LoweredCases([Case(c.pattern, guard, body)] + rest.cases, rest.next);
        Regroup(lowered, Case(c.pattern, guard, body), rest.cases);
        lowered := lowered + [Case(c.pattern, guard, body)];
        k := k + 1;
      }
    }
  }

  lemma Regroup(a: seq<Case>, c: Case, b: seq<Case>)
    ensures a + ([c] + b) == (a + [c]) + b
  {
  }
}
