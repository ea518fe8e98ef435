/** Lowering a match keeps first-match meaning, and its fresh locals capture nothing. */
module MatchCorrectness {
  import opened Basics
  import opened MatchLanguage
  import opened MatchLowering

  // ---------------------------------------------------------------------------------------------
  // What the source may contain, and how the two environments are related.

  /** Numbers of compiler-made locals, from low up to but not including high. */
  datatype Range = Range(low: nat, high: nat)

  /** A name the parser makes with a number of the range, for a selector or an exception. */
  predicate IsMade(made: Range, x: string, k: nat) {
    made.low <= k < made.high && (x == SyntheticName(k) || x == CatchName(k))
  }

  ghost predicate IsFresh(made: Range, x: string) {
    exists k: nat {:trigger IsMade(made, x, k)} :: IsMade(made, x, k)
  }

  predicate HasAlternatives(p: Pattern) {
    (p.Typed? ==> p.types != []) && (p.Literals? ==> p.values != [])
  }

  ghost predicate PatternOk(made: Range, p: Pattern) {
    HasAlternatives(p) && (BoundName(p).Some? ==> !IsFresh(made, BoundName(p).value))
  }

  /** A tree the parser builds from a program that uses none of these compiler-made names. */
  ghost predicate SourceOk(made: Range, e: Expr) {
    match e
    case Empty => true
    case Literal(_) => true
    case Variable(x) => !IsFresh(made, x)
    case Apply(_, left, right) => SourceOk(made, left) && SourceOk(made, right)
    case And(left, right) => SourceOk(made, left) && SourceOk(made, right)
    case Or(left, right) => SourceOk(made, left) && SourceOk(made, right)
    case If(condition, thenBranch, elseBranch) =>
      SourceOk(made, condition) && SourceOk(made, thenBranch) && SourceOk(made, elseBranch)
    case Let(x, initializer, body) => !IsFresh(made, x) && SourceOk(made, initializer) && SourceOk(made, body)
    case Sequence(first, second) => SourceOk(made, first) && SourceOk(made, second)
    case Assign(x, value) => !IsFresh(made, x) && SourceOk(made, value)
    case Throw(exception) => SourceOk(made, exception)
    case TypeTest(operand, _) => SourceOk(made, operand)
    case Cast(operand, _) => SourceOk(made, operand)
    case While(condition, body) => SourceOk(made, condition) && SourceOk(made, body)
    case Try(attempt, binder, handler) =>
      (binder.Some? ==> !IsFresh(made, binder.value)) && SourceOk(made, attempt) && SourceOk(made, handler)
    case Match(selector, cases) => SourceOk(made, selector) && forall c :: c in cases ==> CaseOk(made, c)
  }

  ghost predicate CaseOk(made: Range, c: Case) {
    PatternOk(made, c.pattern) && (c.guard.Some? ==> SourceOk(made, c.guard.value)) && SourceOk(made, c.body)
  }

  /** The environments hold the same source locals with the same values. */
  ghost predicate Agrees(made: Range, a: Env, b: Env) {
    forall x {:trigger x in a} {:trigger x in b} | !IsFresh(made, x) :: SameAt(x, a, b)
  }

  predicate SameAt(x: string, a: Env, b: Env) {
    (x in a <==> x in b) && (x in a ==> a[x] == b[x])
  }

  /** Compiler-made locals with numbers from m on are untouched. */
  ghost predicate Keeps(made: Range, m: nat, a: Env, b: Env) {
    forall k: nat {:trigger SyntheticName(k)} | m <= k && made.low <= k < made.high :: SameAt(SyntheticName(k), a, b)
  }

  /** The tree uses none of the names its lowering makes, and these lie in the range. */
  ghost predicate Lowers(made: Range, e: Expr, n: nat) {
    SourceOk(made, e) && made.low <= n && Lower(e, n).next <= made.high
  }

  ghost predicate Simulates(made: Range, m: nat, s: Run, t: Run, before: Env) {
    s.outcome == t.outcome && s.trace == t.trace && Agrees(made, s.env, t.env) && Keeps(made, m, before, t.env)
  }

  // ---------------------------------------------------------------------------------------------
  // Blocks.

  lemma LeaveSourceLocal(w: World, made: Range, x: string, m: nat, s0: Env, t0: Env, s1: Env, t1: Env)
    requires !IsFresh(made, x) && Agrees(made, s0, t0) && Agrees(made, s1, t1)
    ensures Agrees(made, Leave(w, x, s0, s1), Leave(w, x, t0, t1))
    ensures forall before {:trigger Keeps(made, m, before, t1)} | Keeps(made, m, before, t1) ::
              Keeps(made, m, before, Leave(w, x, t0, t1))
  {
    forall y | !IsFresh(made, y)
      ensures SameAt(y, Leave(w, x, s0, s1), Leave(w, x, t0, t1))
    {
      assert SameAt(y, s0, t0) && SameAt(y, s1, t1) && SameAt(x, s0, t0);
    }
    forall k: nat | made.low <= k < made.high ensures SyntheticName(k) != x {
      assert IsMade(made, SyntheticName(k), k);
    }
  }

  lemma LeaveSynthetic(w: World, made: Range, m: nat, k: nat, s: Env, t0: Env, t1: Env, v: Value)
    requires k < m && made.low <= k < made.high && Agrees(made, s, t1) && Keeps(made, m, t0[SyntheticName(k) := v], t1)
    ensures Agrees(made, s, Leave(w, SyntheticName(k), t0, t1))
    ensures Keeps(made, m, t0, Leave(w, SyntheticName(k), t0, t1))
  {
    forall y | !IsFresh(made, y)
      ensures SameAt(y, s, Leave(w, SyntheticName(k), t0, t1))
    {
      assert SameAt(y, s, t1) && IsMade(made, SyntheticName(k), k);
    }
    forall j: nat | m <= j && made.low <= j < made.high
      ensures SameAt(SyntheticName(j), t0, Leave(w, SyntheticName(k), t0, t1))
    {
      SyntheticNameInjective(j, k);
      assert SameAt(SyntheticName(j), t0[SyntheticName(k) := v], t1);
    }
  }

  // ---------------------------------------------------------------------------------------------
  // Fresh names.

  lemma {:induction false} DecimalInjective(a: nat, b: nat)
    requires Decimal(a) == Decimal(b)
    ensures a == b
    decreases a
  {
    if a < 10 && b < 10 {
      assert Digit(a) == Digit(b);
    } else if a < 10 || b < 10 {
      DecimalNonEmpty(if a < 10 then b / 10 else a / 10);
    } else {
      var da, db := Decimal(a / 10), Decimal(b / 10);
      assert |da| == |db|;
      assert (da + [Digit(a % 10)])[|da|] == (db + [Digit(b % 10)])[|db|];
      assert da == (da + [Digit(a % 10)])[..|da|] == db;
      DecimalInjective(a / 10, b / 10);
    }
  }

  lemma DecimalNonEmpty(n: nat)
    ensures |Decimal(n)| > 0
  {
  }

  /** Two counter values never give the same name. */
  lemma SyntheticNameInjective(a: nat, b: nat)
    ensures SyntheticName(a) == SyntheticName(b) ==> a == b
  {
    if SyntheticName(a) == SyntheticName(b) {
      assert Decimal(a) == SyntheticName(a)[|MATCH_PREFIX|..];
      assert Decimal(b) == SyntheticName(b)[|MATCH_PREFIX|..];
      DecimalInjective(a, b);
    }
  }

  lemma CatchNameInjective(a: nat, b: nat)
    ensures CatchName(a) == CatchName(b) ==> a == b
  {
    if CatchName(a) == CatchName(b) {
      assert Decimal(a) == CatchName(a)[|CATCH_PREFIX|..];
      assert Decimal(b) == CatchName(b)[|CATCH_PREFIX|..];
      DecimalInjective(a, b);
    }
  }

  // ---------------------------------------------------------------------------------------------
  // Patterns.

  lemma {:induction false} TypeTestsRun(w: World, selector: string, types: seq<string>, tested: Expr, v: Value,
                                        env: Env, trace: Trace)
    requires selector in env && env[selector] == v
    requires var r := Eval(w, tested, env, trace); r.env == env && (IsTrue(r.outcome) || IsFalse(r.outcome))
    ensures var r := Eval(w, tested, env, trace);
            var t := if IsTrue(r.outcome) then Test(r.outcome, r.trace) else TestTypes(w, types, v, r.trace);
            Eval(w, TypeTests(selector, types, tested), env, trace) == Run(t.outcome, env, t.trace)
    decreases |types|
  {
    if types == [] {
    } else {
      var next := TypeTest(Variable(selector), types[0]);
      var r := Eval(w, tested, env, trace);
      assert Eval(w, next, env, r.trace) ==
             Run(Ok(BoolValue(w.conforms(v, types[0]))), env, r.trace + [Tested(v, types[0])]);
      TypeTestsRun(w, selector, types[1..], Or(tested, next), v, env, trace);
    }
  }

  lemma {:induction false} ComparisonsRun(w: World, selector: string, values: seq<Value>, compared: Expr, v: Value,
                                          env: Env, trace: Trace)
    requires selector in env && env[selector] == v
    requires Eval(w, compared, env, trace).env == env
    ensures var r := Condition(Eval(w, compared, env, trace));
            var t := if IsFalse(r.outcome) then TestLiterals(w, values, v, r.trace) else Test(r.outcome, r.trace);
            Condition(Eval(w, Comparisons(selector, values, compared), env, trace)) == Run(t.outcome, env, t.trace)
    decreases |values|
  {
    if values == [] {
    } else {
      var next := Comparison(selector, values[0]);
      var r := Eval(w, compared, env, trace);
      ComparisonRun(w, selector, values[0], v, env, r.trace);
      assert Eval(w, Or(compared, next), env, trace) ==
             if IsFalse(r.outcome) then Condition(Eval(w, next, env, r.trace)) else Condition(r);
      ComparisonsRun(w, selector, values[1..], Or(compared, next), v, env, trace);
    }
  }

  lemma ComparisonRun(w: World, selector: string, literal: Value, v: Value, env: Env, trace: Trace)
    requires selector in env && env[selector] == v
    ensures Eval(w, Comparison(selector, literal), env, trace) ==
            Run(w.apply("==", v, literal, trace), env, trace + [Applied("==", v, literal)])
  {
    assert Eval(w, Variable(selector), env, trace) == Run(Ok(v), env, trace);
    assert Eval(w, Literal(literal), env, trace) == Run(Ok(literal), env, trace);
  }

  /** The generated tests run as the pattern is tried: left to right, stopping at the first that fits. */
  lemma PatternTestRun(w: World, selector: string, p: Pattern, v: Value, env: Env, trace: Trace)
    requires selector in env && env[selector] == v
    requires HasAlternatives(p) && (p.Typed? || p.Literals?)
    ensures var t := TestPattern(w, p, v, trace);
            Condition(Eval(w, PatternTest(selector, p), env, trace)) == Run(t.outcome, env, t.trace)
  {
    match p
    case Typed(_, types) =>
      var first := TypeTest(Variable(selector), types[0]);
      assert Eval(w, first, env, trace) ==
             Run(Ok(BoolValue(w.conforms(v, types[0]))), env, trace + [Tested(v, types[0])]);
      TypeTestsRun(w, selector, types[1..], first, v, env, trace);
      TestTypesIsBoolean(w, types, v, trace);
    case Literals(values) =>
      ComparisonRun(w, selector, values[0], v, env, trace);
      ComparisonsRun(w, selector, values[1..], Comparison(selector, values[0]), v, env, trace);
  }

  lemma TestTypesIsBoolean(w: World, types: seq<string>, v: Value, trace: Trace)
    ensures var o := TestTypes(w, types, v, trace).outcome;
            (IsTrue(o) || IsFalse(o)) && (IsTrue(o) <==> ConformsToOne(w, v, types))
  {
  }

  // ---------------------------------------------------------------------------------------------
  // The simulation.

  /** The generated block runs its body with the pattern's variable bound. */
  lemma BindRun(w: World, selector: string, p: Pattern, v: Value, e: Expr, env: Env, trace: Trace)
    requires selector in env && env[selector] == v
    requires p.Typed? ==> ConformsToOne(w, v, p.types)
    ensures Eval(w, Bind(selector, p, e), env, trace) == EvalBound(w, BoundName(p), v, e, env, trace)
  {
    assert Eval(w, Variable(selector), env, trace) == Run(Ok(v), env, trace);
    if p.Typed? {
      assert Eval(w, Cast(Variable(selector), p.types), env, trace) == Run(Ok(v), env, trace);
    }
  }

  /** The generated condition runs the pattern's tests and then, only when they succeed, the guard. */
  lemma ConditionRun(w: World, selector: string, c: Case, v: Value, env: Env, trace: Trace)
    requires selector in env && env[selector] == v && HasAlternatives(c.pattern) && !IsCatchAll(c)
    ensures var test := TestPattern(w, c.pattern, v, trace);
            Condition(Eval(w, CaseCondition(selector, c), env, trace)) ==
            if !IsTrue(test.outcome) || c.guard.None? then Run(test.outcome, env, test.trace)
            else Condition(EvalBound(w, BoundName(c.pattern), v, c.guard.value, env, test.trace))
  {
    var test := TestPattern(w, c.pattern, v, trace);
    if c.pattern.Typed? || c.pattern.Literals? {
      PatternTestRun(w, selector, c.pattern, v, env, trace);
      var l := Eval(w, PatternTest(selector, c.pattern), env, trace);
      assert Condition(l) == Run(test.outcome, env, test.trace);
      if c.guard.Some? {
        var guard := Bind(selector, c.pattern, c.guard.value);
        assert Eval(w, And(PatternTest(selector, c.pattern), guard), env, trace) ==
               if IsTrue(l.outcome) then Condition(Eval(w, guard, l.env, l.trace)) else Condition(l);
      }
    }
    if c.pattern.Typed? {
      TestTypesIsBoolean(w, c.pattern.types, v, trace);
    }
    if c.guard.Some? && IsTrue(test.outcome) {
      BindRun(w, selector, c.pattern, v, c.guard.value, env, test.trace);
    }
  }

  /** The same expression, before and after lowering, with the variable of its pattern or handler bound. */
  lemma {:induction false} BoundSimulates(w: World, made: Range, m: nat, binder: Option<string>, v: Value, e: Expr,
                                          n: nat, s: Env, t: Env, trace: Trace)
    requires (binder.Some? ==> !IsFresh(made, binder.value)) && Lowers(made, e, n) && Agrees(made, s, t)
    requires Lower(e, n).next <= m
    ensures Simulates(made, m, EvalBound(w, binder, v, e, s, trace),
                      EvalBound(w, binder, v, Lower(e, n).expr, t, trace), t)
    decreases w.steps, e, 2, 0
  {
    match binder
    case None => Simulation(w, made, e, n, s, t, trace);
    case Some(x) =>
      var s1, t1 := s[x := v], t[x := v];
      AgreesWith(made, s, t, x, v);
      Simulation(w, made, e, n, s1, t1, trace);
      var r := Eval(w, Lower(e, n).expr, t1, trace);
      KeepsLess(made, Lower(e, n).next, m, t1, r.env);
      KeepsWith(made, m, t, t, x, v);
      KeepsTransitive(made, m, t, t1, r.env);
      LeaveSourceLocal(w, made, x, m, s, t, Eval(w, e, s1, trace).env, r.env);
  }

  /** Choosing a case: the generated condition against the pattern and guard. */
  lemma {:induction false} AppliesSimulates(w: World, made: Range, e: Expr, k: nat, n: nat, m: nat, v: Value, s: Env,
                                            t: Env, trace: Trace)
    requires e.Match? && k < |e.cases| && SourceOk(made, e) && Agrees(made, s, t) && !IsCatchAll(e.cases[k])
    requires made.low <= n && m < made.high
    requires LowerGuard(e, k, n).1 <= m
    requires SyntheticName(m) in t && t[SyntheticName(m)] == v
    ensures var c := e.cases[k];
            var lowered := Case(c.pattern, LowerGuard(e, k, n).0, Empty);
            Simulates(made, m, Applies(w, e, k, v, s, trace),
                      Condition(Eval(w, CaseCondition(SyntheticName(m), lowered), t, trace)), t)
    decreases w.steps, e, 0, 0
  {
    var c := e.cases[k];
    assert CaseOk(made, c);
    ConditionRun(w, SyntheticName(m), Case(c.pattern, LowerGuard(e, k, n).0, Empty), v, t, trace);
    if c.guard.Some? {
      var tested := TestPattern(w, c.pattern, v, trace).trace;
      BoundSimulates(w, made, m, BoundName(c.pattern), v, c.guard.value, n, s, t, tested);
    }
  }

  /** Running the body of the chosen case. */
  lemma {:induction false} BodySimulates(w: World, made: Range, e: Expr, k: nat, n: nat, m: nat, v: Value, s: Env,
                                         t: Env, trace: Trace)
    requires e.Match? && k < |e.cases| && SourceOk(made, e) && Agrees(made, s, t)
    requires made.low <= n && m < made.high
    requires Lower(e.cases[k].body, n).next <= m
    requires SyntheticName(m) in t && t[SyntheticName(m)] == v
    requires var p := e.cases[k].pattern; p.Typed? ==> ConformsToOne(w, v, p.types)
    ensures var c := e.cases[k];
            Simulates(made, m, EvalBound(w, BoundName(c.pattern), v, c.body, s, trace),
                      Eval(w, Bind(SyntheticName(m), c.pattern, Lower(c.body, n).expr), t, trace), t)
    decreases w.steps, e, 0, 0
  {
    var c := e.cases[k];
    assert CaseOk(made, c);
    BoundSimulates(w, made, m, BoundName(c.pattern), v, c.body, n, s, t, trace);
    BindRun(w, SyntheticName(m), c.pattern, v, Lower(c.body, n).expr, t, trace);
  }

  lemma {:induction false} CasesSimulate(w: World, made: Range, e: Expr, k: nat, n: nat, m: nat, v: Value, s: Env,
                                         t: Env, trace: Trace)
    requires e.Match? && k <= |e.cases| && SourceOk(made, e) && Agrees(made, s, t)
    requires made.low <= n && m < made.high
    requires LowerInside(e, k, n).next <= m
    requires SyntheticName(m) in t && t[SyntheticName(m)] == v
    ensures Simulates(made, m, EvalCases(w, e, k, v, s, trace),
                      Eval(w, LowerCases(SyntheticName(m), LowerInside(e, k, n).cases), t, trace), t)
    decreases w.steps, e, 0, |e.cases| - k, 1
  {
    if k == |e.cases| {
    } else {
      var c := e.cases[k];
      var g := LowerGuard(e, k, n);
      LowerCasesUnfold(e, k, n, SyntheticName(m));
      if IsCatchAll(c) {
        BodySimulates(w, made, e, k, g.1, m, v, s, t, trace);
      } else {
        OrdinaryCaseSimulates(w, made, e, k, n, m, v, s, t, trace);
      }
    }
  }

  lemma {:induction false} OrdinaryCaseSimulates(w: World, made: Range, e: Expr, k: nat, n: nat, m: nat, v: Value,
                                                 s: Env, t: Env, trace: Trace)
    requires e.Match? && k < |e.cases| && SourceOk(made, e) && Agrees(made, s, t) && !IsCatchAll(e.cases[k])
    requires made.low <= n && m < made.high
    requires LowerInside(e, k, n).next <= m
    requires SyntheticName(m) in t && t[SyntheticName(m)] == v
    ensures var g := LowerGuard(e, k, n);
            var b := Lower(e.cases[k].body, g.1);
            var rest := LowerCases(SyntheticName(m), LowerInside(e, k + 1, b.next).cases);
            Simulates(made, m, EvalCases(w, e, k, v, s, trace),
                      Eval(w, LowerCase(SyntheticName(m), Case(e.cases[k].pattern, g.0, b.expr), rest), t, trace), t)
    decreases w.steps, e, 0, |e.cases| - k, 0
  {
    var c := e.cases[k];
    var g := LowerGuard(e, k, n);
    var b := Lower(c.body, g.1);
    var fallback := LowerCases(SyntheticName(m), LowerInside(e, k + 1, b.next).cases);
    AppliesSimulates(w, made, e, k, n, m, v, s, t, trace);
    var a := Applies(w, e, k, v, s, trace);
    var condition := CaseCondition(SyntheticName(m), Case(c.pattern, g.0, b.expr));
    assert condition == CaseCondition(SyntheticName(m), Case(c.pattern, g.0, Empty));
    var x := Eval(w, condition, t, trace);
    assert SameAt(SyntheticName(m), t, x.env);
    if IsTrue(a.outcome) {
      AppliesFits(w, e, k, v, s, trace);
      BodySimulates(w, made, e, k, g.1, m, v, a.env, x.env, a.trace);
    } else if IsFalse(a.outcome) {
      CasesSimulate(w, made, e, k + 1, b.next, m, v, a.env, x.env, a.trace);
    }
    ChooseSimulates(w, made, m, e, k, v, s, t, trace, condition, Bind(SyntheticName(m), c.pattern, b.expr), fallback);
  }

  lemma LowerCasesUnfold(e: Expr, k: nat, n: nat, selector: string)
    requires e.Match? && k < |e.cases|
    ensures var g := LowerGuard(e, k, n);
            var b := Lower(e.cases[k].body, g.1);
            var rest := LowerInside(e, k + 1, b.next);
            LowerInside(e, k, n).next == rest.next &&
            LowerCases(selector, LowerInside(e, k, n).cases) ==
            LowerCase(selector, Case(e.cases[k].pattern, g.0, b.expr), LowerCases(selector, rest.cases))
  {
    var g := LowerGuard(e, k, n);
    var b := Lower(e.cases[k].body, g.1);
    var rest := LowerInside(e, k + 1, b.next);
    var lowered := Case(e.cases[k].pattern, g.0, b.expr);
    assert LowerInside(e, k, n).cases == [lowered] + rest.cases;
    assert ([lowered] + rest.cases)[1..] == rest.cases;
  }

  /** A conditional simulates the choice of a case when its three parts do. */
  lemma ChooseSimulates(w: World, made: Range, m: nat, e: Expr, k: nat, v: Value, s: Env, t: Env, trace: Trace,
                        condition: Expr, body: Expr, fallback: Expr)
    requires e.Match? && k < |e.cases|
    requires Simulates(made, m, Applies(w, e, k, v, s, trace), Condition(Eval(w, condition, t, trace)), t)
    requires var a, x := Applies(w, e, k, v, s, trace), Eval(w, condition, t, trace);
             (IsTrue(a.outcome) ==>
                Simulates(made, m, EvalBound(w, BoundName(e.cases[k].pattern), v, e.cases[k].body, a.env, a.trace),
                          Eval(w, body, x.env, x.trace), x.env)) &&
             (IsFalse(a.outcome) ==>
                Simulates(made, m, EvalCases(w, e, k + 1, v, a.env, a.trace), Eval(w, fallback, x.env, x.trace), x.env))
    ensures Simulates(made, m, EvalCases(w, e, k, v, s, trace), Eval(w, If(condition, body, fallback), t, trace), t)
  {
    var a, x := Applies(w, e, k, v, s, trace), Eval(w, condition, t, trace);
    if IsTrue(a.outcome) {
      KeepsTransitive(made, m, t, x.env, Eval(w, body, x.env, x.trace).env);
    } else if IsFalse(a.outcome) {
      KeepsTransitive(made, m, t, x.env, Eval(w, fallback, x.env, x.trace).env);
    }
  }

  lemma KeepsTransitive(made: Range, m: nat, a: Env, b: Env, c: Env)
    requires Keeps(made, m, a, b) && Keeps(made, m, b, c)
    ensures Keeps(made, m, a, c)
  {
    forall k: nat | m <= k && made.low <= k < made.high ensures SameAt(SyntheticName(k), a, c) {
      assert SameAt(SyntheticName(k), a, b) && SameAt(SyntheticName(k), b, c);
    }
  }

  lemma KeepsLess(made: Range, m: nat, n: nat, a: Env, b: Env)
    requires Keeps(made, m, a, b) && m <= n
    ensures Keeps(made, n, a, b)
  {
  }

  lemma AppliesFits(w: World, e: Expr, k: nat, v: Value, s: Env, trace: Trace)
    requires e.Match? && k < |e.cases| && IsTrue(Applies(w, e, k, v, s, trace).outcome)
    ensures e.cases[k].pattern.Typed? ==> ConformsToOne(w, v, e.cases[k].pattern.types)
  {
    var c := e.cases[k];
    if c.pattern.Typed? {
      TestTypesIsBoolean(w, c.pattern.types, v, trace);
    }
  }

  /** Evaluation before and after lowering, in environments that agree on source locals. */
  lemma {:induction false} Simulation(w: World, made: Range, e: Expr, n: nat, s: Env, t: Env, trace: Trace)
    requires Lowers(made, e, n) && Agrees(made, s, t)
    ensures Simulates(made, Lower(e, n).next, Eval(w, e, s, trace), Eval(w, Lower(e, n).expr, t, trace), t)
    decreases w.steps, e, 1, 1
  {
    match e
    case Empty =>
    case Literal(_) =>
    case Variable(x) => assert SameAt(x, s, t);
    case Apply(_, _, _) => SimulateApply(w, made, e, n, s, t, trace);
    case And(_, _) => SimulateAnd(w, made, e, n, s, t, trace);
    case Or(_, _) => SimulateOr(w, made, e, n, s, t, trace);
    case If(_, _, _) => SimulateIf(w, made, e, n, s, t, trace);
    case Let(x, initializer, body) => SimulateLet(w, made, e, n, s, t, trace);
    case Sequence(_, _) => SimulateSequence(w, made, e, n, s, t, trace);
    case Assign(_, _) => SimulateAssign(w, made, e, n, s, t, trace);
    case Throw(exception) => SimulateUnary(w, made, e, exception, n, s, t, trace);
    case TypeTest(operand, _) => SimulateUnary(w, made, e, operand, n, s, t, trace);
    case Cast(operand, _) => SimulateUnary(w, made, e, operand, n, s, t, trace);
    case While(_, _) => SimulateWhile(w, made, e, n, s, t, trace);
    case Try(_, _, _) => SimulateTry(w, made, e, n, s, t, trace);
    case Match(_, _) => SimulateMatch(w, made, e, n, s, t, trace);
  }

  /** Two parts of a tree, lowered and run one after the other. */
  lemma {:induction false} SimulatePair(w: World, made: Range, e: Expr, first: Expr, second: Expr, n: nat, s: Env,
                                        t: Env, trace: Trace)
    requires Lowers(made, first, n) && Lowers(made, second, Lower(first, n).next) && Agrees(made, s, t)
    requires first < e && second < e
    ensures var f := Lower(first, n);
            var a, b := Eval(w, first, s, trace), Eval(w, f.expr, t, trace);
            Simulates(made, f.next, a, b, t) && Keeps(made, Lower(second, f.next).next, t, b.env) &&
            Simulates(made, Lower(second, f.next).next, Eval(w, second, a.env, a.trace),
                      Eval(w, Lower(second, f.next).expr, b.env, b.trace), t)
    decreases w.steps, e, 1, 0, 0
  {
    var f := Lower(first, n);
    Simulation(w, made, first, n, s, t, trace);
    var a, b := Eval(w, first, s, trace), Eval(w, f.expr, t, trace);
    Simulation(w, made, second, f.next, a.env, b.env, a.trace);
    var m := Lower(second, f.next).next;
    KeepsLess(made, f.next, m, t, b.env);
    KeepsTransitive(made, m, t, b.env, Eval(w, Lower(second, f.next).expr, b.env, b.trace).env);
  }

  lemma {:induction false} SimulateApply(w: World, made: Range, e: Expr, n: nat, s: Env, t: Env, trace: Trace)
    requires e.Apply? && Lowers(made, e, n) && Agrees(made, s, t)
    ensures Simulates(made, Lower(e, n).next, Eval(w, e, s, trace), Eval(w, Lower(e, n).expr, t, trace), t)
    decreases w.steps, e, 1, 0, 1
  {
    SimulatePair(w, made, e, e.left, e.right, n, s, t, trace);
  }

  lemma {:induction false} SimulateAnd(w: World, made: Range, e: Expr, n: nat, s: Env, t: Env, trace: Trace)
    requires e.And? && Lowers(made, e, n) && Agrees(made, s, t)
    ensures Simulates(made, Lower(e, n).next, Eval(w, e, s, trace), Eval(w, Lower(e, n).expr, t, trace), t)
    decreases w.steps, e, 1, 0, 1
  {
    var l := Lower(e.left, n);
    var r := Lower(e.right, l.next);
    assert Lower(e, n) == Lowered(And(l.expr, r.expr), r.next);
    SimulatePair(w, made, e, e.left, e.right, n, s, t, trace);
  }

  lemma {:induction false} SimulateOr(w: World, made: Range, e: Expr, n: nat, s: Env, t: Env, trace: Trace)
    requires e.Or? && Lowers(made, e, n) && Agrees(made, s, t)
    ensures Simulates(made, Lower(e, n).next, Eval(w, e, s, trace), Eval(w, Lower(e, n).expr, t, trace), t)
    decreases w.steps, e, 1, 0, 1
  {
    var l := Lower(e.left, n);
    var r := Lower(e.right, l.next);
    assert Lower(e, n) == Lowered(Or(l.expr, r.expr), r.next);
    SimulatePair(w, made, e, e.left, e.right, n, s, t, trace);
  }

  lemma {:induction false} SimulateSequence(w: World, made: Range, e: Expr, n: nat, s: Env, t: Env, trace: Trace)
    requires e.Sequence? && Lowers(made, e, n) && Agrees(made, s, t)
    ensures Simulates(made, Lower(e, n).next, Eval(w, e, s, trace), Eval(w, Lower(e, n).expr, t, trace), t)
    decreases w.steps, e, 1, 0, 1
  {
    SimulatePair(w, made, e, e.first, e.second, n, s, t, trace);
  }

  lemma {:induction false} SimulateUnary(w: World, made: Range, e: Expr, operand: Expr, n: nat, s: Env, t: Env,
                                         trace: Trace)
    requires Lowers(made, e, n) && Agrees(made, s, t)
    requires e == Throw(operand) || ((e.TypeTest? || e.Cast?) && operand == e.operand)
    ensures Simulates(made, Lower(e, n).next, Eval(w, e, s, trace), Eval(w, Lower(e, n).expr, t, trace), t)
    decreases w.steps, e, 1, 0
  {
    Simulation(w, made, operand, n, s, t, trace);
  }

  lemma {:induction false} SimulateIf(w: World, made: Range, e: Expr, n: nat, s: Env, t: Env, trace: Trace)
    requires e.If? && Lowers(made, e, n) && Agrees(made, s, t)
    ensures Simulates(made, Lower(e, n).next, Eval(w, e, s, trace), Eval(w, Lower(e, n).expr, t, trace), t)
    decreases w.steps, e, 1, 0
  {
    var c := Lower(e.condition, n);
    var m := Lower(e, n).next;
    Simulation(w, made, e.condition, n, s, t, trace);
    var a, x := Eval(w, e.condition, s, trace), Eval(w, c.expr, t, trace);
    KeepsLess(made, c.next, m, t, x.env);
    var l := Lower(e.thenBranch, c.next);
    if IsTrue(a.outcome) {
      Simulation(w, made, e.thenBranch, c.next, a.env, x.env, a.trace);
      var r := Eval(w, l.expr, x.env, x.trace);
      KeepsLess(made, l.next, m, x.env, r.env);
      KeepsTransitive(made, m, t, x.env, r.env);
    } else if IsFalse(a.outcome) {
      Simulation(w, made, e.elseBranch, l.next, a.env, x.env, a.trace);
      KeepsTransitive(made, m, t, x.env, Eval(w, Lower(e.elseBranch, l.next).expr, x.env, x.trace).env);
    }
  }

  lemma {:induction false} SimulateLet(w: World, made: Range, e: Expr, n: nat, s: Env, t: Env, trace: Trace)
    requires e.Let? && Lowers(made, e, n) && Agrees(made, s, t)
    ensures Simulates(made, Lower(e, n).next, Eval(w, e, s, trace), Eval(w, Lower(e, n).expr, t, trace), t)
    decreases w.steps, e, 1, 0
  {
    var i := Lower(e.initializer, n);
    var m := Lower(e.body, i.next).next;
    Simulation(w, made, e.initializer, n, s, t, trace);
    var a, b := Eval(w, e.initializer, s, trace), Eval(w, i.expr, t, trace);
    KeepsLess(made, i.next, m, t, b.env);
    if a.outcome.Ok? {
      var s1, t1 := a.env[e.name := a.outcome.value], b.env[e.name := a.outcome.value];
      AgreesWith(made, a.env, b.env, e.name, a.outcome.value);
      KeepsWith(made, m, t, b.env, e.name, a.outcome.value);
      Simulation(w, made, e.body, i.next, s1, t1, a.trace);
      var r := Eval(w, Lower(e.body, i.next).expr, t1, a.trace);
      KeepsTransitive(made, m, t, t1, r.env);
      LeaveSourceLocal(w, made, e.name, m, a.env, b.env, Eval(w, e.body, s1, a.trace).env, r.env);
    }
  }

  lemma {:induction false} SimulateWhile(w: World, made: Range, e: Expr, n: nat, s: Env, t: Env, trace: Trace)
    requires e.While? && Lowers(made, e, n) && Agrees(made, s, t)
    ensures Simulates(made, Lower(e, n).next, Eval(w, e, s, trace), Eval(w, Lower(e, n).expr, t, trace), t)
    decreases w.steps, e, 1, 0, 1
  {
    var c := Lower(e.condition, n);
    var m := Lower(e.body, c.next).next;
    SimulatePair(w, made, e, e.condition, e.body, n, s, t, trace);
    var a, x := Eval(w, e.condition, s, trace), Eval(w, c.expr, t, trace);
    if IsTrue(a.outcome) {
      var b, y := Eval(w, e.body, a.env, a.trace), Eval(w, Lower(e.body, c.next).expr, x.env, x.trace);
      if b.outcome.Ok? && w.steps > 0 {
        var rest := w.(steps := w.steps - 1);
        Simulation(rest, made, e, n, b.env, y.env, b.trace);
        KeepsTransitive(made, m, t, y.env, Eval(rest, Lower(e, n).expr, y.env, y.trace).env);
      }
    }
    WhileRun(w, e.condition, e.body, s, trace);
    WhileRun(w, c.expr, Lower(e.body, c.next).expr, t, trace);
  }

  /** One round of a loop. */
  lemma WhileRun(w: World, condition: Expr, body: Expr, env: Env, trace: Trace)
    ensures var c := Eval(w, condition, env, trace);
            var b := Eval(w, body, c.env, c.trace);
            Eval(w, While(condition, body), env, trace) ==
            if IsFalse(c.outcome) then Run(Ok(UnitValue), c.env, c.trace)
            else if !IsTrue(c.outcome) then Run(NoCondition(c.outcome), c.env, c.trace)
            else if !b.outcome.Ok? then b
            else if w.steps == 0 then Run(OutOfSteps, b.env, b.trace)
            else Eval(w.(steps := w.steps - 1), While(condition, body), b.env, b.trace)
  {
  }

  lemma {:induction false} SimulateTry(w: World, made: Range, e: Expr, n: nat, s: Env, t: Env, trace: Trace)
    requires e.Try? && Lowers(made, e, n) && Agrees(made, s, t)
    ensures Simulates(made, Lower(e, n).next, Eval(w, e, s, trace), Eval(w, Lower(e, n).expr, t, trace), t)
    decreases w.steps, e, 1, 0
  {
    var i := Lower(e.attempt, n);
    var l := Lower(e, n);
    Simulation(w, made, e.attempt, n, s, t, trace);
    var a, b := Eval(w, e.attempt, s, trace), Eval(w, i.expr, t, trace);
    KeepsLess(made, i.next, l.next, t, b.env);
    assert l.expr.Try? && l.expr.attempt == i.expr;
    if a.outcome.Thrown? {
      var v := a.outcome.exception;
      HandlerSimulates(w, made, e, n, v, a.env, b.env, a.trace);
      KeepsTransitive(made, l.next, t, b.env, EvalBound(w, l.expr.binder, v, l.expr.handler, b.env, a.trace).env);
    }
  }

  lemma {:induction false} HandlerSimulates(w: World, made: Range, e: Expr, n: nat, v: Value, s: Env, t: Env,
                                            trace: Trace)
    requires e.Try? && Lowers(made, e, n) && Agrees(made, s, t)
    ensures var l := Lower(e, n);
            l.expr.Try? && Simulates(made, l.next, EvalBound(w, e.binder, v, e.handler, s, trace),
                                     EvalBound(w, l.expr.binder, v, l.expr.handler, t, trace), t)
    decreases w.steps, e, 0, 0
  {
    var i, m := Lower(e.attempt, n).next, Lower(e, n).next;
    if e.binder.Some? {
      BoundSimulates(w, made, m, e.binder, v, e.handler, i, s, t, trace);
    } else {
      AnySimulates(w, made, m, i, v, e.handler, s, t, trace);
    }
  }

  /** A handler that got its name from the parser. */
  lemma {:induction false} AnySimulates(w: World, made: Range, m: nat, k: nat, v: Value, e: Expr, s: Env, t: Env,
                                        trace: Trace)
    requires made.low <= k && Lowers(made, e, k + 1) && Lower(e, k + 1).next <= m && Agrees(made, s, t)
    ensures Simulates(made, m, Eval(w, e, s, trace),
                      EvalBound(w, Some(CatchName(k)), v, Lower(e, k + 1).expr, t, trace), t)
    decreases w.steps, e, 2, 0
  {
    var x := CatchName(k);
    var t1 := t[x := v];
    CatchBound(made, m, k, s, t, v);
    Simulation(w, made, e, k + 1, s, t1, trace);
    var r := Eval(w, Lower(e, k + 1).expr, t1, trace);
    KeepsLess(made, Lower(e, k + 1).next, m, t1, r.env);
    KeepsTransitive(made, m, t, t1, r.env);
    CatchLeft(w, made, m, k, Eval(w, e, s, trace).env, t, r.env);
  }

  lemma CatchIsNoSelector(j: nat, k: nat)
    ensures CatchName(j) != SyntheticName(k)
  {
    assert CatchName(j)[1] == 'c' && SyntheticName(k)[1] == 'm';
  }

  lemma CatchBound(made: Range, m: nat, k: nat, s: Env, t: Env, v: Value)
    requires made.low <= k < made.high && Agrees(made, s, t)
    ensures Agrees(made, s, t[CatchName(k) := v]) && Keeps(made, m, t, t[CatchName(k) := v])
  {
    forall y | !IsFresh(made, y) ensures SameAt(y, s, t[CatchName(k) := v]) {
      assert SameAt(y, s, t) && IsMade(made, CatchName(k), k);
    }
    forall j: nat | m <= j && made.low <= j < made.high
      ensures SameAt(SyntheticName(j), t, t[CatchName(k) := v])
    {
      CatchIsNoSelector(k, j);
    }
  }

  lemma CatchLeft(w: World, made: Range, m: nat, k: nat, s: Env, t0: Env, t1: Env)
    requires made.low <= k < made.high && Agrees(made, s, t1) && Keeps(made, m, t0, t1)
    ensures Agrees(made, s, Leave(w, CatchName(k), t0, t1)) && Keeps(made, m, t0, Leave(w, CatchName(k), t0, t1))
  {
    forall y | !IsFresh(made, y) ensures SameAt(y, s, Leave(w, CatchName(k), t0, t1)) {
      assert SameAt(y, s, t1) && IsMade(made, CatchName(k), k);
    }
    forall j: nat | m <= j && made.low <= j < made.high
      ensures SameAt(SyntheticName(j), t0, Leave(w, CatchName(k), t0, t1))
    {
      CatchIsNoSelector(k, j);
      assert SameAt(SyntheticName(j), t0, t1);
    }
  }

  lemma {:induction false} SimulateAssign(w: World, made: Range, e: Expr, n: nat, s: Env, t: Env, trace: Trace)
    requires e.Assign? && Lowers(made, e, n) && Agrees(made, s, t)
    ensures Simulates(made, Lower(e, n).next, Eval(w, e, s, trace), Eval(w, Lower(e, n).expr, t, trace), t)
    decreases w.steps, e, 1, 0
  {
    Simulation(w, made, e.value_, n, s, t, trace);
    var a, b := Eval(w, e.value_, s, trace), Eval(w, Lower(e.value_, n).expr, t, trace);
    assert SameAt(e.name, a.env, b.env);
    if a.outcome.Ok? {
      AgreesWith(made, a.env, b.env, e.name, a.outcome.value);
      KeepsWith(made, Lower(e, n).next, t, b.env, e.name, a.outcome.value);
    }
  }

  lemma {:induction false} SimulateMatch(w: World, made: Range, e: Expr, n: nat, s: Env, t: Env, trace: Trace)
    requires e.Match? && Lowers(made, e, n) && Agrees(made, s, t)
    ensures Simulates(made, Lower(e, n).next, Eval(w, e, s, trace), Eval(w, Lower(e, n).expr, t, trace), t)
    decreases w.steps, e, 1, 0
  {
    var i := Lower(e.selector, n);
    var m := LowerInside(e, 0, i.next).next;
    Simulation(w, made, e.selector, n, s, t, trace);
    var a, b := Eval(w, e.selector, s, trace), Eval(w, i.expr, t, trace);
    KeepsLess(made, i.next, m + 1, t, b.env);
    if a.outcome.Ok? {
      var v := a.outcome.value;
      var t1 := b.env[SyntheticName(m) := v];
      AgreesWithSynthetic(made, a.env, b.env, m, v);
      CasesSimulate(w, made, e, 0, i.next, m, v, a.env, t1, a.trace);
      var r := Eval(w, LowerCases(SyntheticName(m), LowerInside(e, 0, i.next).cases), t1, a.trace);
      KeepsLess(made, m, m + 1, t1, r.env);
      LeaveSynthetic(w, made, m + 1, m, EvalCases(w, e, 0, v, a.env, a.trace).env, b.env, r.env, v);
      KeepsTransitive(made, m + 1, t, b.env, Leave(w, SyntheticName(m), b.env, r.env));
    }
  }

  lemma AgreesWith(made: Range, a: Env, b: Env, x: string, v: Value)
    requires Agrees(made, a, b)
    ensures Agrees(made, a[x := v], b[x := v])
  {
    forall y | !IsFresh(made, y) ensures SameAt(y, a[x := v], b[x := v]) {
      assert SameAt(y, a, b);
    }
  }

  lemma AgreesWithSynthetic(made: Range, a: Env, b: Env, m: nat, v: Value)
    requires Agrees(made, a, b) && made.low <= m < made.high
    ensures Agrees(made, a, b[SyntheticName(m) := v])
  {
    forall y | !IsFresh(made, y) ensures SameAt(y, a, b[SyntheticName(m) := v]) {
      assert SameAt(y, a, b) && IsMade(made, SyntheticName(m), m);
    }
  }

  lemma KeepsWith(made: Range, m: nat, a: Env, b: Env, x: string, v: Value)
    requires Keeps(made, m, a, b) && !IsFresh(made, x)
    ensures Keeps(made, m, a, b[x := v])
  {
    forall k: nat | m <= k && made.low <= k < made.high ensures SameAt(SyntheticName(k), a, b[x := v]) {
      assert SameAt(SyntheticName(k), a, b) && IsMade(made, SyntheticName(k), k);
    }
  }

  /** Main result: the lowered tree gives the result, the trace and the source locals of first-match evaluation, if the
      source uses none of the names the lowering makes. */
  lemma LoweringKeepsMeaning(w: World, e: Expr, n: nat, env: Env, trace: Trace)
    requires SourceOk(Range(n, Lower(e, n).next), e)
    ensures var made := Range(n, Lower(e, n).next);
            Simulates(made, made.high, Eval(w, e, env, trace), Eval(w, Lower(e, n).expr, env, trace), env)
  {
    assert forall x :: SameAt(x, env, env);
    Simulation(w, Range(n, Lower(e, n).next), e, n, env, env, trace);
  }

  // ---------------------------------------------------------------------------------------------
  // The fresh locals of a lowered tree.

  /** How often a tree declares a local of this name. */
  function Declarations(name: string, e: Expr): nat
    decreases e, 1, 0
  {
    match e
    case Empty => 0
    case Literal(_) => 0
    case Variable(_) => 0
    case Apply(_, left, right) => Declarations(name, left) + Declarations(name, right)
    case And(left, right) => Declarations(name, left) + Declarations(name, right)
    case Or(left, right) => Declarations(name, left) + Declarations(name, right)
    case If(condition, thenBranch, elseBranch) =>
      Declarations(name, condition) + Declarations(name, thenBranch) + Declarations(name, elseBranch)
    case Let(x, initializer, body) =>
      (if x == name then 1 else 0) + Declarations(name, initializer) + Declarations(name, body)
    case Sequence(first, second) => Declarations(name, first) + Declarations(name, second)
    case Assign(_, value) => Declarations(name, value)
    case Throw(exception) => Declarations(name, exception)
    case TypeTest(operand, _) => Declarations(name, operand)
    case Cast(operand, _) => Declarations(name, operand)
    case While(condition, body) => Declarations(name, condition) + Declarations(name, body)
    case Try(attempt, binder, handler) =>
      (if binder == Some(name) then 1 else 0) + Declarations(name, attempt) + Declarations(name, handler)
    case Match(selector, cases) => Declarations(name, selector) + DeclarationsInCases(name, e, 0)
  }

  function DeclarationsInCases(name: string, e: Expr, k: nat): nat
    requires e.Match? && k <= |e.cases|
    decreases e, 0, |e.cases| - k
  {
    if k == |e.cases| then 0
    else
      (if e.cases[k].guard.Some? then Declarations(name, e.cases[k].guard.value) else 0) +
      Declarations(name, e.cases[k].body) + DeclarationsInCases(name, e, k + 1)
  }

  function InRange(k: nat, low: nat, high: nat): nat {
    if low <= k < high then 1 else 0
  }

  /** None of the names is declared twice, and those that are declared are numbered from the old counter value up to
      the new one. */
  lemma {:induction false} FreshNamesDeclaredAtMostOnce(made: Range, name: string, e: Expr, n: nat, k: nat)
    requires SourceOk(made, e) && IsMade(made, name, k)
    ensures Declarations(name, Lower(e, n).expr) <= InRange(k, n, Lower(e, n).next)
    decreases e, 1, 0
  {
    match e
    case Empty =>
    case Literal(_) =>
    case Variable(_) =>
    case Apply(_, left, right) => FreshNamesInTwoParts(made, name, e, left, right, n, k);
    case And(left, right) => FreshNamesInTwoParts(made, name, e, left, right, n, k);
    case Or(left, right) => FreshNamesInTwoParts(made, name, e, left, right, n, k);
    case If(_, _, _) => FreshNamesInIf(made, name, e, n, k);
    case Let(_, initializer, body) => FreshNamesInBlock(made, name, e, initializer, body, n, k);
    case Sequence(first, second) => FreshNamesInTwoParts(made, name, e, first, second, n, k);
    case Assign(_, value) => FreshNamesInPart(made, name, e, value, n, k);
    case Throw(exception) => FreshNamesInPart(made, name, e, exception, n, k);
    case TypeTest(operand, _) => FreshNamesInPart(made, name, e, operand, n, k);
    case Cast(operand, _) => FreshNamesInPart(made, name, e, operand, n, k);
    case While(condition, body) => FreshNamesInTwoParts(made, name, e, condition, body, n, k);
    case Try(_, _, _) => FreshNamesInTry(made, name, e, n, k);
    case Match(_, _) => FreshNamesInMatch(made, name, e, n, k);
  }

  lemma {:induction false} FreshNamesInMatch(made: Range, name: string, e: Expr, n: nat, k: nat)
    requires e.Match? && SourceOk(made, e) && IsMade(made, name, k)
    ensures Declarations(name, Lower(e, n).expr) <= InRange(k, n, Lower(e, n).next)
    decreases e, 0, |e.cases| + 1
  {
    var i := Lower(e.selector, n);
    var m := LowerInside(e, 0, i.next).next;
    FreshNamesDeclaredAtMostOnce(made, name, e.selector, n, k);
    FreshNamesInCases(made, name, e, 0, i.next, k, SyntheticName(m));
    SyntheticNameInjective(k, m);
    CatchIsNoSelector(k, m);
  }

  lemma {:induction false} FreshNamesInTry(made: Range, name: string, e: Expr, n: nat, k: nat)
    requires e.Try? && SourceOk(made, e) && IsMade(made, name, k)
    ensures Declarations(name, Lower(e, n).expr) <= InRange(k, n, Lower(e, n).next)
    decreases e, 0, 1
  {
    if e.binder.Some? {
      FreshNamesInPair(made, name, e, e.attempt, e.handler, n, k);
    } else {
      var j := Lower(e.attempt, n).next;
      FreshNamesDeclaredAtMostOnce(made, name, e.attempt, n, k);
      FreshNamesDeclaredAtMostOnce(made, name, e.handler, j + 1, k);
      CatchNameInjective(j, k);
      CatchIsNoSelector(j, k);
    }
  }

  lemma {:induction false} FreshNamesInPart(made: Range, name: string, e: Expr, part: Expr, n: nat, k: nat)
    requires SourceOk(made, e) && IsMade(made, name, k)
    requires (e.Assign? && e.value_ == part) || e == Throw(part) || ((e.TypeTest? || e.Cast?) && e.operand == part)
    ensures Declarations(name, Lower(e, n).expr) <= InRange(k, n, Lower(e, n).next)
    decreases e, 0, 0
  {
    FreshNamesDeclaredAtMostOnce(made, name, part, n, k);
  }

  lemma {:induction false} FreshNamesInTwoParts(made: Range, name: string, e: Expr, first: Expr, second: Expr,
                                                n: nat, k: nat)
    requires SourceOk(made, e) && IsMade(made, name, k)
    requires (e.Apply? && e.left == first && e.right == second) || e == And(first, second) || e == Or(first, second) ||
             e == Sequence(first, second) || e == While(first, second)
    ensures Declarations(name, Lower(e, n).expr) <= InRange(k, n, Lower(e, n).next)
    decreases e, 0, 1
  {
    FreshNamesInPair(made, name, e, first, second, n, k);
  }

  lemma {:induction false} FreshNamesInBlock(made: Range, name: string, e: Expr, first: Expr, second: Expr,
                                             n: nat, k: nat)
    requires SourceOk(made, e) && IsMade(made, name, k)
    requires e.Let? && e.initializer == first && e.body == second
    ensures Declarations(name, Lower(e, n).expr) <= InRange(k, n, Lower(e, n).next)
    decreases e, 0, 1
  {
    FreshNamesInPair(made, name, e, first, second, n, k);
  }

  lemma {:induction false} FreshNamesInIf(made: Range, name: string, e: Expr, n: nat, k: nat)
    requires e.If? && SourceOk(made, e) && IsMade(made, name, k)
    ensures Declarations(name, Lower(e, n).expr) <= InRange(k, n, Lower(e, n).next)
    decreases e, 0, 1
  {
    FreshNamesInPair(made, name, e, e.condition, e.thenBranch, n, k);
    FreshNamesDeclaredAtMostOnce(made, name, e.elseBranch, Lower(e.thenBranch, Lower(e.condition, n).next).next, k);
  }

  lemma {:induction false} FreshNamesInPair(made: Range, name: string, e: Expr, first: Expr, second: Expr,
                                            n: nat, k: nat)
    requires IsMade(made, name, k) && SourceOk(made, first) && SourceOk(made, second) && first < e && second < e
    ensures var f := Lower(first, n);
            var s := Lower(second, f.next);
            Declarations(name, f.expr) + Declarations(name, s.expr) <= InRange(k, n, s.next)
    decreases e, 0, 0
  {
    FreshNamesDeclaredAtMostOnce(made, name, first, n, k);
    FreshNamesDeclaredAtMostOnce(made, name, second, Lower(first, n).next, k);
  }

  lemma {:induction false} FreshNamesInOneCase(made: Range, name: string, e: Expr, c: nat, n: nat, k: nat)
    requires e.Match? && c < |e.cases| && SourceOk(made, e) && IsMade(made, name, k)
    ensures var g := LowerGuard(e, c, n);
            var b := Lower(e.cases[c].body, g.1);
            (if g.0.Some? then Declarations(name, g.0.value) else 0) + Declarations(name, b.expr) <=
            InRange(k, n, b.next)
    decreases e, 0, 0
  {
    assert CaseOk(made, e.cases[c]);
    if e.cases[c].guard.Some? {
      FreshNamesDeclaredAtMostOnce(made, name, e.cases[c].guard.value, n, k);
    }
    FreshNamesDeclaredAtMostOnce(made, name, e.cases[c].body, LowerGuard(e, c, n).1, k);
  }

  lemma {:induction false} FreshNamesInCases(made: Range, name: string, e: Expr, c: nat, n: nat, k: nat,
                                             selector: string)
    requires e.Match? && c <= |e.cases| && SourceOk(made, e) && IsMade(made, name, k)
    ensures Declarations(name, LowerCases(selector, LowerInside(e, c, n).cases)) <=
            InRange(k, n, LowerInside(e, c, n).next)
    decreases e, 0, |e.cases| - c
  {
    if c == |e.cases| {
    } else {
      assert CaseOk(made, e.cases[c]) && IsFresh(made, name);
      var g := LowerGuard(e, c, n);
      var b := Lower(e.cases[c].body, g.1);
      var lowered := Case(e.cases[c].pattern, g.0, b.expr);
      FreshNamesInOneCase(made, name, e, c, n, k);
      FreshNamesInCases(made, name, e, c + 1, b.next, k, selector);
      LowerCasesUnfold(e, c, n, selector);
      DeclarationsInCase(made, name, selector, lowered,
                         LowerCases(selector, LowerInside(e, c + 1, b.next).cases));
    }
  }

  lemma DeclarationsInCase(made: Range, name: string, selector: string, c: Case, fallback: Expr)
    requires IsFresh(made, name) && PatternOk(made, c.pattern)
    ensures Declarations(name, LowerCase(selector, c, fallback)) <=
            (if c.guard.Some? then Declarations(name, c.guard.value) else 0) +
            Declarations(name, c.body) + Declarations(name, fallback)
  {
    DeclarationsInBind(made, name, selector, c.pattern, c.body);
    DeclarationsInCondition(made, name, selector, c);
  }

  lemma DeclarationsInCondition(made: Range, name: string, selector: string, c: Case)
    requires IsFresh(made, name) && PatternOk(made, c.pattern)
    ensures Declarations(name, CaseCondition(selector, c)) <=
            if c.guard.Some? then Declarations(name, c.guard.value) else 0
  {
    DeclarationsInTest(name, selector, c.pattern);
    if c.guard.Some? {
      DeclarationsInBind(made, name, selector, c.pattern, c.guard.value);
      var guard := Bind(selector, c.pattern, c.guard.value);
      assert Declarations(name, And(PatternTest(selector, c.pattern), guard)) ==
             Declarations(name, PatternTest(selector, c.pattern)) + Declarations(name, guard);
    }
  }

  lemma DeclarationsInBind(made: Range, name: string, selector: string, p: Pattern, e: Expr)
    requires IsFresh(made, name) && PatternOk(made, p)
    ensures Declarations(name, Bind(selector, p, e)) == Declarations(name, e)
  {
    if p.Typed? {
      assert Declarations(name, Cast(Variable(selector), p.types)) == 0;
    }
  }

  lemma DeclarationsInTest(name: string, selector: string, p: Pattern)
    ensures Declarations(name, PatternTest(selector, p)) == 0
  {
    match p
    case Typed(_, types) =>
      if types != [] {
        DeclarationsInTypeTests(name, selector, types[1..], TypeTest(Variable(selector), types[0]));
      }
    case Literals(values) =>
      if values != [] {
        DeclarationsInComparisons(name, selector, values[1..], Comparison(selector, values[0]));
      }
    case _ =>
  }

  lemma {:induction false} DeclarationsInTypeTests(name: string, selector: string, types: seq<string>, tested: Expr)
    ensures Declarations(name, TypeTests(selector, types, tested)) == Declarations(name, tested)
    decreases |types|
  {
    if types == [] {
    } else {
      var next := TypeTest(Variable(selector), types[0]);
      assert Declarations(name, next) == 0;
      DeclarationsInTypeTests(name, selector, types[1..], Or(tested, next));
    }
  }

  lemma {:induction false} DeclarationsInComparisons(name: string, selector: string, values: seq<Value>, compared: Expr)
    ensures Declarations(name, Comparisons(selector, values, compared)) == Declarations(name, compared)
    decreases |values|
  {
    if values == [] {
    } else {
      var next := Comparison(selector, values[0]);
      assert Declarations(name, next) == 0;
      DeclarationsInComparisons(name, selector, values[1..], Or(compared, next));
    }
  }

  /** Why the source must not use these names: its own local is captured by the selector's. */
  lemma ReservedNameIsCaptured(w: World)
    ensures var e := Match(Literal(IntValue(1)), [Case(Wildcard, None, Variable(SyntheticName(0)))]);
            var env := map[SyntheticName(0) := IntValue(2)];
            Eval(w, e, env, []).outcome == Ok(IntValue(2)) &&
            Eval(w, Lower(e, 0).expr, env, []).outcome == Ok(IntValue(1))
  {
    var c := Case(Wildcard, None, Variable(SyntheticName(0)));
    var e := Match(Literal(IntValue(1)), [c]);
    var env := map[SyntheticName(0) := IntValue(2)];
    assert e.cases[0] == c;
    assert Applies(w, e, 0, IntValue(1), env, []) == Run(Ok(BoolValue(true)), env, []);
    assert EvalBound(w, None, IntValue(1), c.body, env, []) == Eval(w, c.body, env, []);
    LowerCasesUnfold(e, 0, 0, SyntheticName(0));
    assert LowerInside(e, 0, 0).next == 0;
    assert Lower(e, 0).expr == Let(SyntheticName(0), Literal(IntValue(1)), Variable(SyntheticName(0)));
  }
}
