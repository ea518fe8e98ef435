/** Expressions with match, and their evaluation by trying the cases in order. */
module MatchLanguage {
  import opened Basics

  datatype Value =
    | UnitValue | BoolValue(b: bool) | NullValue | IntValue(i: int) | StringValue(s: string) | Reference(id: nat)

  datatype Outcome = Ok(value: Value) | Thrown(exception: Value) | Stuck | OutOfSteps

  /** What an observer sees, in order. */
  datatype Event = Applied(op: string, left: Value, right: Value) | Tested(value: Value, typeName: string)

  type Trace = seq<Event>
  type Env = map<string, Value>

  datatype Pattern =
    | Wildcard
    | Binding(name: string)
    | Typed(binding: Option<string>, types: seq<string>)
    | Literals(values: seq<Value>)

  datatype Case = Case(pattern: Pattern, guard: Option<Expr>, body: Expr)

  datatype Expr =
    | Empty
    | Literal(value: Value)
    | Variable(name: string)
    | Apply(op: string, left: Expr, right: Expr)
    | And(left: Expr, right: Expr)
    | Or(left: Expr, right: Expr)
    | If(condition: Expr, thenBranch: Expr, elseBranch: Expr)
    | Let(name: string, initializer: Expr, body: Expr)
    | Sequence(first: Expr, second: Expr)
    | Assign(name: string, value_: Expr)
    | Throw(exception: Expr)
    | TypeTest(operand: Expr, typeName: string)
    | Cast(operand: Expr, types: seq<string>)
    | While(condition: Expr, body: Expr)
    | Try(attempt: Expr, binder: Option<string>, handler: Expr)   // without a name, any exception
    | Match(selector: Expr, cases: seq<Case>)

  /** Operators with any effect on later results, any type relation, and any lifetime of locals: those with `keepsSlots`
      stay in their frame slot when their block ends. A loop whose run needs more than `steps` rounds in a row is cut
      off. */
  datatype World = World(apply: (string, Value, Value, Trace) -> Outcome,
                         conforms: (Value, string) -> bool,
                         castFailure: Value,
                         keepsSlots: string -> bool,
                         steps: nat)

  datatype Run = Run(outcome: Outcome, env: Env, trace: Trace)

  const MATCH_PREFIX := "$match"
  const CATCH_PREFIX := "$catch"

  /** The environment after the block that declared a local. */
  function Leave(w: World, name: string, before: Env, after: Env): Env {
    if w.keepsSlots(name) then after
    else if name in before then after[name := before[name]]
    else after - {name}
  }

  predicate IsTrue(o: Outcome) {
    o == Ok(BoolValue(true))
  }

  predicate IsFalse(o: Outcome) {
    o == Ok(BoolValue(false))
  }

  /** What a condition that is neither true nor false leads to. */
  function NoCondition(o: Outcome): Outcome {
    if o.Ok? then Stuck else o
  }

  function ConformsToOne(w: World, v: Value, types: seq<string>): bool {
    types != [] && (w.conforms(v, types[0]) || ConformsToOne(w, v, types[1..]))
  }

  // ---------------------------------------------------------------------------------------------
  // Patterns: alternatives are tried left to right and testing stops at the first that fits.

  datatype Test = Test(outcome: Outcome, trace: Trace)

  function TestTypes(w: World, types: seq<string>, v: Value, trace: Trace): Test {
    if types == [] then Test(Ok(BoolValue(false)), trace)
    else if w.conforms(v, types[0]) then Test(Ok(BoolValue(true)), trace + [Tested(v, types[0])])
    else TestTypes(w, types[1..], v, trace + [Tested(v, types[0])])
  }

  function TestLiterals(w: World, values: seq<Value>, v: Value, trace: Trace): Test {
    if values == [] then Test(Ok(BoolValue(false)), trace)
    else
      var o := w.apply("==", v, values[0], trace);
      var after := trace + [Applied("==", v, values[0])];
      if IsFalse(o) then TestLiterals(w, values[1..], v, after)
      else if IsTrue(o) then Test(o, after)
      else Test(NoCondition(o), after)
  }

  function TestPattern(w: World, p: Pattern, v: Value, trace: Trace): Test {
    match p
    case Wildcard => Test(Ok(BoolValue(true)), trace)
    case Binding(_) => Test(Ok(BoolValue(true)), trace)
    case Typed(_, types) => TestTypes(w, types, v, trace)
    case Literals(values) => TestLiterals(w, values, v, trace)
  }

  function BoundName(p: Pattern): Option<string> {
    match p
    case Binding(name) => Some(name)
    case Typed(binding, _) => binding
    case _ => None
  }

  // ---------------------------------------------------------------------------------------------
  // Evaluation.

  function Eval(w: World, e: Expr, env: Env, trace: Trace): Run
    decreases w.steps, e, 1, 0
  {
    match e
    case Empty => Run(Stuck, env, trace)
    case Literal(v) => Run(Ok(v), env, trace)
    case Variable(x) => Run(if x in env then Ok(env[x]) else Stuck, env, trace)
    case Apply(op, left, right) =>
      var l := Eval(w, left, env, trace);
      if !l.outcome.Ok? then l
      else
        var r := Eval(w, right, l.env, l.trace);
        if !r.outcome.Ok? then r
        else
          Run(w.apply(op, l.outcome.value, r.outcome.value, r.trace), r.env,
              r.trace + [Applied(op, l.outcome.value, r.outcome.value)])
    case And(left, right) =>
      var l := Eval(w, left, env, trace);
      if IsTrue(l.outcome) then Condition(Eval(w, right, l.env, l.trace)) else Condition(l)
    case Or(left, right) =>
      var l := Eval(w, left, env, trace);
      if IsFalse(l.outcome) then Condition(Eval(w, right, l.env, l.trace)) else Condition(l)
    case If(condition, thenBranch, elseBranch) =>
      var c := Eval(w, condition, env, trace);
      if IsTrue(c.outcome) then Eval(w, thenBranch, c.env, c.trace)
      else if IsFalse(c.outcome) then Eval(w, elseBranch, c.env, c.trace)
      else Run(NoCondition(c.outcome), c.env, c.trace)
    case Let(x, initializer, body) =>
      var i := Eval(w, initializer, env, trace);
      if !i.outcome.Ok? then i
      else
        var b := Eval(w, body, i.env[x := i.outcome.value], i.trace);
        Run(b.outcome, Leave(w, x, i.env, b.env), b.trace)
    case Sequence(first, second) =>
      var f := Eval(w, first, env, trace);
      if f.outcome.Ok? then Eval(w, second, f.env, f.trace) else f
    case Assign(x, value) =>
      var r := Eval(w, value, env, trace);
      if !r.outcome.Ok? then r
      else if x in r.env then Run(Ok(UnitValue), r.env[x := r.outcome.value], r.trace)
      else Run(Stuck, r.env, r.trace)
    case Throw(exception) =>
      var r := Eval(w, exception, env, trace);
      if r.outcome.Ok? then Run(Thrown(r.outcome.value), r.env, r.trace) else r
    case TypeTest(operand, typeName) =>
      var r := Eval(w, operand, env, trace);
      if r.outcome.Ok? then
        Run(Ok(BoolValue(w.conforms(r.outcome.value, typeName))), r.env, r.trace + [Tested(r.outcome.value, typeName)])
      else r
    case Cast(operand, types) =>
      var r := Eval(w, operand, env, trace);
      if r.outcome.Ok? && !ConformsToOne(w, r.outcome.value, types) then Run(Thrown(w.castFailure), r.env, r.trace)
      else r
    case While(condition, body) =>
      var c := Eval(w, condition, env, trace);
      if IsTrue(c.outcome) then
        var b := Eval(w, body, c.env, c.trace);
        if !b.outcome.Ok? then b
        else if w.steps == 0 then Run(OutOfSteps, b.env, b.trace)
        else Eval(w.(steps := w.steps - 1), e, b.env, b.trace)
      else if IsFalse(c.outcome) then Run(Ok(UnitValue), c.env, c.trace)
      else Run(NoCondition(c.outcome), c.env, c.trace)
    case Try(attempt, binder, handler) =>
      var a := Eval(w, attempt, env, trace);
      if !a.outcome.Thrown? then a
      else EvalBound(w, binder, a.outcome.exception, handler, a.env, a.trace)
    case Match(selector, cases) =>
      var s := Eval(w, selector, env, trace);
      if s.outcome.Ok? then EvalCases(w, e, 0, s.outcome.value, s.env, s.trace) else s
  }

  function Condition(r: Run): Run {
    if IsTrue(r.outcome) || IsFalse(r.outcome) then r else Run(NoCondition(r.outcome), r.env, r.trace)
  }

  /** First match: the cases from k on, for a selector value that was computed once. */
  function EvalCases(w: World, e: Expr, k: nat, v: Value, env: Env, trace: Trace): Run
    requires e.Match? && k <= |e.cases|
    decreases w.steps, e, 0, |e.cases| - k
  {
    if k == |e.cases| then Run(Stuck, env, trace)
    else
      var c := e.cases[k];
      var a := Applies(w, e, k, v, env, trace);
      if IsTrue(a.outcome) then EvalBound(w, BoundName(c.pattern), v, c.body, a.env, a.trace)
      else if IsFalse(a.outcome) then EvalCases(w, e, k + 1, v, a.env, a.trace)
      else a
  }

  /** Whether case k is taken: its guard is reached only when its pattern matches. */
  function Applies(w: World, e: Expr, k: nat, v: Value, env: Env, trace: Trace): Run
    requires e.Match? && k < |e.cases|
    decreases w.steps, e, 0, 0
  {
    var c := e.cases[k];
    var t := TestPattern(w, c.pattern, v, trace);
    if !IsTrue(t.outcome) || c.guard.None? then Run(t.outcome, env, t.trace)
    else Condition(EvalBound(w, BoundName(c.pattern), v, c.guard.value, env, t.trace))
  }

  /** Evaluation with the variable of a pattern or handler, if it has one, bound to a value. */
  function EvalBound(w: World, name: Option<string>, v: Value, e: Expr, env: Env, trace: Trace): Run
    decreases w.steps, e, 2, 0
  {
    match name
    case None => Eval(w, e, env, trace)
    case Some(x) =>
      var r := Eval(w, e, env[x := v], trace);
      Run(r.outcome, Leave(w, x, env, r.env), r.trace)
  }
}
