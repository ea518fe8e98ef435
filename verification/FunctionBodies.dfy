/** Whole function bodies: parameters, locals and terminators. */
module FunctionBodies {
  import opened Basics
  import opened Types
  import opened Bodies
  import opened CompiledOperators
  import opened TypePreservation

  datatype Instruction =
    | Param(name: Name, parameterType: Type)
    | Define(name: Name, declared: Option<Type>, value: Expr, isMutable: bool)   // let and var
    | Evaluate(value: Expr)
    | Return(returned: Type, value: Expr)
    | Raise(raised: Type, value: Expr)
    | Unreachable

  predicate IsTerminator(i: Instruction) {
    i.Return? || i.Raise? || i.Unreachable?
  }

  /** The scope after one instruction other than a terminator. */
  function ScopeAfter(c: Context, s: Scope, i: Instruction): Scope {
    match i
    case Param(x, t) => if x == "" then s else Scope(s.types[x := t], s.mutables)
    case Define(x, declared, value, isMutable) =>
      if x == "" then s
      else
        var v := Check(c, s, value);
        Scope(v.scope.types[x := if declared.Some? then declared.value else v.found],
              if isMutable then v.scope.mutables + {x} else v.scope.mutables)
    case Evaluate(value) => Check(c, s, value).scope
    case _ => s
  }

  /** Whether one instruction is accepted; k parameters came before, and only parameters if `first`. */
  predicate InstructionOk(c: Context, parameters: seq<Type>, result: Type, s: Scope, k: nat, first: bool,
                          i: Instruction) {
    match i
    case Param(x, t) => first && x != "" && x !in s.types && k < |parameters| && t == parameters[k]
    case Define(x, declared, value, _) =>
      var v := Check(c, s, value);
      x != "" && v.ok && x !in v.scope.types && (declared.Some? ==> Conforms(c, declared.value, v.found))
    case Evaluate(value) => Check(c, s, value).ok
    case Return(t, value) => t == result && Check(c, s, value).ok && Conforms(c, t, Check(c, s, value).found)
    case Raise(t, value) =>
      var v := Check(c, s, value);
      t.NothingType? && v.ok && (v.found.NullType? || c.below(v.found, THROWABLE))
    case Unreachable => true
  }

  /** The instructions from k on: exactly one terminator, at the end, after all parameters. */
  predicate BodyOk(c: Context, parameters: seq<Type>, result: Type, body: seq<Instruction>,
                   k: nat, s: Scope, seen: nat, first: bool)
    requires k <= |body|
    decreases |body| - k
  {
    k < |body| &&
    InstructionOk(c, parameters, result, s, seen, first, body[k]) &&
    if IsTerminator(body[k]) then k + 1 == |body| && seen == |parameters|
    else
      BodyOk(c, parameters, result, body, k + 1, ScopeAfter(c, s, body[k]),
             if body[k].Param? then seen + 1 else seen, first && body[k].Param?)
  }

  predicate FunctionOk(c: Context, parameters: seq<Type>, result: Type, body: seq<Instruction>) {
    BodyOk(c, parameters, result, body, 0, Scope(map[], {}), 0, true)
  }

  // ---------------------------------------------------------------------------------------------
  // Calls.

  /** Running the instructions from k on. */
  function Call(c: Context, w: World, body: seq<Instruction>, arguments: seq<Value>,
                k: nat, s: Scope, seen: nat, store: Store): Outcome
    requires k <= |body|
    decreases |body| - k
  {
    if k == |body| then Stuck
    else
      var next := ScopeAfter(c, s, body[k]);
      match body[k]
      case Param(x, _) =>
        if seen < |arguments| then Call(c, w, body, arguments, k + 1, next, seen + 1, store[x := arguments[seen]])
        else Stuck
      case Define(x, _, value, _) =>
        var v := Eval(c, w, s, value, store);
        if v.outcome.Ok? then Call(c, w, body, arguments, k + 1, next, seen, v.store[x := v.outcome.value])
        else v.outcome
      case Evaluate(value) =>
        var v := Eval(c, w, s, value, store);
        if v.outcome.Ok? then Call(c, w, body, arguments, k + 1, next, seen, v.store) else v.outcome
      case Return(_, value) => Eval(c, w, s, value, store).outcome
      case Raise(_, value) =>
        var v := Eval(c, w, s, value, store).outcome;
        if !v.Ok? then v else if IsThrowable(c, v.value) then Thrown(v.value) else Stuck
      case Unreachable => Trapped
  }

  ghost predicate InstructionInFragment(c: Context, i: Instruction) {
    match i
    case Param(_, t) => Known(t)
    case Define(_, declared, value, _) => (declared.Some? ==> Known(declared.value)) && InFragment(c, value)
    case Evaluate(value) => InFragment(c, value)
    case Return(t, value) => Known(t) && InFragment(c, value)
    case Raise(_, value) => InFragment(c, value)
    case Unreachable => true
  }

  ghost predicate BodyInFragment(c: Context, body: seq<Instruction>) {
    forall i :: i in body ==> InstructionInFragment(c, i)
  }

  predicate ArgumentsOk(c: Context, parameters: seq<Type>, arguments: seq<Value>) {
    |arguments| == |parameters| && forall i :: 0 <= i < |parameters| ==> ValueOf(c, parameters[i], arguments[i])
  }

  predicate InstructionCompiled(c: Context, s: Scope, i: Instruction) {
    i.Param? || i.Unreachable? || OperatorsCompiled(c, s, i.value)
  }

  /** From instruction k on, all operators have code. */
  predicate BodyCompiled(c: Context, body: seq<Instruction>, k: nat, s: Scope)
    requires k <= |body|
    decreases |body| - k
  {
    k == |body| || (InstructionCompiled(c, s, body[k]) && BodyCompiled(c, body, k + 1, ScopeAfter(c, s, body[k])))
  }

  /** A body traps only by reaching a last instruction that is declared unreachable. */
  predicate Returns(c: Context, result: Type, body: seq<Instruction>, compiled: bool, o: Outcome) {
    if o.Trapped? then body != [] && body[|body| - 1].Unreachable? else Yields(c, result, compiled, o)
  }

  /** Called with arguments of its parameter types, an accepted function returns a value of its result type. */
  lemma FunctionYields(c: Context, w: World, parameters: seq<Type>, result: Type, body: seq<Instruction>,
                       arguments: seq<Value>)
    requires NamesOk(c) && WorldOk(c, w) && BodyInFragment(c, body)
    requires FunctionOk(c, parameters, result, body) && ArgumentsOk(c, parameters, arguments)
    ensures Returns(c, result, body, BodyCompiled(c, body, 0, Scope(map[], {})),
                    Call(c, w, body, arguments, 0, Scope(map[], {}), 0, map[]))
  {
    CallYields(c, w, parameters, result, body, arguments, 0, Scope(map[], {}), 0, true, map[]);
  }

  lemma {:induction false} CallYields(c: Context, w: World, parameters: seq<Type>, result: Type, body: seq<Instruction>,
                                      arguments: seq<Value>, k: nat, s: Scope, seen: nat, first: bool, store: Store)
    requires k <= |body| && Assumed(c, w, s, store) && BodyInFragment(c, body) && ArgumentsOk(c, parameters, arguments)
    requires BodyOk(c, parameters, result, body, k, s, seen, first) && s.mutables <= s.types.Keys
    ensures Returns(c, result, body, BodyCompiled(c, body, k, s), Call(c, w, body, arguments, k, s, seen, store))
    decreases |body| - k, 1
  {
    var i := body[k];
    assert InstructionInFragment(c, i);
    if IsTerminator(i) {
      TerminatorYields(c, w, parameters, result, body, arguments, k, s, seen, first, store);
    } else if i.Param? {
      var next := ScopeAfter(c, s, i);
      Bound(c, s, i.name, i.parameterType, false, store, arguments[seen]);
      assert Declare(s, i.name, i.parameterType, false) == next;
      CallYields(c, w, parameters, result, body, arguments, k + 1, next, seen + 1, first,
                 store[i.name := arguments[seen]]);
    } else {
      StepYields(c, w, parameters, result, body, arguments, k, s, seen, first, store);
    }
  }

  /** An instruction that computes a value, for a new local or for its effects. */
  lemma {:induction false} StepYields(c: Context, w: World, parameters: seq<Type>, result: Type, body: seq<Instruction>,
                                      arguments: seq<Value>, k: nat, s: Scope, seen: nat, first: bool, store: Store)
    requires k < |body| && (body[k].Define? || body[k].Evaluate?) && InstructionInFragment(c, body[k])
    requires Assumed(c, w, s, store) && BodyInFragment(c, body) && ArgumentsOk(c, parameters, arguments)
    requires BodyOk(c, parameters, result, body, k, s, seen, first) && s.mutables <= s.types.Keys
    ensures Returns(c, result, body, BodyCompiled(c, body, k, s), Call(c, w, body, arguments, k, s, seen, store))
    decreases |body| - k, 0
  {
    var i := body[k];
    ValueYields(c, w, parameters, result, s, seen, first, i, store);
    var v := Eval(c, w, s, i.value, store);
    if v.outcome.Ok? {
      CallYields(c, w, parameters, result, body, arguments, k + 1, ScopeAfter(c, s, i), seen, false,
                 StoreAfter(i, v.store, v.outcome.value));
    }
  }

  function StoreAfter(i: Instruction, store: Store, v: Value): Store {
    if i.Define? then store[i.name := v] else store
  }

  lemma ValueYields(c: Context, w: World, parameters: seq<Type>, result: Type, s: Scope, seen: nat, first: bool,
                    i: Instruction, store: Store)
    requires (i.Define? || i.Evaluate?) && InstructionInFragment(c, i) && Assumed(c, w, s, store)
    requires InstructionOk(c, parameters, result, s, seen, first, i) && s.mutables <= s.types.Keys
    ensures var v := Eval(c, w, s, i.value, store);
            var next := ScopeAfter(c, s, i);
            Yields(c, Check(c, s, i.value).found, OperatorsCompiled(c, s, i.value), v.outcome) &&
            next.mutables <= next.types.Keys &&
            (v.outcome.Ok? ==> StoreOk(c, next, StoreAfter(i, v.store, v.outcome.value)))
  {
    Preservation(c, w, s, i.value, store);
    ScopeKept(c, s, i.value);
    FoundKnown(c, s, i.value);
    var v := Eval(c, w, s, i.value, store);
    var found := Check(c, s, i.value).found;
    if i.Define? && v.outcome.Ok? {
      var t := if i.declared.Some? then i.declared.value else found;
      ValueWidens(c, t, found, v.outcome.value);
      Bound(c, s, i.name, t, i.isMutable, v.store, v.outcome.value);
      assert Declare(s, i.name, t, i.isMutable) == ScopeAfter(c, s, i);
    }
  }

  lemma TerminatorYields(c: Context, w: World, parameters: seq<Type>, result: Type, body: seq<Instruction>,
                         arguments: seq<Value>, k: nat, s: Scope, seen: nat, first: bool, store: Store)
    requires k + 1 == |body| && IsTerminator(body[k]) && InstructionInFragment(c, body[k]) && Assumed(c, w, s, store)
    requires InstructionOk(c, parameters, result, s, seen, first, body[k])
    ensures Returns(c, result, body, BodyCompiled(c, body, k, s), Call(c, w, body, arguments, k, s, seen, store))
  {
    var i := body[k];
    if !i.Unreachable? {
      Preservation(c, w, s, i.value, store);
      FoundKnown(c, s, i.value);
      var v := Eval(c, w, s, i.value, store);
      var found := Check(c, s, i.value).found;
      if i.Return? {
        SoundWidens(c, s, result, found, OperatorsCompiled(c, s, i.value), store, v);
      } else if v.outcome.Ok? {
        ThrowableValue(c, found, v.outcome.value);
      }
    }
  }
}
