/** Typing rules for whole function bodies, and what the verifier accepts in terms of them. */
module TypingFunctions {
  import opened Basics
  import opened Types
  import opened Bodies
  import opened FunctionBodies
  import opened TypingRules
  import opened TypingDecided

  /** The parameters come first, one for every declared type; then values and locals; a terminator stands at the end and
      nowhere else. */
  ghost predicate InstructionTyped(c: Context, parameters: seq<Type>, result: Type, body: seq<Instruction>, k: nat,
                                   s: Scope, s2: Scope)
    requires k < |body|
  {
    if k < |parameters| then ParameterTyped(parameters[k], s, body[k], s2)
    else if k + 1 < |body| then StepTyped(c, s, body[k], s2)
    else s2 == s && EndTyped(c, result, s, body[k])
  }

  predicate ParameterTyped(t: Type, s: Scope, i: Instruction, s2: Scope) {
    && i.Param? && i.parameterType == t && i.name != "" && i.name !in s.types
    && s2 == Scope(s.types[i.name := t], s.mutables)
  }

  /** A new name is bound to its declared type, or else to the type of its value. */
  ghost predicate StepTyped(c: Context, s: Scope, i: Instruction, s2: Scope) {
    match i
    case Define(x, declared, value, isMutable) =>
      exists a, s1 ::
        && Typed(c, s, value, a, s1) && x != "" && x !in s1.types && (declared.Some? ==> Admits(c, declared.value, a))
        && s2 == Scope(s1.types[x := if declared.Some? then declared.value else a],
                       if isMutable then s1.mutables + {x} else s1.mutables)
    case Evaluate(value) => exists a :: Typed(c, s, value, a, s2)
    case _ => false
  }

  ghost predicate EndTyped(c: Context, result: Type, s: Scope, i: Instruction) {
    match i
    case Return(t, value) => t == result && exists a, s1 :: Typed(c, s, value, a, s1) && Admits(c, result, a)
    case Raise(t, value) => t.NothingType? && exists a, s1 :: Typed(c, s, value, a, s1) && Throwable(c, a)
    case Unreachable => true
    case _ => false
  }

  /** The k-th instruction is typed by the scopes from the low-th instruction on. */
  ghost predicate TypedAt(c: Context, parameters: seq<Type>, result: Type, body: seq<Instruction>, low: nat,
                          scopes: seq<Scope>, k: nat)
    requires low <= k < |body| && |scopes| == |body| - low + 1
  {
    InstructionTyped(c, parameters, result, body, k, scopes[k - low], scopes[k - low + 1])
  }

  ghost predicate BodyTyped(c: Context, parameters: seq<Type>, result: Type, body: seq<Instruction>,
                            scopes: seq<Scope>) {
    && |parameters| < |body| && |scopes| == |body| + 1 && scopes[0] == Scope(map[], {})
    && forall k {:trigger TypedAt(c, parameters, result, body, 0, scopes, k)} :: 0 <= k < |body| ==>
         TypedAt(c, parameters, result, body, 0, scopes, k)
  }

  ghost predicate FunctionTyped(c: Context, parameters: seq<Type>, result: Type, body: seq<Instruction>) {
    exists scopes :: BodyTyped(c, parameters, result, body, scopes)
  }

  lemma ParameterIff(c: Context, parameters: seq<Type>, result: Type, s: Scope, k: nat, i: Instruction, s2: Scope)
    requires k < |parameters|
    ensures ParameterTyped(parameters[k], s, i, s2) <==>
            i.Param? && InstructionOk(c, parameters, result, s, k, true, i) && s2 == ScopeAfter(c, s, i)
  {
  }

  lemma StepIff(c: Context, parameters: seq<Type>, result: Type, s: Scope, seen: nat, i: Instruction, s2: Scope)
    ensures StepTyped(c, s, i, s2) <==>
            (i.Define? || i.Evaluate?) && InstructionOk(c, parameters, result, s, seen, false, i) &&
            s2 == ScopeAfter(c, s, i)
  {
    if i.Define? || i.Evaluate? {
      CheckDecidesTyping(c, s, i.value);
      var v := Check(c, s, i.value);
      if v.ok {
        Accepted(c, s, i.value);
      }
      if i.Define? && i.declared.Some? {
        AdmitsIff(c, i.declared.value, v.found);
      }
    }
  }

  lemma EndIff(c: Context, parameters: seq<Type>, result: Type, s: Scope, seen: nat, first: bool, i: Instruction)
    ensures EndTyped(c, result, s, i) <==> IsTerminator(i) && InstructionOk(c, parameters, result, s, seen, first, i)
  {
    if i.Return? || i.Raise? {
      CheckDecidesTyping(c, s, i.value);
      var v := Check(c, s, i.value);
      if v.ok {
        Accepted(c, s, i.value);
      }
      AdmitsIff(c, result, v.found);
    }
  }

  lemma {:induction false} ScopesFrom(c: Context, parameters: seq<Type>, result: Type, body: seq<Instruction>, k: nat,
                                      s: Scope, seen: nat, first: bool) returns (scopes: seq<Scope>)
    requires k <= |body| && seen <= k && (first <==> seen == k)
    requires BodyOk(c, parameters, result, body, k, s, seen, first)
    ensures k < |body| && |parameters| < |body| && |scopes| == |body| - k + 1 && scopes[0] == s
    ensures if first then k <= |parameters| && (k == |parameters| <==> !body[k].Param?) else seen == |parameters| < k
    ensures forall j {:trigger TypedAt(c, parameters, result, body, k, scopes, j)} :: k <= j < |body| ==>
              TypedAt(c, parameters, result, body, k, scopes, j)
    decreases |body| - k
  {
    if IsTerminator(body[k]) {
      EndIff(c, parameters, result, s, seen, first, body[k]);
      scopes := [s, s];
    } else {
      var next := ScopeAfter(c, s, body[k]);
      var rest := ScopesFrom(c, parameters, result, body, k + 1, next, if body[k].Param? then seen + 1 else seen,
                             first && body[k].Param?);
      if body[k].Param? {
        ParameterIff(c, parameters, result, s, k, body[k], next);
      } else {
        StepIff(c, parameters, result, s, seen, body[k], next);
      }
      scopes := [s] + rest;
      forall j {:trigger TypedAt(c, parameters, result, body, k, scopes, j)} | k <= j < |body|
        ensures TypedAt(c, parameters, result, body, k, scopes, j)
      {
        assert j > k ==> TypedAt(c, parameters, result, body, k + 1, rest, j);
      }
    }
  }

  lemma OneMoreOk(c: Context, parameters: seq<Type>, result: Type, body: seq<Instruction>, k: nat, s: Scope, seen: nat,
                  first: bool)
    requires k < |body| && !IsTerminator(body[k]) && InstructionOk(c, parameters, result, s, seen, first, body[k])
    requires BodyOk(c, parameters, result, body, k + 1, ScopeAfter(c, s, body[k]),
                    if body[k].Param? then seen + 1 else seen, first && body[k].Param?)
    ensures BodyOk(c, parameters, result, body, k, s, seen, first)
  {
  }

  lemma {:induction false} TypedBodyOk(c: Context, parameters: seq<Type>, result: Type, body: seq<Instruction>,
                                       scopes: seq<Scope>, k: nat)
    requires BodyTyped(c, parameters, result, body, scopes) && k < |body|
    ensures var n := |parameters|;
            BodyOk(c, parameters, result, body, k, scopes[k], if k < n then k else n, k <= n)
    decreases |body| - k
  {
    var n := |parameters|;
    var seen := if k < n then k else n;
    assert TypedAt(c, parameters, result, body, 0, scopes, k);
    if k < n {
      ParameterIff(c, parameters, result, scopes[k], k, body[k], scopes[k + 1]);
      TypedBodyOk(c, parameters, result, body, scopes, k + 1);
      OneMoreOk(c, parameters, result, body, k, scopes[k], k, true);
    } else if k + 1 < |body| {
      StepIff(c, parameters, result, scopes[k], seen, body[k], scopes[k + 1]);
      TypedBodyOk(c, parameters, result, body, scopes, k + 1);
      OneMoreOk(c, parameters, result, body, k, scopes[k], n, k <= n);
    } else {
      EndIff(c, parameters, result, scopes[k], seen, k <= n, body[k]);
    }
  }

  /** Main result: a function body is accepted exactly if the rules type it. */
  lemma FunctionDecidesTyping(c: Context, parameters: seq<Type>, result: Type, body: seq<Instruction>)
    ensures FunctionOk(c, parameters, result, body) <==> FunctionTyped(c, parameters, result, body)
  {
    if FunctionOk(c, parameters, result, body) {
      var scopes := ScopesFrom(c, parameters, result, body, 0, Scope(map[], {}), 0, true);
      assert BodyTyped(c, parameters, result, body, scopes);
    }
    if FunctionTyped(c, parameters, result, body) {
      var scopes :| BodyTyped(c, parameters, result, body, scopes);
      TypedBodyOk(c, parameters, result, body, scopes, 0);
    }
  }
}
