/** The verifier decides the typing rules: it accepts a body exactly if they give it a type, and reports that type. */
module TypingDecided {
  import opened Basics
  import opened Types
  import opened Bodies
  import opened TypingRules

  lemma BindsIff(s: Scope, x: Name, t: Type, isMutable: bool, s2: Scope)
    ensures Binds(s, x, t, isMutable, s2) <==> s2 == Declare(s, x, t, isMutable)
  {
    if Binds(s, x, t, isMutable, s2) {
      assert s2.types == s.types[x := t];
      assert s2.mutables == Declare(s, x, t, isMutable).mutables;
    }
  }

  // ---------------------------------------------------------------------------------------------
  // What is accepted has a type.

  lemma {:induction false} Accepted(c: Context, s: Scope, e: Expr)
    requires Check(c, s, e).ok
    ensures Typed(c, s, e, Check(c, s, e).found, Check(c, s, e).scope)
    decreases e, 2
  {
    match e
    case Literal(_, _) =>
    case Local(_) =>
    case New(_, _) => NewAccepted(c, s, e);
    case Throw(exception) => Accepted(c, s, exception);
    case Try(_, _, _, _) => TryAccepted(c, s, e);
    case Block(_) => BlockAccepted(c, s, e);
    case LocalBinding(_, _, _, _) => BindingAccepted(c, s, e);
    case Unary(op, operand) =>
      Accepted(c, s, operand);
      UnaryIff(op, Check(c, s, operand).found, UnaryType(op, Check(c, s, operand).found));
    case Binary(_, _, _) => BinaryAccepted(c, s, e);
    case Assign(x, newValue) =>
      Accepted(c, s, newValue);
      AdmitsIff(c, s.types[x], Check(c, s, newValue).found);
    case If(_, _, _, _) => IfAccepted(c, s, e);
    case While(condition, body) =>
      Accepted(c, s, condition);
      Accepted(c, Check(c, s, condition).scope, body);
  }

  lemma WidenedIsPromoted(a: Type)
    ensures Widened(a) == PromotedAlone(a)
  {
  }

  lemma UnaryIff(op: UnaryOperator, a: Type, t: Type)
    ensures UnaryTyped(op, a, t) <==> UnaryOk(op, a) && t == UnaryType(op, a)
  {
    WidenedIsPromoted(a);
  }

  lemma GivesIff(op: BinaryOperator, a: Type, b: Type, t: Type)
    ensures Gives(op, a, b, t) <==> t == BinaryType(op, a, b)
  {
    WidenedIsPromoted(a);
  }

  lemma {:induction false} BinaryAccepted(c: Context, s: Scope, e: Expr)
    requires e.Binary? && Check(c, s, e).ok
    ensures Typed(c, s, e, Check(c, s, e).found, Check(c, s, e).scope)
    decreases e, 1
  {
    var l := Check(c, s, e.left);
    var r := Check(c, l.scope, e.right);
    Accepted(c, s, e.left);
    Accepted(c, l.scope, e.right);
    MayTakeIff(e.binary, l.found, r.found);
    GivesIff(e.binary, l.found, r.found, BinaryType(e.binary, l.found, r.found));
  }

  lemma {:induction false} BindingAccepted(c: Context, s: Scope, e: Expr)
    requires e.LocalBinding? && Check(c, s, e).ok
    ensures Typed(c, s, e, Check(c, s, e).found, Check(c, s, e).scope)
    decreases e, 1
  {
    var i := Check(c, s, e.initializer);
    Accepted(c, s, e.initializer);
    var t := if e.declared.Some? then e.declared.value else i.found;
    AdmitsIff(c, t, i.found);
    BindsIff(i.scope, e.name, t, e.isMutable, Check(c, s, e).scope);
    assert BindingTyped(c, e.declared, i.found, i.scope, e.name, e.isMutable, Check(c, s, e).scope);
  }

  lemma {:induction false} IfAccepted(c: Context, s: Scope, e: Expr)
    requires e.If? && Check(c, s, e).ok
    ensures Typed(c, s, e, Check(c, s, e).found, Check(c, s, e).scope)
    decreases e, 1
  {
    var i := Check(c, s, e.condition);
    var a := Check(c, i.scope, e.thenBranch);
    var b := Check(c, a.scope, e.elseBranch);
    Accepted(c, s, e.condition);
    Accepted(c, i.scope, e.thenBranch);
    Accepted(c, a.scope, e.elseBranch);
    BranchesIff(c, e.resultType, a.found, b.found, Check(c, s, e).found);
    assert BranchesTyped(c, i.scope, e, Check(c, s, e).found, b.scope);
  }

  lemma {:induction false} NewAccepted(c: Context, s: Scope, e: Expr)
    requires e.New? && Check(c, s, e).ok
    ensures Typed(c, s, e, Check(c, s, e).found, Check(c, s, e).scope)
    decreases e, 1
  {
    var expected := c.constructorTypes(c.resolve(e.className).value.own);
    var types, scopes := ArgumentsFrom(c, s, e, expected, 0);
    assert ArgumentsTyped(c, s, e, expected, types, scopes, Check(c, s, e).scope);
  }

  lemma {:induction false} ArgumentsFrom(c: Context, s: Scope, e: Expr, expected: seq<Type>, k: nat)
    returns (types: seq<Type>, scopes: seq<Scope>)
    requires e.New? && k <= |e.arguments| == |expected| && CheckArguments(c, s, e, expected, k).ok
    ensures |types| == |e.arguments| - k && |scopes| == |types| + 1
    ensures scopes[0] == s && scopes[|types|] == CheckArguments(c, s, e, expected, k).scope
    ensures forall i {:trigger types[i]} :: 0 <= i < |types| ==>
              Typed(c, scopes[i], e.arguments[k + i], types[i], scopes[i + 1]) && Admits(c, expected[k + i], types[i])
    decreases e, 0, |e.arguments| - k
  {
    if k == |e.arguments| {
      types, scopes := [], [s];
    } else {
      var a := Check(c, s, e.arguments[k]);
      Accepted(c, s, e.arguments[k]);
      AdmitsIff(c, expected[k], a.found);
      var rest, after := ArgumentsFrom(c, a.scope, e, expected, k + 1);
      types, scopes := [a.found] + rest, [s] + after;
    }
  }

  function LocalsBefore(e: Expr, k: nat): set<Name>
    requires e.Block? && k <= |e.operands|
  {
    set i | 0 <= i < k && e.operands[i].LocalBinding? :: e.operands[i].name
  }

  lemma {:induction false} BlockAccepted(c: Context, s: Scope, e: Expr)
    requires e.Block? && Check(c, s, e).ok
    ensures Typed(c, s, e, Check(c, s, e).found, Check(c, s, e).scope)
    decreases e, 1
  {
    assert LocalsBefore(e, 0) == {};
    var types, scopes := OperandsFrom(c, s, e, 0, UnitType);
    assert BlockTyped(c, s, e, types, scopes, Check(c, s, e).found);
  }

  lemma {:induction false} OperandsFrom(c: Context, s: Scope, e: Expr, k: nat, last: Type)
    returns (types: seq<Type>, scopes: seq<Scope>)
    requires e.Block? && k <= |e.operands| && CheckBlock(c, s, e, k, LocalsBefore(e, k), last).ok
    ensures |types| == |e.operands| - k && |scopes| == |types| + 1 && scopes[0] == s
    ensures CheckBlock(c, s, e, k, LocalsBefore(e, k), last).found == if types == [] then last else LastType(types)
    ensures forall i {:trigger types[i]} :: 0 <= i < |types| ==>
              Typed(c, scopes[i], e.operands[k + i], types[i], scopes[i + 1])
    ensures forall i, j {:trigger e.operands[i], e.operands[j]} :: k <= j < |e.operands| && 0 <= i < j ==>
              !SameLocal(e.operands[i], e.operands[j])
    decreases e, 0, |e.operands| - k
  {
    if k == |e.operands| {
      types, scopes := [], [s];
    } else {
      var o := e.operands[k];
      var r := Check(c, s, o);
      Accepted(c, s, o);
      LocalsStep(e, k);
      var rest, after := OperandsFrom(c, r.scope, e, k + 1, r.found);
      types, scopes := [r.found] + rest, [s] + after;
    }
  }

  lemma LocalsStep(e: Expr, k: nat)
    requires e.Block? && k < |e.operands|
    ensures LocalsBefore(e, k + 1) ==
            if e.operands[k].LocalBinding? then LocalsBefore(e, k) + {e.operands[k].name} else LocalsBefore(e, k)
    ensures e.operands[k].LocalBinding? && e.operands[k].name in LocalsBefore(e, k) <==>
            exists i {:trigger e.operands[i]} :: 0 <= i < k && SameLocal(e.operands[i], e.operands[k])
  {
  }

  lemma {:induction false} TryAccepted(c: Context, s: Scope, e: Expr)
    requires e.Try? && Check(c, s, e).ok
    ensures Typed(c, s, e, Check(c, s, e).found, Check(c, s, e).scope)
    decreases e, 1
  {
    var a := Check(c, s, e.attempt);
    Accepted(c, s, e.attempt);
    AdmitsIff(c, e.result, a.found);
    HandlersIff(c, a.scope, e, 0, [], false);
    forall k {:trigger InOrder(c, e, k)} {:trigger HandlerHasType(c, a.scope, e, k)} | 0 <= k < |e.handlers|
      ensures InOrder(c, e, k) && HandlerHasType(c, a.scope, e, k)
    {
      assert HandlerOk(c, a.scope, e, k);
      HandlerAccepted(c, a.scope, e, k);
    }
    if e.finalizer.Some? {
      Accepted(c, a.scope, e.finalizer.value);
    }
    assert TryTyped(c, s, e, a.scope, Check(c, s, e).scope);
  }

  lemma {:induction false} HandlerAccepted(c: Context, s: Scope, e: Expr, k: nat)
    requires e.Try? && k < |e.handlers| && CheckHandler(c, s, e, k)
    ensures HandlerHasType(c, s, e, k)
    decreases e, 0
  {
    var h := e.handlers[k];
    var inner := Declare(s, h.binding, h.caught, false);
    var b := Check(c, inner, h.body);
    Accepted(c, inner, h.body);
    BindsIff(s, h.binding, h.caught, false, inner);
    AdmitsIff(c, h.result, b.found);
    AdmitsIff(c, e.result, h.result);
    assert HandlerTyped(c, s, e, k, inner, b.found, b.scope);
  }

  predicate HandlerOk(c: Context, s: Scope, e: Expr, k: nat)
    requires e.Try? && k < |e.handlers|
  {
    CheckHandler(c, s, e, k) && InOrder(c, e, k)
  }

  /** The types caught before the k-th handler, all valid, and whether one of them takes everything. */
  predicate CaughtBefore(e: Expr, k: nat, earlier: seq<Type>, sawCatchAll: bool)
    requires e.Try? && k <= |e.handlers|
  {
    && |earlier| == k && (forall i {:trigger earlier[i]} :: 0 <= i < k ==> earlier[i] == e.handlers[i].caught)
    && (sawCatchAll <==> exists i {:trigger earlier[i]} :: 0 <= i < k && IsCatchAll(earlier[i]))
  }

  lemma CaughtNext(c: Context, e: Expr, k: nat, earlier: seq<Type>, sawCatchAll: bool)
    requires e.Try? && k < |e.handlers| && CaughtBefore(e, k, earlier, sawCatchAll)
    ensures var caught := e.handlers[k].caught;
            CaughtBefore(e, k + 1, earlier + [caught], sawCatchAll || IsCatchAll(caught))
    ensures IsValidCatch(c, e.handlers[k].caught) ==>
              (CatchInOrder(c, earlier, sawCatchAll, e.handlers[k].caught) <==> InOrder(c, e, k))
  {
    var caught := e.handlers[k].caught;
    var next := earlier + [caught];
    assert next[k] == caught;
    assert forall i {:trigger next[i]} :: 0 <= i < k ==> next[i] == earlier[i];
    assert forall i {:trigger earlier[i]} :: 0 <= i < k ==> earlier[i] == next[i];
    assert forall i {:trigger e.handlers[i]} :: 0 <= i < k ==> e.handlers[i].caught == earlier[i];
  }

  /** Handlers from k on are accepted if every one is, and none is shadowed by one before it. */
  lemma {:induction false} HandlersIff(c: Context, s: Scope, e: Expr, k: nat, earlier: seq<Type>, sawCatchAll: bool)
    requires e.Try? && k <= |e.handlers| && CaughtBefore(e, k, earlier, sawCatchAll)
    ensures CheckHandlers(c, s, e, k, earlier, sawCatchAll) <==>
            forall j {:trigger HandlerOk(c, s, e, j)} :: k <= j < |e.handlers| ==> HandlerOk(c, s, e, j)
    decreases |e.handlers| - k
  {
    if k < |e.handlers| {
      var caught := e.handlers[k].caught;
      CaughtNext(c, e, k, earlier, sawCatchAll);
      HandlersIff(c, s, e, k + 1, earlier + [caught], sawCatchAll || IsCatchAll(caught));
      assert HandlerOk(c, s, e, k) ==> IsValidCatch(c, caught);
      HandlersUnfolded(c, s, e, k, earlier, sawCatchAll);
    }
  }

  lemma HandlersUnfolded(c: Context, s: Scope, e: Expr, k: nat, earlier: seq<Type>, sawCatchAll: bool)
    requires e.Try? && k < |e.handlers|
    ensures CheckHandlers(c, s, e, k, earlier, sawCatchAll) ==> IsValidCatch(c, e.handlers[k].caught)
    ensures IsValidCatch(c, e.handlers[k].caught) ==>
              var caught := e.handlers[k].caught;
              CheckHandlers(c, s, e, k, earlier, sawCatchAll) ==
              (CatchInOrder(c, earlier, sawCatchAll, caught) && CheckHandler(c, s, e, k) &&
               CheckHandlers(c, s, e, k + 1, earlier + [caught], sawCatchAll || IsCatchAll(caught)))
  {
    if CheckHandlers(c, s, e, k, earlier, sawCatchAll) {
      assert CheckHandler(c, s, e, k);
    }
  }

  // ---------------------------------------------------------------------------------------------
  // What has a type is accepted.

  lemma {:induction false} Derived(c: Context, s: Scope, e: Expr, t: Type, s2: Scope)
    requires Typed(c, s, e, t, s2)
    ensures Check(c, s, e) == Checked(t, s2, true)
    decreases e, 2
  {
    match e
    case Literal(_, _) =>
    case Local(_) =>
    case New(_, _) =>
      var types, scopes :| ArgumentsTyped(c, s, e, c.constructorTypes(t), types, scopes, s2);
      ArgumentsDerived(c, s, e, c.constructorTypes(t), types, scopes, s2, 0);
    case Throw(exception) =>
      var x :| Typed(c, s, exception, x, s2) && Throwable(c, x);
      Derived(c, s, exception, x, s2);
    case Try(_, _, _, _) =>
      var s1 :| TryTyped(c, s, e, s1, s2);
      TryDerived(c, s, e, s1, s2);
    case Block(_) =>
      var types, scopes :| BlockTyped(c, s, e, types, scopes, t);
      assert LocalsBefore(e, 0) == {};
      OperandsDerived(c, s, e, types, scopes, t, 0, UnitType);
    case LocalBinding(_, _, _, _) => BindingDerived(c, s, e, t, s2);
    case Unary(op, operand) =>
      var a :| Typed(c, s, operand, a, s2) && UnaryTyped(op, a, t);
      Derived(c, s, operand, a, s2);
      UnaryIff(op, a, t);
    case Binary(_, _, _) => BinaryDerived(c, s, e, t, s2);
    case Assign(x, newValue) =>
      var a :| Typed(c, s, newValue, a, s2) && Admits(c, s.types[x], a);
      Derived(c, s, newValue, a, s2);
      AdmitsIff(c, s.types[x], a);
    case If(_, _, _, _) => IfDerived(c, s, e, t, s2);
    case While(_, _) => WhileDerived(c, s, e, t, s2);
  }

  lemma {:induction false} BindingDerived(c: Context, s: Scope, e: Expr, t: Type, s2: Scope)
    requires e.LocalBinding? && Typed(c, s, e, t, s2)
    ensures Check(c, s, e) == Checked(t, s2, true)
    decreases e, 1
  {
    var a, s1 :| Typed(c, s, e.initializer, a, s1) && BindingTyped(c, e.declared, a, s1, e.name, e.isMutable, s2);
    Derived(c, s, e.initializer, a, s1);
    var bound := if e.declared.Some? then e.declared.value else a;
    AdmitsIff(c, bound, a);
    BindsIff(s1, e.name, bound, e.isMutable, s2);
  }

  lemma {:induction false} BinaryDerived(c: Context, s: Scope, e: Expr, t: Type, s2: Scope)
    requires e.Binary? && Typed(c, s, e, t, s2)
    ensures Check(c, s, e) == Checked(t, s2, true)
    decreases e, 1
  {
    var a, s1, b :|
      Typed(c, s, e.left, a, s1) && Typed(c, s1, e.right, b, s2) && MayTake(e.binary, a, b) && Gives(e.binary, a, b, t);
    Derived(c, s, e.left, a, s1);
    Derived(c, s1, e.right, b, s2);
    MayTakeIff(e.binary, a, b);
    GivesIff(e.binary, a, b, t);
  }

  lemma {:induction false} IfDerived(c: Context, s: Scope, e: Expr, t: Type, s2: Scope)
    requires e.If? && Typed(c, s, e, t, s2)
    ensures Check(c, s, e) == Checked(t, s2, true)
    decreases e, 1
  {
    var i, s1 :| Typed(c, s, e.condition, i, s1) && StandsFor(i, BooleanType) && BranchesTyped(c, s1, e, t, s2);
    Derived(c, s, e.condition, i, s1);
    BranchesDerived(c, s1, e, t, s2);
  }

  lemma {:induction false} BranchesDerived(c: Context, s: Scope, e: Expr, t: Type, s2: Scope)
    requires e.If? && BranchesTyped(c, s, e, t, s2)
    ensures var a := Check(c, s, e.thenBranch);
            var b := Check(c, a.scope, e.elseBranch);
            a.ok && b.ok && BranchesOk(c, e.resultType, a.found, b.found) &&
            t == BranchType(e.resultType, a.found, b.found) && s2 == b.scope
    decreases e, 0
  {
    var a, s1, b :|
      Typed(c, s, e.thenBranch, a, s1) && Typed(c, s1, e.elseBranch, b, s2) && Branches(c, e.resultType, a, b, t);
    Derived(c, s, e.thenBranch, a, s1);
    Derived(c, s1, e.elseBranch, b, s2);
    BranchesIff(c, e.resultType, a, b, t);
  }

  lemma {:induction false} WhileDerived(c: Context, s: Scope, e: Expr, t: Type, s2: Scope)
    requires e.While? && Typed(c, s, e, t, s2)
    ensures Check(c, s, e) == Checked(t, s2, true)
    decreases e, 1
  {
    var i, s1, b :| Typed(c, s, e.condition, i, s1) && StandsFor(i, BooleanType) && Typed(c, s1, e.body, b, s2);
    Derived(c, s, e.condition, i, s1);
    Derived(c, s1, e.body, b, s2);
  }

  lemma {:induction false} ArgumentsDerived(c: Context, s: Scope, e: Expr, expected: seq<Type>, types: seq<Type>,
                                            scopes: seq<Scope>, s2: Scope, k: nat)
    requires e.New? && ArgumentsTyped(c, s, e, expected, types, scopes, s2) && k <= |types|
    ensures CheckArguments(c, scopes[k], e, expected, k) == Checked(UnitType, s2, true)
    decreases e, 0, |types| - k
  {
    if k == |types| {
    } else {
      Derived(c, scopes[k], e.arguments[k], types[k], scopes[k + 1]);
      AdmitsIff(c, expected[k], types[k]);
      ArgumentsDerived(c, s, e, expected, types, scopes, s2, k + 1);
    }
  }

  lemma {:induction false} OperandsDerived(c: Context, s: Scope, e: Expr, types: seq<Type>, scopes: seq<Scope>,
                                           t: Type, k: nat, last: Type)
    requires e.Block? && BlockTyped(c, s, e, types, scopes, t) && k <= |types| && (k == |types| ==> last == t)
    ensures var b := CheckBlock(c, scopes[k], e, k, LocalsBefore(e, k), last); b.found == t && b.ok
    decreases e, 0, |types| - k
  {
    if k == |types| {
    } else {
      Derived(c, scopes[k], e.operands[k], types[k], scopes[k + 1]);
      LocalsStep(e, k);
      OperandsDerived(c, s, e, types, scopes, t, k + 1, types[k]);
    }
  }

  lemma {:induction false} TryDerived(c: Context, s: Scope, e: Expr, s1: Scope, s2: Scope)
    requires e.Try? && TryTyped(c, s, e, s1, s2)
    ensures Check(c, s, e) == Checked(e.result, s2, true)
    decreases e, 1
  {
    var a :| Typed(c, s, e.attempt, a, s1) && Admits(c, e.result, a);
    Derived(c, s, e.attempt, a, s1);
    AdmitsIff(c, e.result, a);
    forall k | 0 <= k < |e.handlers| ensures HandlerOk(c, s1, e, k) {
      assert InOrder(c, e, k) && HandlerHasType(c, s1, e, k);
      HandlerDerived(c, s1, e, k);
    }
    HandlersIff(c, s1, e, 0, [], false);
    if e.finalizer.Some? {
      var b :| Typed(c, s1, e.finalizer.value, b, s2);
      Derived(c, s1, e.finalizer.value, b, s2);
    }
  }

  lemma {:induction false} HandlerDerived(c: Context, s: Scope, e: Expr, k: nat)
    requires e.Try? && k < |e.handlers| && HandlerHasType(c, s, e, k)
    ensures CheckHandler(c, s, e, k)
    decreases e, 0
  {
    var h := e.handlers[k];
    var inner, b, after :| HandlerTyped(c, s, e, k, inner, b, after);
    BindsIff(s, h.binding, h.caught, false, inner);
    Derived(c, inner, h.body, b, after);
    AdmitsIff(c, h.result, b);
    AdmitsIff(c, e.result, h.result);
  }

  /** Main result: the walk adds no error exactly if the rules give the body a type, and reports the only type and the
      only scope they give it. */
  lemma CheckDecidesTyping(c: Context, s: Scope, e: Expr)
    ensures Check(c, s, e).ok <==> HasType(c, s, e)
    ensures forall t, s2 :: Typed(c, s, e, t, s2) ==> Check(c, s, e) == Checked(t, s2, true)
  {
    if Check(c, s, e).ok {
      Accepted(c, s, e);
    }
    forall t, s2 | Typed(c, s, e, t, s2) ensures Check(c, s, e) == Checked(t, s2, true) {
      Derived(c, s, e, t, s2);
    }
    if HasType(c, s, e) {
      var t, s2 :| Typed(c, s, e, t, s2);
      Derived(c, s, e, t, s2);
    }
  }
}
