/** The verifier's walk over a body, with its fields saved and restored around blocks and handlers. */
module BodyVerifier {
  import opened Basics
  import opened TypeContexts
  import opened Types
  import opened Bodies
  import opened FunctionBodies
  import opened ParentGraph
  import opened Subtyping

  method FindSubtype(names: Names, pm: ParentMap, actual: Type, expected: Type) returns (b: bool)
    ensures b == SubtypeOf(names, pm, actual, expected)
  {
    if actual == expected {
      b := true;
    } else if Canonical(names, actual) && Canonical(names, expected) {
      b := IsSubtypeOf(names.spell(actual), names.spell(expected), pm);
    } else {
      b := false;
    }
  }

  lemma HandlersUnfold(c: Context, s: Scope, e: Expr, k: nat, earlier: seq<Type>, sawCatchAll: bool)
    requires e.Try? && k < |e.handlers|
    ensures var caught := e.handlers[k].caught;
            CheckHandlers(c, s, e, k, earlier, sawCatchAll) ==
            (CatchInOrder(c, earlier, sawCatchAll, caught) && CheckHandler(c, s, e, k) &&
             CheckHandlers(c, s, e, k + 1, Caught(c, earlier, caught), sawCatchAll || IsCatchAll(caught)))
  {
  }

  class BodyVerifier {
    const names: Names
    const parentMap: ParentMap
    const resolve: Name -> Option<Resolution>   // resolveGlobal
    const constructorTypes: Type -> seq<Type>
    var locals: set<Name>
    var localTypes: map<Name, Type>
    var mutableLocals: set<Name>
    var ok: bool

    constructor (names: Names, parentMap: ParentMap, resolve: Name -> Option<Resolution>,
                 constructorTypes: Type -> seq<Type>)
      ensures Ctx() == ContextOf(names, parentMap, resolve, constructorTypes)
      ensures Valid() && Here() == Scope(map[], {}) && ok
    {
      this.names, this.parentMap, this.resolve, this.constructorTypes := names, parentMap, resolve, constructorTypes;
      locals, localTypes, mutableLocals, ok := {}, map[], {}, true;
    }

    ghost function Ctx(): Context {
      ContextOf(names, parentMap, resolve, constructorTypes)
    }

    ghost predicate Valid()
      reads this
    {
      locals == localTypes.Keys
    }

    function Here(): Scope
      reads this
    {
      Scope(localTypes, mutableLocals)
    }

    method Restore(savedLocals: set<Name>, saved: Scope)
      requires savedLocals == saved.types.Keys
      modifies this`locals, this`localTypes, this`mutableLocals
      ensures Valid() && Here() == saved
    {
      locals, localTypes, mutableLocals := savedLocals, saved.types, saved.mutables;
    }

    method DeclareLocal(x: Name, t: Type, isMutable: bool)
      requires Valid()
      modifies this`locals, this`localTypes, this`mutableLocals
      ensures Valid() && Here() == Declare(old(Here()), x, t, isMutable)
    {
      locals := locals + {x};
      localTypes := localTypes[x := t];
      mutableLocals := if isMutable then mutableLocals + {x} else mutableLocals - {x};
    }

    method AddErrorUnless(condition: bool)
      modifies this`ok
      ensures ok == (old(ok) && condition)
    {
      ok := ok && condition;
    }

    // -------------------------------------------------------------------------------------------
    // Types.

    method Below(actual: Type, expected: Type) returns (b: bool)
      ensures b == Ctx().below(actual, expected)
    {
      b := FindSubtype(names, parentMap, actual, expected);
    }

    method TypesConformTo(expected: Type, actual: Type) returns (b: bool)
      ensures b == Conforms(Ctx(), expected, actual)
    {
      if TypesConform(expected, actual) {
        return true;
      }
      if !IsReference(expected) || !IsReference(actual) {
        return false;
      }
      b := Below(actual, expected);
    }

    method ValidCatchType(t: Type) returns (b: bool)
      ensures b == IsValidCatch(Ctx(), t)
    {
      if IsCatchAll(t) {
        return true;
      }
      var r := resolve(names.spell(t));
      if r.None? {
        return false;
      }
      if r.value.isTrait || !r.value.isClass {
        return r.value.isTrait;
      }
      b := Below(r.value.own, THROWABLE);
    }

    method Shadows(earlier: Type, later: Type) returns (b: bool)
      ensures b == CatchShadows(Ctx(), earlier, later)
    {
      if IsCatchAll(earlier) {
        return true;
      }
      b := Below(later, earlier);
      if !b {
        b := Below(THROWABLE, earlier);
      }
    }

    method ThrowableType(t: Type) returns (b: bool)
      ensures b == (t.NullType? || Ctx().below(t, THROWABLE))
    {
      if t.NullType? {
        return true;
      }
      b := Below(t, THROWABLE);
    }

    // -------------------------------------------------------------------------------------------
    // Values.

    /** The walk computes `Check`: the type it reports, the locals it leaves and whether it adds an error. */
    method VerifyValue(e: Expr) returns (found: Type)
      requires Valid()
      modifies this
      ensures Valid() && found == Check(Ctx(), old(Here()), e).found && Here() == Check(Ctx(), old(Here()), e).scope
      ensures ok == (old(ok) && Check(Ctx(), old(Here()), e).ok)
      decreases e, 1, 1
    {
      match e
      case Literal(t, _) => found := t;
      case Local(x) =>
        if x in localTypes {
          return localTypes[x];
        }
        var r := resolve(x);
        AddErrorUnless(r.Some?);
        found := if r.Some? then r.value.mentioned else UnknownType;
      case New(_, _) => found := VerifyNew(e);
      case Throw(exception) =>
        var x := VerifyValue(exception);
        var throwable := ThrowableType(x);
        AddErrorUnless(throwable);
        found := NothingType;
      case Try(_, _, _, _) => found := VerifyTry(e);
      case Block(_) => found := VerifyBlock(e);
      case LocalBinding(_, _, _, _) => found := VerifyLocalBinding(e);
      case Unary(op, operand) =>
        var o := VerifyValue(operand);
        AddErrorUnless(UnaryOk(op, o));
        found := UnaryType(op, o);
      case Binary(op, left, right) =>
        var l := VerifyValue(left);
        var r := VerifyValue(right);
        AddErrorUnless(OperandsOk(op, l, r));
        found := BinaryType(op, l, r);
      case Assign(_, _) => found := VerifyAssign(e);
      case If(_, _, _, _) => found := VerifyIf(e);
      case While(condition, body) =>
        var i := VerifyValue(condition);
        AddErrorUnless(OrUnknown(i.BooleanType?, i));
        var b := VerifyValue(body);
        found := UnitType;
    }

    method VerifyNew(e: Expr) returns (found: Type)
      requires e.New? && Valid()
      modifies this
      ensures Valid() && found == Check(Ctx(), old(Here()), e).found && Here() == Check(Ctx(), old(Here()), e).scope
      ensures ok == (old(ok) && Check(Ctx(), old(Here()), e).ok)
      decreases e, 1, 0
    {
      var r := resolve(e.className);
      if r.None? || !r.value.isClass {
        AddErrorUnless(false);
        return UnknownType;
      }
      var expected := constructorTypes(r.value.own);
      AddErrorUnless(|e.arguments| == |expected|);
      VerifyArguments(e, expected);
      found := r.value.own;
    }

    method VerifyArguments(e: Expr, expected: seq<Type>)
      requires e.New? && Valid()
      modifies this
      ensures Valid() && Here() == CheckArguments(Ctx(), old(Here()), e, expected, 0).scope
      ensures ok == (old(ok) && CheckArguments(Ctx(), old(Here()), e, expected, 0).ok)
      decreases e, 0, 0
    {
      ghost var s := Here();
      var k := 0;
      while k < |e.arguments| && k < |expected|
        invariant k <= |e.arguments| && k <= |expected| && Valid()
        invariant var all := CheckArguments(Ctx(), s, e, expected, 0);
                  var rest := CheckArguments(Ctx(), Here(), e, expected, k);
                  all.scope == rest.scope && (old(ok) && all.ok) == (ok && rest.ok)
      {
        var a := VerifyValue(e.arguments[k]);
        var conforms := TypesConformTo(expected[k], a);
        AddErrorUnless(conforms);
        k := k + 1;
      }
    }

    method VerifyBlock(e: Expr) returns (found: Type)
      requires e.Block? && Valid()
      modifies this
      ensures Valid() && found == Check(Ctx(), old(Here()), e).found && Here() == old(Here())
      ensures ok == (old(ok) && Check(Ctx(), old(Here()), e).ok)
      decreases e, 1, 0
    {
      var savedLocals, saved := locals, Here();
      var declaredHere: set<Name> := {};
      found := UnitType;
      var k := 0;
      while k < |e.operands|
        invariant 0 <= k <= |e.operands| && Valid()
        invariant var all := CheckBlock(Ctx(), saved, e, 0, {}, UnitType);
                  var rest := CheckBlock(Ctx(), Here(), e, k, declaredHere, found);
                  all.found == rest.found && (old(ok) && all.ok) == (ok && rest.ok)
      {
        var operand := e.operands[k];
        if operand.LocalBinding? {
          AddErrorUnless(operand.name !in declaredHere);
          declaredHere := declaredHere + {operand.name};
        }
        found := VerifyValue(operand);
        k := k + 1;
      }
      Restore(savedLocals, saved);
    }

    method VerifyLocalBinding(e: Expr) returns (found: Type)
      requires e.LocalBinding? && Valid()
      modifies this
      ensures Valid() && found == UnitType && Here() == Check(Ctx(), old(Here()), e).scope
      ensures ok == (old(ok) && Check(Ctx(), old(Here()), e).ok)
      decreases e, 1, 0
    {
      found := UnitType;
      if e.name == "" {
        AddErrorUnless(false);
        return;
      }
      var i := VerifyValue(e.initializer);
      var t := i;
      if e.declared.Some? {
        t := e.declared.value;
        var conforms := TypesConformTo(t, i);
        AddErrorUnless(conforms);
      }
      DeclareLocal(e.name, t, e.isMutable);
    }

    method VerifyAssign(e: Expr) returns (found: Type)
      requires e.Assign? && Valid()
      modifies this
      ensures Valid() && found == UnitType && Here() == Check(Ctx(), old(Here()), e).scope
      ensures ok == (old(ok) && Check(Ctx(), old(Here()), e).ok)
      decreases e, 1, 0
    {
      found := UnitType;
      if e.target !in localTypes {
        AddErrorUnless(false);
        var ignored := VerifyValue(e.newValue);
        return;
      }
      var localType := localTypes[e.target];
      AddErrorUnless(e.target in mutableLocals);
      var a := VerifyValue(e.newValue);
      var conforms := TypesConformTo(localType, a);
      AddErrorUnless(conforms);
    }

    method VerifyIf(e: Expr) returns (found: Type)
      requires e.If? && Valid()
      modifies this
      ensures Valid() && found == Check(Ctx(), old(Here()), e).found && Here() == Check(Ctx(), old(Here()), e).scope
      ensures ok == (old(ok) && Check(Ctx(), old(Here()), e).ok)
      decreases e, 1, 0
    {
      var i := VerifyValue(e.condition);
      AddErrorUnless(OrUnknown(i.BooleanType?, i));
      var a := VerifyValue(e.thenBranch);
      var b := VerifyValue(e.elseBranch);
      if e.resultType.Some? {
        var first := TypesConformTo(e.resultType.value, a);
        AddErrorUnless(first);
        var second := TypesConformTo(e.resultType.value, b);
        AddErrorUnless(second);
        return e.resultType.value;
      }
      if a == b || b.UnknownType? {
        return a;
      }
      if a.UnknownType? || a.NothingType? {
        return b;
      }
      if b.NothingType? {
        return a;
      }
      AddErrorUnless(false);
      found := UnknownType;
    }

    method VerifyTry(e: Expr) returns (found: Type)
      requires e.Try? && Valid()
      modifies this
      ensures Valid() && found == e.result && Here() == Check(Ctx(), old(Here()), e).scope
      ensures ok == (old(ok) && Check(Ctx(), old(Here()), e).ok)
      decreases e, 1, 0
    {
      found := e.result;
      var a := VerifyValue(e.attempt);
      var conforms := TypesConformTo(e.result, a);
      AddErrorUnless(conforms);
      VerifyHandlers(e);
      if e.finalizer.Some? {
        var f := VerifyValue(e.finalizer.value);
      }
      AddErrorUnless(e.handlers != [] || e.finalizer.Some?);
    }

    method VerifyHandlers(e: Expr)
      requires e.Try? && Valid()
      modifies this
      ensures Valid() && Here() == old(Here())
      ensures ok == (old(ok) && CheckHandlers(Ctx(), old(Here()), e, 0, [], false))
      decreases e, 0, 1
    {
      ghost var c, s := Ctx(), Here();
      var sawCatchAll, earlier: seq<Type> := false, [];
      var k := 0;
      while k < |e.handlers|
        invariant 0 <= k <= |e.handlers| && Valid() && Here() == s
        invariant (old(ok) && CheckHandlers(c, s, e, 0, [], false)) ==
                  (ok && CheckHandlers(c, s, e, k, earlier, sawCatchAll))
      {
        var caught := e.handlers[k].caught;
        HandlersUnfold(c, s, e, k, earlier, sawCatchAll);
        earlier := VerifyCatchOrder(earlier, sawCatchAll, caught);
        VerifyCatch(e, k);
        sawCatchAll := sawCatchAll || IsCatchAll(caught);
        k := k + 1;
      }
    }

    method VerifyCatchOrder(earlier: seq<Type>, sawCatchAll: bool, caught: Type) returns (next: seq<Type>)
      modifies this`ok
      ensures next == Caught(Ctx(), earlier, caught)
      ensures ok == (old(ok) && CatchInOrder(Ctx(), earlier, sawCatchAll, caught))
    {
      var valid := ValidCatchType(caught);
      if sawCatchAll {
        AddErrorUnless(false);
      } else if valid {
        var shadowed := FindShadowing(earlier, caught);
        AddErrorUnless(!shadowed);
      }
      next := if valid then earlier + [caught] else earlier;
    }

    method FindShadowing(earlier: seq<Type>, later: Type) returns (b: bool)
      ensures b == AnyShadows(Ctx(), earlier, later)
    {
      ghost var c := Ctx();
      for k := 0 to |earlier|
        invariant forall i {:trigger earlier[i]} :: 0 <= i < k ==> !CatchShadows(c, earlier[i], later)
      {
        b := Shadows(earlier[k], later);
        if b {
          return;
        }
      }
      b := false;
    }

    method VerifyCatch(e: Expr, k: nat)
      requires e.Try? && k < |e.handlers| && Valid()
      modifies this
      ensures Valid() && Here() == old(Here())
      ensures ok == (old(ok) && CheckHandler(Ctx(), old(Here()), e, k))
      decreases e, 0, 0
    {
      var h := e.handlers[k];
      if h.binding == "" {
        AddErrorUnless(false);
        return;
      }
      var r := resolve(names.spell(h.caught));
      AddErrorUnless(IsCatchAll(h.caught) || (r.Some? && (r.value.isClass || r.value.isTrait)));
      var valid := ValidCatchType(h.caught);
      AddErrorUnless(valid);
      var savedLocals, saved := locals, Here();
      DeclareLocal(h.binding, h.caught, false);
      var b := VerifyValue(h.body);
      Restore(savedLocals, saved);
      var conforms := TypesConformTo(h.result, b);
      AddErrorUnless(conforms);
      conforms := TypesConformTo(e.result, h.result);
      AddErrorUnless(conforms);
    }

    // -------------------------------------------------------------------------------------------
    // Function bodies.

    method VerifyInstruction(parameters: seq<Type>, result: Type, seen: nat, first: bool, i: Instruction)
      requires Valid()
      modifies this
      ensures Valid() && ok == (old(ok) && InstructionOk(Ctx(), parameters, result, old(Here()), seen, first, i))
      ensures ok && !IsTerminator(i) ==> Here() == ScopeAfter(Ctx(), old(Here()), i)
    {
      match i
      case Param(x, t) =>
        AddErrorUnless(first && x != "" && x !in locals && seen < |parameters| && t == parameters[seen]);
        if x != "" {
          locals, localTypes := locals + {x}, localTypes[x := t];
        }
      case Define(_, _, _, _) => VerifyDefinition(i);
      case Evaluate(value) => var v := VerifyValue(value);
      case _ => VerifyTerminator(result, i);
    }

    method VerifyTerminator(result: Type, i: Instruction)
      requires IsTerminator(i) && Valid()
      modifies this
      ensures Valid() && ok == (old(ok) && InstructionOk(Ctx(), [], result, old(Here()), 0, false, i))
    {
      if i.Unreachable? {
        return;
      }
      var v := VerifyValue(i.value);
      if i.Return? {
        var conforms := TypesConformTo(i.returned, v);
        AddErrorUnless(i.returned == result && conforms);
      } else {
        var throwable := ThrowableType(v);
        AddErrorUnless(i.raised.NothingType? && throwable);
      }
    }

    method VerifyDefinition(i: Instruction)
      requires i.Define? && Valid()
      modifies this
      ensures Valid() && ok == (old(ok) && InstructionOk(Ctx(), [], UnitType, old(Here()), 0, false, i))
      ensures ok ==> Here() == ScopeAfter(Ctx(), old(Here()), i)
    {
      if i.name == "" {
        AddErrorUnless(false);
        return;
      }
      var v := VerifyValue(i.value);
      AddErrorUnless(i.name !in locals);
      var t := v;
      if i.declared.Some? {
        t := i.declared.value;
        var conforms := TypesConformTo(t, v);
        AddErrorUnless(conforms);
      }
      locals, localTypes := locals + {i.name}, localTypes[i.name := t];
      if i.isMutable {
        mutableLocals := mutableLocals + {i.name};
      }
    }

    /** No error is recorded exactly for an accepted function body. */
    method VerifyBody(parameters: seq<Type>, result: Type, body: seq<Instruction>)
      requires Valid() && Here() == Scope(map[], {})
      modifies this
      ensures ok == (old(ok) && FunctionOk(Ctx(), parameters, result, body))
    {
      var seen, first, sawTerminator, k := 0, true, false, 0;
      while k < |body| && !sawTerminator
        invariant 0 <= k <= |body| && Valid()
        invariant (old(ok) && FunctionOk(Ctx(), parameters, result, body)) ==
                  (ok && if sawTerminator then k == |body| && seen == |parameters|
                         else BodyOk(Ctx(), parameters, result, body, k, Here(), seen, first))
      {
        VerifyInstruction(parameters, result, seen, first, body[k]);
        if body[k].Param? {
          seen := seen + 1;
        } else {
          first := false;
        }
        sawTerminator := IsTerminator(body[k]);
        k := k + 1;
      }
      AddErrorUnless(k == |body| && seen == |parameters| && sawTerminator);
    }
  }
}
