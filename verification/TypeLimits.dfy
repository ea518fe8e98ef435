/** Bodies and programs outside the conditions of preservation and transitivity, at which these fail. */
module TypeLimits {
  import opened Basics
  import opened ParentGraph
  import opened Subtyping
  import opened QualifiedNames
  import opened LinkerReferences
  import opened Types
  import opened Bodies
  import opened CompiledOperators
  import opened TypePreservation
  import opened TypeContexts

  // ---------------------------------------------------------------------------------------------
  // Bodies.

  /** The body is accepted, and yields what is no value of the reported type. */
  ghost predicate YieldsOther(c: Context, w: World, e: Expr) {
    var checked := Check(c, Scope(map[], {}), e);
    var o := Eval(c, w, Scope(map[], {}), e, map[]).outcome;
    checked.ok && o.Ok? && !ValueOf(c, checked.found, o.value)
  }

  /** An operator on two literals is accepted and has no code. */
  ghost predicate IsRefused(c: Context, w: World, s: Scope, store: Store, op: BinaryOperator, left: Type, right: Type) {
    var e := Binary(op, Literal(left, 0), Literal(right, 0));
    && InFragment(c, e) && !OperatorsCompiled(c, s, e)
    && Check(c, s, e) == Checked(BinaryType(op, left, right), s, true)
    && Eval(c, w, s, e, store).outcome.Unsupported?
  }

  lemma UncompiledIsRefused(c: Context, w: World, s: Scope, store: Store, op: BinaryOperator, left: Type, right: Type)
    requires OperandsOk(op, left, right) && !Compiled(op, left, right) && IsLiteralType(left) && IsLiteralType(right)
    ensures IsRefused(c, w, s, store, op, left, right)
  {
    var e := Binary(op, Literal(left, 0), Literal(right, 0));
    assert Check(c, s, e.left) == Checked(left, s, true);
    assert Check(c, s, e.right) == Checked(right, s, true);
    assert Eval(c, w, s, e.left, store) == Run(Ok(Value(left, 0)), store);
    assert Eval(c, w, s, e.right, store) == Run(Ok(Value(right, 0)), store);
  }

  /** A product of two Booleans. */
  lemma BooleanProductIsUnsupported(c: Context, w: World, s: Scope, store: Store)
    ensures IsRefused(c, w, s, store, Arithmetic("*"), BooleanType, BooleanType)
  {
    UncompiledIsRefused(c, w, s, store, Arithmetic("*"), BooleanType, BooleanType);
  }

  /** An order between unit and null, between references, and an equality of different numeric types. */
  lemma ComparisonIsUnsupported(c: Context, w: World, s: Scope, store: Store)
    ensures IsRefused(c, w, s, store, Comparison("<"), UnitType, NullType)
    ensures IsRefused(c, w, s, store, Comparison("<"), ObjectType, ObjectType)
    ensures IsRefused(c, w, s, store, Comparison("=="), IntType, LongType)
  {
    UncompiledIsRefused(c, w, s, store, Comparison("<"), UnitType, NullType);
    UncompiledIsRefused(c, w, s, store, Comparison("<"), ObjectType, ObjectType);
    UncompiledIsRefused(c, w, s, store, Comparison("=="), IntType, LongType);
  }

  /** Bitwise operators and shifts on bytes, which are promoted nowhere. */
  lemma ByteBitsAreUnsupported(c: Context, w: World, s: Scope, store: Store)
    ensures IsRefused(c, w, s, store, Bitwise("&"), ByteType, ByteType)
    ensures IsRefused(c, w, s, store, Shift("<<"), ByteType, IntType)
  {
    UncompiledIsRefused(c, w, s, store, Bitwise("&"), ByteType, ByteType);
    UncompiledIsRefused(c, w, s, store, Shift("<<"), ByteType, IntType);
  }

  /** A literal of type Nothing is accepted, and is a value of a type that has none. */
  lemma NothingLiteralIsUnsound(c: Context, w: World)
    ensures YieldsOther(c, w, Literal(NothingType, 0))
  {
  }

  /** So is an instance of a class called Nothing. */
  lemma NothingClassIsUnsound(c: Context, w: World, x: Name, r: Resolution)
    requires c.resolve(x) == Some(r) && r.isClass && r.own.NothingType? && c.constructorTypes(NothingType) == []
    ensures YieldsOther(c, w, New(x, []))
  {
    var s, e := Scope(map[], {}), New(x, []);
    assert CheckArguments(c, s, e, [], 0).ok;
    assert EvalArguments(c, w, s, e, 0, [], map[]).outcome == Ok(Value(NothingType, w.compute(e, [])));
  }

  /** A local bound in a branch stays in the verifier's scope, so a later mention of it is accepted and can find
      nothing. */
  lemma LocalBoundInBranchIsUnsound(c: Context, w: World)
    requires c.resolve("x").None?
    ensures var binding := LocalBinding("x", None, Literal(IntType, 1), false);
            var e := Block([If(None, Literal(BooleanType, 0), binding, Literal(UnitType, 0)), Local("x")]);
            Check(c, Scope(map[], {}), e).ok && Eval(c, w, Scope(map[], {}), e, map[]).outcome.Stuck?
  {
    var s := Scope(map[], {});
    var binding := LocalBinding("x", None, Literal(IntType, 1), false);
    var choice := If(None, Literal(BooleanType, 0), binding, Literal(UnitType, 0));
    var e := Block([choice, Local("x")]);
    var inner := Declare(s, "x", IntType, false);
    assert Check(c, s, binding) == Checked(UnitType, inner, true);
    assert Check(c, s, choice) == Checked(UnitType, inner, true);
    assert Check(c, inner, Local("x")).ok;
    assert CheckBlock(c, inner, e, 2, {}, IntType).ok;
    assert CheckBlock(c, inner, e, 1, {}, UnitType).ok;
    assert Eval(c, w, s, choice, map[]) == Run(Ok(UNIT), map[]);
    assert EvalBlock(c, w, inner, e, 1, UNIT, map[]).outcome.Stuck?;
  }

  /** A local declared with the unknown type takes any value and is accepted as any operand. */
  lemma UnknownTypeIsUnsound(c: Context, w: World)
    ensures var binding := LocalBinding("u", Some(UnknownType), Literal(BooleanType, 1), false);
            var e := Block([binding, Unary(Signed("-"), Local("u"))]);
            Check(c, Scope(map[], {}), e).ok && Eval(c, w, Scope(map[], {}), e, map[]).outcome.Stuck?
  {
    var s := Scope(map[], {});
    var binding := LocalBinding("u", Some(UnknownType), Literal(BooleanType, 1), false);
    var negation := Unary(Signed("-"), Local("u"));
    var e := Block([binding, negation]);
    var inner := Declare(s, "u", UnknownType, false);
    var v := Value(BooleanType, 1);
    assert Check(c, s, binding) == Checked(UnitType, inner, true);
    assert Check(c, inner, negation) == Checked(UnknownType, inner, true);
    assert CheckBlock(c, inner, e, 2, {"u"}, UnknownType).ok;
    assert CheckBlock(c, inner, e, 1, {"u"}, UnitType).ok;
    assert {} + {"u"} == {"u"};
    assert CheckBlock(c, s, e, 0, {}, UnitType).ok;
    assert Eval(c, w, s, binding.initializer, map[]) == Run(Ok(v), map[]);
    assert Eval(c, w, inner, Local("u"), map["u" := v]) == Run(Ok(v), map["u" := v]);
    assert EvalBlock(c, w, inner, e, 1, UNIT, map["u" := v]).outcome.Stuck?;
  }

  // ---------------------------------------------------------------------------------------------
  // Handlers.

  const FAILURE: Name := "sample.Failure"
  const FAILURE_TYPE := ClassType(FAILURE)

  function ClassOf(parents: seq<Name>): Definition {
    Definition(Kind.Class, parents, [], JAVA_LANG_THROWABLE, "sample", false, [], [])
  }

  function TraitOf(parents: seq<Name>): Definition {
    ClassOf(parents).(kind := Kind.Trait)
  }

  /** One exception class, and a Throwable that is not said to extend java.lang.Object. */
  function ExceptionProgram(): Globals {
    map[JAVA_LANG_THROWABLE := ClassOf([]), FAILURE := ClassOf([JAVA_LANG_THROWABLE])]
  }

  /** What a definition of module `sample` sees of that program. */
  ghost function ExceptionContext(names: Names): Context {
    ContextFor(names, ExceptionProgram(), "", "sample", _ => [])
  }

  /** try throw `thrown` catch { case x: `caught` => x } */
  function CatchThrown(thrown: Expr, caught: Type): Expr {
    Try(caught, Throw(thrown), [Handler("x", caught, caught, Local("x"))], None)
  }

  function CatchAs(caught: Type): Expr {
    CatchThrown(New(FAILURE, []), caught)
  }

  lemma ExceptionNamesOk(names: Names)
    requires NamesClasses(names) && names.spell(NullType) == "Null"
    ensures NamesOk(ExceptionContext(names))
  {
    var g := ExceptionProgram();
    assert forall p :: p in g[FAILURE].parents ==> |p| > 4;
    OrdinaryNamesSuffice(names, g, "", "sample", _ => []);
  }

  /** Both spellings resolve to the exception class. */
  lemma FailureResolves(names: Names)
    requires NamesClasses(names)
    ensures var c := ExceptionContext(names);
            c.resolve("Failure") == c.resolve(FAILURE) == Some(Resolution(true, false, FAILURE_TYPE, FAILURE_TYPE))
  {
    var g := ExceptionProgram();
    assert Qualify("sample", "Failure") == FAILURE;
    assert ResolveGlobal(g, "", "sample", FAILURE) == Some(FAILURE);
    assert ResolveGlobal(g, "", "sample", "Failure") == Some(FAILURE);
  }

  lemma BelowParent(names: Names, pm: ParentMap, child: Type, parent: Type)
    requires Canonical(names, child) && Canonical(names, parent)
    requires names.spell(parent) in Parents(Searched(pm), names.spell(child))
    ensures SubtypeOf(names, pm, child, parent)
  {
    ReachesSelf(Searched(pm), names.spell(parent));
    ReachesStep(Searched(pm), names.spell(child), names.spell(parent), names.spell(parent));
  }

  lemma FailureIsThrowable(names: Names)
    requires NamesClasses(names)
    ensures ExceptionContext(names).below(FAILURE_TYPE, THROWABLE)
  {
    var pm := ParentMapFor(ExceptionProgram());
    BelowParent(names, pm, FAILURE_TYPE, THROWABLE);
  }

  /** Only a type at or above the thrown class can hold the exception. */
  lemma {:induction false} FailureReaches(x: Name, y: Name, n: nat)
    requires ReachesIn(Searched(ParentMapFor(ExceptionProgram())), x, y, n)
    requires x == FAILURE || x == JAVA_LANG_THROWABLE
    ensures y == FAILURE || y == JAVA_LANG_THROWABLE
    decreases n
  {
    if n == 0 {
    } else {
      var z :| z in Parents(Searched(ParentMapFor(ExceptionProgram())), x) &&
               ReachesIn(Searched(ParentMapFor(ExceptionProgram())), z, y, n - 1);
      FailureReaches(z, y, n - 1);
    }
  }

  lemma CaughtIsYielded(c: Context, w: World, thrown: Expr, t: Type, v: Value, caught: Type)
    requires Check(c, Scope(map[], {}), thrown) == Checked(t, Scope(map[], {}), true) && c.below(t, THROWABLE)
    requires Eval(c, w, Scope(map[], {}), thrown, map[]) == Run(Ok(v), map[]) && IsThrowable(c, v)
    requires IsKnownCatch(c, caught) && IsValidCatch(c, caught) && Catches(c, caught, v)
    ensures var e := CatchThrown(thrown, caught);
            Check(c, Scope(map[], {}), e) == Checked(caught, Scope(map[], {}), true) &&
            Eval(c, w, Scope(map[], {}), e, map[]).outcome == Ok(v)
  {
    var e, s := CatchThrown(thrown, caught), Scope(map[], {});
    var h := e.handlers[0];
    var inner := Declare(s, "x", caught, false);
    assert Check(c, s, e.attempt) == Checked(NothingType, s, true);
    assert Check(c, inner, h.body) == Checked(caught, inner, true);
    assert CheckHandler(c, s, e, 0);
    assert CheckHandlers(c, s, e, 1, Caught(c, [], caught), IsCatchAll(caught));
    assert CheckHandlers(c, s, e, 0, [], false);
    assert Eval(c, w, s, e.attempt, map[]) == Run(Thrown(v), map[]);
    assert Eval(c, w, inner, h.body, map["x" := v]) == Run(Ok(v), map["x" := v]);
    assert EvalHandlers(c, w, s, e, 0, v, map[]).outcome == Ok(v);
  }

  /** A handler that is accepted and takes the exception yields it under the type it names. */
  lemma CaughtIsMistyped(c: Context, w: World, caught: Type)
    requires c.resolve(FAILURE) == Some(Resolution(true, false, FAILURE_TYPE, FAILURE_TYPE))
    requires c.below(FAILURE_TYPE, THROWABLE) && c.constructorTypes(FAILURE_TYPE) == []
    requires IsKnownCatch(c, caught) && IsValidCatch(c, caught)
    requires Catches(c, caught, Value(FAILURE_TYPE, w.compute(New(FAILURE, []), [])))
    requires !Conforms(c, caught, FAILURE_TYPE)
    ensures YieldsOther(c, w, CatchAs(caught))
  {
    var s, make := Scope(map[], {}), New(FAILURE, []);
    var v := Value(FAILURE_TYPE, w.compute(make, []));
    assert CheckArguments(c, s, make, [], 0) == Checked(UnitType, s, true);
    assert EvalArguments(c, w, s, make, 0, [], map[]) == Run(Ok(v), map[]);
    CaughtIsYielded(c, w, make, FAILURE_TYPE, v, caught);
  }

  lemma ShortNameIsMistyped(c: Context, w: World)
    requires c.resolve("Failure") == c.resolve(FAILURE) == Some(Resolution(true, false, FAILURE_TYPE, FAILURE_TYPE))
    requires c.below(FAILURE_TYPE, THROWABLE) && c.below(FAILURE_TYPE, FAILURE_TYPE)
    requires c.spell(ClassType("Failure")) == "Failure" && c.constructorTypes(FAILURE_TYPE) == []
    requires !Conforms(c, ClassType("Failure"), FAILURE_TYPE)
    ensures YieldsOther(c, w, CatchAs(ClassType("Failure")))
  {
    CaughtIsMistyped(c, w, ClassType("Failure"));
  }

  /** A handler may name its class in short; the binding's type is then that short name, which no exception has. */
  lemma ShortCaughtNameIsUnsound(names: Names, w: World)
    requires NamesClasses(names) && names.spell(NullType) == "Null"
    ensures NamesOk(ExceptionContext(names)) && YieldsOther(ExceptionContext(names), w, CatchAs(ClassType("Failure")))
  {
    var c := ExceptionContext(names);
    ExceptionNamesOk(names);
    FailureResolves(names);
    FailureIsThrowable(names);
    NotBelowShortName(names);
    ShortNameIsMistyped(c, w);
  }

  /** Catching java.lang.Object takes every exception, also one whose class does not lie below it. */
  lemma CatchingObjectIsUnsound(names: Names, w: World)
    requires NamesClasses(names) && names.spell(NullType) == "Null"
    ensures NamesOk(ExceptionContext(names)) && YieldsOther(ExceptionContext(names), w, CatchAs(JAVA_LANG_OBJECT_TYPE))
  {
    ExceptionNamesOk(names);
    FailureResolves(names);
    FailureIsThrowable(names);
    NotBelowOther(names, JAVA_LANG_OBJECT_TYPE);
    CaughtIsMistyped(ExceptionContext(names), w, JAVA_LANG_OBJECT_TYPE);
  }

  lemma NotBelowOther(names: Names, t: Type)
    requires NamesClasses(names) && t.ClassType? && t != FAILURE_TYPE && t != THROWABLE
    ensures !Conforms(ExceptionContext(names), t, FAILURE_TYPE)
  {
    var pm := ParentMapFor(ExceptionProgram());
    if SubtypeOf(names, pm, FAILURE_TYPE, t) {
      var n: nat :| ReachesIn(Searched(pm), FAILURE, t.name, n);
      FailureReaches(FAILURE, t.name, n);
    }
  }

  lemma NotBelowShortName(names: Names)
    requires NamesClasses(names)
    ensures !Conforms(ExceptionContext(names), ClassType("Failure"), FAILURE_TYPE)
  {
    assert |FAILURE| > 7 && |JAVA_LANG_THROWABLE| > 7;
    NotBelowOther(names, ClassType("Failure"));
  }

  ghost predicate SpelledAs(names: Names, t: Type, name: Name) {
    names.spell(t) == name && names.read(name) == t
  }

  /** An object takes the name Int and extends Throwable, so numbers can be thrown. */
  function IntModuleProgram(): Globals {
    map[JAVA_LANG_THROWABLE := ClassOf([]), "Int" := ClassOf([JAVA_LANG_THROWABLE]).(kind := Kind.Module)]
  }

  lemma IntIsThrowable(names: Names)
    requires NamesClasses(names) && SpelledAs(names, IntType, "Int")
    ensures SubtypeOf(names, ParentMapFor(IntModuleProgram()), IntType, THROWABLE)
  {
    var pm := ParentMapFor(IntModuleProgram());
    assert JAVA_LANG_THROWABLE in Parents(Searched(pm), "Int");
    BelowParent(names, pm, IntType, THROWABLE);
  }

  lemma ThrownNumberIsMistyped(c: Context, w: World)
    requires c.below(IntType, THROWABLE)
    ensures YieldsOther(c, w, CatchThrown(Literal(IntType, 1), ObjectType))
  {
    CaughtIsYielded(c, w, Literal(IntType, 1), IntType, Value(IntType, 1), ObjectType);
  }

  /** Caught as Object, the number is no value of that type. */
  lemma ThrownNumberIsUnsound(names: Names, w: World, constructorTypes: Type -> seq<Type>)
    requires NamesClasses(names) && SpelledAs(names, IntType, "Int")
    ensures var c := ContextFor(names, IntModuleProgram(), "", "sample", constructorTypes);
            YieldsOther(c, w, CatchThrown(Literal(IntType, 1), ObjectType))
  {
    IntIsThrowable(names);
    ThrownNumberIsMistyped(ContextFor(names, IntModuleProgram(), "", "sample", constructorTypes), w);
  }

  // ---------------------------------------------------------------------------------------------
  // Programs.

  lemma NirNamesNull()
    ensures SpelledAs(NIR_NAMES, NullType, "Null")
  {
    assert BUILT_IN[11] == (NullType, "Null");
    SpelledAt(BUILT_IN, 11);
  }

  lemma NirNamesInt()
    ensures SpelledAs(NIR_NAMES, IntType, "Int")
  {
    assert BUILT_IN[4] == (IntType, "Int");
    SpelledAt(BUILT_IN, 4);
  }

  lemma NirNamesObject()
    ensures SpelledAs(NIR_NAMES, ObjectType, "Object")
  {
    assert BUILT_IN[13] == (ObjectType, "Object");
    SpelledAt(BUILT_IN, 13);
  }

  lemma {:induction false} SpelledAt(table: seq<(Type, Name)>, i: nat)
    requires i < |table| && !table[i].0.ClassType?
    requires forall j :: 0 <= j < i ==> table[j].0 != table[i].0 && table[j].1 != table[i].1
    ensures SpelledIn(table, table[i].0) == table[i].1 && NamedIn(table, table[i].1) == table[i].0
    decreases i
  {
    if i == 0 {
    } else {
      SpelledAt(table[1..], i - 1);
    }
  }

  /** A trait takes the name of the type of null, and a class extends it. */
  function NullTraitProgram(null_: Name, odd: Name): Globals {
    map[null_ := TraitOf([JAVA_LANG_OBJECT]), odd := ClassOf([JAVA_LANG_OBJECT, null_])]
  }

  /** A class takes the name of the top type and extends a trait. */
  function ObjectClassProgram(object_: Name, odd: Name): Globals {
    map[odd := TraitOf([JAVA_LANG_OBJECT]), object_ := ClassOf([JAVA_LANG_OBJECT, odd])]
  }

  predicate Apart(names: Names, a: Name, b: Name) {
    a != b && a !in {"", JAVA_LANG_OBJECT} && b !in {"", JAVA_LANG_OBJECT} && names.read(b) == ClassType(b)
  }

  /** A name that the program does not mention is not related to another. */
  lemma Unlisted(names: Names, pm: ParentMap, odd: Name, other: Name, reserved: Name)
    requires NamesClasses(names) && other !in {odd, reserved, JAVA_LANG_OBJECT} && pm.Keys <= {odd, reserved}
    requires forall k, p :: k in pm && p in pm[k] ==> p in {odd, reserved, JAVA_LANG_OBJECT}
    ensures !SubtypeOf(names, pm, ClassType(odd), ClassType(other))
    ensures !SubtypeOf(names, pm, ClassType(other), ClassType(odd))
  {
    assert other !in Listed(pm);
    if SubtypeOf(names, pm, ClassType(odd), ClassType(other)) {
      RelatedIsListed(names, pm, ClassType(odd), ClassType(other));
    }
    if SubtypeOf(names, pm, ClassType(other), ClassType(odd)) {
      RelatedIsListed(names, pm, ClassType(other), ClassType(odd));
    }
  }

  lemma ClassBelowNull(names: Names, null_: Name, odd: Name, other: Name, constructorTypes: Type -> seq<Type>)
    requires NamesClasses(names) && SpelledAs(names, NullType, null_)
    requires Apart(names, null_, odd) && Apart(names, null_, other) && odd != other
    ensures var c := ContextFor(names, NullTraitProgram(null_, odd), "", "sample", constructorTypes);
            var x, z := ClassType(other), ClassType(odd);
            Conforms(c, x, NullType) && Conforms(c, NullType, z) && !Conforms(c, x, z)
  {
    var pm := ParentMapFor(NullTraitProgram(null_, odd));
    assert pm[odd] == [JAVA_LANG_OBJECT, null_];
    BelowParent(names, pm, ClassType(odd), NullType);
    Unlisted(names, pm, odd, other, null_);
  }

  lemma ObjectBelowTrait(names: Names, object_: Name, odd: Name, other: Name, constructorTypes: Type -> seq<Type>)
    requires NamesClasses(names) && SpelledAs(names, ObjectType, object_)
    requires Apart(names, object_, odd) && Apart(names, object_, other) && odd != other
    ensures var c := ContextFor(names, ObjectClassProgram(object_, odd), "", "sample", constructorTypes);
            var x, z := ClassType(odd), ClassType(other);
            Conforms(c, x, ObjectType) && Conforms(c, ObjectType, z) && !Conforms(c, x, z)
  {
    var pm := ParentMapFor(ObjectClassProgram(object_, odd));
    assert pm[object_] == [JAVA_LANG_OBJECT, odd];
    BelowParent(names, pm, ObjectType, ClassType(odd));
    Unlisted(names, pm, odd, other, object_);
  }

  const ODD: Name := "sample.Odd"
  const OTHER: Name := "sample.Other"

  /** Two programs at which conformity is not transitive. */
  lemma NullTraitIsNotTransitive(names: Names, constructorTypes: Type -> seq<Type>)
    requires NamesClasses(names) && SpelledAs(names, NullType, "Null")
    ensures !ConformityIsTransitive(ContextFor(names, NullTraitProgram("Null", ODD), "", "sample", constructorTypes))
  {
    ClassBelowNull(names, "Null", ODD, OTHER, constructorTypes);
  }

  lemma ObjectClassIsNotTransitive(names: Names, constructorTypes: Type -> seq<Type>)
    requires NamesClasses(names) && SpelledAs(names, ObjectType, "Object")
    ensures !ConformityIsTransitive(
              ContextFor(names, ObjectClassProgram("Object", ODD), "", "sample", constructorTypes))
  {
    ObjectBelowTrait(names, "Object", ODD, OTHER, constructorTypes);
  }

  /** Both programs under the compiler's own spelling of types. */
  lemma NirConformityIsNotTransitive(constructorTypes: Type -> seq<Type>)
    ensures var n, o := NullTraitProgram("Null", ODD), ObjectClassProgram("Object", ODD);
            !ConformityIsTransitive(ContextFor(NIR_NAMES, n, "", "sample", constructorTypes)) &&
            !ConformityIsTransitive(ContextFor(NIR_NAMES, o, "", "sample", constructorTypes))
  {
    NirNamesClasses();
    NirNamesNull();
    NirNamesObject();
    NullTraitIsNotTransitive(NIR_NAMES, constructorTypes);
    ObjectClassIsNotTransitive(NIR_NAMES, constructorTypes);
  }
}
