/** Typing rules for bodies, without errors or an order of checking, and what the verifier accepts in terms of them. */
module TypingRules {
  import opened Basics
  import opened Types
  import opened Bodies

  // ---------------------------------------------------------------------------------------------
  // Types.

  predicate Widens(a: Type, b: Type) {
    IsNumeric(a) && IsNumeric(b) && Rank(a) <= Rank(b)
  }

  /** A value of the second type may be used where the first is expected. */
  predicate Admits(c: Context, expected: Type, actual: Type) {
    || !Known(expected) || !Known(actual) || expected == actual || actual.NothingType? || Widens(actual, expected)
    || (IsReference(expected) && IsReference(actual) &&
        (actual.NullType? || expected.ObjectType? || c.below(actual, expected)))
  }

  lemma AdmitsIff(c: Context, expected: Type, actual: Type)
    ensures Conforms(c, expected, actual) <==> Admits(c, expected, actual)
  {
  }

  const BOOLEANS := [BooleanType]
  const INTEGERS := [ByteType, ShortType, IntType, LongType]
  const NUMBERS := INTEGERS + [FloatType, DoubleType]

  /** Operand types an operator takes. */
  predicate Takes(op: BinaryOperator, a: Type, b: Type) {
    match op
    case Logical(_) => a == b && a in BOOLEANS
    case Bitwise(_) => a == b && a in BOOLEANS + INTEGERS
    case Shift(_) => a in INTEGERS && b.IntType?
    case Remainder => a == b && a in NUMBERS
    case Comparison(_) => true
    case Plus => a == b || (a.StringType? && !b.NothingType?) || (b.StringType? && !a.NothingType?)
    case Arithmetic(_) => a == b
  }

  /** An unknown type stands for any type. */
  predicate StandsFor(t: Type, known: Type) {
    Known(known) && (t == known || !Known(t))
  }

  ghost predicate MayTake(op: BinaryOperator, a: Type, b: Type) {
    exists x, y {:trigger StandsFor(a, x), StandsFor(b, y)} :: StandsFor(a, x) && StandsFor(b, y) && Takes(op, x, y)
  }

  lemma MayTakeIff(op: BinaryOperator, a: Type, b: Type)
    ensures OperandsOk(op, a, b) <==> MayTake(op, a, b)
  {
    if OperandsOk(op, a, b) {
      MayTakeAccepted(op, a, b);
    }
  }

  lemma MayTakeAccepted(op: BinaryOperator, a: Type, b: Type)
    requires OperandsOk(op, a, b)
    ensures MayTake(op, a, b)
  {
    var x, y := if Known(a) then a else b, if Known(b) then b else a;
    var usual := if op.Logical? then BooleanType else IntType;
    x, y := if Known(x) then x else usual, if Known(y) then y else usual;
    if op.Shift? {
      x, y := if Known(a) then a else IntType, IntType;
    }
    assert StandsFor(a, x) && StandsFor(b, y) && Takes(op, x, y);
  }

  /** The type of an operator's value: the promoted type of its left operand, unless it is a test or makes a string. */
  predicate Gives(op: BinaryOperator, a: Type, b: Type, t: Type) {
    if op.Logical? || op.Comparison? then t.BooleanType?
    else if op.Plus? && (a.StringType? || b.StringType?) then t.StringType?
    else t == PromotedAlone(a)
  }

  function PromotedAlone(a: Type): Type {
    if IsNumeric(a) then Promoted(a, a) else a
  }

  predicate UnaryTyped(op: UnaryOperator, a: Type, t: Type) {
    if op.Not? then StandsFor(a, BooleanType) && t.BooleanType?
    else if Known(a) then a in NUMBERS && t == PromotedAlone(a)
    else t == a
  }

  /** Branches without a declared type: of one type, or one of them has an unknown type or never ends. */
  predicate Joins(a: Type, b: Type, t: Type) {
    || (a == b && t == a) || (!Known(a) && t == b) || (!Known(b) && t == a)
    || (Known(a) && Known(b) && ((a.NothingType? && t == b) || (b.NothingType? && t == a)))
  }

  predicate Branches(c: Context, resultType: Option<Type>, a: Type, b: Type, t: Type) {
    match resultType
    case Some(declared) => t == declared && Admits(c, t, a) && Admits(c, t, b)
    case None => Joins(a, b, t)
  }

  lemma JoinsIff(c: Context, a: Type, b: Type, t: Type)
    ensures Joins(a, b, t) <==> BranchesOk(c, None, a, b) && t == BranchType(None, a, b)
  {
  }

  lemma BranchesIff(c: Context, resultType: Option<Type>, a: Type, b: Type, t: Type)
    ensures Branches(c, resultType, a, b, t) <==> BranchesOk(c, resultType, a, b) && t == BranchType(resultType, a, b)
  {
    match resultType
    case Some(declared) =>
      AdmitsIff(c, declared, a);
      AdmitsIff(c, declared, b);
    case None => JoinsIff(c, a, b, t);
  }

  predicate Throwable(c: Context, t: Type) {
    t.NullType? || c.below(t, THROWABLE)
  }

  predicate Catchable(c: Context, t: Type) {
    t == ObjectType || t == JAVA_LANG_OBJECT_TYPE ||
    match c.resolve(c.spell(t))
    case None => false
    case Some(r) => r.isTrait || (r.isClass && c.below(r.own, THROWABLE))
  }

  // ---------------------------------------------------------------------------------------------
  // The rules.

  /** s2 is s with x bound. */
  ghost predicate Binds(s: Scope, x: Name, t: Type, isMutable: bool, s2: Scope) {
    && x in s2.types && s2.types[x] == t && s2.types.Keys == s.types.Keys + {x}
    && (forall y :: y in s.types && y != x ==> s2.types[y] == s.types[y])
    && (forall y {:trigger y in s2.mutables} {:trigger y in s.mutables} ::
          y in s2.mutables <==> if y == x then isMutable else y in s.mutables)
  }

  ghost predicate HasType(c: Context, s: Scope, e: Expr) {
    exists t, s2 :: Typed(c, s, e, t, s2)
  }

  /** In scope s, e has type t and leaves the scope s2. */
  ghost predicate Typed(c: Context, s: Scope, e: Expr, t: Type, s2: Scope)
    decreases e, 3
  {
    match e
    case Literal(literalType, _) => t == literalType && s2 == s
    case Local(x) =>
      s2 == s && if x in s.types then t == s.types[x] else c.resolve(x).Some? && t == c.resolve(x).value.mentioned
    case New(className, _) =>
      && c.resolve(className).Some? && c.resolve(className).value.isClass && t == c.resolve(className).value.own
      && exists types, scopes :: ArgumentsTyped(c, s, e, c.constructorTypes(t), types, scopes, s2)
    case Throw(exception) => t.NothingType? && exists x :: Typed(c, s, exception, x, s2) && Throwable(c, x)
    case Try(result, _, _, _) => t == result && exists s1 :: TryTyped(c, s, e, s1, s2)
    case Block(_) => s2 == s && exists types, scopes :: BlockTyped(c, s, e, types, scopes, t)
    case LocalBinding(x, declared, initializer, isMutable) =>
      && x != "" && t.UnitType?
      && exists a, s1 :: Typed(c, s, initializer, a, s1) && BindingTyped(c, declared, a, s1, x, isMutable, s2)
    case Unary(op, operand) => exists a :: Typed(c, s, operand, a, s2) && UnaryTyped(op, a, t)
    case Binary(op, left, right) =>
      exists a, s1, b ::
        Typed(c, s, left, a, s1) && Typed(c, s1, right, b, s2) && MayTake(op, a, b) && Gives(op, a, b, t)
    case Assign(x, newValue) =>
      && x in s.types && x in s.mutables && t.UnitType?
      && exists a :: Typed(c, s, newValue, a, s2) && Admits(c, s.types[x], a)
    case If(_, condition, _, _) =>
      exists i, s1 :: Typed(c, s, condition, i, s1) && StandsFor(i, BooleanType) && BranchesTyped(c, s1, e, t, s2)
    case While(condition, body) =>
      && t.UnitType?
      && exists i, s1, b :: Typed(c, s, condition, i, s1) && StandsFor(i, BooleanType) && Typed(c, s1, body, b, s2)
  }

  ghost predicate BranchesTyped(c: Context, s: Scope, e: Expr, t: Type, s2: Scope)
    requires e.If?
    decreases e, 0
  {
    exists a, s1, b ::
      Typed(c, s, e.thenBranch, a, s1) && Typed(c, s1, e.elseBranch, b, s2) && Branches(c, e.resultType, a, b, t)
  }

  /** A declared local has its declared type, another one its initializer's. */
  ghost predicate BindingTyped(c: Context, declared: Option<Type>, a: Type, s: Scope, x: Name, isMutable: bool,
                               s2: Scope) {
    match declared
    case Some(t) => Admits(c, t, a) && Binds(s, x, t, isMutable, s2)
    case None => Binds(s, x, a, isMutable, s2)
  }

  /** Parts are typed one after the other. */
  ghost predicate ArgumentsTyped(c: Context, s: Scope, e: Expr, expected: seq<Type>, types: seq<Type>,
                                 scopes: seq<Scope>, s2: Scope)
    requires e.New?
    decreases e, 0
  {
    && |expected| == |types| == |e.arguments| && |scopes| == |types| + 1 && scopes[0] == s && scopes[|types|] == s2
    && forall k {:trigger types[k]} :: 0 <= k < |types| ==>
         Typed(c, scopes[k], e.arguments[k], types[k], scopes[k + 1]) && Admits(c, expected[k], types[k])
  }

  /** No two locals of a block have one name; the block has its last operand's type. */
  ghost predicate BlockTyped(c: Context, s: Scope, e: Expr, types: seq<Type>, scopes: seq<Scope>, t: Type)
    requires e.Block?
    decreases e, 0
  {
    && |types| == |e.operands| && |scopes| == |types| + 1 && scopes[0] == s
    && (forall k {:trigger types[k]} :: 0 <= k < |types| ==>
          Typed(c, scopes[k], e.operands[k], types[k], scopes[k + 1]))
    && (forall i, k {:trigger e.operands[i], e.operands[k]} :: 0 <= i < k < |e.operands| ==>
          !SameLocal(e.operands[i], e.operands[k]))
    && t == LastType(types)
  }

  predicate SameLocal(a: Expr, b: Expr) {
    a.LocalBinding? && b.LocalBinding? && a.name == b.name
  }

  function LastType(types: seq<Type>): Type {
    if types == [] then UnitType else types[|types| - 1]
  }

  /** Handlers and the part run at the end start from the scope behind the attempt. */
  ghost predicate TryTyped(c: Context, s: Scope, e: Expr, s1: Scope, s2: Scope)
    requires e.Try?
    decreases e, 2
  {
    && (exists a :: Typed(c, s, e.attempt, a, s1) && Admits(c, e.result, a))
    && (forall k {:trigger InOrder(c, e, k)} {:trigger HandlerHasType(c, s1, e, k)} :: 0 <= k < |e.handlers| ==>
          InOrder(c, e, k) && HandlerHasType(c, s1, e, k))
    && match e.finalizer
       case None => e.handlers != [] && s2 == s1
       case Some(f) => exists b :: Typed(c, s1, f, b, s2)
  }

  /** No handler before the k-th takes everything, whatever the k-th takes, or every exception. */
  predicate InOrder(c: Context, e: Expr, k: nat)
    requires e.Try? && k < |e.handlers|
  {
    forall i {:trigger e.handlers[i]} :: 0 <= i < k ==>
      var earlier, later := e.handlers[i].caught, e.handlers[k].caught;
      earlier != ObjectType && earlier != JAVA_LANG_OBJECT_TYPE && !c.below(later, earlier) &&
      !c.below(THROWABLE, earlier)
  }

  ghost predicate HandlerHasType(c: Context, s: Scope, e: Expr, k: nat)
    requires e.Try? && k < |e.handlers|
    decreases e, 1
  {
    exists inner, b, after :: HandlerTyped(c, s, e, k, inner, b, after)
  }

  ghost predicate HandlerTyped(c: Context, s: Scope, e: Expr, k: nat, inner: Scope, b: Type, after: Scope)
    requires e.Try? && k < |e.handlers|
    decreases e, 0
  {
    var h := e.handlers[k];
    && h.binding != "" && Catchable(c, h.caught) && Binds(s, h.binding, h.caught, false, inner)
    && Typed(c, inner, h.body, b, after) && Admits(c, h.result, b) && Admits(c, e.result, h.result)
  }
}
