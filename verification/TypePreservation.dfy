/** A body the verifier accepts keeps its locals' types, and every value it yields has the reported type. */
module TypePreservation {
  import opened Basics
  import opened Types
  import opened Bodies
  import opened CompiledOperators

  // ---------------------------------------------------------------------------------------------
  // What is assumed of the program, of its globals' values and of the body.

  /** Types below others are references, globals have known types, and Object and Null stay at the ends of the
      hierarchy. */
  ghost predicate NamesOk(c: Context) {
    && BelowIsPreorder(c) && ReservedNamesKept(c)
    && (forall a, b {:trigger c.below(a, b)} :: c.below(a, b) && a != b ==> IsReference(a) && Known(a))
    && (forall x {:trigger c.resolve(x)} ::
          var r := c.resolve(x);
          r.Some? ==>
            && Known(r.value.mentioned)
            && (r.value.isClass || r.value.isTrait ==> Known(r.value.own) && !r.value.own.NothingType?))
  }

  /** A run-time value of a type. */
  predicate ValueOf(c: Context, t: Type, v: Value) {
    Conforms(c, t, v.tag) && Known(v.tag) && !v.tag.NothingType?
  }

  predicate IsThrowableValue(c: Context, v: Value) {
    ValueOf(c, v.tag, v) && IsThrowable(c, v)
  }

  /** A value of the type, a throwable, or more rounds than given; an operator without code only where the body has
      one. */
  predicate Yields(c: Context, t: Type, compiled: bool, o: Outcome) {
    match o
    case Ok(v) => ValueOf(c, t, v)
    case Thrown(v) => IsThrowableValue(c, v)
    case Unsupported => !compiled
    case Trapped => false
    case Stuck => false
    case OutOfSteps => true
  }

  /** Mentioning a global gives a value of its type, throws or does not end; one of type Nothing gives no value. */
  ghost predicate WorldOk(c: Context, w: World) {
    forall x {:trigger w.globals(x)} ::
      var r := c.resolve(x); r.Some? ==> Yields(c, r.value.mentioned, true, w.globals(x))
  }

  function PlainGlobal(c: Context, x: Name): Outcome {
    var r := c.resolve(x);
    if r.None? || r.value.mentioned.NothingType? then Thrown(Value(NullType, 0)) else Ok(Value(r.value.mentioned, 0))
  }

  function PlainWorld(c: Context, steps: nat): World {
    World((e, values) => 0, x => PlainGlobal(c, x), steps)
  }

  /** The assumption on worlds can be met in every program, also in one with globals of type Nothing. */
  lemma PlainWorldOk(c: Context, steps: nat)
    requires NamesOk(c)
    ensures WorldOk(c, PlainWorld(c, steps))
  {
    var w := PlainWorld(c, steps);
    forall x ensures var r := c.resolve(x); r.Some? ==> Yields(c, r.value.mentioned, true, w.globals(x)) {
      assert w.globals(x) == PlainGlobal(c, x);
    }
  }

  predicate IsLiteralType(t: Type) {
    Known(t) && !t.NothingType?
  }

  /** A type that exceptions can have. */
  predicate IsThrowableType(c: Context, t: Type) {
    Known(t) && !t.NothingType? && c.below(t, THROWABLE)
  }

  /** What a handler takes conforms to the type it names: with a class, that class; with a trait, every exception type
      below it; with java.lang.Object, every exception. */
  ghost predicate CatchOk(c: Context, t: Type) {
    Known(t) &&
    if t.ObjectType? then true
    else if IsCatchAll(t) then c.below(THROWABLE, t)
    else
      var r := c.resolve(c.spell(t));
      r.Some? ==>
        IsReference(t) && if r.value.isTrait then TraitCatchOk(c, t, r.value.own) else Conforms(c, t, r.value.own)
  }

  ghost predicate TraitCatchOk(c: Context, t: Type, own: Type) {
    forall a {:trigger c.below(a, own)} :: IsThrowableType(c, a) && c.below(a, own) ==> Conforms(c, t, a)
  }

  /** No type is left unknown and locals are bound only directly inside blocks. */
  ghost predicate InFragment(c: Context, e: Expr)
    decreases e, 0
  {
    match e
    case Literal(t, _) => IsLiteralType(t)
    case Local(_) => true
    case New(_, arguments) => forall a :: a in arguments ==> InFragment(c, a)
    case Throw(exception) => InFragment(c, exception)
    case Try(result, attempt, handlers, finalizer) =>
      && Known(result) && InFragment(c, attempt) && (finalizer.Some? ==> InFragment(c, finalizer.value))
      && forall h :: h in handlers ==> CatchOk(c, h.caught) && Known(h.result) && InFragment(c, h.body)
    case Block(operands) => forall o :: o in operands ==> OperandInFragment(c, o)
    case LocalBinding(_, _, _, _) => false
    case Unary(_, operand) => InFragment(c, operand)
    case Binary(_, left, right) => InFragment(c, left) && InFragment(c, right)
    case Assign(_, newValue) => InFragment(c, newValue)
    case If(resultType, condition, thenBranch, elseBranch) =>
      && (resultType.Some? ==> Known(resultType.value))
      && InFragment(c, condition) && InFragment(c, thenBranch) && InFragment(c, elseBranch)
    case While(condition, body) => InFragment(c, condition) && InFragment(c, body)
  }

  ghost predicate OperandInFragment(c: Context, o: Expr)
    decreases o, 1
  {
    if o.LocalBinding? then (o.declared.Some? ==> Known(o.declared.value)) && InFragment(c, o.initializer)
    else InFragment(c, o)
  }

  // ---------------------------------------------------------------------------------------------
  // What a run keeps.

  /** The store holds exactly the locals in scope, each with a value of its type. */
  ghost predicate StoreOk(c: Context, s: Scope, store: Store) {
    store.Keys == s.types.Keys &&
    forall x {:trigger s.types[x]} {:trigger store[x]} | x in s.types :: Known(s.types[x]) &&
           ValueOf(c, s.types[x], store[x])
  }

  /** Locals that are not mutable keep their values. */
  ghost predicate Kept(s: Scope, before: Store, after: Store) {
    forall x {:trigger after[x]} | x in s.types && x !in s.mutables ::
      x in before && x in after && after[x] == before[x]
  }

  ghost predicate Sound(c: Context, s: Scope, t: Type, compiled: bool, before: Store, r: Run) {
    Yields(c, t, compiled, r.outcome) && StoreOk(c, s, r.store) && Kept(s, before, r.store)
  }

  ghost predicate Assumed(c: Context, w: World, s: Scope, store: Store) {
    NamesOk(c) && WorldOk(c, w) && StoreOk(c, s, store)
  }

  lemma ValueWidens(c: Context, wide: Type, narrow: Type, v: Value)
    requires NamesOk(c) && Known(wide) && Known(narrow) && Conforms(c, wide, narrow) && ValueOf(c, narrow, v)
    ensures ValueOf(c, wide, v)
  {
    ConformsTransitive(c, wide, narrow, v.tag);
  }

  lemma SoundWidens(c: Context, s: Scope, wide: Type, narrow: Type, compiled: bool, before: Store, r: Run)
    requires NamesOk(c) && Known(wide) && Known(narrow) && Conforms(c, wide, narrow)
    requires Sound(c, s, narrow, compiled, before, r)
    ensures Sound(c, s, wide, compiled, before, r)
  {
    if r.outcome.Ok? {
      ValueWidens(c, wide, narrow, r.outcome.value);
    }
  }

  lemma SoundAfter(c: Context, s: Scope, t: Type, compiled: bool, before: Store, middle: Store, r: Run)
    requires StoreOk(c, s, before) && StoreOk(c, s, middle) && Kept(s, before, middle)
    requires Sound(c, s, t, compiled, middle, r)
    ensures Sound(c, s, t, compiled, before, r)
  {
  }

  /** Entering the scope of a local. */
  lemma Bound(c: Context, s: Scope, x: Name, t: Type, isMutable: bool, store: Store, v: Value)
    requires StoreOk(c, s, store) && Known(t) && ValueOf(c, t, v)
    ensures StoreOk(c, Declare(s, x, t, isMutable), store[x := v])
  {
  }

  /** Leaving it, with the shadowed local back in place. */
  lemma Left(c: Context, s: Scope, x: Name, t: Type, isMutable: bool, result: Type, compiled: bool, store: Store,
             v: Value, r: Run)
    requires StoreOk(c, s, store) && Sound(c, Declare(s, x, t, isMutable), result, compiled, store[x := v], r)
    ensures Sound(c, s, result, compiled, store, Run(r.outcome, Leave(x, store, r.store)))
  {
    var after := Leave(x, store, r.store);
    var inner := Declare(s, x, t, isMutable);
    assert after.Keys == s.types.Keys;
    forall y | y in s.types ensures Known(s.types[y]) && ValueOf(c, s.types[y], after[y]) {
      if y != x {
        assert inner.types[y] == s.types[y];
      }
    }
    forall y | y in s.types && y !in s.mutables ensures y in store && y in after && after[y] == store[y] {
      if y != x {
        assert y in inner.types && y !in inner.mutables;
        assert r.store[y] == store[x := v][y];
      }
    }
  }

  // ---------------------------------------------------------------------------------------------
  // Operators.

  /** The numeric types are ordered by widening. */
  lemma NumericConforms(c: Context, wide: Type, narrow: Type)
    requires Known(wide) && Known(narrow) && !narrow.NothingType?
    ensures IsNumeric(wide) || IsNumeric(narrow) ==>
              (Conforms(c, wide, narrow) <==> IsNumeric(wide) && IsNumeric(narrow) && Rank(narrow) <= Rank(wide))
  {
  }

  lemma BooleanConforms(c: Context, wide: Type, narrow: Type)
    requires Known(wide) && Known(narrow) && !narrow.NothingType?
    ensures wide.BooleanType? || narrow.BooleanType? ==> (Conforms(c, wide, narrow) <==> wide == narrow)
  {
  }

  lemma PromotedConforms(c: Context, t: Type, a: Type, b: Type)
    requires IsNumeric(a) && IsNumeric(b) && IsNumeric(t) && Rank(a) <= Rank(t) && Rank(b) <= Rank(t)
    ensures Known(Promoted(a, b)) && Conforms(c, Widened(t), Promoted(a, b))
    ensures Known(Widened(a)) && Conforms(c, Widened(t), Widened(a))
  {
  }

  lemma CharConforms(c: Context, wide: Type, narrow: Type)
    requires Known(wide) && Known(narrow) && !narrow.NothingType?
    ensures wide.CharType? || narrow.CharType? ==> (Conforms(c, wide, narrow) <==> wide == narrow)
  {
  }

  predicate IsArithmetic(op: BinaryOperator, left: Type, right: Type) {
    op.Arithmetic? || op.Remainder? || (op.Plus? && !Concatenates(op, left, right))
  }

  /** What is compiled computes a value of the reported type, and nothing else does. */
  lemma OperateYields(c: Context, w: World, e: Expr, left: Type, right: Type, l: Value, r: Value)
    requires NamesOk(c) && e.Binary? && Known(left) && Known(right) && ValueOf(c, left, l) && ValueOf(c, right, r)
    requires OperandsOk(e.binary, left, right)
    ensures Known(BinaryType(e.binary, left, right))
    ensures var o := Operate(w, e, left, right, l, r);
            Yields(c, BinaryType(e.binary, left, right), Compiled(e.binary, left, right), o) &&
            (o.Ok? <==> Compiled(e.binary, left, right))
  {
    if Compiled(e.binary, left, right) {
      ComputeYields(c, w, e, left, right, l, r);
    }
  }

  lemma ComputeYields(c: Context, w: World, e: Expr, left: Type, right: Type, l: Value, r: Value)
    requires NamesOk(c) && e.Binary? && Known(left) && Known(right) && ValueOf(c, left, l) && ValueOf(c, right, r)
    requires OperandsOk(e.binary, left, right) && Compiled(e.binary, left, right)
    ensures var o := Compute(w, e, Concatenates(e.binary, left, right), l, r);
            o.Ok? && ValueOf(c, BinaryType(e.binary, left, right), o.value)
  {
    if IsArithmetic(e.binary, left, right) {
      ArithmeticYields(c, w, e, left, right, l, r);
    } else if e.binary.Comparison? {
      ComparisonYields(c, w, e, left, right, l, r);
    } else {
      BitsYield(c, w, e, left, right, l, r);
    }
  }

  /** Logical, bitwise and shift operators, and concatenation. */
  lemma BitsYield(c: Context, w: World, e: Expr, left: Type, right: Type, l: Value, r: Value)
    requires e.Binary? && Known(left) && Known(right) && ValueOf(c, left, l) && ValueOf(c, right, r)
    requires OperandsOk(e.binary, left, right) && !IsArithmetic(e.binary, left, right) && !e.binary.Comparison?
    ensures var o := Compute(w, e, Concatenates(e.binary, left, right), l, r);
            o.Ok? && ValueOf(c, BinaryType(e.binary, left, right), o.value)
  {
    NumericConforms(c, left, l.tag);
    NumericConforms(c, right, r.tag);
    BooleanConforms(c, left, l.tag);
    BooleanConforms(c, right, r.tag);
    if IsIntegral(l.tag) && IsIntegral(r.tag) && IsIntegral(left) {
      PromotedConforms(c, left, l.tag, l.tag);
      if left == right {
        PromotedConforms(c, left, l.tag, r.tag);
      }
    }
  }

  /** Arithmetic on equal operand types is accepted whatever they are; values can be computed with exactly when the
      type has arithmetic. */
  lemma ArithmeticYields(c: Context, w: World, e: Expr, left: Type, right: Type, l: Value, r: Value)
    requires e.Binary? && Known(left) && Known(right) && ValueOf(c, left, l) && ValueOf(c, right, r)
    requires OperandsOk(e.binary, left, right) && IsArithmetic(e.binary, left, right)
    ensures left == right
    ensures var o := Compute(w, e, false, l, r);
            (o.Ok? <==> HasArithmetic(left)) && (o.Ok? ==> ValueOf(c, Widened(left), o.value))
  {
    NumericConforms(c, left, l.tag);
    NumericConforms(c, left, r.tag);
    CharConforms(c, left, l.tag);
    CharConforms(c, left, r.tag);
    if IsNumeric(left) {
      PromotedConforms(c, left, l.tag, r.tag);
    }
  }

  /** Every comparison is accepted; those with code always find two values of the same kind. */
  lemma ComparisonYields(c: Context, w: World, e: Expr, left: Type, right: Type, l: Value, r: Value)
    requires NamesOk(c) && e.Binary? && e.binary.Comparison?
    requires Known(left) && Known(right) && ValueOf(c, left, l) && ValueOf(c, right, r)
    requires Comparable(e.binary.text, left, right)
    ensures Compute(w, e, false, l, r) == Ok(Value(BooleanType, w.compute(e, [l, r])))
  {
    NumericConforms(c, left, l.tag);
    NumericConforms(c, right, r.tag);
    BooleanConforms(c, left, l.tag);
    BooleanConforms(c, right, r.tag);
    CharConforms(c, left, l.tag);
    CharConforms(c, right, r.tag);
  }

  lemma OperateUnaryYields(c: Context, w: World, e: Expr, t: Type, v: Value)
    requires e.Unary? && Known(t) && ValueOf(c, t, v) && UnaryOk(e.unary, t)
    ensures Known(UnaryType(e.unary, t)) && Yields(c, UnaryType(e.unary, t), true, OperateUnary(w, e, v))
  {
    NumericConforms(c, t, v.tag);
    BooleanConforms(c, t, v.tag);
    if IsNumeric(v.tag) {
      PromotedConforms(c, t, v.tag, v.tag);
    }
  }

  // ---------------------------------------------------------------------------------------------
  // Scopes.

  /** Outside blocks a value leaves the scope as it found it. */
  lemma {:induction false} ScopeKept(c: Context, s: Scope, e: Expr)
    requires InFragment(c, e)
    ensures Check(c, s, e).scope == s
    decreases e, 1, 0
  {
    match e
    case Literal(_, _) =>
    case Local(_) =>
    case New(className, _) =>
      var r := c.resolve(className);
      if r.Some? {
        ArgumentScopeKept(c, s, e, c.constructorTypes(r.value.own), 0);
      }
    case Throw(exception) => ScopeKept(c, s, exception);
    case Try(_, attempt, _, finalizer) =>
      ScopeKept(c, s, attempt);
      if finalizer.Some? {
        ScopeKept(c, s, finalizer.value);
      }
    case Block(_) =>
    case Unary(_, operand) => ScopeKept(c, s, operand);
    case Binary(_, left, right) =>
      ScopeKept(c, s, left);
      ScopeKept(c, s, right);
    case Assign(_, newValue) => ScopeKept(c, s, newValue);
    case If(_, condition, thenBranch, elseBranch) =>
      ScopeKept(c, s, condition);
      ScopeKept(c, s, thenBranch);
      ScopeKept(c, s, elseBranch);
    case While(condition, body) =>
      ScopeKept(c, s, condition);
      ScopeKept(c, s, body);
  }

  lemma {:induction false} ArgumentScopeKept(c: Context, s: Scope, e: Expr, expected: seq<Type>, k: nat)
    requires e.New? && InFragment(c, e)
    ensures CheckArguments(c, s, e, expected, k).scope == s
    decreases e, 0, |e.arguments| - k
  {
    if k >= |e.arguments| || k >= |expected| {
    } else {
      ScopeKept(c, s, e.arguments[k]);
      ArgumentScopeKept(c, s, e, expected, k + 1);
    }
  }

  // ---------------------------------------------------------------------------------------------
  // Reported types.

  ghost predicate ScopeKnown(s: Scope) {
    forall x {:trigger s.types[x]} | x in s.types :: Known(s.types[x])
  }

  /** An accepted body is reported with a known type. */
  lemma {:induction false} FoundKnown(c: Context, s: Scope, e: Expr)
    requires NamesOk(c) && ScopeKnown(s) && InFragment(c, e) && Check(c, s, e).ok
    ensures Known(Check(c, s, e).found)
    decreases e, 1
  {
    match e
    case Literal(_, _) =>
    case Local(_) =>
    case New(_, _) =>
    case Throw(_) =>
    case Try(_, _, _, _) =>
    case Block(_) => BlockFoundKnown(c, s, e, 0, {}, UnitType);
    case Unary(op, operand) => FoundKnown(c, s, operand);
    case Binary(op, left, right) => FoundKnown(c, s, left);
    case Assign(_, _) =>
    case If(_, condition, thenBranch, elseBranch) =>
      ScopeKept(c, s, condition);
      ScopeKept(c, s, thenBranch);
      FoundKnown(c, s, thenBranch);
      FoundKnown(c, s, elseBranch);
    case While(_, _) =>
  }

  lemma {:induction false} BlockFoundKnown(c: Context, s: Scope, e: Expr, k: nat, declared: set<Name>, last: Type)
    requires e.Block? && k <= |e.operands| && NamesOk(c) && ScopeKnown(s) && InFragment(c, e)
    requires CheckBlock(c, s, e, k, declared, last).ok && Known(last)
    ensures Known(CheckBlock(c, s, e, k, declared, last).found)
    decreases e, 0, |e.operands| - k
  {
    if k == |e.operands| {
    } else {
      var operand := e.operands[k];
      assert OperandInFragment(c, operand);
      var r := Check(c, s, operand);
      if operand.LocalBinding? {
        ScopeKept(c, s, operand.initializer);
        FoundKnown(c, s, operand.initializer);
        BlockFoundKnown(c, r.scope, e, k + 1, declared + {operand.name}, r.found);
      } else {
        ScopeKept(c, s, operand);
        FoundKnown(c, s, operand);
        BlockFoundKnown(c, s, e, k + 1, declared, r.found);
      }
    }
  }

  // ---------------------------------------------------------------------------------------------
  // Preservation.

  ghost predicate Preserved(c: Context, w: World, s: Scope, e: Expr, store: Store) {
    Sound(c, s, Check(c, s, e).found, OperatorsCompiled(c, s, e), store, Eval(c, w, s, e, store))
  }

  /** Main result: whatever an accepted body does, it yields the reported type and keeps the store as typed; it fails
      to compute only when it has an operator that the compiler has no code for. */
  lemma {:induction false} Preservation(c: Context, w: World, s: Scope, e: Expr, store: Store)
    requires Assumed(c, w, s, store) && InFragment(c, e) && Check(c, s, e).ok
    ensures Preserved(c, w, s, e, store)
    decreases w.steps, e, 1, 1
  {
    match e
    case Literal(_, _) =>
    case Local(_) =>
    case New(_, _) => PreservedNew(c, w, s, e, store);
    case Throw(_) => PreservedThrow(c, w, s, e, store);
    case Try(_, _, _, _) => PreservedTry(c, w, s, e, store);
    case Block(_) => PreservedBlock(c, w, s, e, 0, {}, UnitType, UNIT, store);
    case Unary(_, _) => PreservedUnary(c, w, s, e, store);
    case Binary(_, _, _) => PreservedBinary(c, w, s, e, store);
    case Assign(_, _) => PreservedAssign(c, w, s, e, store);
    case If(_, _, _, _) => PreservedIf(c, w, s, e, store);
    case While(_, _) => PreservedWhile(c, w, s, e, store);
  }

  lemma {:induction false} PreservedThrow(c: Context, w: World, s: Scope, e: Expr, store: Store)
    requires e.Throw? && Assumed(c, w, s, store) && InFragment(c, e) && Check(c, s, e).ok
    ensures Preserved(c, w, s, e, store)
    decreases w.steps, e, 1, 0
  {
    Preservation(c, w, s, e.exception, store);
    FoundKnown(c, s, e.exception);
    var x := Eval(c, w, s, e.exception, store);
    if x.outcome.Ok? {
      ThrowableValue(c, Check(c, s, e.exception).found, x.outcome.value);
    }
  }

  lemma ThrowableValue(c: Context, t: Type, v: Value)
    requires NamesOk(c) && Known(t) && ValueOf(c, t, v) && (t.NullType? || c.below(t, THROWABLE))
    ensures IsThrowable(c, v)
  {
    if !v.tag.NullType? && !t.NullType? && v.tag != t {
      assert IsReference(t);
    }
  }

  lemma {:induction false} PreservedUnary(c: Context, w: World, s: Scope, e: Expr, store: Store)
    requires e.Unary? && Assumed(c, w, s, store) && InFragment(c, e) && Check(c, s, e).ok
    ensures Preserved(c, w, s, e, store)
    decreases w.steps, e, 1, 0
  {
    Preservation(c, w, s, e.operand, store);
    FoundKnown(c, s, e.operand);
    var o := Eval(c, w, s, e.operand, store);
    if o.outcome.Ok? {
      OperateUnaryYields(c, w, e, Check(c, s, e.operand).found, o.outcome.value);
    }
  }

  lemma {:induction false} PreservedBinary(c: Context, w: World, s: Scope, e: Expr, store: Store)
    requires e.Binary? && Assumed(c, w, s, store) && InFragment(c, e) && Check(c, s, e).ok
    ensures Preserved(c, w, s, e, store)
    decreases w.steps, e, 1, 0
  {
    Preservation(c, w, s, e.left, store);
    ScopeKept(c, s, e.left);
    var l := Eval(c, w, s, e.left, store);
    Preservation(c, w, s, e.right, l.store);
    FoundKnown(c, s, e.left);
    FoundKnown(c, s, e.right);
    var left, right := Check(c, s, e.left).found, Check(c, s, e.right).found;
    var r := Eval(c, w, s, e.right, l.store);
    SoundAfter(c, s, right, OperatorsCompiled(c, s, e.right), store, l.store, r);
    if l.outcome.Ok? {
      BooleanConforms(c, left, l.outcome.value.tag);
      if r.outcome.Ok? {
        OperateYields(c, w, e, left, right, l.outcome.value, r.outcome.value);
      }
    }
  }

  lemma {:induction false} PreservedAssign(c: Context, w: World, s: Scope, e: Expr, store: Store)
    requires e.Assign? && Assumed(c, w, s, store) && InFragment(c, e) && Check(c, s, e).ok
    ensures Preserved(c, w, s, e, store)
    decreases w.steps, e, 1, 0
  {
    Preservation(c, w, s, e.newValue, store);
    FoundKnown(c, s, e.newValue);
    var a := Eval(c, w, s, e.newValue, store);
    if a.outcome.Ok? {
      ValueWidens(c, s.types[e.target], Check(c, s, e.newValue).found, a.outcome.value);
    }
  }

  lemma {:induction false} PreservedIf(c: Context, w: World, s: Scope, e: Expr, store: Store)
    requires e.If? && Assumed(c, w, s, store) && InFragment(c, e) && Check(c, s, e).ok
    ensures Preserved(c, w, s, e, store)
    decreases w.steps, e, 1, 0
  {
    ScopeKept(c, s, e.condition);
    ScopeKept(c, s, e.thenBranch);
    Preservation(c, w, s, e.condition, store);
    var i := Eval(c, w, s, e.condition, store);
    Preservation(c, w, s, e.thenBranch, i.store);
    Preservation(c, w, s, e.elseBranch, i.store);
    FoundKnown(c, s, e.condition);
    FoundKnown(c, s, e.thenBranch);
    FoundKnown(c, s, e.elseBranch);
    var a, b := Check(c, s, e.thenBranch).found, Check(c, s, e.elseBranch).found;
    var t := BranchType(e.resultType, a, b);
    if i.outcome.Ok? {
      BooleanConforms(c, Check(c, s, e.condition).found, i.outcome.value.tag);
      BranchSound(c, s, t, e.thenBranch, store, i.store, Eval(c, w, s, e.thenBranch, i.store));
      BranchSound(c, s, t, e.elseBranch, store, i.store, Eval(c, w, s, e.elseBranch, i.store));
    }
  }

  lemma BranchSound(c: Context, s: Scope, t: Type, branch: Expr, before: Store, middle: Store, r: Run)
    requires var found := Check(c, s, branch).found;
             NamesOk(c) && Known(t) && Known(found) && Conforms(c, t, found) &&
             Sound(c, s, found, OperatorsCompiled(c, s, branch), middle, r)
    requires StoreOk(c, s, before) && StoreOk(c, s, middle) && Kept(s, before, middle)
    ensures Sound(c, s, t, OperatorsCompiled(c, s, branch), before, r)
  {
    SoundWidens(c, s, t, Check(c, s, branch).found, OperatorsCompiled(c, s, branch), middle, r);
    SoundAfter(c, s, t, OperatorsCompiled(c, s, branch), before, middle, r);
  }

  lemma {:induction false} PreservedWhile(c: Context, w: World, s: Scope, e: Expr, store: Store)
    requires e.While? && Assumed(c, w, s, store) && InFragment(c, e) && Check(c, s, e).ok
    ensures Preserved(c, w, s, e, store)
    decreases w.steps, e, 1, 0
  {
    ScopeKept(c, s, e.condition);
    FoundKnown(c, s, e.condition);
    Preservation(c, w, s, e.condition, store);
    var i := Eval(c, w, s, e.condition, store);
    if i.outcome.Ok? {
      BooleanConforms(c, Check(c, s, e.condition).found, i.outcome.value.tag);
      Preservation(c, w, s, e.body, i.store);
      var b := Eval(c, w, s, e.body, i.store);
      if IsTrue(i.outcome.value) && b.outcome.Ok? && w.steps > 0 {
        var rest := w.(steps := w.steps - 1);
        FewerSteps(c, w);
        Preservation(c, rest, s, e, b.store);
        SoundAfter(c, s, UnitType, OperatorsCompiled(c, s, e), i.store, b.store, Eval(c, rest, s, e, b.store));
      }
    }
  }

  lemma FewerSteps(c: Context, w: World)
    requires WorldOk(c, w) && w.steps > 0
    ensures WorldOk(c, w.(steps := w.steps - 1))
  {
    var rest := w.(steps := w.steps - 1);
    forall x
      ensures var r := c.resolve(x); r.Some? ==> Yields(c, r.value.mentioned, true, rest.globals(x))
    {
      assert rest.globals(x) == w.globals(x);
    }
  }

  lemma {:induction false} PreservedNew(c: Context, w: World, s: Scope, e: Expr, store: Store)
    requires e.New? && Assumed(c, w, s, store) && InFragment(c, e) && Check(c, s, e).ok
    ensures Preserved(c, w, s, e, store)
    decreases w.steps, e, 1, 0
  {
    var own := c.resolve(e.className).value.own;
    PreservedArguments(c, w, s, e, c.constructorTypes(own), 0, [], store);
  }

  lemma {:induction false} PreservedArguments(c: Context, w: World, s: Scope, e: Expr, expected: seq<Type>, k: nat,
                                              values: seq<Value>, store: Store)
    requires e.New? && k <= |e.arguments| && Assumed(c, w, s, store) && InFragment(c, e)
    requires c.resolve(e.className).Some? && c.resolve(e.className).value.isClass
    requires |expected| == |e.arguments| && CheckArguments(c, s, e, expected, k).ok
    ensures Sound(c, s, c.resolve(e.className).value.own, CompiledInArguments(c, s, e, k), store,
                  EvalArguments(c, w, s, e, k, values, store))
    decreases w.steps, e, 0, |e.arguments| - k
  {
    if k == |e.arguments| {
    } else {
      var argument := e.arguments[k];
      ScopeKept(c, s, argument);
      Preservation(c, w, s, argument, store);
      FoundKnown(c, s, argument);
      var a := Eval(c, w, s, argument, store);
      if a.outcome.Ok? {
        PreservedArguments(c, w, s, e, expected, k + 1, values + [a.outcome.value], a.store);
      }
    }
  }

  lemma {:induction false} PreservedBlock(c: Context, w: World, s: Scope, e: Expr, k: nat, declared: set<Name>,
                                          last: Type, lastValue: Value, store: Store)
    requires e.Block? && k <= |e.operands| && Assumed(c, w, s, store) && InFragment(c, e)
    requires CheckBlock(c, s, e, k, declared, last).ok && Known(last) && ValueOf(c, last, lastValue)
    ensures var b := CheckBlock(c, s, e, k, declared, last);
            Sound(c, s, b.found, CompiledInBlock(c, s, e, k), store, EvalBlock(c, w, s, e, k, lastValue, store))
    decreases w.steps, e, 0, |e.operands| - k
  {
    if k == |e.operands| {
    } else {
      var operand := e.operands[k];
      assert OperandInFragment(c, operand);
      var checked := Check(c, s, operand);
      if operand.LocalBinding? {
        var i := Eval(c, w, s, operand.initializer, store);
        ScopeKept(c, s, operand.initializer);
        Preservation(c, w, s, operand.initializer, store);
        FoundKnown(c, s, operand.initializer);
        var found := Check(c, s, operand.initializer).found;
        var t := if operand.declared.Some? then operand.declared.value else found;
        if i.outcome.Ok? {
          var v := i.outcome.value;
          ValueWidens(c, t, found, v);
          Bound(c, s, operand.name, t, operand.isMutable, i.store, v);
          assert checked.scope == Declare(s, operand.name, t, operand.isMutable);
          PreservedBlock(c, w, checked.scope, e, k + 1, declared + {operand.name}, UnitType, UNIT,
                         i.store[operand.name := v]);
          var rest := EvalBlock(c, w, checked.scope, e, k + 1, UNIT, i.store[operand.name := v]);
          var result := CheckBlock(c, s, e, k, declared, last).found;
          var compiled := CompiledInBlock(c, checked.scope, e, k + 1);
          Left(c, s, operand.name, t, operand.isMutable, result, compiled, i.store, v, rest);
          SoundAfter(c, s, result, compiled, store, i.store,
                     Run(rest.outcome, Leave(operand.name, i.store, rest.store)));
        }
      } else {
        ScopeKept(c, s, operand);
        Preservation(c, w, s, operand, store);
        FoundKnown(c, s, operand);
        var r := Eval(c, w, s, operand, store);
        if r.outcome.Ok? {
          PreservedBlock(c, w, s, e, k + 1, declared, checked.found, r.outcome.value, r.store);
        }
      }
    }
  }

  lemma {:induction false} PreservedTry(c: Context, w: World, s: Scope, e: Expr, store: Store)
    requires e.Try? && Assumed(c, w, s, store) && InFragment(c, e) && Check(c, s, e).ok
    ensures Preserved(c, w, s, e, store)
    decreases w.steps, e, 1, 0
  {
    ScopeKept(c, s, e.attempt);
    Preservation(c, w, s, e.attempt, store);
    var a := Eval(c, w, s, e.attempt, store);
    FoundKnown(c, s, e.attempt);
    SoundWidens(c, s, e.result, Check(c, s, e.attempt).found, OperatorsCompiled(c, s, e.attempt), store, a);
    var h := a;
    if a.outcome.Thrown? {
      PreservedHandlers(c, w, s, e, 0, [], false, a.outcome.exception, a.store);
      h := EvalHandlers(c, w, s, e, 0, a.outcome.exception, a.store);
      SoundAfter(c, s, e.result, CompiledInHandlers(c, s, e, 0), store, a.store, h);
    }
    if e.finalizer.Some? && (h.outcome.Ok? || h.outcome.Thrown?) {
      Preservation(c, w, s, e.finalizer.value, h.store);
      SoundAfter(c, s, Check(c, s, e.finalizer.value).found, OperatorsCompiled(c, s, e.finalizer.value), store, h.store,
                 Eval(c, w, s, e.finalizer.value, h.store));
    }
  }

  lemma {:induction false} PreservedHandlers(c: Context, w: World, s: Scope, e: Expr, k: nat, earlier: seq<Type>,
                                             sawCatchAll: bool, v: Value, store: Store)
    requires e.Try? && k <= |e.handlers| && Assumed(c, w, s, store) && InFragment(c, e)
    requires CheckHandlers(c, s, e, k, earlier, sawCatchAll)
    requires ValueOf(c, v.tag, v) && IsThrowable(c, v)
    ensures Sound(c, s, e.result, CompiledInHandlers(c, s, e, k), store, EvalHandlers(c, w, s, e, k, v, store))
    decreases w.steps, e, 0, |e.handlers| - k
  {
    if k == |e.handlers| {
    } else {
      var h := e.handlers[k];
      assert h in e.handlers;
      if Catches(c, h.caught, v) {
        CaughtValue(c, h.caught, v);
        Bound(c, s, h.binding, h.caught, false, store, v);
        var inner := Declare(s, h.binding, h.caught, false);
        Preservation(c, w, inner, h.body, store[h.binding := v]);
        FoundKnown(c, inner, h.body);
        var b := Eval(c, w, inner, h.body, store[h.binding := v]);
        var found := Check(c, inner, h.body).found;
        var compiled := OperatorsCompiled(c, inner, h.body);
        SoundWidens(c, inner, h.result, found, compiled, store[h.binding := v], b);
        SoundWidens(c, inner, e.result, h.result, compiled, store[h.binding := v], b);
        Left(c, s, h.binding, h.caught, false, e.result, compiled, store, v, b);
      } else {
        PreservedHandlers(c, w, s, e, k + 1, Caught(c, earlier, h.caught), sawCatchAll || IsCatchAll(h.caught), v,
                          store);
      }
    }
  }

  /** The exception a handler takes has the type its binding is given. */
  lemma CaughtValue(c: Context, t: Type, v: Value)
    requires NamesOk(c) && CatchOk(c, t) && IsKnownCatch(c, t) && IsValidCatch(c, t) && Catches(c, t, v)
    requires IsThrowableValue(c, v)
    ensures ValueOf(c, t, v)
  {
    if !v.tag.NullType? {
      assert IsReference(v.tag) || v.tag == THROWABLE;
      if !IsCatchAll(t) {
        var r := c.resolve(c.spell(t)).value;
        if !r.isTrait {
          assert IsReference(r.own) || r.own == THROWABLE;
          ConformsTransitive(c, t, r.own, v.tag);
        }
      }
    }
  }

  /** Every exception the handler takes is a value of the type it names. */
  ghost predicate TakesValuesOf(c: Context, t: Type) {
    forall v {:trigger Catches(c, t, v)} :: IsThrowableValue(c, v) && Catches(c, t, v) ==> ValueOf(c, t, v)
  }

  /** The condition on handlers is exact. */
  lemma CatchOkIff(c: Context, t: Type)
    requires NamesOk(c) && Known(t) && IsKnownCatch(c, t) && IsValidCatch(c, t)
    ensures CatchOk(c, t) <==> TakesValuesOf(c, t)
  {
    if CatchOk(c, t) {
      forall v | IsThrowableValue(c, v) && Catches(c, t, v) ensures ValueOf(c, t, v) {
        CaughtValue(c, t, v);
      }
    }
    if TakesValuesOf(c, t) {
      TakenIsOk(c, t);
    }
  }

  lemma TakenIsOk(c: Context, t: Type)
    requires NamesOk(c) && Known(t) && IsKnownCatch(c, t) && IsValidCatch(c, t) && TakesValuesOf(c, t)
    ensures CatchOk(c, t)
  {
    assert Catches(c, t, Value(NullType, 0));
    if t == JAVA_LANG_OBJECT_TYPE {
      assert Catches(c, t, Value(THROWABLE, 0));
    } else if !t.ObjectType? {
      var r := c.resolve(c.spell(t)).value;
      forall a | IsThrowableType(c, a) && c.below(a, r.own) ensures Conforms(c, t, a) {
        assert Catches(c, t, Value(a, 0));
      }
      if !r.isTrait {
        assert c.below(r.own, r.own);
      }
    }
  }

  /** An accepted body whose operators are all compiled ends with a value of the reported type or throws, unless a loop
      is cut off. */
  lemma CompiledBodiesCompute(c: Context, w: World, s: Scope, e: Expr, store: Store)
    requires Assumed(c, w, s, store) && InFragment(c, e) && Check(c, s, e).ok && OperatorsCompiled(c, s, e)
    ensures var o := Eval(c, w, s, e, store).outcome;
            (o.Ok? && ValueOf(c, Check(c, s, e).found, o.value)) || (o.Thrown? && IsThrowable(c, o.exception)) ||
            o.OutOfSteps?
  {
    Preservation(c, w, s, e, store);
  }
}
