/** The part of NIR bodies that works on locals, and how it runs. */
module Bodies {
  import opened Basics
  import opened Types

  datatype BinaryOperator =
    | Logical(isAnd: bool)
    | Bitwise(text: string)       // & | ^
    | Shift(text: string)         // << >> >>>
    | Comparison(text: string)    // == != < > <= >=
    | Plus
    | Remainder
    | Arithmetic(text: string)    // any other text, such as - * /

  datatype UnaryOperator = Not | Signed(text: string)

  datatype Handler = Handler(binding: Name, caught: Type, result: Type, body: Expr)

  datatype Expr =
    | Literal(literalType: Type, payload: int)
    | Local(name: Name)
    | New(className: Name, arguments: seq<Expr>)
    | Throw(exception: Expr)
    | Try(result: Type, attempt: Expr, handlers: seq<Handler>, finalizer: Option<Expr>)
    | Block(operands: seq<Expr>)
    | LocalBinding(name: Name, declared: Option<Type>, initializer: Expr, isMutable: bool)
    | Unary(unary: UnaryOperator, operand: Expr)
    | Binary(binary: BinaryOperator, left: Expr, right: Expr)
    | Assign(target: Name, newValue: Expr)
    | If(resultType: Option<Type>, condition: Expr, thenBranch: Expr, elseBranch: Expr)
    | While(condition: Expr, body: Expr)

  // ---------------------------------------------------------------------------------------------
  // Checking.

  /** localTypes_ and mutableLocals_. */
  datatype Scope = Scope(types: map<Name, Type>, mutables: set<Name>)

  datatype Checked = Checked(found: Type, scope: Scope, ok: bool)

  function Declare(s: Scope, x: Name, t: Type, isMutable: bool): Scope {
    Scope(s.types[x := t], if isMutable then s.mutables + {x} else s.mutables - {x})
  }

  predicate IsCatchAll(t: Type) {
    t.ObjectType? || t == JAVA_LANG_OBJECT_TYPE
  }

  predicate IsKnownCatch(c: Context, t: Type) {
    IsCatchAll(t) ||
    var r := c.resolve(c.spell(t)); r.Some? && (r.value.isClass || r.value.isTrait)
  }

  predicate IsValidCatch(c: Context, t: Type) {
    IsCatchAll(t) ||
    var r := c.resolve(c.spell(t));
    r.Some? && (r.value.isTrait || (r.value.isClass && c.below(r.value.own, THROWABLE)))
  }

  predicate CatchShadows(c: Context, earlier: Type, later: Type) {
    IsCatchAll(earlier) || c.below(later, earlier) || c.below(THROWABLE, earlier)
  }

  predicate AnyShadows(c: Context, earlier: seq<Type>, later: Type) {
    exists i {:trigger earlier[i]} :: 0 <= i < |earlier| && CatchShadows(c, earlier[i], later)
  }

  predicate OrUnknown(isExpected: bool, t: Type) {
    isExpected || t.UnknownType?
  }

  function Widened(t: Type): Type {
    if t.ByteType? || t.ShortType? then IntType else t
  }

  predicate IsStringConvertible(t: Type) {
    t.UnitType? || t.StringType? || t.BooleanType? || IsNumeric(t) || t.CharType? || t.SymbolType? || t.NullType? ||
    IsReference(t) || t.UnknownType?
  }

  predicate SameOrUnknown(a: Type, b: Type) {
    a.UnknownType? || b.UnknownType? || a == b
  }

  predicate Concatenates(op: BinaryOperator, left: Type, right: Type) {
    op.Plus? && (left.StringType? || right.StringType?)
  }

  predicate OperandsOk(op: BinaryOperator, left: Type, right: Type) {
    match op
    case Logical(_) => OrUnknown(left.BooleanType?, left) && OrUnknown(right.BooleanType?, right)
    case Bitwise(_) =>
      && OrUnknown(left.BooleanType? || IsIntegral(left), left)
      && OrUnknown(right.BooleanType? || IsIntegral(right), right)
      && SameOrUnknown(left, right)
    case Shift(_) => OrUnknown(IsIntegral(left), left) && OrUnknown(right.IntType?, right)
    case Comparison(_) => true
    case Plus =>
      if Concatenates(op, left, right) then IsStringConvertible(left) && IsStringConvertible(right)
      else SameOrUnknown(left, right)
    case Remainder =>
      OrUnknown(IsNumeric(left), left) && OrUnknown(IsNumeric(right), right) && SameOrUnknown(left, right)
    case Arithmetic(_) => SameOrUnknown(left, right)
  }

  function BinaryType(op: BinaryOperator, left: Type, right: Type): Type {
    match op
    case Logical(_) => BooleanType
    case Comparison(_) => BooleanType
    case _ => if Concatenates(op, left, right) then StringType else Widened(left)
  }

  predicate UnaryOk(op: UnaryOperator, operand: Type) {
    if op.Not? then OrUnknown(operand.BooleanType?, operand) else OrUnknown(IsNumeric(operand), operand)
  }

  function UnaryType(op: UnaryOperator, operand: Type): Type {
    if op.Not? then BooleanType else Widened(operand)
  }

  predicate BranchesOk(c: Context, resultType: Option<Type>, a: Type, b: Type) {
    match resultType
    case Some(t) => Conforms(c, t, a) && Conforms(c, t, b)
    case None => a == b || a.UnknownType? || b.UnknownType? || a.NothingType? || b.NothingType?
  }

  function BranchType(resultType: Option<Type>, a: Type, b: Type): Type {
    match resultType
    case Some(t) => t
    case None =>
      if a == b then a
      else if a.UnknownType? then b
      else if b.UnknownType? then a
      else if a.NothingType? then b
      else if b.NothingType? then a
      else UnknownType
  }

  /** The reported type, the scope afterwards, and whether no error was recorded. */
  function Check(c: Context, s: Scope, e: Expr): Checked
    decreases e, 1, 0
  {
    match e
    case Literal(t, _) => Checked(t, s, true)
    case Local(x) =>
      if x in s.types then Checked(s.types[x], s, true)
      else
        var r := c.resolve(x);
        if r.Some? then Checked(r.value.mentioned, s, true) else Checked(UnknownType, s, false)
    case New(className, arguments) =>
      var r := c.resolve(className);
      if r.None? || !r.value.isClass then Checked(UnknownType, s, false)
      else
        var expected := c.constructorTypes(r.value.own);
        var a := CheckArguments(c, s, e, expected, 0);
        Checked(r.value.own, a.scope, a.ok && |arguments| == |expected|)
    case Throw(exception) =>
      var x := Check(c, s, exception);
      Checked(NothingType, x.scope, x.ok && (x.found.NullType? || c.below(x.found, THROWABLE)))
    case Try(result, attempt, handlers, finalizer) =>
      var a := Check(c, s, attempt);
      var h := CheckHandlers(c, a.scope, e, 0, [], false);
      var ok := a.ok && Conforms(c, result, a.found) && h && (handlers != [] || finalizer.Some?);
      if finalizer.None? then Checked(result, a.scope, ok)
      else
        var f := Check(c, a.scope, finalizer.value);
        Checked(result, f.scope, ok && f.ok)
    case Block(_) =>
      var b := CheckBlock(c, s, e, 0, {}, UnitType);
      Checked(b.found, s, b.ok)
    case LocalBinding(x, declared, initializer, isMutable) =>
      if x == "" then Checked(UnitType, s, false)
      else
        var i := Check(c, s, initializer);
        Checked(UnitType, Declare(i.scope, x, if declared.Some? then declared.value else i.found, isMutable),
                i.ok && (declared.Some? ==> Conforms(c, declared.value, i.found)))
    case Unary(op, operand) =>
      var o := Check(c, s, operand);
      Checked(UnaryType(op, o.found), o.scope, o.ok && UnaryOk(op, o.found))
    case Binary(op, left, right) =>
      var l := Check(c, s, left);
      var r := Check(c, l.scope, right);
      Checked(BinaryType(op, l.found, r.found), r.scope, l.ok && r.ok && OperandsOk(op, l.found, r.found))
    case Assign(x, newValue) =>
      var a := Check(c, s, newValue);
      Checked(UnitType, a.scope,
              x in s.types && x in s.mutables && a.ok && Conforms(c, s.types[x], a.found))
    case If(resultType, condition, thenBranch, elseBranch) =>
      var i := Check(c, s, condition);
      var t := Check(c, i.scope, thenBranch);
      var f := Check(c, t.scope, elseBranch);
      Checked(BranchType(resultType, t.found, f.found), f.scope,
              i.ok && OrUnknown(i.found.BooleanType?, i.found) && t.ok && f.ok &&
              BranchesOk(c, resultType, t.found, f.found))
    case While(condition, body) =>
      var i := Check(c, s, condition);
      var b := Check(c, i.scope, body);
      Checked(UnitType, b.scope, i.ok && OrUnknown(i.found.BooleanType?, i.found) && b.ok)
  }

  /** Arguments beyond the expected ones are not looked at. */
  function CheckArguments(c: Context, s: Scope, e: Expr, expected: seq<Type>, k: nat): Checked
    requires e.New?
    decreases e, 0, |e.arguments| - k
  {
    if k >= |e.arguments| || k >= |expected| then Checked(UnitType, s, true)
    else
      var a := Check(c, s, e.arguments[k]);
      var rest := CheckArguments(c, a.scope, e, expected, k + 1);
      Checked(UnitType, rest.scope, a.ok && Conforms(c, expected[k], a.found) && rest.ok)
  }

  /** The operands of a block from k on, each seeing the locals bound before it. */
  function CheckBlock(c: Context, s: Scope, e: Expr, k: nat, declared: set<Name>, last: Type): Checked
    requires e.Block? && k <= |e.operands|
    decreases e, 0, |e.operands| - k
  {
    if k == |e.operands| then Checked(last, s, true)
    else
      var operand := e.operands[k];
      var r := Check(c, s, operand);
      var nowDeclared := if operand.LocalBinding? then declared + {operand.name} else declared;
      var rest := CheckBlock(c, r.scope, e, k + 1, nowDeclared, r.found);
      Checked(rest.found, rest.scope, r.ok && rest.ok && !(operand.LocalBinding? && operand.name in declared))
  }

  /** The handlers from k on, each checked with its binding in a scope that is then dropped. */
  predicate CheckHandlers(c: Context, s: Scope, e: Expr, k: nat, earlier: seq<Type>, sawCatchAll: bool)
    requires e.Try? && k <= |e.handlers|
    decreases e, 0, |e.handlers| - k
  {
    k == |e.handlers| ||
    var caught := e.handlers[k].caught;
    && CatchInOrder(c, earlier, sawCatchAll, caught) && CheckHandler(c, s, e, k)
    && CheckHandlers(c, s, e, k + 1, Caught(c, earlier, caught), sawCatchAll || IsCatchAll(caught))
  }

  /** No earlier handler takes everything this one could. */
  predicate CatchInOrder(c: Context, earlier: seq<Type>, sawCatchAll: bool, caught: Type) {
    !sawCatchAll && !(IsValidCatch(c, caught) && AnyShadows(c, earlier, caught))
  }

  function Caught(c: Context, earlier: seq<Type>, caught: Type): seq<Type> {
    if IsValidCatch(c, caught) then earlier + [caught] else earlier
  }

  predicate CheckHandler(c: Context, s: Scope, e: Expr, k: nat)
    requires e.Try? && k < |e.handlers|
    decreases e, 0, 0
  {
    var h := e.handlers[k];
    var b := Check(c, Declare(s, h.binding, h.caught, false), h.body);
    && h.binding != "" && IsKnownCatch(c, h.caught) && IsValidCatch(c, h.caught)
    && b.ok && Conforms(c, h.result, b.found) && Conforms(c, e.result, h.result)
  }

  // ---------------------------------------------------------------------------------------------
  // Running.

  /** A value with its run-time type. */
  datatype Value = Value(tag: Type, payload: int)

  type Store = map<Name, Value>

  datatype Outcome =
    | Ok(value: Value)
    | Thrown(exception: Value)
    | Unsupported   // an operator on operand types the compiler has no code for
    | Trapped       // an instruction that was declared unreachable
    | Stuck         // a missing local, a condition that is no Boolean, a throw of something else than an exception
    | OutOfSteps

  datatype Run = Run(outcome: Outcome, store: Store)

  /** What operators and constructors compute, what mentioning a global does, and how many rounds in a row a loop may
      take. */
  datatype World = World(compute: (Expr, seq<Value>) -> int, globals: Name -> Outcome, steps: nat)

  const UNIT := Value(UnitType, 0)

  predicate IsTrue(v: Value) {
    v.tag.BooleanType? && v.payload != 0
  }

  function Rank(t: Type): nat
    requires IsNumeric(t)
  {
    match t
    case ByteType => 0
    case ShortType => 1
    case IntType => 2
    case LongType => 3
    case FloatType => 4
    case _ => 5
  }

  /** Binary numeric promotion. */
  function Promoted(a: Type, b: Type): Type
    requires IsNumeric(a) && IsNumeric(b)
  {
    Widened(if Rank(a) < Rank(b) then b else a)
  }

  /** What the compiler keeps behind a pointer; null is a pointer too. */
  predicate IsPointer(t: Type) {
    !(t.UnitType? || t.BooleanType? || IsNumeric(t) || t.CharType?)
  }

  predicate IsComparedReference(t: Type) {
    IsReference(t) && !t.StringType? && !t.UnknownType?
  }

  /** Operands are compared when their types agree, when one of them is null, or when both are references; pointers
      only for equality. */
  predicate Comparable(text: string, left: Type, right: Type) {
    && !left.UnitType? && !left.UnknownType?
    && (left == right || (IsPointer(left) && (left.NullType? || right.NullType?)) ||
        (IsComparedReference(left) && IsComparedReference(right)))
    && (IsPointer(left) ==> text == "==" || text == "!=")
  }

  predicate HasArithmetic(t: Type) {
    IsNumeric(t) || t.CharType?
  }

  /** Whether the compiler has code for an operator that the verifier accepts on these operand types. */
  predicate Compiled(op: BinaryOperator, left: Type, right: Type) {
    match op
    case Logical(_) => true
    case Bitwise(_) => left.BooleanType? || left.IntType? || left.LongType?
    case Shift(_) => left.IntType? || left.LongType?
    case Comparison(text) => Comparable(text, left, right)
    case Plus => Concatenates(op, left, right) || HasArithmetic(left)
    case Remainder => HasArithmetic(left)
    case Arithmetic(text) => (text == "-" || text == "*" || text == "/") && HasArithmetic(left)
  }

  /** Values of the same kind; null is compared with anything. */
  predicate SameKind(a: Type, b: Type) {
    (IsNumeric(a) && IsNumeric(b)) || (a.BooleanType? && b.BooleanType?) || (a.CharType? && b.CharType?) ||
    (IsPointer(a) && IsPointer(b)) || a.NullType?
  }

  /** What an operator makes of two values. */
  function Compute(w: World, e: Expr, concatenates: bool, l: Value, r: Value): Outcome
    requires e.Binary?
  {
    var payload := w.compute(e, [l, r]);
    match e.binary
    case Logical(_) => if r.tag.BooleanType? then Ok(r) else Stuck
    case Bitwise(_) =>
      if l.tag.BooleanType? && r.tag.BooleanType? then Ok(Value(BooleanType, payload))
      else if IsIntegral(l.tag) && IsIntegral(r.tag) then Ok(Value(Promoted(l.tag, r.tag), payload))
      else Stuck
    case Shift(_) =>
      if IsIntegral(l.tag) && IsIntegral(r.tag) then Ok(Value(Widened(l.tag), payload)) else Stuck
    case Comparison(_) => if SameKind(l.tag, r.tag) then Ok(Value(BooleanType, payload)) else Stuck
    case _ =>
      if concatenates then Ok(Value(StringType, payload))
      else if IsNumeric(l.tag) && IsNumeric(r.tag) then Ok(Value(Promoted(l.tag, r.tag), payload))
      else if l.tag.CharType? && r.tag.CharType? then Ok(Value(CharType, payload))
      else Stuck
  }

  /** The operator as compiled for its operand types. */
  function Operate(w: World, e: Expr, left: Type, right: Type, l: Value, r: Value): Outcome
    requires e.Binary?
  {
    if Compiled(e.binary, left, right) then Compute(w, e, Concatenates(e.binary, left, right), l, r) else Unsupported
  }

  function OperateUnary(w: World, e: Expr, v: Value): Outcome
    requires e.Unary?
  {
    var payload := w.compute(e, [v]);
    if e.unary.Not? then if v.tag.BooleanType? then Ok(Value(BooleanType, payload)) else Stuck
    else if IsNumeric(v.tag) then Ok(Value(Widened(v.tag), payload))
    else Stuck
  }

  /** The store after the block that bound a local. */
  function Leave(x: Name, before: Store, after: Store): Store {
    if x in before then after[x := before[x]] else after - {x}
  }

  /** A handler runs for an exception at or below the class it names. */
  predicate Catches(c: Context, caught: Type, v: Value) {
    IsCatchAll(caught) || v.tag.NullType? ||
    var r := c.resolve(c.spell(caught)); r.Some? && c.below(v.tag, r.value.own)
  }

  predicate IsThrowable(c: Context, v: Value) {
    v.tag.NullType? || c.below(v.tag, THROWABLE)
  }

  /** Evaluation; the scope is only used for the operand types that decide what code an operator gets. */
  function Eval(c: Context, w: World, s: Scope, e: Expr, store: Store): Run
    decreases w.steps, e, 1, 0
  {
    match e
    case Literal(t, payload) => Run(Ok(Value(t, payload)), store)
    case Local(x) =>
      Run(if x in store then Ok(store[x]) else if c.resolve(x).Some? then w.globals(x) else Stuck, store)
    case New(_, _) => EvalArguments(c, w, s, e, 0, [], store)
    case Throw(exception) =>
      var x := Eval(c, w, s, exception, store);
      if !x.outcome.Ok? then x
      else Run(if IsThrowable(c, x.outcome.value) then Thrown(x.outcome.value) else Stuck, x.store)
    case Try(_, attempt, _, finalizer) =>
      var a := Eval(c, w, s, attempt, store);
      var scope := Check(c, s, attempt).scope;
      var h := if a.outcome.Thrown? then EvalHandlers(c, w, scope, e, 0, a.outcome.exception, a.store) else a;
      if finalizer.None? || !(h.outcome.Ok? || h.outcome.Thrown?) then h
      else
        var f := Eval(c, w, scope, finalizer.value, h.store);
        if f.outcome.Ok? then Run(h.outcome, f.store) else f
    case Block(_) => EvalBlock(c, w, s, e, 0, UNIT, store)
    case LocalBinding(x, _, initializer, _) =>
      var i := Eval(c, w, s, initializer, store);
      if i.outcome.Ok? then Run(Ok(UNIT), i.store[x := i.outcome.value]) else i
    case Unary(_, operand) =>
      var o := Eval(c, w, s, operand, store);
      if o.outcome.Ok? then Run(OperateUnary(w, e, o.outcome.value), o.store) else o
    case Binary(op, left, right) =>
      var l := Eval(c, w, s, left, store);
      if !l.outcome.Ok? then l
      else if op.Logical? && !l.outcome.value.tag.BooleanType? then Run(Stuck, l.store)
      else if op.Logical? && IsTrue(l.outcome.value) != op.isAnd then l
      else
        var checkedLeft := Check(c, s, left);
        var r := Eval(c, w, checkedLeft.scope, right, l.store);
        if !r.outcome.Ok? then r
        else
          var right := Check(c, checkedLeft.scope, right).found;
          Run(Operate(w, e, checkedLeft.found, right, l.outcome.value, r.outcome.value), r.store)
    case Assign(x, newValue) =>
      var a := Eval(c, w, s, newValue, store);
      if !a.outcome.Ok? then a
      else if x in a.store then Run(Ok(UNIT), a.store[x := a.outcome.value])
      else Run(Stuck, a.store)
    case If(_, condition, thenBranch, elseBranch) =>
      var i := Eval(c, w, s, condition, store);
      var afterCondition := Check(c, s, condition).scope;
      if !i.outcome.Ok? then i
      else if !i.outcome.value.tag.BooleanType? then Run(Stuck, i.store)
      else if IsTrue(i.outcome.value) then Eval(c, w, afterCondition, thenBranch, i.store)
      else Eval(c, w, Check(c, afterCondition, thenBranch).scope, elseBranch, i.store)
    case While(condition, body) =>
      var i := Eval(c, w, s, condition, store);
      if !i.outcome.Ok? then i
      else if !i.outcome.value.tag.BooleanType? then Run(Stuck, i.store)
      else if !IsTrue(i.outcome.value) then Run(Ok(UNIT), i.store)
      else
        var b := Eval(c, w, Check(c, s, condition).scope, body, i.store);
        if !b.outcome.Ok? then b
        else if w.steps == 0 then Run(OutOfSteps, b.store)
        else Eval(c, w.(steps := w.steps - 1), s, e, b.store)
  }

  function EvalArguments(c: Context, w: World, s: Scope, e: Expr, k: nat, values: seq<Value>, store: Store): Run
    requires e.New? && k <= |e.arguments|
    decreases w.steps, e, 0, |e.arguments| - k
  {
    if k == |e.arguments| then
      var r := c.resolve(e.className);
      Run(if r.Some? then Ok(Value(r.value.own, w.compute(e, values))) else Stuck, store)
    else
      var a := Eval(c, w, s, e.arguments[k], store);
      if a.outcome.Ok? then
        EvalArguments(c, w, Check(c, s, e.arguments[k]).scope, e, k + 1, values + [a.outcome.value], a.store)
      else a
  }

  /** The operands from k on; a local is bound for the rest of its block. */
  function EvalBlock(c: Context, w: World, s: Scope, e: Expr, k: nat, last: Value, store: Store): Run
    requires e.Block? && k <= |e.operands|
    decreases w.steps, e, 0, |e.operands| - k
  {
    if k == |e.operands| then Run(Ok(last), store)
    else
      var operand := e.operands[k];
      var next := Check(c, s, operand).scope;
      if operand.LocalBinding? then
        var i := Eval(c, w, s, operand.initializer, store);
        if !i.outcome.Ok? then i
        else
          var rest := EvalBlock(c, w, next, e, k + 1, UNIT, i.store[operand.name := i.outcome.value]);
          Run(rest.outcome, Leave(operand.name, i.store, rest.store))
      else
        var r := Eval(c, w, s, operand, store);
        if r.outcome.Ok? then EvalBlock(c, w, next, e, k + 1, r.outcome.value, r.store) else r
  }

  /** The first handler from k on that takes the exception. */
  function EvalHandlers(c: Context, w: World, s: Scope, e: Expr, k: nat, v: Value, store: Store): Run
    requires e.Try? && k <= |e.handlers|
    decreases w.steps, e, 0, |e.handlers| - k
  {
    if k == |e.handlers| then Run(Thrown(v), store)
    else
      var h := e.handlers[k];
      if Catches(c, h.caught, v) then
        var b := Eval(c, w, Declare(s, h.binding, h.caught, false), h.body, store[h.binding := v]);
        Run(b.outcome, Leave(h.binding, store, b.store))
      else EvalHandlers(c, w, s, e, k + 1, v, store)
  }
}
