/** Bodies whose binary operators the compiler all has code for. The verifier accepts more. */
module CompiledOperators {
  import opened Types
  import opened Bodies

  /** Every operator in the body has code for the types its operands are reported with. */
  predicate OperatorsCompiled(c: Context, s: Scope, e: Expr)
    decreases e, 1, 0
  {
    match e
    case Literal(_, _) => true
    case Local(_) => true
    case New(_, _) => CompiledInArguments(c, s, e, 0)
    case Throw(exception) => OperatorsCompiled(c, s, exception)
    case Try(_, attempt, _, finalizer) =>
      var after := Check(c, s, attempt).scope;
      && OperatorsCompiled(c, s, attempt) && CompiledInHandlers(c, after, e, 0)
      && (finalizer.Some? ==> OperatorsCompiled(c, after, finalizer.value))
    case Block(_) => CompiledInBlock(c, s, e, 0)
    case LocalBinding(_, _, initializer, _) => OperatorsCompiled(c, s, initializer)
    case Unary(_, operand) => OperatorsCompiled(c, s, operand)
    case Binary(op, left, right) =>
      var l := Check(c, s, left);
      && OperatorsCompiled(c, s, left) && OperatorsCompiled(c, l.scope, right)
      && Compiled(op, l.found, Check(c, l.scope, right).found)
    case Assign(_, newValue) => OperatorsCompiled(c, s, newValue)
    case If(_, condition, thenBranch, elseBranch) =>
      var i := Check(c, s, condition).scope;
      && OperatorsCompiled(c, s, condition) && OperatorsCompiled(c, i, thenBranch)
      && OperatorsCompiled(c, Check(c, i, thenBranch).scope, elseBranch)
    case While(condition, body) =>
      OperatorsCompiled(c, s, condition) && OperatorsCompiled(c, Check(c, s, condition).scope, body)
  }

  predicate CompiledInArguments(c: Context, s: Scope, e: Expr, k: nat)
    requires e.New? && k <= |e.arguments|
    decreases e, 0, |e.arguments| - k
  {
    k == |e.arguments| ||
    (OperatorsCompiled(c, s, e.arguments[k]) && CompiledInArguments(c, Check(c, s, e.arguments[k]).scope, e, k + 1))
  }

  predicate CompiledInBlock(c: Context, s: Scope, e: Expr, k: nat)
    requires e.Block? && k <= |e.operands|
    decreases e, 0, |e.operands| - k
  {
    k == |e.operands| ||
    (OperatorsCompiled(c, s, e.operands[k]) && CompiledInBlock(c, Check(c, s, e.operands[k]).scope, e, k + 1))
  }

  predicate CompiledInHandlers(c: Context, s: Scope, e: Expr, k: nat)
    requires e.Try? && k <= |e.handlers|
    decreases e, 0, |e.handlers| - k
  {
    k == |e.handlers| ||
    var h := e.handlers[k];
    OperatorsCompiled(c, Declare(s, h.binding, h.caught, false), h.body) && CompiledInHandlers(c, s, e, k + 1)
  }
}
