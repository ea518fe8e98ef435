/** Operator expressions of frontend/src/Parser.cpp: the precedence-climbing parser as functions on token positions. */
module Precedence {
  import opened Basics

  datatype Token =
    | Operand(text: string)
    | Operator(text: string)
    | Equals
    | LeftParen
    | RightParen
    | Semicolon
    | Other

  datatype Expr =
    | Atom(text: string)
    | Unary(op: string, operand: Expr)
    | Binary(op: string, left: Expr, right: Expr)
    | Assign(target: Expr, value: Expr)

  datatype Parsed = Parsed(expr: Expr, next: nat)

  /** What the parser knows about operators. */
  datatype Syntax = Syntax(precedence: string -> nat, rightAssociative: string -> bool, unary: string -> bool)

  predicate IsUnaryOperator(op: string) {
    op == "!" || op == "+" || op == "-"
  }

  function OperatorPrecedence(op: string): nat {
    if op == "*" || op == "/" || op == "%" then 7
    else if op == "+" || op == "-" || op == "++" then 6
    else if op == "==" || op == "!=" || op == "<" || op == ">" || op == "<=" || op == ">=" then 4
    else if op == "&&" then 3
    else if op == "||" then 2
    else 5
  }

  predicate EndsWithColon(op: string) {
    op != "" && op[|op| - 1] == ':'
  }

  /** The operators of the compiler's parser; the results about printing hold for any table. */
  function ScalaSyntax(): Syntax {
    Syntax(OperatorPrecedence, EndsWithColon, IsUnaryOperator)
  }

  /** The precedence at a position; what is no operator binds nothing. */
  function PrecedenceAt(g: Syntax, ts: seq<Token>, i: nat): int {
    if i < |ts| && ts[i].Operator? then g.precedence(ts[i].text) else -1
  }

  /** The weakest precedence the right operand of an operator still takes in. */
  function RightMinimum(g: Syntax, op: string): nat {
    g.precedence(op) + if g.rightAssociative(op) then 0 else 1
  }

  function SkipSeparators(ts: seq<Token>, i: nat): (j: nat)
    requires i <= |ts|
    ensures i <= j <= |ts|
    decreases |ts| - i
  {
    if i < |ts| && ts[i].Semicolon? then SkipSeparators(ts, i + 1) else i
  }

  // ---------------------------------------------------------------------------------------------
  // The parser. None stands for a reported error or for syntax outside these expressions.

  function ParseAssignment(g: Syntax, ts: seq<Token>, i: nat): (r: Option<Parsed>)
    requires i <= |ts|
    ensures r.Some? ==> i < r.value.next <= |ts|
    decreases |ts| - i, 3
  {
    match ParseBinary(g, ts, i, 0)
    case None => None
    case Some(left) =>
      if left.next < |ts| && ts[left.next].Equals? then
        if left.next + 1 < |ts| && ts[left.next + 1].Equals? then None
        else
          match ParseAssignment(g, ts, left.next + 1)
          case None => None
          case Some(right) => Some(Parsed(Assign(left.expr, right.expr), right.next))
      else Some(left)
  }

  function ParseBinary(g: Syntax, ts: seq<Token>, i: nat, minimum: nat): (r: Option<Parsed>)
    requires i <= |ts|
    ensures r.Some? ==> i < r.value.next <= |ts|
    decreases |ts| - i, 2
  {
    match ParseUnary(g, ts, i)
    case None => None
    case Some(left) => ClimbFrom(g, ts, left.next, minimum, left.expr)
  }

  /** The loop of the binary parser with its left operand built so far. */
  function ClimbFrom(g: Syntax, ts: seq<Token>, i: nat, minimum: nat, left: Expr): (r: Option<Parsed>)
    requires i <= |ts|
    ensures r.Some? ==> i <= r.value.next <= |ts|
    decreases |ts| - i, 1
  {
    if PrecedenceAt(g, ts, i) < minimum then Some(Parsed(left, i))
    else
      var op := ts[i].text;
      match ParseBinary(g, ts, i + 1, RightMinimum(g, op))
      case None => None
      case Some(right) => ClimbFrom(g, ts, right.next, minimum, Binary(op, left, right.expr))
  }

  function ParseUnary(g: Syntax, ts: seq<Token>, i: nat): (r: Option<Parsed>)
    requires i <= |ts|
    ensures r.Some? ==> i < r.value.next <= |ts|
    decreases |ts| - i, 1
  {
    if i < |ts| && ts[i].Operator? && g.unary(ts[i].text) then
      match ParseUnary(g, ts, i + 1)
      case None => None
      case Some(operand) => Some(Parsed(Unary(ts[i].text, operand.expr), operand.next))
    else ParsePrimary(g, ts, i)
  }

  /** An operand or a parenthesized expression; a call after it is outside these expressions. */
  function ParsePrimary(g: Syntax, ts: seq<Token>, i: nat): (r: Option<Parsed>)
    requires i <= |ts|
    ensures r.Some? ==> i < r.value.next <= |ts|
    decreases |ts| - i, 0
  {
    if i < |ts| && ts[i].Operand? then NoCallAfter(ts, Parsed(Atom(ts[i].text), i + 1))
    else if i < |ts| && ts[i].LeftParen? then
      match ParseAssignment(g, ts, SkipSeparators(ts, i + 1))
      case None => None
      case Some(inner) =>
        var close := SkipSeparators(ts, inner.next);
        if close < |ts| && ts[close].RightParen? then NoCallAfter(ts, Parsed(inner.expr, close + 1)) else None
    else None
  }

  function NoCallAfter(ts: seq<Token>, p: Parsed): Option<Parsed> {
    if p.next < |ts| && ts[p.next].LeftParen? then None else Some(p)
  }

  // ---------------------------------------------------------------------------------------------
  // The printer: only the parentheses that precedence and associativity require.

  predicate WellFormed(g: Syntax, e: Expr) {
    match e
    case Atom(_) => true
    case Unary(op, operand) => g.unary(op) && WellFormed(g, operand)
    case Binary(_, left, right) => WellFormed(g, left) && WellFormed(g, right)
    case Assign(target, value) => WellFormed(g, target) && WellFormed(g, value)
  }

  /** As left operand of op, e would swallow op or be an assignment. */
  predicate LeftNeedsParens(g: Syntax, op: string, e: Expr) {
    e.Assign? || (e.Binary? && g.precedence(op) >= RightMinimum(g, e.op))
  }

  /** As right operand of op, e binds too weakly. */
  predicate RightNeedsParens(g: Syntax, op: string, e: Expr) {
    e.Assign? || (e.Binary? && g.precedence(e.op) < RightMinimum(g, op))
  }

  predicate OperandNeedsParens(e: Expr) {
    e.Assign? || e.Binary?
  }

  function Enclose(parens: bool, ts: seq<Token>): seq<Token> {
    if parens then [LeftParen] + ts + [RightParen] else ts
  }

  function Print(g: Syntax, e: Expr): seq<Token> {
    match e
    case Atom(text) => [Operand(text)]
    case Unary(op, operand) => [Operator(op)] + Enclose(OperandNeedsParens(operand), Print(g, operand))
    case Binary(op, left, right) =>
      Enclose(LeftNeedsParens(g, op, left), Print(g, left)) + [Operator(op)]
      + Enclose(RightNeedsParens(g, op, right), Print(g, right))
    case Assign(target, value) =>
      Enclose(target.Assign?, Print(g, target)) + [Equals] + Print(g, value)
  }
}
