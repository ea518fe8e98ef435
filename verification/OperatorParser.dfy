/** The expression parser of frontend/src/Parser.cpp with its current position. */
module OperatorParser {
  import opened Basics
  import opened Precedence

  class Parser {
    const tokens: seq<Token>
    var current: nat

    constructor (tokens: seq<Token>)
      ensures this.tokens == tokens && current == 0
    {
      this.tokens := tokens;
      current := 0;
    }

    ghost predicate Valid()
      reads this
    {
      current <= |tokens|
    }

    /** The method read what the function reads at the same position, or reported an error when it does. */
    ghost predicate Read(expected: Option<Parsed>, result: Option<Expr>)
      reads this
    {
      match expected
      case None => result.None?
      case Some(p) => result == Some(p.expr) && current == p.next
    }

    method ConsumeSeparators()
      requires Valid()
      modifies this
      ensures current == SkipSeparators(tokens, old(current))
    {
      while current < |tokens| && tokens[current].Semicolon?
        invariant Valid() && SkipSeparators(tokens, current) == SkipSeparators(tokens, old(current))
        decreases |tokens| - current
      {
        current := current + 1;
      }
    }

    method ParseAssignmentExpression() returns (e: Option<Expr>)
      requires Valid()
      modifies this
      ensures Valid() && Read(ParseAssignment(ScalaSyntax(), tokens, old(current)), e)
      decreases |tokens| - current, 3
    {
      var left := ParseBinaryExpression(0);
      if left.None? || current == |tokens| || !tokens[current].Equals? {
        return left;
      }
      current := current + 1;
      if current < |tokens| && tokens[current].Equals? {
        return None;
      }
      var right := ParseAssignmentExpression();
      if right.None? {
        return None;
      }
      return Some(Assign(left.value, right.value));
    }

    method ParseBinaryExpression(minPrecedence: nat) returns (e: Option<Expr>)
      requires Valid()
      modifies this
      ensures Valid() && Read(ParseBinary(ScalaSyntax(), tokens, old(current), minPrecedence), e)
      decreases |tokens| - current, 2
    {
      var left := ParseUnaryExpression();
      if left.None? {
        return None;
      }
      var result := left.value;
      ghost var expected := ParseBinary(ScalaSyntax(), tokens, old(current), minPrecedence);
      while current < |tokens|
        invariant Valid() && current > old(current)
        invariant ClimbFrom(ScalaSyntax(), tokens, current, minPrecedence, result) == expected
        decreases |tokens| - current
      {
        var currentPrecedence := PrecedenceAt(ScalaSyntax(), tokens, current);
        if currentPrecedence < minPrecedence {
          break;
        }
        var op := tokens[current].text;
        current := current + 1;
        var rightAssociative := op != "" && op[|op| - 1] == ':';
        var right := ParseBinaryExpression(currentPrecedence + (if rightAssociative then 0 else 1));
        if right.None? {
          return None;
        }
        result := Binary(op, result, right.value);
      }
      return Some(result);
    }

    method ParseUnaryExpression() returns (e: Option<Expr>)
      requires Valid()
      modifies this
      ensures Valid() && Read(ParseUnary(ScalaSyntax(), tokens, old(current)), e)
      decreases |tokens| - current, 1
    {
      if current < |tokens| && tokens[current].Operator? && IsUnaryOperator(tokens[current].text) {
        var op := tokens[current].text;
        current := current + 1;
        var operand := ParseUnaryExpression();
        if operand.None? {
          return None;
        }
        return Some(Unary(op, operand.value));
      }
      e := ParsePrimaryExpression();
    }

    method ParsePrimaryExpression() returns (e: Option<Expr>)
      requires Valid()
      modifies this
      ensures Valid() && Read(ParsePrimary(ScalaSyntax(), tokens, old(current)), e)
      decreases |tokens| - current, 0
    {
      if current == |tokens| {
        return None;
      }
      if tokens[current].Operand? {
        e := Some(Atom(tokens[current].text));
        current := current + 1;
      } else if tokens[current].LeftParen? {
        current := current + 1;
        ConsumeSeparators();
        e := ParseAssignmentExpression();
        if e.None? {
          return;
        }
        ConsumeSeparators();
        if current == |tokens| || !tokens[current].RightParen? {
          return None;
        }
        current := current + 1;
      } else {
        return None;
      }
      if current < |tokens| && tokens[current].LeftParen? {
        return None;
      }
    }
  }
}
