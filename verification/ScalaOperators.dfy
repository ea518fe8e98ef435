/** The operators of the compiler's own table, from loosest to tightest, and how they group. */
module ScalaOperators {
  import opened Basics
  import opened Precedence
  import opened PrecedenceRoundTrip
  import opened WrittenForms

  /** Each level binds tighter than the one before; operators that are not listed stand on the fourth. */
  const LEVELS: seq<set<string>> :=
    [{"||"}, {"&&"}, {"==", "!=", "<", ">", "<=", ">="}, {}, {"+", "-", "++"}, {"*", "/", "%"}]

  predicate IsAt(op: string, level: nat) {
    level < |LEVELS| && if level == 3 then forall k :: 0 <= k < |LEVELS| ==> op !in LEVELS[k] else op in LEVELS[level]
  }

  lemma LevelOf(op: string) returns (level: nat)
    ensures IsAt(op, level)
  {
    level := if op in LEVELS[0] then 0 else if op in LEVELS[1] then 1 else if op in LEVELS[2] then 2
             else if op in LEVELS[4] then 4 else if op in LEVELS[5] then 5 else 3;
  }

  lemma LevelsOrder(op: string, level: nat, other: string, otherLevel: nat)
    requires IsAt(op, level) && IsAt(other, otherLevel)
    ensures OperatorPrecedence(op) < OperatorPrecedence(other) <==> level < otherLevel
    ensures OperatorPrecedence(op) == OperatorPrecedence(other) <==> level == otherLevel
  {
    PrecedenceAtLevel(op, level);
    PrecedenceAtLevel(other, otherLevel);
  }

  lemma PrecedenceAtLevel(op: string, level: nat)
    requires IsAt(op, level)
    ensures OperatorPrecedence(op) == level + 2
  {
    assert LEVELS[0] == {"||"} && LEVELS[1] == {"&&"} && LEVELS[2] == {"==", "!=", "<", ">", "<=", ">="};
    assert LEVELS[4] == {"+", "-", "++"} && LEVELS[5] == {"*", "/", "%"};
  }

  function Grouped(toRight: bool, first: string, second: string, a: string, b: string, c: string): Expr {
    if toRight then Binary(first, Atom(a), Binary(second, Atom(b), Atom(c)))
    else Binary(second, Binary(first, Atom(a), Atom(b)), Atom(c))
  }

  /** The same for any table. */
  lemma TighterOperatorGroups(g: Syntax, first: string, second: string, a: string, b: string, c: string)
    ensures ParseAssignment(g, ThreeOperands(first, second, a, b, c), 0) ==
            Some(Parsed(Grouped(g.precedence(second) >= RightMinimum(g, first), first, second, a, b, c), 5))
  {
    var toRight := g.precedence(second) >= RightMinimum(g, first);
    var tree := Grouped(toRight, first, second, a, b, c);
    ParseInvertsPrint(g, tree);
    assert forall t :: Print(g, Atom(t)) == [Operand(t)];
    if toRight {
      assert Print(g, Binary(second, Atom(b), Atom(c))) == [Operand(b), Operator(second), Operand(c)];
    } else {
      assert Print(g, Binary(first, Atom(a), Atom(b))) == [Operand(a), Operator(first), Operand(b)];
    }
    assert Print(g, tree) == ThreeOperands(first, second, a, b, c);
  }

  /** Of two operators the one on the higher level binds tighter; on one level the first decides, which groups to the
      right if it ends with a colon. */
  lemma TwoOperatorsGroup(first: string, second: string, a: string, b: string, c: string, level: nat, other: nat)
    requires IsAt(first, level) && IsAt(second, other)
    ensures ParseAssignment(ScalaSyntax(), ThreeOperands(first, second, a, b, c), 0) ==
            Some(Parsed(Grouped(other > level || (other == level && first != "" && first[|first| - 1] == ':'),
                                first, second, a, b, c), 5))
  {
    LevelsOrder(first, level, second, other);
    TighterOperatorGroups(ScalaSyntax(), first, second, a, b, c);
  }

  /** The prefix operators are !, + and -. */
  lemma PrefixOperatorsAre(op: string, a: string)
    ensures ParseAssignment(ScalaSyntax(), [Operator(op), Operand(a)], 0) ==
            if op in {"!", "+", "-"} then Some(Parsed(Unary(op, Atom(a)), 2)) else None
  {
    var ts, g := [Operator(op), Operand(a)], ScalaSyntax();
    if op in {"!", "+", "-"} {
      ExpressionIsRead(g, ts, 0, Prefixed(op, Word(a)));
    } else {
      assert ParseUnary(g, ts, 0).None?;
    }
  }
}
