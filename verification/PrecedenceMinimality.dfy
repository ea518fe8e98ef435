/** The printed form of an expression has the fewest parentheses with which it can be written. */
module PrecedenceMinimality {
  import opened Basics
  import opened Precedence
  import opened PrecedenceRoundTrip

  // ---------------------------------------------------------------------------------------------
  // Counting opening parentheses.

  function Cost(needed: bool): nat {
    if needed then 1 else 0
  }

  function Opened(ts: seq<Token>): nat {
    if ts == [] then 0 else Opened(ts[..|ts| - 1]) + Cost(ts[|ts| - 1].LeftParen?)
  }

  lemma {:induction false} OpenedConcat(a: seq<Token>, b: seq<Token>)
    ensures Opened(a + b) == Opened(a) + Opened(b)
    decreases |b|
  {
    if b == [] {
      assert a + b == a;
    } else {
      OpenedConcat(a, b[..|b| - 1]);
      assert (a + b)[..|a + b| - 1] == a + b[..|b| - 1];
    }
  }

  lemma OpenedSplit(ts: seq<Token>, i: nat, j: nat, k: nat)
    requires i <= j <= k <= |ts|
    ensures Opened(ts[i..k]) == Opened(ts[i..j]) + Opened(ts[j..k])
  {
    assert ts[i..k] == ts[i..j] + ts[j..k];
    OpenedConcat(ts[i..j], ts[j..k]);
  }

  lemma OpenedFirst(ts: seq<Token>, i: nat, j: nat)
    requires i < j <= |ts|
    ensures Opened(ts[i..j]) == Cost(ts[i].LeftParen?) + Opened(ts[i + 1..j])
  {
    OpenedSplit(ts, i, i + 1, j);
    assert ts[i..i + 1] == [ts[i]];
    assert Opened([ts[i]]) == Cost(ts[i].LeftParen?);
  }

  /** The parentheses that printing puts into an expression. */
  function Pairs(g: Syntax, e: Expr): nat {
    match e
    case Atom(_) => 0
    case Unary(_, operand) => Cost(OperandNeedsParens(operand)) + Pairs(g, operand)
    case Binary(op, left, right) =>
      Cost(LeftNeedsParens(g, op, left)) + Pairs(g, left) + Cost(RightNeedsParens(g, op, right)) + Pairs(g, right)
    case Assign(target, value) => Cost(target.Assign?) + Pairs(g, target) + Pairs(g, value)
  }

  lemma OpenedEnclosed(parens: bool, ts: seq<Token>)
    ensures Opened(Enclose(parens, ts)) == Cost(parens) + Opened(ts)
  {
    if parens {
      OpenedConcat([LeftParen] + ts, [RightParen]);
      OpenedConcat([LeftParen], ts);
    }
  }

  lemma OpenedAround(a: seq<Token>, t: Token, b: seq<Token>)
    requires !t.LeftParen?
    ensures Opened(a + [t] + b) == Opened(a) + Opened(b)
  {
    OpenedConcat(a + [t], b);
    OpenedConcat(a, [t]);
    assert Opened([t]) == 0;
  }

  lemma {:induction false} PrintedPairs(g: Syntax, e: Expr)
    ensures Opened(Print(g, e)) == Pairs(g, e)
  {
    match e
    case Atom(text) => assert Opened([Operand(text)]) == 0;
    case Unary(op, operand) =>
      PrintedPairs(g, operand);
      OpenedEnclosed(OperandNeedsParens(operand), Print(g, operand));
      OpenedConcat([Operator(op)], Enclose(OperandNeedsParens(operand), Print(g, operand)));
      assert Opened([Operator(op)]) == 0;
    case Binary(op, left, right) =>
      PrintedPairs(g, left);
      PrintedPairs(g, right);
      OpenedEnclosed(LeftNeedsParens(g, op, left), Print(g, left));
      OpenedEnclosed(RightNeedsParens(g, op, right), Print(g, right));
      OpenedAround(Text(g, left, LeftNeedsParens(g, op, left)), Operator(op),
                   Text(g, right, RightNeedsParens(g, op, right)));
    case Assign(target, value) =>
      PrintedPairs(g, target);
      PrintedPairs(g, value);
      OpenedEnclosed(target.Assign?, Print(g, target));
      OpenedAround(Text(g, target, target.Assign?), Equals, Print(g, value));
  }

  // ---------------------------------------------------------------------------------------------
  // What the parser has read holds at least those parentheses.

  /** The text from i to j pays for e, and for a pair around e unless e binds tightly enough on both sides. */
  predicate Paid(g: Syntax, ts: seq<Token>, i: nat, minimum: nat, e: Expr, j: nat)
    requires i <= j <= |ts|
  {
    var paid := Opened(ts[i..j]);
    paid >= Pairs(g, e) + Cost(e.Assign?) &&
    (e.Binary? ==>
       paid > Pairs(g, e) || (g.precedence(e.op) >= minimum && PrecedenceAt(g, ts, j) < RightMinimum(g, e.op)))
  }

  lemma {:induction false} UnaryPays(g: Syntax, ts: seq<Token>, i: nat)
    requires i <= |ts| && ParseUnary(g, ts, i).Some?
    ensures var p := ParseUnary(g, ts, i).value;
            Opened(ts[i..p.next]) >= Pairs(g, p.expr) + Cost(OperandNeedsParens(p.expr))
    decreases |ts| - i, 1
  {
    var p := ParseUnary(g, ts, i).value;
    OpenedFirst(ts, i, p.next);
    if ts[i].Operator? && g.unary(ts[i].text) {
      UnaryPays(g, ts, i + 1);
    } else if ts[i].LeftParen? {
      var start := SkipSeparators(ts, i + 1);
      AssignmentPays(g, ts, start);
      OpenedSplit(ts, i + 1, start, p.next);
      OpenedSplit(ts, start, ParseAssignment(g, ts, start).value.next, p.next);
    }
  }

  lemma {:induction false} ClimbPays(g: Syntax, ts: seq<Token>, start: nat, i: nat, minimum: nat, left: Expr)
    requires start <= i <= |ts| && ClimbFrom(g, ts, i, minimum, left).Some? && Paid(g, ts, start, minimum, left, i)
    ensures var p := ClimbFrom(g, ts, i, minimum, left).value;
            Paid(g, ts, start, minimum, p.expr, p.next) && PrecedenceAt(g, ts, p.next) < minimum
    decreases |ts| - i, 1
  {
    if PrecedenceAt(g, ts, i) < minimum {
    } else {
      var op := ts[i].text;
      var right := ParseBinary(g, ts, i + 1, RightMinimum(g, op)).value;
      BinaryPays(g, ts, i + 1, RightMinimum(g, op));
      TurnPays(g, ts, start, i, minimum, left, right);
      ClimbPays(g, ts, start, right.next, minimum, Binary(op, left, right.expr));
    }
  }

  /** One turn of the loop: the parentheses of both operands are paid for. */
  lemma TurnPays(g: Syntax, ts: seq<Token>, start: nat, i: nat, minimum: nat, left: Expr, right: Parsed)
    requires start <= i < right.next <= |ts| && ts[i].Operator? && PrecedenceAt(g, ts, i) >= minimum
    requires var m := RightMinimum(g, ts[i].text);
             Paid(g, ts, start, minimum, left, i) && Paid(g, ts, i + 1, m, right.expr, right.next) &&
             PrecedenceAt(g, ts, right.next) < m
    ensures Paid(g, ts, start, minimum, Binary(ts[i].text, left, right.expr), right.next)
  {
    OpenedSplit(ts, start, i, right.next);
    OpenedFirst(ts, i, right.next);
  }

  lemma {:induction false} BinaryPays(g: Syntax, ts: seq<Token>, i: nat, minimum: nat)
    requires i <= |ts| && ParseBinary(g, ts, i, minimum).Some?
    ensures var p := ParseBinary(g, ts, i, minimum).value;
            Paid(g, ts, i, minimum, p.expr, p.next) && PrecedenceAt(g, ts, p.next) < minimum
    decreases |ts| - i, 2
  {
    UnaryPays(g, ts, i);
    var left := ParseUnary(g, ts, i).value;
    ClimbPays(g, ts, i, left.next, minimum, left.expr);
  }

  lemma {:induction false} AssignmentPays(g: Syntax, ts: seq<Token>, i: nat)
    requires i <= |ts| && ParseAssignment(g, ts, i).Some?
    ensures var p := ParseAssignment(g, ts, i).value; Opened(ts[i..p.next]) >= Pairs(g, p.expr)
    decreases |ts| - i, 3
  {
    BinaryPays(g, ts, i, 0);
    var left := ParseBinary(g, ts, i, 0).value;
    if left.next < |ts| && ts[left.next].Equals? {
      AssignmentPays(g, ts, left.next + 1);
      var right := ParseAssignment(g, ts, left.next + 1).value;
      OpenedSplit(ts, i, left.next, right.next);
      OpenedFirst(ts, left.next, right.next);
      assert ParseAssignment(g, ts, i) == Some(Parsed(Assign(left.expr, right.expr), right.next));
    }
  }

  // ---------------------------------------------------------------------------------------------
  // Minimality.

  /** No text that is parsed as e has fewer opening parentheses than e's printed form. */
  lemma PrintIsMinimal(g: Syntax, ts: seq<Token>, e: Expr)
    requires ParseAssignment(g, ts, 0) == Some(Parsed(e, |ts|))
    ensures Opened(Print(g, e)) <= Opened(ts)
  {
    AssignmentPays(g, ts, 0);
    assert ts[0..|ts|] == ts;
    PrintedPairs(g, e);
  }

  function WithoutPair(ts: seq<Token>, i: nat, j: nat): seq<Token>
    requires i < j < |ts|
  {
    ts[..i] + ts[i + 1..j] + ts[j + 1..]
  }

  /** Every printed pair is needed: without it the text is no longer parsed as the expression. */
  lemma EveryPairIsNeeded(g: Syntax, e: Expr, i: nat, j: nat)
    requires i < j < |Print(g, e)| && Print(g, e)[i].LeftParen? && Print(g, e)[j].RightParen?
    ensures var ts := WithoutPair(Print(g, e), i, j); ParseAssignment(g, ts, 0) != Some(Parsed(e, |ts|))
  {
    var p := Print(g, e);
    var ts := WithoutPair(p, i, j);
    OpenedSplit(p, 0, i, |p|);
    OpenedFirst(p, i, |p|);
    OpenedSplit(p, i + 1, j, |p|);
    OpenedFirst(p, j, |p|);
    assert p[0..|p|] == p && p[0..i] == p[..i] && p[j + 1..|p|] == p[j + 1..];
    OpenedConcat(p[..i] + p[i + 1..j], p[j + 1..]);
    OpenedConcat(p[..i], p[i + 1..j]);
    if ParseAssignment(g, ts, 0) == Some(Parsed(e, |ts|)) {
      PrintIsMinimal(g, ts, e);
    }
  }
}
