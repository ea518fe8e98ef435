/** Parsing inverts printing, and printing inverts the parsing of parenthesis-free operator strings. */
module PrecedenceRoundTrip {
  import opened Basics
  import opened Precedence

  /** The end of the printed form of e (in parentheses if asked) when it stands in ts from position i on. */
  function Spelled(g: Syntax, ts: seq<Token>, i: nat, e: Expr, parens: bool): (r: Option<nat>)
    ensures r.Some? ==> i < r.value <= |ts|
    decreases e, parens
  {
    if parens then
      if i < |ts| && ts[i].LeftParen? then ThenToken(ts, Spelled(g, ts, i + 1, e, false), RightParen) else None
    else
      match e
      case Atom(text) => if i < |ts| && ts[i] == Operand(text) then Some(i + 1) else None
      case Unary(op, operand) =>
        if i < |ts| && ts[i] == Operator(op) then Spelled(g, ts, i + 1, operand, OperandNeedsParens(operand)) else None
      case Binary(op, left, right) =>
        (match ThenToken(ts, Spelled(g, ts, i, left, LeftNeedsParens(g, op, left)), Operator(op))
         case None => None
         case Some(k) => Spelled(g, ts, k, right, RightNeedsParens(g, op, right)))
      case Assign(target, value) =>
        (match ThenToken(ts, Spelled(g, ts, i, target, target.Assign?), Equals)
         case None => None
         case Some(k) => Spelled(g, ts, k, value, false))
  }

  /** The position after one more expected token. */
  function ThenToken(ts: seq<Token>, at: Option<nat>, t: Token): Option<nat> {
    if at.Some? && at.value < |ts| && ts[at.value] == t then Some(at.value + 1) else None
  }

  /** The end of s when its tokens stand in ts from position i on. */
  function EndAt(ts: seq<Token>, i: nat, s: seq<Token>): Option<nat> {
    if i + |s| <= |ts| && ts[i..i + |s|] == s then Some(i + |s|) else None
  }

  lemma EndAtConcat(ts: seq<Token>, i: nat, a: seq<Token>, b: seq<Token>)
    ensures EndAt(ts, i, a + b) == match EndAt(ts, i, a) case None => None case Some(k) => EndAt(ts, k, b)
  {
    if i + |a| + |b| <= |ts| {
      var whole := ts[i..i + |a + b|];
      assert whole[..|a|] == ts[i..i + |a|] && whole[|a|..] == ts[i + |a|..i + |a| + |b|];
      assert (a + b)[..|a|] == a && (a + b)[|a|..] == b;
      assert whole == whole[..|a|] + whole[|a|..];
    }
  }

  lemma EndAtOne(ts: seq<Token>, i: nat, t: Token)
    ensures EndAt(ts, i, [t]) == if i < |ts| && ts[i] == t then Some(i + 1) else None
  {
    if i < |ts| {
      assert ts[i..i + 1] == [ts[i]];
    }
  }

  lemma EndAtThen(ts: seq<Token>, i: nat, a: seq<Token>, t: Token)
    ensures EndAt(ts, i, a + [t]) == ThenToken(ts, EndAt(ts, i, a), t)
  {
    EndAtConcat(ts, i, a, [t]);
    EndAtOne(ts, i + |a|, t);
  }

  lemma EndAtAround(ts: seq<Token>, i: nat, a: seq<Token>, t: Token, b: seq<Token>)
    ensures EndAt(ts, i, a + [t] + b) ==
            match ThenToken(ts, EndAt(ts, i, a), t) case None => None case Some(k) => EndAt(ts, k, b)
  {
    EndAtConcat(ts, i, a + [t], b);
    EndAtThen(ts, i, a, t);
  }

  lemma EndAtPrefixed(ts: seq<Token>, i: nat, t: Token, b: seq<Token>)
    ensures EndAt(ts, i, [t] + b) == if i < |ts| && ts[i] == t then EndAt(ts, i + 1, b) else None
  {
    EndAtConcat(ts, i, [t], b);
    EndAtOne(ts, i, t);
  }

  lemma EndAtEnclosed(ts: seq<Token>, i: nat, body: seq<Token>)
    ensures EndAt(ts, i, Enclose(true, body)) ==
            if i < |ts| && ts[i].LeftParen? then ThenToken(ts, EndAt(ts, i + 1, body), RightParen) else None
  {
    assert Enclose(true, body) == [LeftParen] + (body + [RightParen]);
    EndAtPrefixed(ts, i, LeftParen, body + [RightParen]);
    EndAtThen(ts, i + 1, body, RightParen);
  }

  function Text(g: Syntax, e: Expr, parens: bool): seq<Token> {
    Enclose(parens, Print(g, e))
  }

  /** Spelling compares a tree with the tokens that printing it gives. */
  lemma {:induction false} SpelledIsPrinted(g: Syntax, ts: seq<Token>, i: nat, e: Expr, parens: bool)
    ensures Spelled(g, ts, i, e, parens) == EndAt(ts, i, Text(g, e, parens))
    decreases e, parens, 1
  {
    if parens {
      SpelledIsPrinted(g, ts, i + 1, e, false);
      EndAtEnclosed(ts, i, Print(g, e));
    } else {
      match e
      case Atom(text) =>
        EndAtOne(ts, i, Operand(text));
      case Unary(op, operand) =>
        SpelledIsPrinted(g, ts, i + 1, operand, OperandNeedsParens(operand));
        EndAtPrefixed(ts, i, Operator(op), Text(g, operand, OperandNeedsParens(operand)));
      case Binary(op, left, right) =>
        SpelledAround(g, ts, i, left, LeftNeedsParens(g, op, left), Operator(op), right, RightNeedsParens(g, op, right),
                      e);
      case Assign(target, value) =>
        SpelledAround(g, ts, i, target, target.Assign?, Equals, value, false, e);
    }
  }

  lemma {:induction false} SpelledAround(g: Syntax, ts: seq<Token>, i: nat, left: Expr, l: bool, middle: Token,
                                         right: Expr, r: bool,
                      whole: Expr)
    requires left < whole && right < whole
    ensures EndAt(ts, i, Text(g, left, l) + [middle] + Text(g, right, r)) ==
            match ThenToken(ts, Spelled(g, ts, i, left, l), middle)
            case None => None
            case Some(k) => Spelled(g, ts, k, right, r)
    decreases whole, false, 0
  {
    SpelledIsPrinted(g, ts, i, left, l);
    EndAtAround(ts, i, Text(g, left, l), middle, Text(g, right, r));
    match ThenToken(ts, Spelled(g, ts, i, left, l), middle)
    case None =>
    case Some(k) => SpelledIsPrinted(g, ts, k, right, r);
  }

  /** What may follow an operand printed with or without parentheses. */
  predicate StopsAfter(g: Syntax, ts: seq<Token>, j: nat, e: Expr, parens: bool) {
    && j <= |ts| && (j < |ts| ==> !ts[j].LeftParen?)
    && (!parens && e.Binary? ==> PrecedenceAt(g, ts, j) < RightMinimum(g, e.op))
  }

  /** What follows does not continue an expression. */
  predicate Stops(ts: seq<Token>, j: nat) {
    j <= |ts| && (j < |ts| ==> !ts[j].Operator? && !ts[j].Equals? && !ts[j].LeftParen?)
  }

  lemma {:induction false} SpelledStarts(g: Syntax, ts: seq<Token>, i: nat, e: Expr, parens: bool)
    requires Spelled(g, ts, i, e, parens).Some?
    ensures i < |ts| && !ts[i].Equals? && !ts[i].Semicolon?
    decreases e, parens
  {
    if parens {
    } else {
      match e
      case Atom(_) =>
      case Unary(_, _) =>
      case Binary(op, left, _) => SpelledStarts(g, ts, i, left, LeftNeedsParens(g, op, left));
      case Assign(target, _) => SpelledStarts(g, ts, i, target, target.Assign?);
    }
  }

  // ---------------------------------------------------------------------------------------------
  // parse(print(e)) == e

  /** A parenthesized or tight operand is read back by the unary parser. */
  lemma {:induction false} UnaryReadsBack(g: Syntax, ts: seq<Token>, i: nat, e: Expr, parens: bool, j: nat)
    requires WellFormed(g, e) && (OperandNeedsParens(e) ==> parens)
    requires Spelled(g, ts, i, e, parens) == Some(j) && StopsAfter(g, ts, j, e, true)
    ensures ParseUnary(g, ts, i) == Some(Parsed(e, j))
    decreases e, if parens then 3 else 0
  {
    if parens {
      SpelledStarts(g, ts, i + 1, e, false);
      AssignmentReadsBack(g, ts, i + 1, e, j - 1);
    } else if e.Unary? {
      UnaryReadsBack(g, ts, i + 1, e.operand, OperandNeedsParens(e.operand), j);
    }
  }

  /** One turn of the climbing loop. */
  lemma ClimbTurn(g: Syntax, ts: seq<Token>, k: nat, minimum: nat, op: string, left: Expr, right: Expr, j: nat)
    requires k < j <= |ts| && ts[k] == Operator(op) && g.precedence(op) >= minimum
    requires ParseBinary(g, ts, k + 1, RightMinimum(g, op)) == ClimbFrom(g, ts, j, RightMinimum(g, op), right)
    requires PrecedenceAt(g, ts, j) < RightMinimum(g, op)
    ensures ClimbFrom(g, ts, k, minimum, left) == ClimbFrom(g, ts, j, minimum, Binary(op, left, right))
  {
    assert ClimbFrom(g, ts, j, RightMinimum(g, op), right) == Some(Parsed(right, j));
  }

  /** Reading a printed expression reaches the climbing loop with exactly that expression as left operand. */
  lemma {:induction false} BinaryReachesLoop(g: Syntax, ts: seq<Token>, i: nat, e: Expr, parens: bool, minimum: nat,
                                             j: nat)
    requires WellFormed(g, e)
    requires !parens ==> !e.Assign? && (e.Binary? ==> g.precedence(e.op) >= minimum)
    requires Spelled(g, ts, i, e, parens) == Some(j) && StopsAfter(g, ts, j, e, parens)
    ensures ParseBinary(g, ts, i, minimum) == ClimbFrom(g, ts, j, minimum, e)
    decreases e, if parens then 4 else 1
  {
    if parens || !e.Binary? {
      UnaryReadsBack(g, ts, i, e, parens, j);
    } else {
      var op, left, right := e.op, e.left, e.right;
      var k := Spelled(g, ts, i, left, LeftNeedsParens(g, op, left)).value;
      BinaryReachesLoop(g, ts, i, left, LeftNeedsParens(g, op, left), minimum, k);
      BinaryReachesLoop(g, ts, k + 1, right, RightNeedsParens(g, op, right), RightMinimum(g, op), j);
      ClimbTurn(g, ts, k, minimum, op, left, right, j);
    }
  }

  lemma {:induction false} AssignmentReadsBack(g: Syntax, ts: seq<Token>, i: nat, e: Expr, j: nat)
    requires WellFormed(g, e) && Spelled(g, ts, i, e, false) == Some(j) && Stops(ts, j)
    ensures ParseAssignment(g, ts, i) == Some(Parsed(e, j))
    decreases e, 2
  {
    if e.Assign? {
      var k := Spelled(g, ts, i, e.target, e.target.Assign?).value;
      BinaryReachesLoop(g, ts, i, e.target, e.target.Assign?, 0, k);
      SpelledStarts(g, ts, k + 1, e.value, false);
      AssignmentReadsBack(g, ts, k + 1, e.value, j);
    } else {
      BinaryReachesLoop(g, ts, i, e, false, 0, j);
    }
  }

  /** Printing with minimal parentheses and parsing gives the tree back, for any table of precedences. */
  lemma ParseInvertsPrint(g: Syntax, e: Expr)
    requires WellFormed(g, e)
    ensures ParseAssignment(g, Print(g, e), 0) == Some(Parsed(e, |Print(g, e)|))
  {
    SpelledIsPrinted(g, Print(g, e), 0, e, false);
    AssignmentReadsBack(g, Print(g, e), 0, e, |Print(g, e)|);
  }

  // ---------------------------------------------------------------------------------------------
  // print(parse(ts)) == ts on text without parentheses

  predicate NoParens(ts: seq<Token>) {
    forall i :: 0 <= i < |ts| ==> !ts[i].LeftParen?
  }

  /** e is what stands between i and j, binds at least as tightly as the minimum, and cannot take in what follows. */
  predicate ReadsAs(g: Syntax, ts: seq<Token>, i: nat, minimum: nat, e: Expr, j: nat) {
    && WellFormed(g, e) && !e.Assign?
    && Spelled(g, ts, i, e, false) == Some(j)
    && (e.Binary? ==> g.precedence(e.op) >= minimum && PrecedenceAt(g, ts, j) < RightMinimum(g, e.op))
  }

  lemma {:induction false} UnaryIsSpelled(g: Syntax, ts: seq<Token>, i: nat)
    requires i <= |ts| && NoParens(ts) && ParseUnary(g, ts, i).Some?
    ensures var p := ParseUnary(g, ts, i).value;
      !p.expr.Binary? && ReadsAs(g, ts, i, 0, p.expr, p.next)
    decreases |ts| - i, 0
  {
    if ts[i].Operator? && g.unary(ts[i].text) {
      UnaryIsSpelled(g, ts, i + 1);
    }
  }

  lemma {:induction false} ClimbIsSpelled(g: Syntax, ts: seq<Token>, start: nat, i: nat, minimum: nat, left: Expr)
    requires i <= |ts| && NoParens(ts) && ClimbFrom(g, ts, i, minimum, left).Some?
    requires ReadsAs(g, ts, start, minimum, left, i)
    ensures var p := ClimbFrom(g, ts, i, minimum, left).value;
      ReadsAs(g, ts, start, minimum, p.expr, p.next) && PrecedenceAt(g, ts, p.next) < minimum
    decreases |ts| - i, 1
  {
    if PrecedenceAt(g, ts, i) < minimum {
    } else {
      var op := ts[i].text;
      var right := ParseBinary(g, ts, i + 1, RightMinimum(g, op)).value;
      BinaryIsSpelled(g, ts, i + 1, RightMinimum(g, op));
      ClimbIsSpelled(g, ts, start, right.next, minimum, Binary(op, left, right.expr));
    }
  }

  lemma {:induction false} BinaryIsSpelled(g: Syntax, ts: seq<Token>, i: nat, minimum: nat)
    requires i <= |ts| && NoParens(ts) && ParseBinary(g, ts, i, minimum).Some?
    ensures var p := ParseBinary(g, ts, i, minimum).value;
      ReadsAs(g, ts, i, minimum, p.expr, p.next) && PrecedenceAt(g, ts, p.next) < minimum
    decreases |ts| - i, 2
  {
    UnaryIsSpelled(g, ts, i);
    var left := ParseUnary(g, ts, i).value;
    ClimbIsSpelled(g, ts, i, left.next, minimum, left.expr);
  }

  lemma {:induction false} AssignmentIsSpelled(g: Syntax, ts: seq<Token>, i: nat)
    requires i <= |ts| && NoParens(ts) && ParseAssignment(g, ts, i).Some?
    ensures var p := ParseAssignment(g, ts, i).value;
      WellFormed(g, p.expr) && Spelled(g, ts, i, p.expr, false) == Some(p.next)
    decreases |ts| - i
  {
    BinaryIsSpelled(g, ts, i, 0);
    var left := ParseBinary(g, ts, i, 0).value;
    if left.next < |ts| && ts[left.next].Equals? {
      AssignmentIsSpelled(g, ts, left.next + 1);
    }
  }

  /** On text without parentheses the parser returns a tree exactly when printing that tree gives the text:
      no token is lost, and no other tree meets the precedence and associativity constraints. */
  lemma ParseIffPrints(g: Syntax, ts: seq<Token>, e: Expr)
    requires NoParens(ts)
    ensures ParseAssignment(g, ts, 0) == Some(Parsed(e, |ts|)) <==> WellFormed(g, e) && Print(g, e) == ts
  {
    if ParseAssignment(g, ts, 0) == Some(Parsed(e, |ts|)) {
      AssignmentIsSpelled(g, ts, 0);
      SpelledIsPrinted(g, ts, 0, e, false);
      assert ts[0..|ts|] == ts;
    }
    if WellFormed(g, e) && Print(g, e) == ts {
      ParseInvertsPrint(g, e);
    }
  }

  // ---------------------------------------------------------------------------------------------
  // Every operator string is parsed to its end.

  /** From i on: operands, each after any number of unary operators, separated by single operators, to the end. */
  predicate OperatorString(g: Syntax, ts: seq<Token>, i: nat)
    decreases |ts| - i
  {
    i < |ts| &&
    if ts[i].Operand? then
      i + 1 == |ts| || (ts[i + 1].Operator? && i + 2 <= |ts| && OperatorString(g, ts, i + 2))
    else ts[i].Operator? && g.unary(ts[i].text) && OperatorString(g, ts, i + 1)
  }

  /** The text after position j still has the shape of an operator string with its next operand missing. */
  predicate Continues(g: Syntax, ts: seq<Token>, j: nat) {
    j == |ts| || (j < |ts| && ts[j].Operator? && OperatorString(g, ts, j + 1))
  }

  lemma {:induction false} UnaryParses(g: Syntax, ts: seq<Token>, i: nat)
    requires OperatorString(g, ts, i)
    ensures ParseUnary(g, ts, i).Some? && Continues(g, ts, ParseUnary(g, ts, i).value.next)
    decreases |ts| - i
  {
    if ts[i].Operand? {
    } else {
      UnaryParses(g, ts, i + 1);
    }
  }

  lemma {:induction false} ClimbParses(g: Syntax, ts: seq<Token>, i: nat, minimum: nat, left: Expr)
    requires i <= |ts| && Continues(g, ts, i)
    ensures ClimbFrom(g, ts, i, minimum, left).Some? && Continues(g, ts, ClimbFrom(g, ts, i, minimum, left).value.next)
    ensures minimum == 0 ==> ClimbFrom(g, ts, i, minimum, left).value.next == |ts|
    decreases |ts| - i, 1
  {
    if PrecedenceAt(g, ts, i) < minimum {
    } else {
      var op := ts[i].text;
      BinaryParses(g, ts, i + 1, RightMinimum(g, op));
      var right := ParseBinary(g, ts, i + 1, RightMinimum(g, op)).value;
      ClimbParses(g, ts, right.next, minimum, Binary(op, left, right.expr));
    }
  }

  lemma {:induction false} BinaryParses(g: Syntax, ts: seq<Token>, i: nat, minimum: nat)
    requires OperatorString(g, ts, i)
    ensures ParseBinary(g, ts, i, minimum).Some? && Continues(g, ts, ParseBinary(g, ts, i, minimum).value.next)
    ensures minimum == 0 ==> ParseBinary(g, ts, i, minimum).value.next == |ts|
    decreases |ts| - i, 2
  {
    UnaryParses(g, ts, i);
    var left := ParseUnary(g, ts, i).value;
    ClimbParses(g, ts, left.next, minimum, left.expr);
  }

  /** Every operator string has one tree that meets the constraints, and the parser returns it. */
  lemma OperatorStringsHaveOneTree(g: Syntax, ts: seq<Token>)
    requires OperatorString(g, ts, 0) && NoParens(ts)
    ensures ParseAssignment(g, ts, 0).Some?
    ensures IsOnlyTree(g, ts, ParseAssignment(g, ts, 0).value)
  {
    BinaryParses(g, ts, 0, 0);
    var e := ParseAssignment(g, ts, 0).value.expr;
    ParseIffPrints(g, ts, e);
    forall tree | WellFormed(g, tree) && Print(g, tree) == ts
      ensures tree == e
    {
      ParseIffPrints(g, ts, tree);
    }
  }

  /** The tree uses all tokens, prints to them, and is the only one that does. */
  ghost predicate IsOnlyTree(g: Syntax, ts: seq<Token>, p: Parsed) {
    && p.next == |ts| && WellFormed(g, p.expr) && Print(g, p.expr) == ts
    && forall tree {:trigger Print(g, tree)} :: WellFormed(g, tree) && Print(g, tree) == ts ==> tree == p.expr
  }

  /** Three operands joined by two operators. */
  function ThreeOperands(first: string, second: string, a: string, b: string, c: string): seq<Token> {
    [Operand(a), Operator(first), Operand(b), Operator(second), Operand(c)]
  }

  /** At one level the associativity of the first operator decides: left-associative groups left, right-associative
      right. */
  lemma MixedAssociativity(g: Syntax, first: string, second: string, a: string, b: string, c: string)
    requires g.precedence(first) == g.precedence(second)
    ensures g.rightAssociative(first) ==>
              ParseAssignment(g, ThreeOperands(first, second, a, b, c), 0) ==
              Some(Parsed(Binary(first, Atom(a), Binary(second, Atom(b), Atom(c))), 5))
    ensures !g.rightAssociative(first) ==>
              ParseAssignment(g, ThreeOperands(first, second, a, b, c), 0) ==
              Some(Parsed(Binary(second, Binary(first, Atom(a), Atom(b)), Atom(c)), 5))
  {
    var tree := if g.rightAssociative(first) then Binary(first, Atom(a), Binary(second, Atom(b), Atom(c)))
                else Binary(second, Binary(first, Atom(a), Atom(b)), Atom(c));
    ParseInvertsPrint(g, tree);
    assert forall t :: Print(g, Atom(t)) == [Operand(t)];
    if g.rightAssociative(first) {
      assert Print(g, Binary(second, Atom(b), Atom(c))) == [Operand(b), Operator(second), Operand(c)];
    } else {
      assert Print(g, Binary(first, Atom(a), Atom(b))) == [Operand(a), Operator(first), Operand(b)];
    }
    assert Print(g, tree) == ThreeOperands(first, second, a, b, c);
  }
}
