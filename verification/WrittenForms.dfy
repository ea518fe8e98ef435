/** The parser accepts exactly the written forms of trees: with any further pairs of parentheses, and separators inside
    them. */
module WrittenForms {
  import opened Basics
  import opened Precedence
  import opened PrecedenceRoundTrip

  /** A tree as it is written; a pair of parentheses has separators behind the opening and before the closing one. */
  datatype Written =
    | Word(text: string)
    | Prefixed(op: string, operand: Written)
    | Joined(op: string, left: Written, right: Written)
    | Assigned(target: Written, value: Written)
    | Bracketed(before: nat, inner: Written, after: nat)

  function Meaning(t: Written): Expr {
    match t
    case Word(text) => Atom(text)
    case Prefixed(op, operand) => Unary(op, Meaning(operand))
    case Joined(op, left, right) => Binary(op, Meaning(left), Meaning(right))
    case Assigned(target, value) => Assign(Meaning(target), Meaning(value))
    case Bracketed(_, inner, _) => Meaning(inner)
  }

  predicate IsOperand(t: Written) {
    t.Word? || t.Prefixed? || t.Bracketed?
  }

  /** Without parentheses, operands of prefix operators are no operator expressions, operators on the left bind tighter
      or group to the left, and operators on the right bind tighter or group to the right. */
  predicate Allowed(g: Syntax, t: Written) {
    match t
    case Word(_) => true
    case Prefixed(op, operand) => g.unary(op) && IsOperand(operand) && Allowed(g, operand)
    case Joined(op, left, right) =>
      && Allowed(g, left) && Allowed(g, right) && !left.Assigned? && !right.Assigned?
      && (left.Joined? ==> g.precedence(left.op) > g.precedence(op) ||
                           (g.precedence(left.op) == g.precedence(op) && !g.rightAssociative(left.op)))
      && (right.Joined? ==> g.precedence(right.op) > g.precedence(op) ||
                            (g.precedence(right.op) == g.precedence(op) && g.rightAssociative(op)))
    case Assigned(target, value) => Allowed(g, target) && Allowed(g, value) && !target.Assigned?
    case Bracketed(_, inner, _) => Allowed(g, inner)
  }

  function Size(t: Written): (n: nat)
    ensures n > 0
  {
    match t
    case Word(_) => 1
    case Prefixed(_, operand) => 1 + Size(operand)
    case Joined(_, left, right) => Size(left) + 1 + Size(right)
    case Assigned(target, value) => Size(target) + 1 + Size(value)
    case Bracketed(before, inner, after) => 1 + before + Size(inner) + after + 1
  }

  predicate Separators(ts: seq<Token>, i: nat, j: nat)
    requires j <= |ts|
  {
    forall k :: i <= k < j ==> ts[k].Semicolon?
  }

  /** The tokens from i on are those of the written form. */
  predicate Stands(ts: seq<Token>, i: nat, t: Written)
    decreases t
  {
    i + Size(t) <= |ts| &&
    match t
    case Word(text) => ts[i] == Operand(text)
    case Prefixed(op, operand) => ts[i] == Operator(op) && Stands(ts, i + 1, operand)
    case Joined(op, left, right) =>
      Stands(ts, i, left) && ts[i + Size(left)] == Operator(op) && Stands(ts, i + Size(left) + 1, right)
    case Assigned(target, value) =>
      Stands(ts, i, target) && ts[i + Size(target)] == Equals && Stands(ts, i + Size(target) + 1, value)
    case Bracketed(before, inner, after) =>
      var start := i + 1 + before;
      var end := start + Size(inner);
      && ts[i] == LeftParen && Separators(ts, i + 1, start) && Stands(ts, start, inner)
      && Separators(ts, end, end + after) && ts[end + after] == RightParen
  }

  // ---------------------------------------------------------------------------------------------
  // Written forms are read.

  lemma {:induction false} FirstToken(ts: seq<Token>, i: nat, t: Written)
    requires Stands(ts, i, t)
    ensures !ts[i].Equals? && !ts[i].Semicolon?
  {
    match t
    case Word(_) =>
    case Prefixed(_, _) =>
    case Joined(_, left, _) => FirstToken(ts, i, left);
    case Assigned(target, _) => FirstToken(ts, i, target);
    case Bracketed(_, _, _) =>
  }

  lemma {:induction false} SkipTo(ts: seq<Token>, i: nat, j: nat)
    requires i <= j < |ts| && Separators(ts, i, j) && !ts[j].Semicolon?
    ensures SkipSeparators(ts, i) == j
    decreases j - i
  {
    if i < j {
      SkipTo(ts, i + 1, j);
    }
  }

  /** What follows does not belong to the form. */
  predicate EndsAt(g: Syntax, ts: seq<Token>, j: nat, t: Written) {
    && j <= |ts| && (j < |ts| ==> !ts[j].LeftParen?)
    && (t.Joined? ==> PrecedenceAt(g, ts, j) < RightMinimum(g, t.op))
  }

  lemma JoinedEnds(g: Syntax, ts: seq<Token>, i: nat, t: Written)
    requires t.Joined? && Allowed(g, t) && Stands(ts, i, t) && EndsAt(g, ts, i + Size(t), t)
    ensures var k := i + Size(t.left);
            && EndsAt(g, ts, k, t.left) && ts[k] == Operator(t.op)
            && EndsAt(g, ts, k + 1 + Size(t.right), t.right) && k + 1 + Size(t.right) == i + Size(t)
    ensures Stands(ts, i, t.left) && Stands(ts, i + Size(t.left) + 1, t.right)
  {
  }

  lemma ClosesBehind(ts: seq<Token>, end: nat, after: nat)
    requires end + after < |ts| && Separators(ts, end, end + after) && ts[end + after].RightParen?
    ensures Stops(ts, end) && SkipSeparators(ts, end) == end + after
  {
    SkipTo(ts, end, end + after);
  }

  /** The parentheses around an expression that is read. */
  lemma BracketsAreRead(g: Syntax, ts: seq<Token>, i: nat, start: nat, end: nat, close: nat, e: Expr)
    requires i < start < end <= close < |ts| && ts[i].LeftParen? && SkipSeparators(ts, i + 1) == start
    requires ParseAssignment(g, ts, start) == Some(Parsed(e, end))
    requires SkipSeparators(ts, end) == close && ts[close].RightParen?
    requires close + 1 < |ts| ==> !ts[close + 1].LeftParen?
    ensures ParseUnary(g, ts, i) == Some(Parsed(e, close + 1))
  {
  }

  lemma {:induction false} BracketedIsRead(g: Syntax, ts: seq<Token>, i: nat, t: Written)
    requires Allowed(g, t) && t.Bracketed? && Stands(ts, i, t) && EndsAt(g, ts, i + Size(t), t)
    ensures ParseUnary(g, ts, i) == Some(Parsed(Meaning(t), i + Size(t)))
    decreases t, 0
  {
    var start := i + 1 + t.before;
    var end := start + Size(t.inner);
    FirstToken(ts, start, t.inner);
    SkipTo(ts, i + 1, start);
    ClosesBehind(ts, end, t.after);
    ExpressionIsRead(g, ts, start, t.inner);
    BracketsAreRead(g, ts, i, start, end, end + t.after, Meaning(t.inner));
  }

  lemma {:induction false} OperandIsRead(g: Syntax, ts: seq<Token>, i: nat, t: Written)
    requires Allowed(g, t) && IsOperand(t) && Stands(ts, i, t) && EndsAt(g, ts, i + Size(t), t)
    ensures ParseUnary(g, ts, i) == Some(Parsed(Meaning(t), i + Size(t)))
    decreases t, 1
  {
    match t
    case Word(_) =>
    case Prefixed(_, operand) => OperandIsRead(g, ts, i + 1, operand);
    case Bracketed(_, _, _) => BracketedIsRead(g, ts, i, t);
  }

  lemma {:induction false} ReadingReachesLoop(g: Syntax, ts: seq<Token>, i: nat, t: Written, minimum: nat)
    requires Allowed(g, t) && !t.Assigned? && Stands(ts, i, t) && EndsAt(g, ts, i + Size(t), t)
    requires t.Joined? ==> g.precedence(t.op) >= minimum
    ensures ParseBinary(g, ts, i, minimum) == ClimbFrom(g, ts, i + Size(t), minimum, Meaning(t))
    decreases t, 2
  {
    if IsOperand(t) {
      OperandIsRead(g, ts, i, t);
    } else {
      JoinedIsRead(g, ts, i, t, minimum);
    }
  }

  lemma {:induction false} JoinedIsRead(g: Syntax, ts: seq<Token>, i: nat, t: Written, minimum: nat)
    requires t.Joined? && Allowed(g, t) && Stands(ts, i, t) && EndsAt(g, ts, i + Size(t), t)
    requires g.precedence(t.op) >= minimum
    ensures ParseBinary(g, ts, i, minimum) == ClimbFrom(g, ts, i + Size(t), minimum, Meaning(t))
    decreases t, 1
  {
    var k := i + Size(t.left);
    LeftIsRead(g, ts, i, t, minimum);
    RightIsRead(g, ts, i, t);
    ClimbTurn(g, ts, k, minimum, t.op, Meaning(t.left), Meaning(t.right), i + Size(t));
  }

  lemma {:induction false} LeftIsRead(g: Syntax, ts: seq<Token>, i: nat, t: Written, minimum: nat)
    requires t.Joined? && Allowed(g, t) && Stands(ts, i, t) && EndsAt(g, ts, i + Size(t), t)
    requires g.precedence(t.op) >= minimum
    ensures ParseBinary(g, ts, i, minimum) == ClimbFrom(g, ts, i + Size(t.left), minimum, Meaning(t.left))
    decreases t, 0
  {
    JoinedEnds(g, ts, i, t);
    ReadingReachesLoop(g, ts, i, t.left, minimum);
  }

  lemma {:induction false} RightIsRead(g: Syntax, ts: seq<Token>, i: nat, t: Written)
    requires t.Joined? && Allowed(g, t) && Stands(ts, i, t) && EndsAt(g, ts, i + Size(t), t)
    ensures var tight := RightMinimum(g, t.op);
            ParseBinary(g, ts, i + Size(t.left) + 1, tight) ==
            ClimbFrom(g, ts, i + Size(t), tight, Meaning(t.right))
    decreases t, 0
  {
    JoinedEnds(g, ts, i, t);
    ReadingReachesLoop(g, ts, i + Size(t.left) + 1, t.right, RightMinimum(g, t.op));
  }

  lemma {:induction false} ExpressionIsRead(g: Syntax, ts: seq<Token>, i: nat, t: Written)
    requires Allowed(g, t) && Stands(ts, i, t) && Stops(ts, i + Size(t))
    ensures ParseAssignment(g, ts, i) == Some(Parsed(Meaning(t), i + Size(t)))
    decreases t, 3
  {
    if t.Assigned? {
      var k := i + Size(t.target);
      ReadingReachesLoop(g, ts, i, t.target, 0);
      FirstToken(ts, k + 1, t.value);
      ExpressionIsRead(g, ts, k + 1, t.value);
      AssignmentIsRead(g, ts, i, k, i + Size(t), Meaning(t.target), Meaning(t.value));
    } else {
      ReadingReachesLoop(g, ts, i, t, 0);
    }
  }

  lemma AssignmentIsRead(g: Syntax, ts: seq<Token>, i: nat, k: nat, j: nat, target: Expr, value: Expr)
    requires i <= k && k + 1 < j <= |ts| && ts[k].Equals? && !ts[k + 1].Equals?
    requires ParseBinary(g, ts, i, 0) == ClimbFrom(g, ts, k, 0, target)
    requires ParseAssignment(g, ts, k + 1) == Some(Parsed(value, j))
    ensures ParseAssignment(g, ts, i) == Some(Parsed(Assign(target, value), j))
  {
    assert ClimbFrom(g, ts, k, 0, target) == Some(Parsed(target, k));
  }

  // ---------------------------------------------------------------------------------------------
  // What is read is a written form.

  /** t is written from i to the end of what was read, and means it. */
  predicate Writes(g: Syntax, ts: seq<Token>, i: nat, t: Written, p: Parsed) {
    Allowed(g, t) && Stands(ts, i, t) && i + Size(t) == p.next && Meaning(t) == p.expr
  }

  lemma {:induction false} Skipped(ts: seq<Token>, i: nat)
    requires i <= |ts|
    ensures Separators(ts, i, SkipSeparators(ts, i))
    decreases |ts| - i
  {
    if i < |ts| && ts[i].Semicolon? {
      Skipped(ts, i + 1);
    }
  }

  lemma {:induction false} UnaryIsWritten(g: Syntax, ts: seq<Token>, i: nat) returns (t: Written)
    requires i <= |ts| && ParseUnary(g, ts, i).Some?
    ensures IsOperand(t) && Writes(g, ts, i, t, ParseUnary(g, ts, i).value)
    decreases |ts| - i, 0
  {
    if ts[i].Operator? && g.unary(ts[i].text) {
      var operand := UnaryIsWritten(g, ts, i + 1);
      t := Prefixed(ts[i].text, operand);
    } else if ts[i].Operand? {
      t := Word(ts[i].text);
    } else {
      var inner := ExpressionIsWritten(g, ts, SkipSeparators(ts, i + 1));
      t := BracketsAreWritten(g, ts, i, inner);
    }
  }

  lemma BracketsAreWritten(g: Syntax, ts: seq<Token>, i: nat, inner: Written) returns (t: Written)
    requires i < |ts| && ts[i].LeftParen? && ParseUnary(g, ts, i).Some?
    requires ParseAssignment(g, ts, SkipSeparators(ts, i + 1)).Some?
    requires Writes(g, ts, SkipSeparators(ts, i + 1), inner, ParseAssignment(g, ts, SkipSeparators(ts, i + 1)).value)
    ensures IsOperand(t) && Writes(g, ts, i, t, ParseUnary(g, ts, i).value)
  {
    var start := SkipSeparators(ts, i + 1);
    var end := start + Size(inner);
    Skipped(ts, i + 1);
    Skipped(ts, end);
    t := Bracketed(start - i - 1, inner, SkipSeparators(ts, end) - end);
  }

  lemma {:induction false} ClimbIsWritten(g: Syntax, ts: seq<Token>, start: nat, i: nat, minimum: nat, left: Written)
    returns (t: Written)
    requires i <= |ts| && ClimbFrom(g, ts, i, minimum, Meaning(left)).Some?
    requires Writes(g, ts, start, left, Parsed(Meaning(left), i)) && !left.Assigned?
    requires left.Joined? ==> g.precedence(left.op) >= minimum && PrecedenceAt(g, ts, i) < RightMinimum(g, left.op)
    ensures var p := ClimbFrom(g, ts, i, minimum, Meaning(left)).value;
            Writes(g, ts, start, t, p) && !t.Assigned? && (t.Joined? ==> g.precedence(t.op) >= minimum) &&
            PrecedenceAt(g, ts, p.next) < minimum &&
            (t.Joined? ==> PrecedenceAt(g, ts, p.next) < RightMinimum(g, t.op))
    decreases |ts| - i, 1
  {
    if PrecedenceAt(g, ts, i) < minimum {
      t := left;
    } else {
      var op := ts[i].text;
      var right := BinaryIsWritten(g, ts, i + 1, RightMinimum(g, op));
      t := ClimbIsWritten(g, ts, start, i + 1 + Size(right), minimum, Joined(op, left, right));
    }
  }

  lemma {:induction false} BinaryIsWritten(g: Syntax, ts: seq<Token>, i: nat, minimum: nat) returns (t: Written)
    requires i <= |ts| && ParseBinary(g, ts, i, minimum).Some?
    ensures var p := ParseBinary(g, ts, i, minimum).value;
            Writes(g, ts, i, t, p) && !t.Assigned? && (t.Joined? ==> g.precedence(t.op) >= minimum) &&
            PrecedenceAt(g, ts, p.next) < minimum &&
            (t.Joined? ==> PrecedenceAt(g, ts, p.next) < RightMinimum(g, t.op))
    decreases |ts| - i, 2
  {
    var left := UnaryIsWritten(g, ts, i);
    t := ClimbIsWritten(g, ts, i, i + Size(left), minimum, left);
  }

  lemma {:induction false} ExpressionIsWritten(g: Syntax, ts: seq<Token>, i: nat) returns (t: Written)
    requires i <= |ts| && ParseAssignment(g, ts, i).Some?
    ensures Writes(g, ts, i, t, ParseAssignment(g, ts, i).value)
    decreases |ts| - i, 3
  {
    t := BinaryIsWritten(g, ts, i, 0);
    var k := i + Size(t);
    if k < |ts| && ts[k].Equals? {
      var value := ExpressionIsWritten(g, ts, k + 1);
      AssignmentIsWritten(g, ts, i, t, value);
      t := Assigned(t, value);
    }
  }

  lemma AssignmentIsWritten(g: Syntax, ts: seq<Token>, i: nat, target: Written, value: Written)
    requires i <= |ts| && ParseBinary(g, ts, i, 0).Some? && !target.Assigned?
    requires Writes(g, ts, i, target, ParseBinary(g, ts, i, 0).value)
    requires var k := i + Size(target);
             k < |ts| && ts[k].Equals? && ParseAssignment(g, ts, i).Some? && ParseAssignment(g, ts, k + 1).Some? &&
             Writes(g, ts, k + 1, value, ParseAssignment(g, ts, k + 1).value)
    ensures Writes(g, ts, i, Assigned(target, value), ParseAssignment(g, ts, i).value)
  {
  }

  // ---------------------------------------------------------------------------------------------

  predicate IsWritten(g: Syntax, ts: seq<Token>, t: Written, e: Expr) {
    Allowed(g, t) && Stands(ts, 0, t) && Size(t) == |ts| && Meaning(t) == e
  }

  /** Main result: the whole text is parsed as a tree exactly if it is a written form of that tree. */
  lemma ParsesIffWritten(g: Syntax, ts: seq<Token>, e: Expr)
    ensures ParseAssignment(g, ts, 0) == Some(Parsed(e, |ts|)) <==> exists t :: IsWritten(g, ts, t, e)
  {
    if ParseAssignment(g, ts, 0) == Some(Parsed(e, |ts|)) {
      var t := ExpressionIsWritten(g, ts, 0);
      assert IsWritten(g, ts, t, e);
    }
    if t: Written :| IsWritten(g, ts, t, e) {
      ExpressionIsRead(g, ts, 0, t);
    }
  }
}
