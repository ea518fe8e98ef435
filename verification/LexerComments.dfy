/** Block comments nest. */
module LexerComments {
  import opened Lexer

  predicate OpensAt(t: string, i: nat) {
    CharAt(t, i, '/') && CharAt(t, i + 1, '*')
  }

  predicate ClosesAt(t: string, i: nat) {
    CharAt(t, i, '*') && CharAt(t, i + 1, '/')
  }

  /** What stands inside of a comment: characters, and whole comments whose closing mark is at `close`. */
  datatype Body = Empty | Char(rest: Body) | Nested(inner: Body, close: nat, rest: Body)

  /** The text from i to j is this body. */
  predicate Spells(t: string, i: nat, b: Body, j: nat)
    decreases b
  {
    match b
    case Empty => i == j
    case Char(rest) => i < |t| && !OpensAt(t, i) && !ClosesAt(t, i) && Spells(t, i + 1, rest, j)
    case Nested(inner, close, rest) =>
      OpensAt(t, i) && Spells(t, i + 2, inner, close) && ClosesAt(t, close) && Spells(t, close + 2, rest, j)
  }

  /** The comment whose opening mark ends at i is closed by the mark at j. */
  ghost predicate ClosedAt(t: string, i: nat, j: nat) {
    ClosesAt(t, j) && exists b :: Spells(t, i, b, j)
  }

  /** A comment ends behind the mark that closes it. One that nothing closes goes up to the last character, or to the
      end if a mark stands there. */
  lemma CommentEndIs(t: string, i: nat)
    requires i <= |t|
    ensures var end := CommentEnd(t, i, 1);
            && (forall j: nat :: ClosedAt(t, i, j) ==> end == j + 2)
            && ((forall j: nat :: !ClosedAt(t, i, j)) ==> CutAt(t, i, end))
  {
    forall j: nat | ClosedAt(t, i, j) ensures CommentEnd(t, i, 1) == j + 2 {
      var b :| Spells(t, i, b, j);
      BodyPassed(t, i, b, j, 0);
    }
    var (b, j) := Scan(t, i);
    if j < |t| {
      assert ClosedAt(t, i, j);
    } else {
      UnclosedIsCut(t, i, 0);
    }
  }

  predicate CutAt(t: string, i: nat, end: nat) {
    end + 1 == |t| || (end == |t| && (i == |t| || (|t| >= 2 && (OpensAt(t, |t| - 2) || ClosesAt(t, |t| - 2)))))
  }

  lemma {:induction false} BodyPassed(t: string, i: nat, b: Body, j: nat, depth: nat)
    requires Spells(t, i, b, j) && ClosesAt(t, j)
    ensures i <= j && CommentEnd(t, i, depth + 1) == CommentEnd(t, j + 2, depth)
    decreases b
  {
    match b
    case Empty =>
    case Char(rest) => BodyPassed(t, i + 1, rest, j, depth);
    case Nested(inner, close, rest) =>
      BodyPassed(t, i + 2, inner, close, depth + 1);
      BodyPassed(t, close + 2, rest, j, depth);
  }

  /** The body from i on and where it is closed, or the length of the text if it is not. */
  function Scan(t: string, i: nat): (r: (Body, nat))
    requires i <= |t|
    ensures r.1 < |t| ==> i <= r.1 && ClosesAt(t, r.1) && Spells(t, i, r.0, r.1)
    decreases |t| - i
  {
    if i + 1 >= |t| then (Empty, |t|)
    else if ClosesAt(t, i) then (Empty, i)
    else if OpensAt(t, i) then
      var (inner, close) := Scan(t, i + 2);
      if close >= |t| then (Empty, |t|)
      else
        var (rest, j) := Scan(t, close + 2);
        (Nested(inner, close, rest), j)
    else
      var (rest, j) := Scan(t, i + 1);
      (Char(rest), j)
  }

  lemma {:induction false} UnclosedIsCut(t: string, i: nat, depth: nat)
    requires i <= |t| && Scan(t, i).1 >= |t|
    ensures CutAt(t, i, CommentEnd(t, i, depth + 1))
    decreases |t| - i
  {
    if i + 1 >= |t| {
    } else if OpensAt(t, i) {
      var (inner, close) := Scan(t, i + 2);
      if close >= |t| {
        UnclosedIsCut(t, i + 2, depth + 1);
      } else {
        BodyPassed(t, i + 2, inner, close, depth + 1);
        UnclosedIsCut(t, close + 2, depth);
      }
    } else {
      UnclosedIsCut(t, i + 1, depth);
    }
  }
}
