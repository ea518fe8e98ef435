/** A text has only one reading. */
module LexerUnique {
  import opened Tokens
  import opened Lexer
  import opened LexerLaws
  import opened LexerCoverage

  // ---------------------------------------------------------------------------------------------
  // Ends of tokens and trivia.

  lemma PartsEndOnce(t: string, i: nat, j: nat, k: nat)
    requires PartsEnd(t, i, j) && PartsEnd(t, i, k)
    ensures j == k
  {
  }

  lemma DigitsEndOnce(t: string, i: nat, hexadecimal: bool, j: nat, k: nat)
    requires DigitsEnd(t, i, hexadecimal, j) && DigitsEnd(t, i, hexadecimal, k)
    ensures j == k
  {
  }

  lemma BacktickEndOnce(t: string, i: nat, j: nat, k: nat)
    requires BacktickEnd(t, i, j) && BacktickEnd(t, i, k)
    ensures j == k
  {
  }

  lemma QuoteEndOnce(t: string, i: nat, j: nat, k: nat)
    requires QuoteEnd(t, i, j) && QuoteEnd(t, i, k)
    ensures j == k
  {
  }

  lemma FirstTripleOnce(t: string, i: nat, j: nat, k: nat)
    requires j <= |t| && k <= |t| && FirstTriple(t, i, j) && FirstTriple(t, i, k)
    ensures j == k
  {
  }

  lemma OperatorEndOnce(t: string, i: nat, j: nat, k: nat)
    requires OperatorEnd(t, i, j) && OperatorEnd(t, i, k)
    ensures j == k
  {
  }

  lemma CharOrSymbolEndOnce(t: string, i: nat, symbol: bool, j: nat, other: bool, k: nat)
    requires CharOrSymbolEnd(t, i, symbol, j) && CharOrSymbolEnd(t, i, other, k)
    ensures symbol == other && j == k
  {
    var n := i + 1;
    if n < |t| && t[n] != '\n' && t[n] != '\\' && !CharAt(t, n + 1, '\'') {
      if IsIdentifierStart(t[n]) {
        PartsEndOnce(t, n, j, k);
      } else {
        QuoteEndOnce(t, n, j, k);
      }
    }
  }

  lemma SuffixEndOnce(t: string, i: nat, floating: bool, j: nat, k: nat)
    requires SuffixEnd(t, i, floating, j) && SuffixEnd(t, i, floating, k)
    ensures j == k
  {
    var n := if OneOf(t, i, "fFdD") || (!floating && OneOf(t, i, "lL")) then i + 1 else i;
    if n < |t| && IsIdentifierStart(t[n]) {
      PartsEndOnce(t, n, j, k);
    }
  }

  lemma FractionEndOnce(t: string, i: nat, j: nat, k: nat)
    requires FractionEnd(t, i, j) && FractionEnd(t, i, k)
    ensures j == k
  {
    if j != k {
      DigitsEndOnce(t, i + 1, false, j, k);
    }
  }

  lemma ExponentEndOnce(t: string, i: nat, j: nat, k: nat)
    requires ExponentEnd(t, i, j) && ExponentEnd(t, i, k)
    ensures j == k
  {
    if OneOf(t, i, "eE") {
      DigitsEndOnce(t, if OneOf(t, i + 1, "+-") then i + 2 else i + 1, false, j, k);
    }
  }

  lemma NumberEndOnce(t: string, i: nat, floating: bool, j: nat, other: bool, k: nat)
    requires NumberEnd(t, i, floating, j) && NumberEnd(t, i, other, k)
    ensures floating == other && j == k
  {
    var a, b, c :| NumberParts(t, i, floating, j, a, b, c);
    var d, e, f :| NumberParts(t, i, other, k, d, e, f);
    if IsHexadecimal(t, i) {
      DigitsEndOnce(t, i + 2, true, a, d);
    } else {
      DigitsEndOnce(t, i + 1, false, a, d);
      FractionEndOnce(t, a, b, e);
      ExponentEndOnce(t, b, c, f);
    }
    SuffixEndOnce(t, c, c > a, j, k);
  }

  lemma TokenEndOnce(t: string, start: nat, kind: TokenKind, j: nat, other: TokenKind, k: nat)
    requires TokenAt(t, start, kind, j) && TokenAt(t, start, other, k)
    ensures kind == other && j == k
  {
    var c := t[start];
    if IsIdentifierStart(c) {
      PartsEndOnce(t, start, j, k);
    } else if c == '`' {
      BacktickEndOnce(t, start, j, k);
    } else if IsDigit(c) {
      NumberEndOnce(t, start, kind.FloatingLiteral?, j, other.FloatingLiteral?, k);
    } else if c == '"' {
      if TripleQuote(t, start) {
        FirstTripleOnce(t, start + 3, j, k);
      }
    } else if c == '\'' {
      CharOrSymbolEndOnce(t, start, kind.SymbolLiteral?, j, other.SymbolLiteral?, k);
    } else if !(c == '=' && OneOf(t, start + 1, ">=")) && !IsSingle(t, start) && IsOperatorChar(c) {
      OperatorEndOnce(t, start, j, k);
    }
  }

  lemma TriviaOnce(t: string, start: nat, a: Trivia, j: nat, b: Trivia, k: nat)
    requires TriviaAt(t, start, a, j) && TriviaAt(t, start, b, k)
    ensures a == b && j == k
  {
  }

  // ---------------------------------------------------------------------------------------------
  // Beginnings of readings.

  predicate Begins(a: Reading, b: Reading) {
    a == b || (!b.Nothing? && Begins(a, b.before))
  }

  predicate TextBegins(a: Pieces, b: Pieces) {
    a == b || (!b.Opening? && TextBegins(a, b.pieces))
  }

  lemma {:induction false} NothingBegins(b: Reading)
    ensures Begins(Nothing, b)
  {
    if !b.Nothing? {
      NothingBegins(b.before);
    }
  }

  /** The beginning of b that is one step longer than a. */
  lemma {:induction false} NextStep(t: string, hole: bool, low: nat, a: Reading, b: Reading) returns (next: Reading)
    requires Begins(a, b) && a != b && ReadingOk(t, hole, low, b)
    ensures !next.Nothing? && next.before == a && Begins(next, b) && ReadingOk(t, hole, low, next)
    decreases b
  {
    if b.before == a {
      next := b;
    } else {
      next := NextStep(t, hole, low, a, b.before);
    }
  }

  lemma {:induction false} NextPiece(t: string, start: nat, a: Pieces, b: Pieces) returns (next: Pieces)
    requires TextBegins(a, b) && a != b && PiecesOk(t, start, b)
    ensures !next.Opening? && next.pieces == a && TextBegins(next, b) && PiecesOk(t, start, next)
    decreases b
  {
    if b.pieces == a {
      next := b;
    } else {
      next := NextPiece(t, start, a, b.pieces);
    }
  }

  lemma {:induction false} OpeningBegins(t: string, start: nat, a: Pieces, b: Pieces)
    requires a.Opening? && PiecesOk(t, start, a) && PiecesOk(t, start, b)
    ensures TextBegins(a, b)
    decreases b
  {
    if !b.Opening? {
      OpeningBegins(t, start, a, b.pieces);
    }
  }

  lemma {:induction false} TextHasPrefix(t: string, start: nat, p: Pieces)
    requires PiecesOk(t, start, p)
    ensures IsInterpolationPrefix(t, start) && start < |t| && !StartsTrivia(t, start)
    decreases p
  {
    if !p.Opening? {
      TextHasPrefix(t, start, p.pieces);
    }
  }

  // ---------------------------------------------------------------------------------------------
  // Where readings and strings end.

  predicate Ends(t: string, low: nat, r: Reading) {
    Reached(low, r) == |t| || (CharAt(t, Reached(low, r), '}') && Depth(t, r) == 1)
  }

  /** Nothing can be read behind the end of the text or of a hole. */
  lemma NoStepBehind(t: string, hole: bool, low: nat, r: Reading)
    requires !r.Nothing? && ReadingOk(t, hole, low, r)
    ensures Reached(low, r.before) != |t| && (hole ==> !Ends(t, low, r.before))
  {
    if r.Interpolated? {
      TextHasPrefix(t, Reached(low, r.before), r.text);
    }
  }

  predicate StringEnds(t: string, start: nat, p: Pieces) {
    p.Closed? || Until(p) == |t| || (!IsTriple(t, start) && CharAt(t, Until(p), '\n'))
  }

  lemma NoPieceBehind(t: string, start: nat, p: Pieces)
    requires !p.Opening? && PiecesOk(t, start, p)
    ensures !StringEnds(t, start, p.pieces)
  {
  }

  // ---------------------------------------------------------------------------------------------
  // Uniqueness.

  /** Of two readings one begins the other. */
  lemma {:induction false} ReadingsCompare(t: string, hole: bool, low: nat, a: Reading, b: Reading)
    requires ReadingOk(t, hole, low, a) && ReadingOk(t, hole, low, b)
    ensures Begins(a, b) || Begins(b, a)
    decreases a, 2
  {
    if a.Nothing? {
      NothingBegins(b);
    } else {
      ReadingsCompare(t, hole, low, a.before, b);
      if Begins(a.before, b) && a.before != b {
        var next := NextStep(t, hole, low, a.before, b);
        StepOnce(t, hole, low, a, next);
      }
    }
  }

  lemma {:induction false} StepOnce(t: string, hole: bool, low: nat, a: Reading, b: Reading)
    requires !a.Nothing? && !b.Nothing? && a.before == b.before
    requires ReadingOk(t, hole, low, a) && ReadingOk(t, hole, low, b)
    ensures a == b
    decreases a, 1
  {
    StepKind(t, hole, low, a);
    StepKind(t, hole, low, b);
    if a.Interpolated? {
      TextOnce(t, Reached(low, a.before), a.text, b.text);
    } else if a.Skipped? {
      SkippedOnce(t, hole, low, a, b);
    } else {
      PlainOnce(t, hole, low, a, b);
    }
  }

  lemma StepKind(t: string, hole: bool, low: nat, r: Reading)
    requires !r.Nothing? && ReadingOk(t, hole, low, r)
    ensures r.Skipped? <==> StartsTrivia(t, Reached(low, r.before))
    ensures r.Interpolated? <==> IsInterpolationPrefix(t, Reached(low, r.before))
  {
    if r.Interpolated? {
      TextHasPrefix(t, Reached(low, r.before), r.text);
    }
  }

  lemma SkippedOnce(t: string, hole: bool, low: nat, a: Reading, b: Reading)
    requires a.Skipped? && b.Skipped? && a.before == b.before
    requires ReadingOk(t, hole, low, a) && ReadingOk(t, hole, low, b)
    ensures a == b
  {
    var start := Reached(low, a.before);
    TriviaOnce(t, start, a.trivia, start + a.trivia.length, b.trivia, start + b.trivia.length);
  }

  lemma PlainOnce(t: string, hole: bool, low: nat, a: Reading, b: Reading)
    requires a.Plain? && b.Plain? && a.before == b.before
    requires ReadingOk(t, hole, low, a) && ReadingOk(t, hole, low, b)
    ensures a == b
  {
    PlainTokenOnce(t, a.token, b.token);
  }

  lemma PlainTokenOnce(t: string, a: Token, b: Token)
    requires PlainAt(t, a) && PlainAt(t, b) && a.start == b.start
    ensures a == b
  {
    TokenEndOnce(t, a.start, a.kind, a.start + a.length, b.kind, b.start + b.length);
  }

  lemma {:induction false} TextOnce(t: string, start: nat, a: Pieces, b: Pieces)
    requires StringOk(t, start, a) && StringOk(t, start, b)
    ensures a == b
    decreases a, 3
  {
    TextsCompare(t, start, a, b);
    if a != b {
      if TextBegins(a, b) {
        var next := NextPiece(t, start, a, b);
        NoPieceBehind(t, start, next);
      } else {
        var next := NextPiece(t, start, b, a);
        NoPieceBehind(t, start, next);
      }
    }
  }

  lemma {:induction false} TextsCompare(t: string, start: nat, a: Pieces, b: Pieces)
    requires PiecesOk(t, start, a) && PiecesOk(t, start, b)
    ensures TextBegins(a, b) || TextBegins(b, a)
    decreases a, 2
  {
    if a.Opening? {
      OpeningBegins(t, start, a, b);
    } else {
      TextsCompare(t, start, a.pieces, b);
      if TextBegins(a.pieces, b) && a.pieces != b {
        var next := NextPiece(t, start, a.pieces, b);
        PieceOnce(t, start, a, next);
      }
    }
  }

  /** What begins at a place is told by the characters there. */
  lemma PieceKinds(t: string, start: nat, a: Pieces, b: Pieces)
    requires !a.Opening? && !b.Opening? && a.pieces == b.pieces
    requires PiecesOk(t, start, a) && PiecesOk(t, start, b)
    ensures a.Piece? == b.Piece? && a.Closed? == b.Closed?
  {
    var at := Until(a.pieces);
    PieceStarts(t, start, a, at);
    PieceStarts(t, start, b, at);
  }

  predicate OpensAt(t: string, at: nat) {
    CharAt(t, at, '$') && CharAt(t, at + 1, '{')
  }

  predicate QuotesAt(t: string, triple: bool, at: nat) {
    if triple then TripleQuote(t, at) else CharAt(t, at, '"')
  }

  lemma PieceStarts(t: string, start: nat, p: Pieces, at: nat)
    requires !p.Opening? && PiecesOk(t, start, p) && at == Until(p.pieces)
    ensures p.Closed? <==> QuotesAt(t, IsTriple(t, start), at)
    ensures p.Hole? || p.CutHole? <==> OpensAt(t, at)
  {
  }

  lemma ClosedOnce(t: string, start: nat, a: Pieces, b: Pieces)
    requires a.Closed? && b.Closed? && a.pieces == b.pieces && PiecesOk(t, start, a) && PiecesOk(t, start, b)
    ensures a == b
  {
  }

  lemma {:induction false} PieceOnce(t: string, start: nat, a: Pieces, b: Pieces)
    requires !a.Opening? && !b.Opening? && a.pieces == b.pieces
    requires PiecesOk(t, start, a) && PiecesOk(t, start, b)
    ensures a == b
    decreases a, 1
  {
    PieceKinds(t, start, a, b);
    if a.Piece? {
      PlainPieceOnce(t, start, a, b);
    } else if a.Closed? {
      ClosedOnce(t, start, a, b);
    } else {
      HoleOnce(t, start, a, b);
    }
  }

  lemma PlainPieceOnce(t: string, start: nat, a: Pieces, b: Pieces)
    requires a.Piece? && b.Piece? && a.pieces == b.pieces && PiecesOk(t, start, a) && PiecesOk(t, start, b)
    ensures a == b
  {
    var at := Until(a.pieces);
    if NameAt(t, a.piece, EndOf(a.piece)) && NameAt(t, b.piece, EndOf(b.piece)) {
      PartsEndOnce(t, at + 1, EndOf(a.piece), EndOf(b.piece));
    }
  }

  lemma {:induction false} HoleOnce(t: string, start: nat, a: Pieces, b: Pieces)
    requires (a.Hole? || a.CutHole?) && (b.Hole? || b.CutHole?) && a.pieces == b.pieces
    requires PiecesOk(t, start, a) && PiecesOk(t, start, b)
    ensures a == b
    decreases a, 0
  {
    HoleOpens(t, start, a);
    HoleOpens(t, start, b);
    InnerAlike(t, start, a, b, Until(a.pieces) + 2);
    HolesAlike(t, start, a, b);
  }

  lemma {:induction false} InnerAlike(t: string, start: nat, a: Pieces, b: Pieces, low: nat)
    requires (a.Hole? || a.CutHole?) && PiecesOk(t, start, a) && low == a.open.start + 2
    requires (b.Hole? || b.CutHole?) && PiecesOk(t, start, b) && low == b.open.start + 2
    ensures a.inner == b.inner
    decreases a, 0, 0
  {
    HoleEnds(t, start, a, low);
    HoleEnds(t, start, b, low);
    InnerOnce(t, low, a.inner, b.inner);
  }

  lemma HolesAlike(t: string, start: nat, a: Pieces, b: Pieces)
    requires (a.Hole? || a.CutHole?) && (b.Hole? || b.CutHole?) && a.pieces == b.pieces && a.inner == b.inner
    requires PiecesOk(t, start, a) && PiecesOk(t, start, b)
    ensures a == b
  {
    HoleOpens(t, start, a);
    HoleOpens(t, start, b);
    HoleEnds(t, start, a, a.open.start + 2);
    HoleEnds(t, start, b, a.open.start + 2);
  }

  lemma HoleOpens(t: string, start: nat, p: Pieces)
    requires (p.Hole? || p.CutHole?) && PiecesOk(t, start, p)
    ensures p.open == Token(InterpolationStart, Until(p.pieces), 2, false, [])
  {
  }

  /** A hole is made of the reading between its braces. */
  lemma HoleEnds(t: string, start: nat, p: Pieces, low: nat)
    requires (p.Hole? || p.CutHole?) && PiecesOk(t, start, p) && low == p.open.start + 2
    ensures ReadingOk(t, true, low, p.inner) && Ends(t, low, p.inner)
    ensures p.CutHole? <==> Reached(low, p.inner) == |t|
    ensures p.Hole? ==> p.close == Token(InterpolationEnd, Reached(low, p.inner), 1, false, [])
  {
    assert ReadingOk(t, true, p.open.start + 2, p.inner);
  }

  lemma {:induction false} InnerOnce(t: string, low: nat, a: Reading, b: Reading)
    requires ReadingOk(t, true, low, a) && ReadingOk(t, true, low, b) && Ends(t, low, a) && Ends(t, low, b)
    ensures a == b
    decreases a, 3
  {
    ReadingsCompare(t, true, low, a, b);
    if Begins(a, b) {
      BothEnd(t, low, a, b);
    } else {
      BothEnd(t, low, b, a);
    }
  }

  lemma BothEnd(t: string, low: nat, a: Reading, b: Reading)
    requires ReadingOk(t, true, low, b) && Begins(a, b) && Ends(t, low, a)
    ensures a == b
  {
    if a != b {
      var next := NextStep(t, true, low, a, b);
      NoStepBehind(t, true, low, next);
    }
  }

  /** Main result: the tokens of a text are determined. */
  lemma ReadingIsUnique(t: string, a: seq<Token>, b: seq<Token>)
    requires IsReading(t, a) && IsReading(t, b)
    ensures a == b
  {
    var r :| IsReadingOf(t, a, r);
    var s :| IsReadingOf(t, b, s);
    ReadingsCompare(t, false, 0, r, s);
    if r != s {
      if Begins(r, s) {
        var next := NextStep(t, false, 0, r, s);
        NoStepBehind(t, false, 0, next);
      } else {
        var next := NextStep(t, false, 0, s, r);
        NoStepBehind(t, false, 0, next);
      }
    }
  }
}
