/** A reading of a text covers it in order, with the separators that line breaks ask for. */
module LexerCoverage {
  import opened Tokens
  import opened Lexer
  import opened LexerLaws

  // ---------------------------------------------------------------------------------------------
  // Coverage.

  lemma {:induction false} PiecesCover(t: string, exact: bool, start: nat, p: Pieces)
    requires PiecesOk(t, start, p) && (exact ==> NoHole(t))
    ensures Lexed(exact, PiecesList(p), start, Until(p))
    decreases p, 1
  {
    match p
    case Opening(first) => TokenLexed(exact, first);
    case Piece(pieces, piece) =>
      PiecesCover(t, exact, start, pieces);
      LexedOneMore(exact, start, PiecesList(pieces), piece);
    case CutHole(_, _, _) => CutHoleCovers(t, exact, start, p);
    case Hole(_, _, _, _) => ClosedHoleCovers(t, exact, start, p);
    case Closed(pieces, last) =>
      PiecesCover(t, exact, start, pieces);
      LexedOneMore(exact, start, PiecesList(pieces), last);
  }

  lemma {:induction false} CutHoleCovers(t: string, exact: bool, start: nat, p: Pieces)
    requires p.CutHole? && PiecesOk(t, start, p) && (exact ==> NoHole(t))
    ensures Lexed(exact, PiecesList(p), start, Until(p))
    decreases p, 0
  {
    HoleIsHole(t, p.open);
    PiecesCover(t, exact, start, p.pieces);
    ReadingIsLexed(t, true, exact, p.open.start + 2, p.inner);
    HoleLexed(exact, start, PiecesList(p.pieces), p.open, TokensOf(p.inner), Pending(p.inner), Until(p));
  }

  lemma ClosedHoleList(p: Pieces)
    requires p.Hole?
    ensures PiecesList(p) == PiecesList(p.pieces) + [p.open] + TokensOf(p.inner) + [p.close]
  {
  }

  lemma {:induction false} ClosedHoleCovers(t: string, exact: bool, start: nat, p: Pieces)
    requires p.Hole? && PiecesOk(t, start, p) && (exact ==> NoHole(t))
    ensures Lexed(exact, PiecesList(p), start, Until(p))
    decreases p, 0
  {
    HoleIsHole(t, p.open);
    PiecesCover(t, exact, start, p.pieces);
    ReadingIsLexed(t, true, exact, p.open.start + 2, p.inner);
    ClosedHoleLexed(exact, start, PiecesList(p.pieces), p.open, TokensOf(p.inner), Pending(p.inner), p.close);
    ClosedHoleList(p);
  }

  lemma {:induction false} ReadingIsLexed(t: string, hole: bool, exact: bool, low: nat, r: Reading)
    requires ReadingOk(t, hole, low, r) && (exact ==> NoHole(t))
    ensures LexedWith(exact, TokensOf(r), Pending(r), low, Reached(low, r))
    decreases r
  {
    match r
    case Nothing =>
    case Skipped(before, trivia) =>
      ReadingIsLexed(t, hole, exact, low, before);
      TriviaLexed(exact, TokensOf(before), Pending(before), trivia, low);
    case Plain(before, token) =>
      ReadingIsLexed(t, hole, exact, low, before);
      PushedLexed(exact, TokensOf(before), Pending(before), token, low);
      NoPending(exact, TokensOf(r), low, EndOf(token));
    case Interpolated(before, text) =>
      ReadingIsLexed(t, hole, exact, low, before);
      PiecesCover(t, exact, Reached(low, before), text);
      TextCovers(t, exact, low, before, text, Reached(low, before));
      NoPending(exact, TokensOf(r), low, Until(text));
  }

  lemma TextList(before: Reading, text: Pieces)
    ensures var list := PiecesList(text);
            TokensOf(Interpolated(before, text)) ==
            Pushed(TokensOf(before), list[0].(leadingTrivia := Pending(before))) + list[1..]
  {
  }

  lemma TextCovers(t: string, exact: bool, low: nat, before: Reading, text: Pieces, start: nat)
    requires LexedWith(exact, TokensOf(before), Pending(before), low, start)
    requires PiecesOk(t, start, text) && Lexed(exact, PiecesList(text), start, Until(text))
    ensures Lexed(exact, TokensOf(Interpolated(before, text)), low, Until(text))
  {
    FirstPiece(t, start, text);
    ListLexed(exact, TokensOf(before), Pending(before), PiecesList(text), low, start, Until(text));
    TextList(before, text);
  }

  // ---------------------------------------------------------------------------------------------
  // Separators.

  /** Every piece but the quotes that close a string ends no statement. */
  lemma {:induction false} PiecesSeparated(t: string, start: nat, p: Pieces)
    requires PiecesOk(t, start, p)
    ensures SeparatorsOk(PiecesList(p))
    decreases p, 1
  {
    match p
    case Opening(first) =>
      AppendedOk([], first);
      assert [] + [first] == PiecesList(p);
    case Piece(pieces, piece) =>
      PiecesSeparated(t, start, pieces);
      AppendedOk(PiecesList(pieces), piece);
    case CutHole(_, _, _) => CutHoleSeparated(t, start, p);
    case Hole(_, _, _, _) => ClosedHoleSeparated(t, start, p);
    case Closed(pieces, last) =>
      PiecesSeparated(t, start, pieces);
      AppendedOk(PiecesList(pieces), last);
  }

  lemma {:induction false} CutHoleSeparated(t: string, start: nat, p: Pieces)
    requires p.CutHole? && PiecesOk(t, start, p)
    ensures SeparatorsOk(PiecesList(p))
    decreases p, 0
  {
    PiecesSeparated(t, start, p.pieces);
    ReadingIsSeparated(t, true, p.open.start + 2, p.inner);
    HoleSeparated(PiecesList(p.pieces), p.open, TokensOf(p.inner));
  }

  lemma {:induction false} ClosedHoleSeparated(t: string, start: nat, p: Pieces)
    requires p.Hole? && PiecesOk(t, start, p)
    ensures SeparatorsOk(PiecesList(p))
    decreases p, 0
  {
    PiecesSeparated(t, start, p.pieces);
    ReadingIsSeparated(t, true, p.open.start + 2, p.inner);
    ClosedSeparated(PiecesList(p.pieces), p.open, TokensOf(p.inner), p.close);
  }

  lemma HoleSeparated(tokens: seq<Token>, open: Token, inner: seq<Token>)
    requires SeparatorsOk(tokens) && SeparatorsOk(inner)
    requires open.kind.InterpolationStart? && !open.isVirtual && open.leadingTrivia == []
    ensures SeparatorsOk(tokens + [open] + inner)
  {
    AppendedOk(tokens, open);
    assert (tokens + [open])[|tokens|] == open;
    AppendListOk(tokens + [open], inner);
  }

  lemma ClosedSeparated(tokens: seq<Token>, open: Token, inner: seq<Token>, close: Token)
    requires SeparatorsOk(tokens) && SeparatorsOk(inner) && !close.isVirtual && close.leadingTrivia == []
    requires open.kind.InterpolationStart? && !open.isVirtual && open.leadingTrivia == []
    ensures SeparatorsOk(tokens + [open] + inner + [close])
  {
    HoleSeparated(tokens, open, inner);
    AppendedOk(tokens + [open] + inner, close);
  }

  lemma {:induction false} ReadingIsSeparated(t: string, hole: bool, low: nat, r: Reading)
    requires ReadingOk(t, hole, low, r)
    ensures SeparatorsOk(TokensOf(r))
    decreases r
  {
    match r
    case Nothing =>
    case Skipped(before, _) => ReadingIsSeparated(t, hole, low, before);
    case Plain(before, token) =>
      ReadingIsSeparated(t, hole, low, before);
      PushedOk(TokensOf(before), token.(leadingTrivia := Pending(before)));
    case Interpolated(before, text) =>
      ReadingIsSeparated(t, hole, low, before);
      PiecesSeparated(t, Reached(low, before), text);
      PushedListOk(TokensOf(before), Pending(before), PiecesList(text));
  }

  // ---------------------------------------------------------------------------------------------
  // The whole text.

  /** The tokens of a reading of the whole text, and behind them the token that ends the file. */
  ghost predicate IsReadingOf(t: string, tokens: seq<Token>, r: Reading) {
    && ReadingOk(t, false, 0, r) && Reached(0, r) == |t|
    && tokens == TokensOf(r) + [Token(EndOfFile, |t|, 0, false, Pending(r))]
  }

  ghost predicate IsReading(t: string, tokens: seq<Token>) {
    exists r :: IsReadingOf(t, tokens, r)
  }

  /** The slices of trivia and tokens, one after the other, are the text. */
  ghost predicate Rebuilds(t: string, tokens: seq<Token>) {
    && (forall i {:trigger Spans(tokens)[i]} :: 0 <= i < |Spans(tokens)| ==> End(Spans(tokens)[i]) <= |t|)
    && Rebuilt(t, Spans(tokens)) == t
  }

  lemma ReadingCovers(t: string, tokens: seq<Token>, r: Reading)
    requires IsReadingOf(t, tokens, r)
    ensures InOrder(NoHole(t), Spans(tokens), 0, |t|) && SeparatorsOk(tokens) && (NoHole(t) ==> Rebuilds(t, tokens))
  {
    var end := Token(EndOfFile, |t|, 0, false, Pending(r));
    ReadingIsSeparated(t, false, 0, r);
    ReadingIsLexed(t, false, NoHole(t), 0, r);
    EndCovers(t, TokensOf(r), end);
  }

  lemma EndCovers(t: string, tokens: seq<Token>, end: Token)
    requires SeparatorsOk(tokens) && LexedWith(NoHole(t), tokens, end.leadingTrivia, 0, |t|)
    requires IsToken(end, EndOfFile, |t|, |t|)
    ensures var all := tokens + [end];
            InOrder(NoHole(t), Spans(all), 0, |t|) && SeparatorsOk(all) && (NoHole(t) ==> Rebuilds(t, all))
  {
    PushedOk(tokens, end);
    PushedLexed(NoHole(t), tokens, end.leadingTrivia, end, 0);
    assert end.(leadingTrivia := end.leadingTrivia) == end && Pushed(tokens, end) == tokens + [end];
    LexedRebuilds(t, tokens + [end]);
  }

  lemma LexedRebuilds(t: string, tokens: seq<Token>)
    requires Lexed(NoHole(t), tokens, 0, |t|)
    ensures InOrder(NoHole(t), Spans(tokens), 0, |t|) && (NoHole(t) ==> Rebuilds(t, tokens))
  {
    CoversInOrder(NoHole(t), Spans(tokens), 0, |t|);
    if NoHole(t) {
      CoveringRebuilds(t, Spans(tokens), |t|);
      assert t[..|t|] == t;
    }
  }
}
