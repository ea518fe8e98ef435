/** What a list of tokens has to be for it to be the reading of a text: every token, every piece of an interpolated
    string and every hole ends where it must. */
module LexerLaws {
  import opened Tokens
  import opened Lexer

  // ---------------------------------------------------------------------------------------------
  // Pieces of interpolated strings.

  /** Plain text ends here: a quote, the end of a line, or the start of a name or a hole. */
  predicate PieceStops(t: string, triple: bool, k: nat)
    requires k < |t|
  {
    || (if triple then TripleQuote(t, k) else t[k] == '"' || t[k] == '\n')
    || (t[k] == '$' && k + 1 < |t| && (IsIdentifierStart(t[k + 1]) || t[k + 1] == '{'))
  }

  /** The end of the plain text of an interpolated string from i on; between single quotes a backslash takes the next
      character with it. */
  function PieceEnd(t: string, triple: bool, i: nat): (end: nat)
    requires i <= |t|
    ensures i <= end <= |t|
    decreases |t| - i
  {
    if i == |t| || PieceStops(t, triple, i) then i
    else if !triple && t[i] == '\\' && i + 1 < |t| then PieceEnd(t, triple, i + 2)
    else PieceEnd(t, triple, i + 1)
  }

  /** That is the first place to stop that is not escaped. */
  lemma {:induction false} PieceEndsFirst(t: string, triple: bool, i: nat)
    requires i <= |t|
    ensures var end := PieceEnd(t, triple, i);
            && (end < |t| ==> PieceStops(t, triple, end) && (triple || !Escaped(t, i, end)))
            && forall k :: i <= k < end ==> !PieceStops(t, triple, k) || (!triple && Escaped(t, i, k))
    decreases |t| - i
  {
    var end := PieceEnd(t, triple, i);
    if i < |t| && !PieceStops(t, triple, i) {
      var next := if !triple && t[i] == '\\' && i + 1 < |t| then i + 2 else i + 1;
      PieceEndsFirst(t, triple, next);
      if !triple && next < |t| {
        assert !Escaped(t, i, i) && (next == i + 2 ==> Escaped(t, i, i + 1)) && !Escaped(t, i, next);
        forall k | next <= k <= end ensures Escaped(t, i, k) == Escaped(t, next, k) {
          EscapedFrom(t, i, next, k);
        }
      }
    }
  }

  function PrefixLength(t: string, start: nat): nat {
    if CharAt(t, start, 'r') then 3 else 1
  }

  predicate IsTriple(t: string, start: nat) {
    TripleQuote(t, start + PrefixLength(t, start))
  }

  function OpeningLength(t: string, start: nat): nat {
    PrefixLength(t, start) + if IsTriple(t, start) then 3 else 1
  }

  predicate IsToken(token: Token, kind: TokenKind, start: nat, end: nat) {
    start <= end && token.kind == kind && token.start == start && token.length == end - start && !token.isVirtual
  }

  predicate OpensHole(t: string, token: Token) {
    && token.start + 1 < |t| && IsToken(token, InterpolationStart, token.start, token.start + 2)
    && t[token.start] == '$' && t[token.start + 1] == '{'
  }

  predicate ClosesHole(t: string, token: Token) {
    CharAt(t, token.start, '}') && IsToken(token, InterpolationEnd, token.start, token.start + 1) &&
    token.leadingTrivia == []
  }

  predicate ClosesString(t: string, triple: bool, last: Token, at: nat) {
    at <= |t| && IsToken(last, InterpolatedStringEnd, last.start, at) &&
    if triple then TripleQuote(t, last.start) && last.length == 3 else CharAt(t, last.start, '"') && last.length == 1
  }

  predicate PieceAt(t: string, triple: bool, last: Token, at: nat) {
    && last.start < at <= |t| && IsToken(last, InterpolatedStringPart, last.start, at)
    && at == PieceEnd(t, triple, last.start)
  }

  predicate NameAt(t: string, last: Token, at: nat) {
    && last.start + 1 < at <= |t| && IsToken(last, InterpolationIdentifier, last.start, at) && t[last.start] == '$'
    && IsIdentifierStart(t[last.start + 1]) && PartsEnd(t, last.start + 1, at)
  }

  /** A token outside of interpolated strings. */
  ghost predicate PlainAt(t: string, token: Token) {
    && !token.isVirtual && token.leadingTrivia == []
    && !IsInterpolationPrefix(t, token.start) && !StartsTrivia(t, token.start)
    && TokenAt(t, token.start, token.kind, token.start + token.length)
  }

  /** How the token at this offset changes the number of open braces. */
  function BraceAt(t: string, i: nat): int {
    if CharAt(t, i, '{') then 1 else if CharAt(t, i, '}') then -1 else 0
  }

  // ---------------------------------------------------------------------------------------------
  // Readings: how a list of tokens is made up.

  /** Trivia, tokens and interpolated strings, one after the other. */
  datatype Reading =
    | Nothing
    | Skipped(before: Reading, trivia: Trivia)
    | Plain(before: Reading, token: Token)
    | Interpolated(before: Reading, text: Pieces)

  /** The opening of an interpolated string and its pieces, names and holes. */
  datatype Pieces =
    | Opening(first: Token)
    | Piece(pieces: Pieces, piece: Token)
    | CutHole(pieces: Pieces, open: Token, inner: Reading)
    | Hole(pieces: Pieces, open: Token, inner: Reading, close: Token)
    | Closed(pieces: Pieces, last: Token)

  /** Trivia waits for the next token; at the end of a hole it is dropped. */
  function Pending(r: Reading): seq<Trivia> {
    match r
    case Skipped(before, trivia) => Pending(before) + [trivia]
    case _ => []
  }

  function PiecesList(p: Pieces): (r: seq<Token>)
    ensures r != []
  {
    match p
    case Opening(first) => [first]
    case Piece(pieces, piece) => PiecesList(pieces) + [piece]
    case CutHole(pieces, open, inner) => PiecesList(pieces) + [open] + TokensOf(inner)
    case Hole(pieces, open, inner, close) => PiecesList(pieces) + [open] + TokensOf(inner) + [close]
    case Closed(pieces, last) => PiecesList(pieces) + [last]
  }

  /** Every token, and the first one of every string, is pushed with the trivia in front of it. */
  function TokensOf(r: Reading): seq<Token> {
    match r
    case Nothing => []
    case Skipped(before, _) => TokensOf(before)
    case Plain(before, token) => Pushed(TokensOf(before), token.(leadingTrivia := Pending(before)))
    case Interpolated(before, text) =>
      var list := PiecesList(text);
      Pushed(TokensOf(before), list[0].(leadingTrivia := Pending(before))) + list[1..]
  }

  function EndOf(token: Token): nat {
    token.start + token.length
  }

  /** Where pieces end, and where a reading that starts at `low` does. */
  function Until(p: Pieces): nat
    decreases p
  {
    match p
    case Opening(first) => EndOf(first)
    case Piece(_, piece) => EndOf(piece)
    case CutHole(_, open, inner) => Reached(open.start + 2, inner)
    case Hole(_, _, _, close) => EndOf(close)
    case Closed(_, last) => EndOf(last)
  }

  function Reached(low: nat, r: Reading): nat
    decreases r
  {
    match r
    case Nothing => low
    case Skipped(_, trivia) => trivia.start + trivia.length
    case Plain(_, token) => EndOf(token)
    case Interpolated(_, text) => Until(text)
  }

  /** Open braces, the one that opens a hole included. */
  function Depth(t: string, r: Reading): int {
    match r
    case Nothing => 1
    case Skipped(before, _) => Depth(t, before)
    case Plain(before, token) => Depth(t, before) + BraceAt(t, token.start)
    case Interpolated(before, _) => Depth(t, before)
  }

  /** Pieces can go on with this token. */
  predicate Follows(p: Pieces, token: Token) {
    !p.Closed? && token.start == Until(p) && token.leadingTrivia == []
  }

  /** Every piece of the string that starts at `start` ends where it must. */
  ghost predicate PiecesOk(t: string, start: nat, p: Pieces)
    decreases p, 0
  {
    match p
    case Opening(first) =>
      && IsInterpolationPrefix(t, start) && first.leadingTrivia == []
      && IsToken(first, InterpolatedStringStart, start, start + OpeningLength(t, start))
    case Piece(pieces, piece) =>
      && PiecesOk(t, start, pieces) && Follows(pieces, piece)
      && (PieceAt(t, IsTriple(t, start), piece, EndOf(piece)) || NameAt(t, piece, EndOf(piece)))
    case CutHole(pieces, open, inner) =>
      && PiecesOk(t, start, pieces) && Follows(pieces, open) && OpensHole(t, open)
      && ReadingOk(t, true, open.start + 2, inner) && Until(p) == |t|
    case Hole(pieces, open, inner, close) =>
      && PiecesOk(t, start, pieces) && Follows(pieces, open) && OpensHole(t, open)
      && ReadingOk(t, true, open.start + 2, inner) && Depth(t, inner) == 1
      && close.start == Reached(open.start + 2, inner) && ClosesHole(t, close)
    case Closed(pieces, last) =>
      PiecesOk(t, start, pieces) && Follows(pieces, last) && ClosesString(t, IsTriple(t, start), last, EndOf(last))
  }

  /** A string is closed by its quotes, or cut off at the end of the line or of the text. */
  ghost predicate StringOk(t: string, start: nat, p: Pieces)
    decreases p, 1
  {
    PiecesOk(t, start, p) &&
    (p.Closed? || Until(p) == |t| || (!IsTriple(t, start) && CharAt(t, Until(p), '\n')))
  }

  /** Every token is read as it must be, and in a hole no brace closes it. */
  ghost predicate ReadingOk(t: string, hole: bool, low: nat, r: Reading)
    decreases r
  {
    match r
    case Nothing => true
    case Skipped(before, trivia) =>
      && ReadingOk(t, hole, low, before) && trivia.start == Reached(low, before)
      && TriviaAt(t, trivia.start, trivia, trivia.start + trivia.length)
    case Plain(before, token) =>
      && ReadingOk(t, hole, low, before) && token.start == Reached(low, before)
      && PlainAt(t, token) && (hole ==> Depth(t, r) > 0)
    case Interpolated(before, text) =>
      ReadingOk(t, hole, low, before) && StringOk(t, Reached(low, before), text)
  }

  lemma {:induction false} FirstPiece(t: string, start: nat, p: Pieces)
    requires PiecesOk(t, start, p)
    ensures PiecesList(p)[0].start == start && PiecesList(p)[0].kind.InterpolatedStringStart?
    ensures !PiecesList(p)[0].isVirtual && PiecesList(p)[0].leadingTrivia == []
  {
    match p
    case Opening(_) =>
    case Piece(pieces, _) => FirstPiece(t, start, pieces);
    case CutHole(pieces, _, _) => FirstPiece(t, start, pieces);
    case Hole(pieces, _, _, _) => FirstPiece(t, start, pieces);
    case Closed(pieces, _) => FirstPiece(t, start, pieces);
  }

  lemma HoleIsHole(t: string, open: Token)
    requires OpensHole(t, open)
    ensures !NoHole(t)
  {
    assert HoleAt(t, open.start);
  }
}
