/** Interpolated strings, their holes, and the whole text. */
module LexerDriver {
  import opened Tokens
  import opened Lexer
  import opened LexerLaws
  import opened LexerCoverage

  /** pushToken: inserts the separator a line break asks for. */
  method PushToken(tokens: seq<Token>, token: Token, hadLeadingNewline: bool) returns (pushed: seq<Token>)
    requires hadLeadingNewline == HasNewline(token.leadingTrivia)
    ensures pushed == Pushed(tokens, token)
  {
    if hadLeadingNewline && tokens != [] &&
       CanEndStatement(tokens[|tokens| - 1].kind) && CanStartStatement(token.kind) {
      var separator := Token(Semicolon, token.start, 0, true, []);
      return tokens + [separator] + [token];
    }
    return tokens + [token];
  }

  /** The string's tokens so far, and where they end. */
  ghost predicate StringState(t: string, start: nat, tokens: seq<Token>, p: Pieces, at: nat) {
    PiecesOk(t, start, p) && !p.Closed? && PiecesList(p) == tokens && Until(p) == at <= |t|
  }

  lemma MorePiece(t: string, start: nat, tokens: seq<Token>, p: Pieces, piece: Token, end: nat)
    requires StringState(t, start, tokens, p, piece.start) && piece.leadingTrivia == []
    requires PieceAt(t, IsTriple(t, start), piece, end) || NameAt(t, piece, end)
    ensures StringState(t, start, tokens + [piece], Piece(p, piece), end)
  {
  }

  lemma HoleList(p: Pieces, open: Token, inner: Reading, close: Token)
    ensures PiecesList(CutHole(p, open, inner)) == PiecesList(p) + [open] + TokensOf(inner)
    ensures PiecesList(Hole(p, open, inner, close)) == PiecesList(p) + [open] + TokensOf(inner) + [close]
  {
  }

  lemma CutHoleOk(t: string, start: nat, p: Pieces, open: Token, inner: Reading)
    requires PiecesOk(t, start, p) && Follows(p, open) && OpensHole(t, open)
    requires ReadingOk(t, true, open.start + 2, inner) && Reached(open.start + 2, inner) == |t|
    ensures PiecesOk(t, start, CutHole(p, open, inner))
  {
  }

  lemma HoleOk(t: string, start: nat, p: Pieces, open: Token, inner: Reading, close: Token)
    requires PiecesOk(t, start, p) && Follows(p, open) && OpensHole(t, open)
    requires ReadingOk(t, true, open.start + 2, inner) && Depth(t, inner) == 1
    requires Reached(open.start + 2, inner) == close.start && ClosesHole(t, close)
    ensures PiecesOk(t, start, Hole(p, open, inner, close))
  {
  }

  /** The part of an interpolated string read so far. */
  method EmitPart(t: string, start: nat, tokens: seq<Token>, ghost p: Pieces, partStart: nat, partEnd: nat)
      returns (all: seq<Token>, ghost more: Pieces)
    requires StringState(t, start, tokens, p, partStart) && partEnd == PieceEnd(t, IsTriple(t, start), partStart)
    ensures StringState(t, start, all, more, partEnd)
  {
    if partEnd <= partStart {
      return tokens, p;
    }
    var part := MakeToken(InterpolatedStringPart, partStart, partEnd);
    MorePiece(t, start, tokens, p, part, partEnd);
    all, more := tokens + [part], Piece(p, part);
  }

  /** The prefix of an interpolated string and its quotes. */
  method OpenString(t: string, start: nat)
      returns (tripleQuoted: bool, tokens: seq<Token>, index: nat, ghost p: Pieces)
    requires IsInterpolationPrefix(t, start)
    ensures start < index && tripleQuoted == IsTriple(t, start) && StringState(t, start, tokens, p, index)
  {
    var quoteStart := start + if t[start] == 'r' then 3 else 1;
    tripleQuoted := TripleQuote(t, quoteStart);
    index := quoteStart + if tripleQuoted then 3 else 1;
    var first := MakeToken(InterpolatedStringStart, start, index);
    tokens, p := [first], Opening(first);
  }

  method LexInterpolatedString(t: string, start: nat) returns (tokens: seq<Token>, index: nat, ghost p: Pieces)
    requires IsInterpolationPrefix(t, start)
    ensures start < index <= |t| && StringOk(t, start, p) && PiecesList(p) == tokens && Until(p) == index
    decreases |t| - start, 0
  {
    var tripleQuoted;
    tripleQuoted, tokens, index, p := OpenString(t, start);
    var partStart := index;
    while index < |t|
      invariant start < partStart <= index <= |t|
      invariant StringState(t, start, tokens, p, partStart)
      invariant PieceEnd(t, tripleQuoted, index) == PieceEnd(t, tripleQuoted, partStart)
      decreases |t| - index
    {
      if tripleQuoted {
        if TripleQuote(t, index) {
          tokens, index, p := CloseString(t, start, tokens, p, partStart, index, index + 3);
          return;
        }
      } else {
        if t[index] == '\n' {
          break;
        }
        if t[index] == '"' {
          tokens, index, p := CloseString(t, start, tokens, p, partStart, index, index + 1);
          return;
        }
        if t[index] == '\\' && index + 1 < |t| {
          index := index + 2;
          continue;
        }
      }
      if t[index] == '$' && index + 1 < |t| {
        if IsIdentifierStart(t[index + 1]) {
          tokens, index, p := LexInterpolationIdentifier(t, start, tokens, p, partStart, index);
          partStart := index;
          continue;
        }
        if t[index + 1] == '{' {
          tokens, index, p := LexHole(t, start, tokens, p, partStart, index);
          partStart := index;
          continue;
        }
      }
      index := index + 1;
    }
    tokens, p := EmitPart(t, start, tokens, p, partStart, index);
  }

  method CloseString(t: string, start: nat, tokens: seq<Token>, ghost p: Pieces, partStart: nat, index: nat, end: nat)
      returns (all: seq<Token>, after: nat, ghost closed: Pieces)
    requires StringState(t, start, tokens, p, partStart) && index == PieceEnd(t, IsTriple(t, start), partStart)
    requires index < end && ClosesString(t, IsTriple(t, start), MakeToken(InterpolatedStringEnd, index, end), end)
    ensures after == end && StringOk(t, start, closed) && PiecesList(closed) == all && Until(closed) == end
  {
    var before;
    before, closed := EmitPart(t, start, tokens, p, partStart, index);
    var token := MakeToken(InterpolatedStringEnd, index, end);
    all, after, closed := before + [token], end, Closed(closed, token);
  }

  method LexInterpolationIdentifier(t: string, start: nat, tokens: seq<Token>, ghost p: Pieces, partStart: nat,
                                    index: nat) returns (all: seq<Token>, after: nat, ghost more: Pieces)
    requires StringState(t, start, tokens, p, partStart) && index == PieceEnd(t, IsTriple(t, start), partStart)
    requires index + 1 < |t| && t[index] == '$' && IsIdentifierStart(t[index + 1])
    ensures index < after && StringState(t, start, all, more, after)
  {
    var before;
    before, more := EmitPart(t, start, tokens, p, partStart, index);
    after := SkipIdentifierParts(t, index + 2);
    var token := MakeToken(InterpolationIdentifier, index, after);
    MorePiece(t, start, before, more, token, after);
    all, more := before + [token], Piece(more, token);
  }

  /** A hole from its opening to its closing brace, if it has one. */
  method LexHole(t: string, start: nat, tokens: seq<Token>, ghost p: Pieces, partStart: nat, index: nat)
      returns (all: seq<Token>, after: nat, ghost more: Pieces)
    requires StringState(t, start, tokens, p, partStart) && index == PieceEnd(t, IsTriple(t, start), partStart)
    requires start < index && index + 1 < |t| && t[index] == '$' && t[index + 1] == '{'
    ensures index < after && StringState(t, start, all, more, after)
    decreases |t| - index, 4
  {
    var before;
    before, more := EmitPart(t, start, tokens, p, partStart, index);
    var open := MakeToken(InterpolationStart, index, index + 2);
    var expression;
    ghost var inner;
    expression, after, inner := LexInterpolationExpression(t, index + 2);
    all, after, more := EndHole(t, start, before, more, open, expression, inner, after);
  }

  /** The closing brace of a hole, if it has one. */
  method EndHole(t: string, start: nat, tokens: seq<Token>, ghost p: Pieces, open: Token, expression: seq<Token>,
                 ghost inner: Reading, index: nat) returns (all: seq<Token>, after: nat, ghost more: Pieces)
    requires StringState(t, start, tokens, p, open.start) && OpensHole(t, open) && open.leadingTrivia == []
    requires ReadingOk(t, true, open.start + 2, inner) && TokensOf(inner) == expression
    requires Reached(open.start + 2, inner) == index <= |t| && (index < |t| ==> t[index] == '}' && Depth(t, inner) == 1)
    ensures index <= after && StringState(t, start, all, more, after)
  {
    if CharAt(t, index, '}') {
      var close := MakeToken(InterpolationEnd, index, index + 1);
      HoleList(p, open, inner, close);
      HoleOk(t, start, p, open, inner, close);
      return tokens + [open] + expression + [close], index + 1, Hole(p, open, inner, close);
    }
    HoleList(p, open, inner, open);
    CutHoleOk(t, start, p, open, inner);
    return tokens + [open] + expression, index, CutHole(p, open, inner);
  }

  /** What has been read from `low` on, and the trivia in front of the next token. */
  ghost predicate State(t: string, hole: bool, low: nat, tokens: seq<Token>, r: Reading, pending: seq<Trivia>,
                        index: nat) {
    ReadingOk(t, hole, low, r) && TokensOf(r) == tokens && Pending(r) == pending && Reached(low, r) == index
  }

  lemma MoreTrivia(t: string, hole: bool, low: nat, tokens: seq<Token>, r: Reading, pending: seq<Trivia>, start: nat,
                   trivia: Trivia, index: nat)
    requires State(t, hole, low, tokens, r, pending, start) && TriviaAt(t, start, trivia, index)
    ensures State(t, hole, low, tokens, Skipped(r, trivia), pending + [trivia], index)
    ensures Depth(t, Skipped(r, trivia)) == Depth(t, r)
    ensures HasNewline(pending + [trivia]) == (HasNewline(pending) || trivia.containsNewline)
  {
    NewlineAppended(pending, trivia);
  }

  /** The tokens of a hole up to its closing brace; trivia before that brace is dropped. */
  method LexInterpolationExpression(t: string, start: nat) returns (tokens: seq<Token>, index: nat, ghost r: Reading)
    requires start <= |t|
    ensures start <= index <= |t|
    ensures ReadingOk(t, true, start, r) && TokensOf(r) == tokens && Reached(start, r) == index
    ensures index < |t| ==> t[index] == '}' && Depth(t, r) == 1
    decreases |t| - start, 3
  {
    tokens, index, r := [], start, Nothing;
    var pending: seq<Trivia>, pendingNewline := [], false;
    var braceDepth := 1;
    while index < |t| && !(t[index] == '}' && braceDepth == 1)
      invariant start <= index <= |t| && braceDepth >= 1 && pendingNewline == HasNewline(pending)
      invariant State(t, true, start, tokens, r, pending, index) && braceDepth == Depth(t, r)
      decreases |t| - index
    {
      if StartsTrivia(t, index) {
        var trivia, next := LexTrivia(t, index);
        MoreTrivia(t, true, start, tokens, r, pending, index, trivia, next);
        pending, pendingNewline, index := pending + [trivia], pendingNewline || trivia.containsNewline, next;
        r := Skipped(r, trivia);
      } else {
        if t[index] == '{' {
          braceDepth := braceDepth + 1;
        } else if t[index] == '}' {
          braceDepth := braceDepth - 1;
        }
        tokens, index, r := LexNext(t, true, start, tokens, r, pending, pendingNewline, index);
        pending, pendingNewline := [], false;
      }
    }
  }

  lemma MorePlain(t: string, hole: bool, low: nat, tokens: seq<Token>, r: Reading, pending: seq<Trivia>, token: Token)
    requires State(t, hole, low, tokens, r, pending, token.start) && PlainAt(t, token)
    requires hole ==> Depth(t, r) + BraceAt(t, token.start) > 0
    ensures State(t, hole, low, Pushed(tokens, token.(leadingTrivia := pending)), Plain(r, token), [], EndOf(token))
    ensures Depth(t, Plain(r, token)) == Depth(t, r) + BraceAt(t, token.start)
  {
  }

  lemma MoreText(t: string, hole: bool, low: nat, tokens: seq<Token>, r: Reading, pending: seq<Trivia>, start: nat,
                 list: seq<Token>, p: Pieces)
    requires State(t, hole, low, tokens, r, pending, start) && StringOk(t, start, p) && PiecesList(p) == list
    ensures State(t, hole, low, Pushed(tokens, list[0].(leadingTrivia := pending)) + list[1..], Interpolated(r, p), [],
                  Until(p))
    ensures Depth(t, Interpolated(r, p)) == Depth(t, r)
  {
  }

  /** One token, or one interpolated string, pushed with its trivia. */
  method LexNext(t: string, ghost hole: bool, ghost low: nat, tokens: seq<Token>, ghost r: Reading,
                 pending: seq<Trivia>, pendingNewline: bool, start: nat)
      returns (all: seq<Token>, index: nat, ghost more: Reading)
    requires start < |t| && pendingNewline == HasNewline(pending) && !StartsTrivia(t, start)
    requires State(t, hole, low, tokens, r, pending, start) && (hole ==> Depth(t, r) + BraceAt(t, start) > 0)
    ensures start < index <= |t| && State(t, hole, low, all, more, [], index)
    ensures Depth(t, more) == Depth(t, r) + BraceAt(t, start)
    decreases |t| - start, 1
  {
    if IsInterpolationPrefix(t, start) {
      var list;
      ghost var p;
      list, index, p := LexInterpolatedString(t, start);
      MoreText(t, hole, low, tokens, r, pending, start, list, p);
      all := PushToken(tokens, list[0].(leadingTrivia := pending), pendingNewline);
      all, more := all + list[1..], Interpolated(r, p);
    } else {
      var token;
      token, index := LexToken(t, start);
      assert EndOf(token) == index;
      MorePlain(t, hole, low, tokens, r, pending, token);
      all := PushToken(tokens, token.(leadingTrivia := pending), pendingNewline);
      more := Plain(r, token);
    }
  }

  /** Every span is in order, disjoint and inside the text; without holes nothing of the text is lost. */
  method Lex(t: string) returns (tokens: seq<Token>)
    ensures IsReading(t, tokens)
    ensures InOrder(NoHole(t), Spans(tokens), 0, |t|) && SeparatorsOk(tokens)
    ensures NoHole(t) ==> Rebuilds(t, tokens)
  {
    tokens := [];
    ghost var r := Nothing;
    var pending: seq<Trivia>, pendingNewline := [], false;
    var index := 0;
    while index < |t|
      invariant 0 <= index <= |t| && pendingNewline == HasNewline(pending)
      invariant State(t, false, 0, tokens, r, pending, index)
      decreases |t| - index
    {
      if StartsTrivia(t, index) {
        var trivia, next := LexTrivia(t, index);
        MoreTrivia(t, false, 0, tokens, r, pending, index, trivia, next);
        pending, pendingNewline, index := pending + [trivia], pendingNewline || trivia.containsNewline, next;
        r := Skipped(r, trivia);
      } else {
        tokens, index, r := LexNext(t, false, 0, tokens, r, pending, pendingNewline, index);
        pending, pendingNewline := [], false;
      }
    }
    tokens := PushToken(tokens, MakeToken(EndOfFile, |t|, |t|).(leadingTrivia := pending), pendingNewline);
    assert IsReadingOf(t, tokens, r);
    ReadingCovers(t, tokens, r);
  }
}
