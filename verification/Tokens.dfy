/** Tokens, trivia and what a token list must look like for a source text. */
module Tokens {

  datatype TokenKind =
    | EndOfFile | Identifier | Keyword(word: string) | IntegerLiteral | FloatingLiteral | StringLiteral | CharLiteral
    | SymbolLiteral | InterpolatedStringStart | InterpolatedStringPart | InterpolatedStringEnd
    | InterpolationIdentifier | InterpolationStart | InterpolationEnd
    | Bracket(bracket: char) | Semicolon | Colon | Comma | Dot | Equals | Arrow | At | Operator | Unknown

  datatype TriviaKind = Newline | Whitespace | LineComment | BlockComment

  datatype Trivia = Trivia(kind: TriviaKind, start: nat, length: nat, containsNewline: bool)

  datatype Token = Token(kind: TokenKind, start: nat, length: nat, isVirtual: bool, leadingTrivia: seq<Trivia>)

  predicate CanEndStatement(kind: TokenKind) {
    match kind
    case Identifier => true
    case IntegerLiteral => true
    case FloatingLiteral => true
    case StringLiteral => true
    case CharLiteral => true
    case SymbolLiteral => true
    case InterpolatedStringEnd => true
    case Keyword(word) => word in ["false", "null", "this", "true"]
    case Bracket(c) => c == '}' || c == ')' || c == ']'
    case _ => false
  }

  const STATEMENT_KEYWORDS := [
    "case", "try", "class", "def", "false", "for", "given", "if", "import", "implicit", "new", "null", "object",
    "override", "return", "sealed", "throw", "this", "trait", "true", "type", "val", "var", "while"]

  predicate CanStartStatement(kind: TokenKind) {
    match kind
    case Identifier => true
    case IntegerLiteral => true
    case FloatingLiteral => true
    case StringLiteral => true
    case CharLiteral => true
    case SymbolLiteral => true
    case InterpolatedStringStart => true
    case Keyword(word) => word in STATEMENT_KEYWORDS
    case Bracket(c) => c == '{' || c == '}'
    case _ => false
  }

  // ---------------------------------------------------------------------------------------------
  // Spans.

  datatype Span = Span(start: nat, length: nat)

  function TriviaSpans(trivia: seq<Trivia>): seq<Span> {
    if trivia == [] then []
    else
      var last := trivia[|trivia| - 1];
      TriviaSpans(trivia[..|trivia| - 1]) + [Span(last.start, last.length)]
  }

  function TokenSpans(token: Token): seq<Span> {
    if token.isVirtual then [] else TriviaSpans(token.leadingTrivia) + [Span(token.start, token.length)]
  }

  /** The spans of all trivia and all tokens but the inserted separators, in order. */
  function Spans(tokens: seq<Token>): seq<Span> {
    if tokens == [] then [] else Spans(tokens[..|tokens| - 1]) + TokenSpans(tokens[|tokens| - 1])
  }

  function End(s: Span): nat {
    s.start + s.length
  }

  /** Each span begins where the one before it ends, or behind; the first is measured from low, the last up to high. If
      exact, there are no gaps. */
  predicate Covers(exact: bool, spans: seq<Span>, low: nat, high: nat)
    decreases |spans|
  {
    if spans == [] then if exact then low == high else low <= high
    else
      var last := spans[|spans| - 1];
      && (if exact then End(last) == high else End(last) <= high)
      && Covers(exact, spans[..|spans| - 1], low, last.start)
  }

  /** The spans lie between low and high in order and without overlap; if exact, without gaps as well. */
  ghost predicate InOrder(exact: bool, spans: seq<Span>, low: nat, high: nat) {
    && low <= high
    && (forall i {:trigger spans[i]} :: 0 <= i < |spans| ==> low <= spans[i].start && End(spans[i]) <= high)
    && (forall i, j {:trigger spans[i], spans[j]} :: 0 <= i < j < |spans| ==> End(spans[i]) <= spans[j].start)
    && (exact ==> WithoutGaps(spans, low, high))
  }

  lemma {:induction false} CoversInOrder(exact: bool, spans: seq<Span>, low: nat, high: nat)
    requires Covers(exact, spans, low, high)
    ensures InOrder(exact, spans, low, high)
    decreases |spans|
  {
    if spans == [] {
    } else {
      CoversInOrder(exact, spans[..|spans| - 1], low, spans[|spans| - 1].start);
      InOrderLast(exact, spans, low, high);
    }
  }

  lemma InOrderLast(exact: bool, spans: seq<Span>, low: nat, high: nat)
    requires spans != [] && InOrder(exact, spans[..|spans| - 1], low, spans[|spans| - 1].start)
    requires if exact then End(spans[|spans| - 1]) == high else End(spans[|spans| - 1]) <= high
    ensures InOrder(exact, spans, low, high)
  {
    var rest, last := spans[..|spans| - 1], spans[|spans| - 1];
    forall i | 0 <= i < |rest| ensures spans[i] == rest[i] && End(spans[i]) <= last.start {
    }
    if exact && rest != [] {
      forall i | 0 <= i < |spans| - 1 ensures Meet(spans, i) {
        assert i < |rest| - 1 ==> Meet(rest, i);
        assert spans[i] == rest[i];
      }
    }
  }

  predicate WithoutGaps(spans: seq<Span>, low: nat, high: nat) {
    if spans == [] then low == high
    else
      && spans[0].start == low && End(spans[|spans| - 1]) == high
      && forall i {:trigger Meet(spans, i)} :: 0 <= i < |spans| - 1 ==> Meet(spans, i)
  }

  predicate Meet(spans: seq<Span>, i: nat)
    requires i < |spans| - 1
  {
    End(spans[i]) == spans[i + 1].start
  }

  lemma {:induction false} CoversAppend(exact: bool, a: seq<Span>, b: seq<Span>, low: nat, middle: nat, high: nat)
    requires Covers(exact, a, low, middle) && Covers(exact, b, middle, high)
    ensures Covers(exact, a + b, low, high)
    decreases |b|
  {
    if b == [] {
      assert a + b == a;
      CoversWiden(exact, a, low, middle, high);
    } else {
      var rest, last := b[..|b| - 1], b[|b| - 1];
      CoversAppend(exact, a, rest, low, middle, last.start);
      assert (a + b)[..|a + b| - 1] == a + rest;
    }
  }

  lemma {:induction false} CoversPrefix(a: seq<Span>, b: seq<Span>, low: nat, high: nat)
    requires Covers(false, a + b, low, high)
    ensures Covers(false, a, low, high)
    decreases |b|
  {
    if b == [] {
      assert a + b == a;
    } else {
      var rest, last := b[..|b| - 1], b[|b| - 1];
      assert (a + b)[..|a + b| - 1] == a + rest && (a + b)[|a + b| - 1] == last;
      CoversPrefix(a, rest, low, last.start);
      CoversWiden(false, a, low, last.start, high);
    }
  }

  lemma CoversWiden(exact: bool, spans: seq<Span>, low: nat, high: nat, higher: nat)
    requires Covers(exact, spans, low, high) && if exact then high == higher else high <= higher
    ensures Covers(exact, spans, low, higher)
  {
  }

  lemma CoversOne(exact: bool, low: nat, high: nat)
    requires low <= high
    ensures Covers(exact, [Span(low, high - low)], low, high)
  {
  }

  lemma SpansLast(a: seq<Token>, token: Token)
    ensures Spans(a + [token]) == Spans(a) + TokenSpans(token)
  {
    assert (a + [token])[..|a|] == a;
  }

  lemma {:induction false} SpansConcat(a: seq<Token>, b: seq<Token>)
    ensures Spans(a + b) == Spans(a) + Spans(b)
    decreases |b|
  {
    if b == [] {
      assert a + b == a;
      assert Spans(a) + [] == Spans(a);
    } else {
      var c, last := b[..|b| - 1], b[|b| - 1];
      SpansConcat(a, c);
      assert (a + b)[..|a + b| - 1] == a + c && (a + b)[|a + b| - 1] == last;
      Regroup(Spans(a), Spans(c), TokenSpans(last));
    }
  }

  lemma Regroup(a: seq<Span>, b: seq<Span>, c: seq<Span>)
    ensures (a + b) + c == a + (b + c)
  {
  }

  /** The text at the spans, one after the other. */
  function Rebuilt(text: string, spans: seq<Span>): string
    requires forall i {:trigger spans[i]} :: 0 <= i < |spans| ==> End(spans[i]) <= |text|
  {
    if spans == [] then []
    else
      var last := spans[|spans| - 1];
      assert last.start <= End(last) <= |text|;
      Rebuilt(text, spans[..|spans| - 1]) + text[last.start..End(last)]
  }

  lemma {:induction false} CoveringRebuilds(text: string, spans: seq<Span>, high: nat)
    requires Covers(true, spans, 0, high) && high <= |text|
    ensures forall i {:trigger spans[i]} :: 0 <= i < |spans| ==> End(spans[i]) <= |text|
    ensures Rebuilt(text, spans) == text[..high]
    decreases |spans|
  {
    CoversInOrder(true, spans, 0, high);
    if spans == [] {
    } else {
      var init, last := spans[..|spans| - 1], spans[|spans| - 1];
      CoveringRebuilds(text, init, last.start);
      assert text[..high] == text[..last.start] + text[last.start..high];
    }
  }

  // ---------------------------------------------------------------------------------------------
  // Inserted statement separators.

  predicate HasNewline(trivia: seq<Trivia>) {
    exists i {:trigger trivia[i]} :: 0 <= i < |trivia| && trivia[i].containsNewline
  }

  /** A line break before b ends the statement that a ends. */
  predicate Separates(a: Token, b: Token) {
    HasNewline(b.leadingTrivia) && CanEndStatement(a.kind) && CanStartStatement(b.kind)
  }

  /** An inserted separator stands exactly between neighbours that a line break separates. */
  ghost predicate SeparatorsOk(tokens: seq<Token>) {
    forall i {:trigger TokenOk(tokens, i)} :: 0 <= i < |tokens| ==> TokenOk(tokens, i)
  }

  predicate TokenOk(tokens: seq<Token>, i: nat)
    requires i < |tokens|
  {
    if tokens[i].isVirtual then
      && 0 < i < |tokens| - 1 && tokens[i].kind.Semicolon? && tokens[i].length == 0
      && !tokens[i - 1].isVirtual && !tokens[i + 1].isVirtual && Separates(tokens[i - 1], tokens[i + 1])
    else i < |tokens| - 1 && !tokens[i + 1].isVirtual ==> !Separates(tokens[i], tokens[i + 1])
  }

  lemma EndsAreReal(tokens: seq<Token>)
    requires SeparatorsOk(tokens) && tokens != []
    ensures !tokens[0].isVirtual && !tokens[|tokens| - 1].isVirtual
  {
    assert TokenOk(tokens, 0) && TokenOk(tokens, |tokens| - 1);
  }

  /** pushToken: the token with, in front of it, a separator where one is needed. */
  function Pushed(tokens: seq<Token>, token: Token): seq<Token> {
    if tokens != [] && Separates(tokens[|tokens| - 1], token)
    then tokens + [Token(Semicolon, token.start, 0, true, [])] + [token]
    else tokens + [token]
  }

  lemma PushedOk(tokens: seq<Token>, token: Token)
    requires SeparatorsOk(tokens) && !token.isVirtual
    ensures SeparatorsOk(Pushed(tokens, token))
  {
    if tokens != [] && Separates(tokens[|tokens| - 1], token) {
      SeparatedOk(tokens, Token(Semicolon, token.start, 0, true, []), token);
    } else {
      AppendedOk(tokens, token);
    }
  }

  /** An inserted separator spans nothing. */
  lemma PushedSpans(tokens: seq<Token>, token: Token)
    ensures Spans(Pushed(tokens, token)) == Spans(tokens) + TokenSpans(token)
  {
    SpansLast(tokens, token);
    if tokens != [] && Separates(tokens[|tokens| - 1], token) {
      var separator := Token(Semicolon, token.start, 0, true, []);
      SpansLast(tokens, separator);
      assert Spans(tokens) + [] == Spans(tokens);
      SpansLast(tokens + [separator], token);
    }
  }

  lemma AppendedOk(tokens: seq<Token>, token: Token)
    requires SeparatorsOk(tokens) && !token.isVirtual
    requires tokens != [] ==> !Separates(tokens[|tokens| - 1], token)
    ensures SeparatorsOk(tokens + [token])
  {
    var all := tokens + [token];
    forall i | 0 <= i < |all| ensures TokenOk(all, i) {
      if i < |tokens| {
        assert TokenOk(tokens, i);
      }
    }
  }

  lemma SeparatedOk(tokens: seq<Token>, separator: Token, token: Token)
    requires SeparatorsOk(tokens) && !token.isVirtual && tokens != [] && Separates(tokens[|tokens| - 1], token)
    requires separator.isVirtual && separator.kind.Semicolon? && separator.length == 0
    ensures SeparatorsOk(tokens + [separator] + [token])
  {
    var all := tokens + [separator] + [token];
    EndsAreReal(tokens);
    forall i | 0 <= i < |all| ensures TokenOk(all, i) {
      if i < |tokens| {
        assert TokenOk(tokens, i);
      }
    }
  }

  /** Appending a list whose first token was pushed. */
  lemma ConcatOk(a: seq<Token>, b: seq<Token>)
    requires SeparatorsOk(a) && SeparatorsOk(b) && a != [] && b != []
    requires a[|a| - 1] == b[0]
    ensures SeparatorsOk(a + b[1..])
  {
    var all := a + b[1..];
    EndsAreReal(a);
    forall i | 0 <= i < |all| ensures TokenOk(all, i) {
      if i < |a| - 1 {
        assert TokenOk(a, i);
      } else {
        assert TokenOk(b, i - |a| + 1);
      }
    }
  }

  /** Appending a list after a token that ends no statement. */
  lemma AppendListOk(a: seq<Token>, b: seq<Token>)
    requires SeparatorsOk(a) && SeparatorsOk(b) && a != [] && !CanEndStatement(a[|a| - 1].kind)
    ensures SeparatorsOk(a + b)
  {
    if b == [] {
      assert a + b == a;
    } else {
      EndsAreReal(b);
      AppendedOk(a, b[0]);
      ConcatOk(a + [b[0]], b);
      MoveFirst(a, b);
    }
  }

  lemma MoveFirst(a: seq<Token>, b: seq<Token>)
    requires b != []
    ensures (a + [b[0]]) + b[1..] == a + b
  {
  }

  lemma WithTriviaOk(tokens: seq<Token>, trivia: seq<Trivia>)
    requires SeparatorsOk(tokens) && tokens != []
    ensures SeparatorsOk(tokens[0 := tokens[0].(leadingTrivia := trivia)])
  {
    var all := tokens[0 := tokens[0].(leadingTrivia := trivia)];
    EndsAreReal(tokens);
    forall i | 0 <= i < |all| ensures TokenOk(all, i) {
      assert TokenOk(tokens, i);
    }
  }

  // ---------------------------------------------------------------------------------------------
  // Steps of the lexer.

  /** The tokens cover the text from low to high. */
  predicate Lexed(exact: bool, tokens: seq<Token>, low: nat, high: nat) {
    Covers(exact, Spans(tokens), low, high)
  }

  lemma LexedConcat(exact: bool, a: seq<Token>, b: seq<Token>, low: nat, middle: nat, high: nat)
    requires Lexed(exact, a, low, middle) && Lexed(exact, b, middle, high)
    ensures Lexed(exact, a + b, low, high)
  {
    SpansConcat(a, b);
    CoversAppend(exact, Spans(a), Spans(b), low, middle, high);
  }

  lemma NewlineAppended(pending: seq<Trivia>, trivia: Trivia)
    ensures HasNewline(pending + [trivia]) == (HasNewline(pending) || trivia.containsNewline)
  {
    var all := pending + [trivia];
    if HasNewline(pending) {
      var i :| 0 <= i < |pending| && pending[i].containsNewline;
      assert all[i].containsNewline;
    }
    assert all[|pending|] == trivia;
  }

  lemma OneSpan(token: Token)
    requires !token.isVirtual && token.leadingTrivia == []
    ensures Spans([token]) == [Span(token.start, token.length)]
  {
    assert [token][..0] == [];
  }

  /** A token without trivia covers its own text. */
  lemma TokenLexed(exact: bool, token: Token)
    requires !token.isVirtual && token.leadingTrivia == []
    ensures Lexed(exact, [token], token.start, token.start + token.length)
  {
    OneSpan(token);
    CoversOne(exact, token.start, token.start + token.length);
  }

  lemma LexedOneMore(exact: bool, low: nat, tokens: seq<Token>, token: Token)
    requires Lexed(exact, tokens, low, token.start) && !token.isVirtual && token.leadingTrivia == []
    ensures Lexed(exact, tokens + [token], low, token.start + token.length)
  {
    TokenLexed(exact, token);
    LexedConcat(exact, tokens, [token], low, token.start, token.start + token.length);
  }

  /** Tokens, and trivia behind them, cover the text from low to high. */
  predicate LexedWith(exact: bool, tokens: seq<Token>, pending: seq<Trivia>, low: nat, high: nat) {
    Covers(exact, Spans(tokens) + TriviaSpans(pending), low, high)
  }

  lemma NoPending(exact: bool, tokens: seq<Token>, low: nat, high: nat)
    requires Lexed(exact, tokens, low, high)
    ensures LexedWith(exact, tokens, [], low, high)
  {
    assert Spans(tokens) + TriviaSpans([]) == Spans(tokens);
  }

  lemma TriviaLexed(exact: bool, tokens: seq<Token>, pending: seq<Trivia>, trivia: Trivia, low: nat)
    requires LexedWith(exact, tokens, pending, low, trivia.start)
    ensures LexedWith(exact, tokens, pending + [trivia], low, trivia.start + trivia.length)
  {
    var one := Span(trivia.start, trivia.length);
    CoversOne(exact, trivia.start, trivia.start + trivia.length);
    CoversAppend(exact, Spans(tokens) + TriviaSpans(pending), [one], low, trivia.start, trivia.start + trivia.length);
    assert (pending + [trivia])[..|pending|] == pending;
    Regroup(Spans(tokens), TriviaSpans(pending), [one]);
  }

  /** A token pushed with the trivia in front of it. */
  lemma PushedLexed(exact: bool, tokens: seq<Token>, pending: seq<Trivia>, token: Token, low: nat)
    requires LexedWith(exact, tokens, pending, low, token.start) && !token.isVirtual
    ensures Lexed(exact, Pushed(tokens, token.(leadingTrivia := pending)), low, token.start + token.length)
  {
    var one := Span(token.start, token.length);
    PushedSpans(tokens, token.(leadingTrivia := pending));
    CoversOne(exact, token.start, token.start + token.length);
    CoversAppend(exact, Spans(tokens) + TriviaSpans(pending), [one], low, token.start, token.start + token.length);
    Regroup(Spans(tokens), TriviaSpans(pending), [one]);
  }

  /** A list whose first token is pushed with trivia. */
  lemma ListLexed(exact: bool, tokens: seq<Token>, pending: seq<Trivia>, list: seq<Token>, low: nat, start: nat,
                  high: nat)
    requires LexedWith(exact, tokens, pending, low, start) && Lexed(exact, list, start, high)
    requires list != [] && !list[0].isVirtual && list[0].leadingTrivia == []
    ensures Lexed(exact, Pushed(tokens, list[0].(leadingTrivia := pending)) + list[1..], low, high)
  {
    var first, rest := list[0].(leadingTrivia := pending), list[1..];
    PushedSpans(tokens, first);
    SpansConcat(Pushed(tokens, first), rest);
    FirstSpans(list);
    var one := [Span(list[0].start, list[0].length)];
    CoversAppend(exact, Spans(tokens) + TriviaSpans(pending), one + Spans(rest), low, start, high);
    RegroupFour(Spans(tokens), TriviaSpans(pending), one, Spans(rest));
  }

  /** Trivia left over at the end of a hole is dropped. */
  lemma PendingDropped(tokens: seq<Token>, pending: seq<Trivia>, low: nat, high: nat)
    requires LexedWith(false, tokens, pending, low, high)
    ensures Lexed(false, tokens, low, high)
  {
    CoversPrefix(Spans(tokens), TriviaSpans(pending), low, high);
  }

  /** The tokens of a hole behind the token that opens it. */
  lemma HoleLexed(exact: bool, low: nat, tokens: seq<Token>, open: Token, inner: seq<Token>, pending: seq<Trivia>,
                  high: nat)
    requires !exact && Lexed(exact, tokens, low, open.start) && !open.isVirtual && open.leadingTrivia == []
    requires LexedWith(exact, inner, pending, open.start + open.length, high)
    ensures Lexed(exact, tokens + [open] + inner, low, high)
  {
    var middle := open.start + open.length;
    LexedOneMore(exact, low, tokens, open);
    DroppedLexed(exact, tokens + [open], inner, pending, low, middle, high);
  }

  lemma DroppedLexed(exact: bool, tokens: seq<Token>, inner: seq<Token>, pending: seq<Trivia>, low: nat, middle: nat,
                     high: nat)
    requires !exact && Lexed(exact, tokens, low, middle) && LexedWith(exact, inner, pending, middle, high)
    ensures Lexed(exact, tokens + inner, low, high)
  {
    PendingDropped(inner, pending, middle, high);
    LexedConcat(exact, tokens, inner, low, middle, high);
  }

  lemma ClosedHoleLexed(exact: bool, low: nat, tokens: seq<Token>, open: Token, inner: seq<Token>,
                        pending: seq<Trivia>, close: Token)
    requires !exact && Lexed(exact, tokens, low, open.start) && !open.isVirtual && open.leadingTrivia == []
    requires LexedWith(exact, inner, pending, open.start + open.length, close.start)
    requires !close.isVirtual && close.leadingTrivia == []
    ensures Lexed(exact, tokens + [open] + inner + [close], low, close.start + close.length)
  {
    HoleLexed(exact, low, tokens, open, inner, pending, close.start);
    LexedOneMore(exact, low, tokens + [open] + inner, close);
  }

  lemma RegroupFour(a: seq<Span>, b: seq<Span>, c: seq<Span>, d: seq<Span>)
    ensures (a + (b + c)) + d == (a + b) + (c + d)
  {
  }

  lemma PushedListOk(tokens: seq<Token>, pending: seq<Trivia>, list: seq<Token>)
    requires SeparatorsOk(tokens) && SeparatorsOk(list) && list != []
    ensures SeparatorsOk(Pushed(tokens, list[0].(leadingTrivia := pending)) + list[1..])
  {
    var first := list[0].(leadingTrivia := pending);
    EndsAreReal(list);
    PushedOk(tokens, first);
    WithTriviaOk(list, pending);
    assert list[0 := first][1..] == list[1..];
    ConcatOk(Pushed(tokens, first), list[0 := first]);
  }

  lemma {:induction false} FirstSpans(list: seq<Token>)
    requires list != [] && !list[0].isVirtual && list[0].leadingTrivia == []
    ensures Spans(list) == [Span(list[0].start, list[0].length)] + Spans(list[1..])
  {
    SpansConcat([list[0]], list[1..]);
    assert [list[0]] + list[1..] == list;
    OneSpan(list[0]);
  }
}
