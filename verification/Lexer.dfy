/** The lexer of frontend/src/Lexer.cpp. Every scanner starts at `start` and returns where it stopped. */
module Lexer {
  import opened Tokens

  // ---------------------------------------------------------------------------------------------
  // Characters.

  predicate IsSpace(c: char) {
    c == ' ' || '\t' <= c <= '\r'
  }

  predicate IsDigit(c: char) {
    '0' <= c <= '9'
  }

  predicate IsAlpha(c: char) {
    'a' <= c <= 'z' || 'A' <= c <= 'Z'
  }

  predicate IsHexDigit(c: char) {
    IsDigit(c) || 'a' <= c <= 'f' || 'A' <= c <= 'F'
  }

  predicate IsIdentifierStart(c: char) {
    IsAlpha(c) || c == '_' || c == '$'
  }

  predicate IsIdentifierPart(c: char) {
    IsIdentifierStart(c) || IsDigit(c)
  }

  predicate IsOperatorChar(c: char) {
    c in "!#%&*+-/<=>?\\^|~:"
  }

  const KEYWORDS := [
    "case", "catch", "class", "def", "derives", "else", "extends", "false", "finally", "for", "given", "if", "import",
    "implicit", "match", "new", "null", "object", "override", "package", "return", "sealed", "throw", "try", "this",
    "trait", "true", "type", "using", "val", "var", "with", "while"]

  function KeywordKind(word: string): TokenKind {
    if word in KEYWORDS then Keyword(word) else Identifier
  }

  predicate CharAt(t: string, i: nat, c: char) {
    i < |t| && t[i] == c
  }

  predicate ContainsNewline(t: string, low: nat, high: nat)
    requires high <= |t|
  {
    exists i {:trigger t[i]} :: low <= i < high && t[i] == '\n'
  }

  /** No interpolation hole opens in the text. */
  ghost predicate NoHole(t: string) {
    forall i {:trigger HoleAt(t, i)} :: !HoleAt(t, i)
  }

  predicate HoleAt(t: string, i: int) {
    0 <= i < |t| - 1 && t[i] == '$' && t[i + 1] == '{'
  }

  predicate IsInterpolationPrefix(t: string, i: nat) {
    (i < |t| && (t[i] == 's' || t[i] == 'f') && CharAt(t, i + 1, '"')) ||
    (CharAt(t, i, 'r') && CharAt(t, i + 1, 'a') && CharAt(t, i + 2, 'w') && CharAt(t, i + 3, '"'))
  }

  // ---------------------------------------------------------------------------------------------
  // Scanners.

  /** What every scanner of one token promises: it consumes at least one character and spans exactly what it
      consumed. */
  predicate Scanned(t: string, start: nat, token: Token, index: nat) {
    && start < index <= |t| && token.start == start && token.length == index - start
    && !token.isVirtual && token.leadingTrivia == []
    && !token.kind.InterpolationStart? && !token.kind.InterpolatedStringPart?
  }

  function MakeToken(kind: TokenKind, start: nat, index: nat): Token
    requires start <= index
  {
    Token(kind, start, index - start, false, [])
  }

  /** j is the end of the longest run of identifier characters from i on. */
  predicate PartsEnd(t: string, i: nat, j: nat) {
    && i <= j <= |t| && (forall k {:trigger t[k]} :: i <= k < j ==> IsIdentifierPart(t[k]))
    && (j < |t| ==> !IsIdentifierPart(t[j]))
  }

  method SkipIdentifierParts(t: string, i: nat) returns (index: nat)
    requires i <= |t|
    ensures PartsEnd(t, i, index)
  {
    index := i;
    while index < |t| && IsIdentifierPart(t[index])
      invariant i <= index <= |t| && forall k :: i <= k < index ==> IsIdentifierPart(t[k])
    {
      index := index + 1;
    }
  }

  /** The longest run of identifier characters, a keyword or an identifier. */
  method LexIdentifier(t: string, start: nat) returns (token: Token, index: nat)
    requires start < |t| && IsIdentifierStart(t[start])
    ensures Scanned(t, start, token, index) && token.kind == KeywordKind(t[start..index])
    ensures PartsEnd(t, start, index)
  {
    index := SkipIdentifierParts(t, start + 1);
    token := MakeToken(KeywordKind(t[start..index]), start, index);
  }

  /** A name in backticks ends behind the next one, or before the end of the line. */
  predicate BacktickEnd(t: string, start: nat, index: nat) {
    && start < index <= |t|
    && (forall k {:trigger t[k]} :: start < k < index - 1 ==> t[k] != '`' && t[k] != '\n')
    && if index - 1 > start && t[index - 1] == '`' then true
       else (index - 1 > start ==> t[index - 1] != '\n') && (index < |t| ==> t[index] == '\n')
  }

  method LexBacktickIdentifier(t: string, start: nat) returns (token: Token, index: nat)
    requires CharAt(t, start, '`')
    ensures Scanned(t, start, token, index) && token.kind.Identifier? && BacktickEnd(t, start, index)
  {
    index := start + 1;
    while index < |t| && t[index] != '`'
      invariant start < index <= |t|
      invariant forall k {:trigger t[k]} :: start < k < index ==> t[k] != '`' && t[k] != '\n'
    {
      if t[index] == '\n' {
        token := MakeToken(Identifier, start, index);
        return;
      }
      index := index + 1;
    }
    if index < |t| {
      index := index + 1;
    }
    token := MakeToken(Identifier, start, index);
  }

  predicate IsNumberPart(c: char, hexadecimal: bool) {
    c == '_' || IsDigit(c) || (hexadecimal && IsHexDigit(c))
  }

  /** j is the end of the longest run of digits and underscores from i on. */
  predicate DigitsEnd(t: string, i: nat, hexadecimal: bool, j: nat) {
    && i <= j <= |t| && (forall k {:trigger t[k]} :: i <= k < j ==> IsNumberPart(t[k], hexadecimal))
    && (j < |t| ==> !IsNumberPart(t[j], hexadecimal))
  }

  method ConsumeDigits(t: string, i: nat, hexadecimal: bool) returns (index: nat)
    requires i <= |t|
    ensures DigitsEnd(t, i, hexadecimal, index)
  {
    index := i;
    while index < |t| && (t[index] == '_' || IsDigit(t[index]) || (hexadecimal && IsHexDigit(t[index])))
      invariant i <= index <= |t| && forall k {:trigger t[k]} :: i <= k < index ==> IsNumberPart(t[k], hexadecimal)
    {
      index := index + 1;
    }
  }

  predicate OneOf(t: string, i: nat, cs: string) {
    i < |t| && t[i] in cs
  }

  predicate IsHexadecimal(t: string, start: nat) {
    CharAt(t, start, '0') && OneOf(t, start + 1, "xX")
  }

  /** A fraction needs a digit behind the point. */
  predicate FractionEnd(t: string, i: nat, j: nat) {
    if CharAt(t, i, '.') && i + 1 < |t| && IsDigit(t[i + 1]) then DigitsEnd(t, i + 1, false, j) else j == i
  }

  predicate ExponentEnd(t: string, i: nat, j: nat) {
    if OneOf(t, i, "eE") then DigitsEnd(t, if OneOf(t, i + 1, "+-") then i + 2 else i + 1, false, j) else j == i
  }

  /** A type suffix, and whatever identifier characters stand behind it. */
  predicate SuffixEnd(t: string, i: nat, floating: bool, j: nat) {
    var k := if OneOf(t, i, "fFdD") || (!floating && OneOf(t, i, "lL")) then i + 1 else i;
    if k < |t| && IsIdentifierStart(t[k]) then PartsEnd(t, k, j) else j == k
  }

  /** Digits up to a, a fraction up to b, an exponent up to c, a suffix up to the end. */
  predicate NumberParts(t: string, start: nat, floating: bool, index: nat, a: nat, b: nat, c: nat) {
    && (if IsHexadecimal(t, start) then DigitsEnd(t, start + 2, true, a) && c == b == a
        else DigitsEnd(t, start + 1, false, a) && FractionEnd(t, a, b) && ExponentEnd(t, b, c))
    && SuffixEnd(t, c, c > a, index) && (floating <==> c > a || OneOf(t, c, "fFdD"))
  }

  ghost predicate NumberEnd(t: string, start: nat, floating: bool, index: nat) {
    exists a, b, c :: NumberParts(t, start, floating, index, a, b, c)
  }

  /** Digits, fraction and exponent. */
  method ConsumeDecimal(t: string, start: nat) returns (kind: TokenKind, index: nat, ghost a: nat, ghost b: nat)
    requires start < |t| && IsDigit(t[start])
    ensures DigitsEnd(t, start + 1, false, a) && FractionEnd(t, a, b) && ExponentEnd(t, b, index)
    ensures kind == if index > a then FloatingLiteral else IntegerLiteral
  {
    kind := IntegerLiteral;
    index := ConsumeDigits(t, start + 1, false);
    a := index;
    if CharAt(t, index, '.') && index + 1 < |t| && IsDigit(t[index + 1]) {
      kind := FloatingLiteral;
      index := ConsumeDigits(t, index + 1, false);
      assert !IsNumberPart(t[a], false);
    }
    b := index;
    if CharAt(t, index, 'e') || CharAt(t, index, 'E') {
      kind := FloatingLiteral;
      index := index + 1;
      if CharAt(t, index, '+') || CharAt(t, index, '-') {
        index := index + 1;
      }
      index := ConsumeDigits(t, index, false);
    }
  }

  method ConsumeSuffix(t: string, i: nat, floating: bool) returns (nowFloating: bool, index: nat)
    requires i <= |t|
    ensures SuffixEnd(t, i, floating, index) && i <= index <= |t| && (nowFloating <==> floating || OneOf(t, i, "fFdD"))
  {
    index, nowFloating := i, floating;
    if CharAt(t, index, 'f') || CharAt(t, index, 'F') || CharAt(t, index, 'd') || CharAt(t, index, 'D') {
      nowFloating := true;
      index := index + 1;
    } else if !floating && (CharAt(t, index, 'l') || CharAt(t, index, 'L')) {
      index := index + 1;
    }
    if index < |t| && IsIdentifierStart(t[index]) {
      index := SkipIdentifierParts(t, index);
    }
  }

  method LexNumber(t: string, start: nat) returns (token: Token, index: nat)
    requires start < |t| && IsDigit(t[start])
    ensures Scanned(t, start, token, index) && (token.kind.IntegerLiteral? || token.kind.FloatingLiteral?)
    ensures NumberEnd(t, start, token.kind.FloatingLiteral?, index)
  {
    var kind := IntegerLiteral;
    ghost var a, b: nat;
    if t[start] == '0' && (CharAt(t, start + 1, 'x') || CharAt(t, start + 1, 'X')) {
      index := ConsumeDigits(t, start + 2, true);
      a, b := index, index;
    } else {
      kind, index, a, b := ConsumeDecimal(t, start);
    }
    ghost var c := index;
    var floating;
    floating, index := ConsumeSuffix(t, index, kind.FloatingLiteral?);
    if floating {
      kind := FloatingLiteral;
    }
    assert NumberParts(t, start, kind.FloatingLiteral?, index, a, b, c);
    token := MakeToken(kind, start, index);
  }

  predicate TripleQuote(t: string, i: nat) {
    CharAt(t, i, '"') && CharAt(t, i + 1, '"') && CharAt(t, i + 2, '"')
  }

  /** Where the rest of a one-line string ends: behind its quote, before a line break or at the end. */
  function StringEnd(t: string, i: nat): (end: nat)
    requires i <= |t|
    ensures i <= end <= |t|
    decreases |t| - i
  {
    if i == |t| || t[i] == '\n' then i
    else if t[i] == '\\' && i + 1 < |t| then StringEnd(t, i + 2)
    else if t[i] == '"' then i + 1
    else StringEnd(t, i + 1)
  }

  /** An odd number of backslashes stands before k, counted from i. */
  predicate Escaped(t: string, i: nat, k: nat)
    requires i <= k <= |t|
    decreases k
  {
    k > i && t[k - 1] == '\\' && !Escaped(t, i, k - 1)
  }

  lemma {:induction false} EscapedFrom(t: string, i: nat, j: nat, k: nat)
    requires i <= j <= k <= |t| && !Escaped(t, i, j)
    ensures Escaped(t, i, k) == Escaped(t, j, k)
    decreases k
  {
    if k == j {
    } else {
      EscapedFrom(t, i, j, k - 1);
    }
  }

  /** A quote or line break at k that is not escaped ends the string at k. */
  predicate PassedOver(t: string, i: nat, end: nat, k: nat)
    requires i <= k < end <= |t|
  {
    t[k] == '"' || t[k] == '\n' ==> Escaped(t, i, k) || (t[k] == '"' && k + 1 == end)
  }

  /** The string ends at the first quote or line break that is not escaped. */
  lemma {:induction false} StringEndsFirst(t: string, i: nat)
    requires i <= |t|
    ensures var end := StringEnd(t, i);
            (forall k :: i <= k < end ==> PassedOver(t, i, end, k)) &&
            (end == |t| || (t[end] == '\n' && !Escaped(t, i, end)) ||
             (end > i && t[end - 1] == '"' && !Escaped(t, i, end - 1)))
    decreases |t| - i
  {
    var end := StringEnd(t, i);
    if i == |t| || t[i] == '\n' || (t[i] == '"' && end == i + 1) {
    } else {
      var next := if t[i] == '\\' && i + 1 < |t| then i + 2 else i + 1;
      StringEndsFirst(t, next);
      if t[i] != '\\' || i + 1 < |t| {
        assert !Escaped(t, i, i) && (next == i + 2 ==> Escaped(t, i, i + 1));
        StringRestEnds(t, i, next, end);
      }
    }
  }

  lemma StringRestEnds(t: string, i: nat, next: nat, end: nat)
    requires i < next <= end <= |t| && StringEnd(t, next) == end && !Escaped(t, i, next)
    requires forall k :: next <= k < end ==> PassedOver(t, next, end, k)
    requires end == |t| || (t[end] == '\n' && !Escaped(t, next, end)) ||
             (end > next && t[end - 1] == '"' && !Escaped(t, next, end - 1))
    requires forall k :: i <= k < next ==> PassedOver(t, i, end, k)
    ensures forall k :: i <= k < end ==> PassedOver(t, i, end, k)
    ensures end == |t| || (t[end] == '\n' && !Escaped(t, i, end)) ||
            (end > i && t[end - 1] == '"' && !Escaped(t, i, end - 1))
  {
    EscapedFrom(t, i, next, end);
    if end > next {
      EscapedFrom(t, i, next, end - 1);
    }
    forall k | i <= k < end ensures PassedOver(t, i, end, k) {
      if k >= next {
        EscapedFrom(t, i, next, k);
        assert PassedOver(t, next, end, k);
      }
    }
  }

  /** Behind the first three quotes in a row from low on, or at the end of the text. */
  ghost predicate FirstTriple(t: string, low: nat, end: nat)
    requires end <= |t|
  {
    && (forall k {:trigger TripleQuote(t, k)} :: low <= k && k + 3 < end ==> !TripleQuote(t, k))
    && ((low + 3 <= end && TripleQuote(t, end - 3)) || (end == |t| && forall k :: low <= k ==> !TripleQuote(t, k)))
  }

  method LexString(t: string, start: nat) returns (token: Token, index: nat)
    requires CharAt(t, start, '"')
    ensures Scanned(t, start, token, index) && token.kind.StringLiteral?
    ensures if TripleQuote(t, start) then FirstTriple(t, start + 3, index) else index == StringEnd(t, start + 1)
  {
    if TripleQuote(t, start) {
      index := start + 3;
      while index + 2 < |t| && !TripleQuote(t, index)
        invariant start + 2 < index <= |t| && forall k :: start + 3 <= k < index ==> !TripleQuote(t, k)
      {
        index := index + 1;
      }
      index := if index + 2 < |t| then index + 3 else |t|;
    } else {
      index := start + 1;
      while index < |t| && t[index] != '\n'
        invariant start < index <= |t| && StringEnd(t, index) == StringEnd(t, start + 1)
      {
        if t[index] == '\\' && index + 1 < |t| {
          index := index + 2;
          continue;
        }
        if t[index] == '"' {
          index := index + 1;
          token := MakeToken(StringLiteral, start, index);
          return;
        }
        index := index + 1;
      }
    }
    token := MakeToken(StringLiteral, start, index);
  }

  /** Up to and with the next quote on the line. */
  predicate QuoteEnd(t: string, i: nat, j: nat) {
    && i <= j <= |t|
    && (forall k {:trigger t[k]} :: i <= k < j - 1 ==> t[k] != '\'' && t[k] != '\n')
    && if j > i && t[j - 1] == '\'' then true
       else (j > i ==> t[j - 1] != '\n') && (j < |t| ==> t[j] == '\n')
  }

  /** A quote alone at the end of a line, an escaped character, one character in quotes, a symbol, or anything else up
      to the next quote. */
  predicate CharOrSymbolEnd(t: string, start: nat, symbol: bool, index: nat) {
    var i := start + 1;
    if i >= |t| || t[i] == '\n' then !symbol && index == i
    else if t[i] == '\\' then
      var k := if i + 1 < |t| then i + 2 else i + 1;
      !symbol && index == if CharAt(t, k, '\'') then k + 1 else k
    else if CharAt(t, i + 1, '\'') then !symbol && index == i + 2
    else if IsIdentifierStart(t[i]) then symbol && PartsEnd(t, i, index)
    else !symbol && QuoteEnd(t, i, index)
  }

  method LexCharOrSymbol(t: string, start: nat) returns (token: Token, index: nat)
    requires CharAt(t, start, '\'')
    ensures Scanned(t, start, token, index) && (token.kind.CharLiteral? || token.kind.SymbolLiteral?)
    ensures CharOrSymbolEnd(t, start, token.kind.SymbolLiteral?, index)
  {
    index := start + 1;
    if index >= |t| || t[index] == '\n' {
    } else if t[index] == '\\' {
      index := if index + 1 < |t| then index + 2 else index + 1;
      if CharAt(t, index, '\'') {
        index := index + 1;
      }
    } else if CharAt(t, index + 1, '\'') {
      index := index + 2;
    } else if IsIdentifierStart(t[index]) {
      index := SkipIdentifierParts(t, index);
      token := MakeToken(SymbolLiteral, start, index);
      return;
    } else {
      while index < |t| && t[index] != '\'' && t[index] != '\n'
        invariant start < index <= |t|
        invariant forall k {:trigger t[k]} :: start < k < index ==> t[k] != '\'' && t[k] != '\n'
      {
        index := index + 1;
      }
      if CharAt(t, index, '\'') {
        index := index + 1;
      }
    }
    token := MakeToken(CharLiteral, start, index);
  }

  /** An operator goes on to the next character that is none, the `=` of an arrow, or the colon of a type bound. */
  predicate OperatorStops(t: string, start: nat, k: nat) {
    k >= |t| || !IsOperatorChar(t[k]) || (t[k] == '=' && CharAt(t, k + 1, '>')) ||
    (t[k] == ':' && k == start + 1 && OneOf(t, start, "<>"))
  }

  predicate OperatorEnd(t: string, start: nat, index: nat) {
    && start < index <= |t| && OperatorStops(t, start, index)
    && forall k {:trigger OperatorStops(t, start, k)} :: start <= k < index ==> !OperatorStops(t, start, k)
  }

  method LexOperator(t: string, start: nat) returns (token: Token, index: nat)
    requires start < |t| && IsOperatorChar(t[start]) && t[start] != '='
    ensures Scanned(t, start, token, index) && token.kind == if t[start..index] == "???" then Identifier else Operator
    ensures OperatorEnd(t, start, index)
  {
    index := start;
    while index < |t| && IsOperatorChar(t[index])
      invariant start <= index <= |t|
      invariant forall k {:trigger OperatorStops(t, start, k)} :: start <= k < index ==> !OperatorStops(t, start, k)
    {
      if t[index] == ':' && index == start + 1 && (t[start] == '<' || t[start] == '>') {
        break;
      }
      if t[index] == '=' && CharAt(t, index + 1, '>') {
        break;
      }
      index := index + 1;
    }
    token := MakeToken(if t[start..index] == "???" then Identifier else Operator, start, index);
  }

  /** A character that is a token on its own. */
  predicate IsSingle(t: string, start: nat)
    requires start < |t|
  {
    var c := t[start];
    c in "{}()[];,.@" || (c == ':' && !(start + 1 < |t| && IsOperatorChar(t[start + 1]))) ||
    (c == '=' && !CharAt(t, start + 1, '>') && !CharAt(t, start + 1, '='))
  }

  /** The kind of the token that spans start..index, by its first characters. */
  function KindAt(t: string, start: nat, index: nat): TokenKind
    requires start < index <= |t|
  {
    var c := t[start];
    if IsIdentifierStart(c) then KeywordKind(t[start..index])
    else if c == '`' then Identifier
    else if IsDigit(c) then IntegerLiteral
    else if c == '"' then StringLiteral
    else if c == '\'' then CharLiteral
    else if c == '=' && CharAt(t, start + 1, '>') then Arrow
    else if c == '=' && CharAt(t, start + 1, '=') then Operator
    else if IsOperatorChar(c) && !IsSingle(t, start) then if t[start..index] == "???" then Identifier else Operator
    else SingleKind(c)
  }

  /** Where a token ends that starts with this character. */
  ghost predicate TokenEnd(t: string, start: nat, kind: TokenKind, index: nat)
    requires start < |t|
  {
    var c := t[start];
    && start < index <= |t|
    && if IsIdentifierStart(c) then PartsEnd(t, start, index)
       else if c == '`' then BacktickEnd(t, start, index)
       else if IsDigit(c) then NumberEnd(t, start, kind.FloatingLiteral?, index)
       else if c == '"' then
         if TripleQuote(t, start) then FirstTriple(t, start + 3, index) else index == StringEnd(t, start + 1)
       else if c == '\'' then CharOrSymbolEnd(t, start, kind.SymbolLiteral?, index)
       else if c == '=' && OneOf(t, start + 1, ">=") then index == start + 2
       else if IsSingle(t, start) || !IsOperatorChar(c) then index == start + 1
       else OperatorEnd(t, start, index)
  }

  ghost predicate TokenAt(t: string, start: nat, kind: TokenKind, index: nat) {
    && start < |t| && TokenEnd(t, start, kind, index)
    && (kind == KindAt(t, start, index) || (IsDigit(t[start]) && kind.FloatingLiteral?) ||
        (t[start] == '\'' && kind.SymbolLiteral?))
  }

  method LexToken(t: string, start: nat) returns (token: Token, index: nat)
    requires start < |t|
    ensures Scanned(t, start, token, index) && TokenAt(t, start, token.kind, index)
  {
    var c := t[start];
    if IsIdentifierStart(c) {
      token, index := LexIdentifier(t, start);
    } else if c == '`' {
      token, index := LexBacktickIdentifier(t, start);
    } else if IsDigit(c) {
      token, index := LexNumber(t, start);
    } else if c == '"' {
      token, index := LexString(t, start);
    } else if c == '\'' {
      token, index := LexCharOrSymbol(t, start);
    } else {
      token, index := LexSymbol(t, start);
    }
  }

  method LexSymbol(t: string, start: nat) returns (token: Token, index: nat)
    requires start < |t| && t[start] !in "`\"'" && !IsIdentifierStart(t[start]) && !IsDigit(t[start])
    ensures Scanned(t, start, token, index) && token.kind == KindAt(t, start, index)
    ensures TokenEnd(t, start, token.kind, index)
  {
    var c := t[start];
    if c == '=' && (CharAt(t, start + 1, '>') || CharAt(t, start + 1, '=')) {
      index := start + 2;
      token := MakeToken(if t[start + 1] == '>' then Arrow else Operator, start, index);
    } else if IsOperatorChar(c) && c != '=' && (c != ':' || (start + 1 < |t| && IsOperatorChar(t[start + 1]))) {
      token, index := LexOperator(t, start);
    } else {
      index := start + 1;
      token := MakeToken(SingleKind(c), start, index);
    }
  }

  function SingleKind(c: char): TokenKind {
    if c in "{}()[]" then Bracket(c)
    else if c == ';' then Semicolon
    else if c == ':' then Colon
    else if c == ',' then Comma
    else if c == '.' then Dot
    else if c == '=' then Equals
    else if c == '@' then TokenKind.At
    else Unknown
  }

  predicate StartsTrivia(t: string, i: nat) {
    i < |t| && (IsSpace(t[i]) || (t[i] == '/' && (CharAt(t, i + 1, '/') || CharAt(t, i + 1, '*'))))
  }

  /** Where a block comment of this depth ends, looking from i on; it is cut off when the text ends first. */
  function CommentEnd(t: string, i: nat, depth: nat): (end: nat)
    requires i <= |t|
    ensures i <= end <= |t|
    decreases |t| - i
  {
    if depth == 0 || i + 1 >= |t| then i
    else if t[i] == '/' && t[i + 1] == '*' then CommentEnd(t, i + 2, depth + 1)
    else if t[i] == '*' && t[i + 1] == '/' then CommentEnd(t, i + 2, depth - 1)
    else CommentEnd(t, i + 1, depth)
  }

  /** A nested comment is passed over as a whole. */
  lemma {:induction false} NestedCommentEnd(t: string, i: nat, inner: nat, outer: nat)
    requires i <= |t|
    ensures CommentEnd(t, i, inner + outer) == CommentEnd(t, CommentEnd(t, i, inner), outer)
    decreases |t| - i
  {
    if inner == 0 || i + 1 >= |t| {
    } else if t[i] == '/' && t[i + 1] == '*' {
      NestedCommentEnd(t, i + 2, inner + 1, outer);
    } else if t[i] == '*' && t[i + 1] == '/' {
      NestedCommentEnd(t, i + 2, inner - 1, outer);
    } else {
      NestedCommentEnd(t, i + 1, inner, outer);
    }
  }

  /** A comment that is not cut off ends with its closing mark. */
  lemma {:induction false} CommentEndsClosed(t: string, i: nat, depth: nat)
    requires i <= |t| && depth > 0
    ensures var end := CommentEnd(t, i, depth);
            |t| <= end + 1 || (i + 2 <= end && t[end - 2] == '*' && t[end - 1] == '/')
    decreases |t| - i
  {
    if i + 1 >= |t| {
    } else if t[i] == '/' && t[i + 1] == '*' {
      CommentEndsClosed(t, i + 2, depth + 1);
    } else if t[i] == '*' && t[i + 1] == '/' {
      if depth > 1 {
        CommentEndsClosed(t, i + 2, depth - 1);
      }
    } else {
      CommentEndsClosed(t, i + 1, depth);
    }
  }

  /** White space up to its end, a line comment up to the end of the line, a block comment up to its own end. */
  predicate TriviaAt(t: string, start: nat, trivia: Trivia, index: nat) {
    && StartsTrivia(t, start) && start < index <= |t| && trivia.start == start && trivia.length == index - start
    && trivia.containsNewline == ContainsNewline(t, start, index)
    && if IsSpace(t[start]) then
         && trivia.kind == (if trivia.containsNewline then Newline else Whitespace)
         && (forall k {:trigger t[k]} :: start <= k < index ==> IsSpace(t[k])) && (index < |t| ==> !IsSpace(t[index]))
       else if t[start + 1] == '/' then
         trivia.kind == LineComment && !trivia.containsNewline && (index == |t| || t[index] == '\n')
       else trivia.kind == BlockComment && start + 2 <= |t| && index == CommentEnd(t, start + 2, 1)
  }

  method LexTrivia(t: string, start: nat) returns (trivia: Trivia, index: nat)
    requires StartsTrivia(t, start)
    ensures TriviaAt(t, start, trivia, index)
  {
    index := start;
    if IsSpace(t[start]) {
      var sawNewline := false;
      while index < |t| && IsSpace(t[index])
        invariant start <= index <= |t| && sawNewline == ContainsNewline(t, start, index)
        invariant forall k :: start <= k < index ==> IsSpace(t[k])
      {
        sawNewline := sawNewline || t[index] == '\n';
        index := index + 1;
      }
      trivia := Trivia(if sawNewline then Newline else Whitespace, start, index - start, sawNewline);
    } else if t[start + 1] == '/' {
      index := start + 2;
      while index < |t| && t[index] != '\n'
        invariant start + 2 <= index <= |t| && !ContainsNewline(t, start, index)
      {
        index := index + 1;
      }
      trivia := Trivia(LineComment, start, index - start, false);
    } else {
      index := start + 2;
      var depth := 1;
      while index + 1 < |t| && depth > 0
        invariant start + 2 <= index <= |t| && CommentEnd(t, index, depth) == CommentEnd(t, start + 2, 1)
      {
        if t[index] == '/' && t[index + 1] == '*' {
          depth := depth + 1;
          index := index + 2;
        } else if t[index] == '*' && t[index + 1] == '/' {
          depth := depth - 1;
          index := index + 2;
        } else {
          index := index + 1;
        }
      }
      trivia := Trivia(BlockComment, start, index - start, ContainsNewline(t, start, index));
    }
  }
}
