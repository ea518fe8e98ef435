/** The lines of a prepared source are those of its raw text, cut at line feeds and at carriage returns with or without
    a line feed behind. */
module SourceLines {
  import opened Utf8
  import opened Sources
  import ContentHash

  predicate IsBreak(b: Text) {
    b == [LINE_FEED] || b == [CARRIAGE_RETURN] || b == [CARRIAGE_RETURN, LINE_FEED]
  }

  predicate IsPlain(line: Text) {
    LINE_FEED !in line && CARRIAGE_RETURN !in line
  }

  /** A lone carriage return is not followed by a line feed. */
  predicate BreaksHere(b: Text, rest: Text) {
    IsBreak(b) && !(b == [CARRIAGE_RETURN] && rest != [] && rest[0] == LINE_FEED)
  }

  datatype Cut = Last(line: Text) | Line(line: Text, lineBreak: Text, rest: Cut)

  function Uncut(c: Cut): Text {
    match c
    case Last(line) => line
    case Line(line, lineBreak, rest) => line + lineBreak + Uncut(rest)
  }

  predicate CutOk(c: Cut) {
    match c
    case Last(line) => IsPlain(line)
    case Line(line, lineBreak, rest) => IsPlain(line) && BreaksHere(lineBreak, Uncut(rest)) && CutOk(rest)
  }

  function Lines(c: Cut): (r: seq<Text>)
    ensures |r| > 0
  {
    match c
    case Last(line) => [line]
    case Line(line, _, rest) => [line] + Lines(rest)
  }

  function JoinedByFeeds(lines: seq<Text>): Text
    requires lines != []
  {
    lines[0] + if |lines| == 1 then [] else [LINE_FEED] + JoinedByFeeds(lines[1..])
  }

  // ---------------------------------------------------------------------------------------------
  // Normalizing a cut text.

  /** What stands before the start has no influence. */
  lemma {:induction false} NormalizedFrom(t: Text, i: nat)
    requires i <= |t|
    ensures Normalized(t, i) == Normalized(t[i..], 0)
    decreases |t| - i
  {
    NormalizedShift(t, i, 0);
  }

  lemma {:induction false} NormalizedShift(t: Text, i: nat, k: nat)
    requires i + k <= |t|
    ensures Normalized(t, i + k) == Normalized(t[i..], k)
    decreases |t| - i - k
  {
    if i + k == |t| {
    } else {
      NormalizedShift(t, i, AfterNewline(t[i..], k));
    }
  }

  lemma {:induction false} NormalizedLine(line: Text, rest: Text, i: nat)
    requires IsPlain(line) && i <= |line|
    ensures Normalized(line + rest, i) == line[i..] + Normalized(rest, 0)
    decreases |line| - i
  {
    if i == |line| {
      NormalizedShift(line + rest, i, 0);
      assert (line + rest)[i..] == rest;
    } else {
      assert (line + rest)[i] == line[i] && line[i] in line;
      NormalizedLine(line, rest, i + 1);
    }
  }

  /** One line feed stands for the break, and the rest is normalized on its own. */
  lemma NormalizedAtBreak(line: Text, b: Text, rest: Text)
    requires IsPlain(line) && BreaksHere(b, rest)
    ensures Normalized(line + b + rest, 0) == line + [LINE_FEED] + Normalized(rest, 0)
  {
    assert line + b + rest == line + (b + rest);
    NormalizedLine(line, b + rest, 0);
    NormalizedShift(b + rest, |b|, 0);
    assert (b + rest)[|b|..] == rest;
  }

  lemma {:induction false} NormalizedCut(c: Cut)
    requires CutOk(c)
    ensures Normalized(Uncut(c), 0) == JoinedByFeeds(Lines(c))
  {
    match c
    case Last(line) =>
      NormalizedLine(line, [], 0);
      assert line + [] == line;
    case Line(line, lineBreak, rest) =>
      NormalizedAtBreak(line, lineBreak, Uncut(rest));
      NormalizedCut(rest);
      assert Lines(c)[1..] == Lines(rest);
  }

  // ---------------------------------------------------------------------------------------------
  // Every text can be cut.

  lemma {:induction false} CutExists(t: Text) returns (c: Cut)
    ensures CutOk(c) && Uncut(c) == t
  {
    if t == [] {
      c := Last([]);
    } else if t[0] == LINE_FEED {
      var rest := CutExists(t[1..]);
      c := Line([], [LINE_FEED], rest);
    } else if t[0] == CARRIAGE_RETURN && |t| > 1 && t[1] == LINE_FEED {
      var rest := CutExists(t[2..]);
      c := Line([], [CARRIAGE_RETURN, LINE_FEED], rest);
    } else if t[0] == CARRIAGE_RETURN {
      var rest := CutExists(t[1..]);
      c := Line([], [CARRIAGE_RETURN], rest);
    } else {
      var rest := CutExists(t[1..]);
      c := rest.(line := [t[0]] + rest.line);
    }
  }

  // ---------------------------------------------------------------------------------------------
  // The lines of a prepared source.

  ghost predicate FeedFree(lines: seq<Text>) {
    forall line :: line in lines ==> LINE_FEED !in line
  }

  function FirstFeed(t: Text): nat {
    if t == [] || t[0] == LINE_FEED then 0 else 1 + FirstFeed(t[1..])
  }

  lemma {:induction false} FirstLineEnds(a: Text, x: Text)
    requires LINE_FEED !in a && (x == [] || x[0] == LINE_FEED)
    ensures FirstFeed(a + x) == |a|
  {
    if a == [] {
      assert a + x == x;
    } else {
      assert a[0] in a && (a + x)[1..] == a[1..] + x;
      FirstLineEnds(a[1..], x);
    }
  }

  lemma FirstLineUnique(a: Text, x: Text, b: Text, y: Text)
    requires LINE_FEED !in a && LINE_FEED !in b && a + x == b + y
    requires (x == [] || x[0] == LINE_FEED) && (y == [] || y[0] == LINE_FEED)
    ensures a == b && x == y
  {
    FirstLineEnds(a, x);
    FirstLineEnds(b, y);
    assert a == (a + x)[..|a|] && x == (a + x)[|a|..];
    assert b == (b + y)[..|b|] && y == (b + y)[|b|..];
  }

  /** A text has only one division into lines without line feeds. */
  lemma {:induction false} DivisionUnique(a: seq<Text>, b: seq<Text>)
    requires a != [] && b != [] && FeedFree(a) && FeedFree(b) && JoinedByFeeds(a) == JoinedByFeeds(b)
    ensures a == b
    decreases |a|
  {
    var x := if |a| == 1 then [] else [LINE_FEED] + JoinedByFeeds(a[1..]);
    var y := if |b| == 1 then [] else [LINE_FEED] + JoinedByFeeds(b[1..]);
    FirstLineUnique(a[0], x, b[0], y);
    if |a| > 1 && |b| > 1 {
      assert x[1..] == y[1..];
      DivisionUnique(a[1..], b[1..]);
    }
    assert a == [a[0]] + a[1..] && b == [b[0]] + b[1..];
  }

  function LineTexts(f: SourceFile): (r: seq<Text>)
    requires f.lineOffsets == LineOffsets(f.contents)
    ensures |r| == |f.lineOffsets|
  {
    seq(|f.lineOffsets|, k requires 0 <= k < |f.lineOffsets| => LineText(f, k + 1))
  }

  lemma {:induction false} LineTextsJoin(f: SourceFile, line: nat)
    requires f.lineOffsets == LineOffsets(f.contents) && 1 <= line <= |f.lineOffsets|
    ensures JoinedByFeeds(LineTexts(f)[line - 1..]) == JoinLines(f, line)
    decreases |f.lineOffsets| - line
  {
    var lines := LineTexts(f)[line - 1..];
    assert lines[0] == LineText(f, line);
    if line < |f.lineOffsets| {
      LineTextsJoin(f, line + 1);
      assert lines[1..] == LineTexts(f)[line..];
    }
  }

  lemma {:induction false} CutLinesPlain(c: Cut)
    requires CutOk(c)
    ensures FeedFree(Lines(c))
  {
    if c.Line? {
      CutLinesPlain(c.rest);
    }
  }

  /** Contents whose lines are joined to the same text have the same lines. */
  lemma LinesOfContents(f: SourceFile, lines: seq<Text>)
    requires f.lineOffsets == LineOffsets(f.contents) && lines != [] && FeedFree(lines)
    requires f.contents == JoinedByFeeds(lines)
    ensures LineTexts(f) == lines
  {
    JoinLinesFrom(f, 1);
    assert f.contents[0..] == f.contents;
    LineTextsJoin(f, 1);
    assert LineTexts(f)[0..] == LineTexts(f);
    forall line | line in LineTexts(f) ensures LINE_FEED !in line {
      var k :| 0 <= k < |LineTexts(f)| && LineTexts(f)[k] == line;
      LineHasNoFeed(f, k + 1);
    }
    DivisionUnique(LineTexts(f), lines);
  }

  /** What is remembered of the raw text. */
  lemma PreparedMarks(path: string, raw: Text, text: Text)
    requires raw == (if BYTE_ORDER_MARK <= raw then BYTE_ORDER_MARK else []) + text
    ensures var f := Prepared(path, raw);
            && f.hadByteOrderMark == (BYTE_ORDER_MARK <= raw)
            && (f.normalizedNewlines <==> CARRIAGE_RETURN in text)
            && f.contents == Normalized(text, 0)
            && f.path == path && f.contentHash == ContentHash.Hash(f.contents)
  {
    NormalizedFrom(raw, MarkLength(raw));
    assert raw[MarkLength(raw)..] == text;
    if CARRIAGE_RETURN in text {
      var k :| 0 <= k < |text| && text[k] == CARRIAGE_RETURN;
      assert raw[k + MarkLength(raw)] == CARRIAGE_RETURN;
    }
    if HasReturn(raw, MarkLength(raw), |raw|) {
      var k :| MarkLength(raw) <= k < |raw| && raw[k] == CARRIAGE_RETURN;
      assert text[k - MarkLength(raw)] == CARRIAGE_RETURN;
    }
  }

  /** Main result: behind the mark, the prepared lines are the raw ones. */
  lemma PreparedLines(path: string, raw: Text, c: Cut)
    requires CutOk(c) && raw == (if BYTE_ORDER_MARK <= raw then BYTE_ORDER_MARK else []) + Uncut(c)
    ensures var f := Prepared(path, raw);
            && |f.lineOffsets| == |Lines(c)|
            && (forall k {:trigger Lines(c)[k]} :: 0 <= k < |Lines(c)| ==> LineText(f, k + 1) == Lines(c)[k])
  {
    var f := Prepared(path, raw);
    PreparedMarks(path, raw, Uncut(c));
    NormalizedCut(c);
    CutLinesPlain(c);
    LinesOfContents(f, Lines(c));
    forall k | 0 <= k < |Lines(c)| ensures LineText(f, k + 1) == Lines(c)[k] {
      assert LineTexts(f)[k] == LineText(f, k + 1);
    }
  }

  // ---------------------------------------------------------------------------------------------
  // Beyond the text.

  /** An offset behind the text has the position of its end, and lines that do not exist are empty. */
  lemma BeyondTheText(f: SourceFile, o: nat, line: nat)
    requires f.lineOffsets == LineOffsets(f.contents)
    ensures o > |f.contents| ==> LineColumn(f, o) == LineColumn(f, |f.contents|)
    ensures line == 0 || line > |f.lineOffsets| ==> LineText(f, line) == []
  {
  }
}
