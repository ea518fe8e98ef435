/** Source files as support/src/SourceManager.cpp keeps them: normalized text, line offsets and positions. */
module Sources {
  import opened Utf8
  import opened ContentHash

  const LINE_FEED: Byte := 10
  const CARRIAGE_RETURN: Byte := 13
  const BYTE_ORDER_MARK: Text := [0xEF, 0xBB, 0xBF]

  datatype SourceFile = SourceFile(path: string,
                                   contents: Text,
                                   lineOffsets: seq<nat>,
                                   contentHash: Word,
                                   hadByteOrderMark: bool,
                                   normalizedNewlines: bool)

  // ---------------------------------------------------------------------------------------------
  // Preparation.

  function AfterNewline(t: Text, i: nat): nat
    requires i < |t|
  {
    if t[i] == CARRIAGE_RETURN && i + 1 < |t| && t[i + 1] == LINE_FEED then i + 2 else i + 1
  }

  /** The text from i on with every carriage return, alone or before a line feed, turned into one line feed. */
  function Normalized(t: Text, i: nat): Text
    requires i <= |t|
    decreases |t| - i
  {
    if i == |t| then []
    else [if t[i] == CARRIAGE_RETURN then LINE_FEED else t[i]] + Normalized(t, AfterNewline(t, i))
  }

  function MarkLength(t: Text): nat {
    if BYTE_ORDER_MARK <= t then 3 else 0
  }

  /** The offsets of line starts after position i. */
  function LineStarts(t: Text, i: nat): seq<nat>
    requires i <= |t|
    decreases |t| - i
  {
    if i == |t| then [] else (if t[i] == LINE_FEED then [i + 1] else []) + LineStarts(t, i + 1)
  }

  function LineOffsets(t: Text): seq<nat> {
    [0] + LineStarts(t, 0)
  }

  predicate HasReturn(t: Text, low: nat, high: nat)
    requires high <= |t|
  {
    exists k {:trigger t[k]} :: low <= k < high && t[k] == CARRIAGE_RETURN
  }

  function Prepared(path: string, raw: Text): SourceFile {
    var contents := Normalized(raw, MarkLength(raw));
    SourceFile(path, contents, LineOffsets(contents), Hash(contents), MarkLength(raw) == 3,
               HasReturn(raw, MarkLength(raw), |raw|))
  }

  method BuildLineOffsets(t: Text) returns (offsets: seq<nat>)
    ensures offsets == LineOffsets(t)
  {
    offsets := [0];
    for index := 0 to |t|
      invariant LineOffsets(t) == offsets + LineStarts(t, index)
    {
      if t[index] == LINE_FEED {
        offsets := offsets + [index + 1];
      }
    }
  }

  method NormalizeNewlines(raw: Text, start: nat) returns (contents: Text, normalized: bool)
    requires start <= |raw|
    ensures contents == Normalized(raw, start) && normalized == HasReturn(raw, start, |raw|)
  {
    contents, normalized := [], false;
    var index := start;
    while index < |raw|
      invariant start <= index <= |raw|
      invariant Normalized(raw, start) == contents + Normalized(raw, index)
      invariant normalized == HasReturn(raw, start, index)
    {
      var ch := raw[index];
      if ch == CARRIAGE_RETURN {
        normalized := true;
        if index + 1 < |raw| && raw[index + 1] == LINE_FEED {
          index := index + 1;
        }
        contents := contents + [LINE_FEED];
      } else {
        contents := contents + [ch];
      }
      index := index + 1;
    }
  }

  method Prepare(path: string, raw: Text) returns (prepared: SourceFile, utf8Errors: seq<nat>)
    ensures prepared == Prepared(path, raw) && utf8Errors == ErrorOffsets(prepared.contents, 0)
  {
    var hadMark := |raw| >= 3 && raw[0] == 0xEF && raw[1] == 0xBB && raw[2] == 0xBF;
    assert hadMark == (BYTE_ORDER_MARK <= raw);
    var contents, normalized := NormalizeNewlines(raw, if hadMark then 3 else 0);
    var offsets := BuildLineOffsets(contents);
    utf8Errors := ValidateUtf8(contents);
    var hash := HashContents(contents);
    prepared := SourceFile(path, contents, offsets, hash, hadMark, normalized);
  }

  /** No carriage return is left, and preparing again changes nothing. */
  lemma {:induction false} NormalizedHasNoReturns(t: Text, i: nat)
    requires i <= |t|
    ensures CARRIAGE_RETURN !in Normalized(t, i)
    decreases |t| - i
  {
    if i == |t| {
    } else {
      NormalizedHasNoReturns(t, AfterNewline(t, i));
    }
  }

  lemma {:induction false} NormalizedUnchanged(t: Text, i: nat)
    requires i <= |t| && CARRIAGE_RETURN !in t
    ensures Normalized(t, i) == t[i..]
    decreases |t| - i
  {
    if i == |t| {
    } else {
      assert t[i] in t;
      NormalizedUnchanged(t, i + 1);
    }
  }

  lemma NormalizedIdempotent(t: Text, i: nat)
    requires i <= |t|
    ensures Normalized(Normalized(t, i), 0) == Normalized(t, i)
  {
    NormalizedHasNoReturns(t, i);
    NormalizedUnchanged(Normalized(t, i), 0);
  }

  // ---------------------------------------------------------------------------------------------
  // Line offsets.

  predicate IsLineStart(t: Text, o: nat) {
    o == 0 || (o <= |t| && t[o - 1] == LINE_FEED)
  }

  /** The list holds the line starts from `low` on, in order and each once. */
  ghost predicate AreLineStarts(t: Text, low: nat, starts: seq<nat>) {
    && (forall k {:trigger starts[k]} :: 0 <= k < |starts| ==> low <= starts[k] <= |t| && IsLineStart(t, starts[k]))
    && (forall k, l {:trigger starts[k], starts[l]} :: 0 <= k < l < |starts| ==> starts[k] < starts[l])
    && (forall o: nat {:trigger IsLineStart(t, o)} :: low <= o && IsLineStart(t, o) ==> o in starts)
  }

  lemma {:induction false} LineStartsAre(t: Text, i: nat)
    requires i <= |t|
    ensures AreLineStarts(t, i + 1, LineStarts(t, i))
    decreases |t| - i
  {
    if i == |t| {
      NoLineStartAtEnd(t);
    } else {
      LineStartsAre(t, i + 1);
      LineStartsStep(t, i, LineStarts(t, i + 1), LineStarts(t, i));
    }
  }

  lemma LineStartsStep(t: Text, i: nat, rest: seq<nat>, starts: seq<nat>)
    requires i < |t| && AreLineStarts(t, i + 2, rest)
    requires starts == (if t[i] == LINE_FEED then [i + 1] else []) + rest
    ensures AreLineStarts(t, i + 1, starts)
  {
    if t[i] == LINE_FEED {
      FirstLineStart(t, i + 1, rest);
    } else {
      NoLineStart(t, i + 1, rest);
      assert starts == rest;
    }
  }

  lemma NoLineStartAtEnd(t: Text)
    ensures AreLineStarts(t, |t| + 1, [])
  {
  }

  lemma FirstLineStart(t: Text, o: nat, rest: seq<nat>)
    requires 0 < o <= |t| && t[o - 1] == LINE_FEED && AreLineStarts(t, o + 1, rest)
    ensures AreLineStarts(t, o, [o] + rest)
  {
    var starts := [o] + rest;
    assert starts[0] == o;
    forall p: nat | o <= p && IsLineStart(t, p) ensures p in starts {
      if p != o {
        assert p in rest;
      }
    }
  }

  lemma NoLineStart(t: Text, o: nat, rest: seq<nat>)
    requires 0 < o <= |t| && t[o - 1] != LINE_FEED && AreLineStarts(t, o + 1, rest)
    ensures AreLineStarts(t, o, rest)
  {
    forall p: nat | o <= p && IsLineStart(t, p) ensures p in rest {
      assert p != o;
    }
  }

  lemma LineOffsetsAre(t: Text)
    ensures AreLineStarts(t, 0, LineOffsets(t)) && LineOffsets(t)[0] == 0
  {
    LineStartsAre(t, 0);
  }

  /** Between a line start and the next one there is no line feed, but for the one just before the next. */
  lemma NoFeedWithin(t: Text, starts: seq<nat>, k: nat, o: nat)
    requires AreLineStarts(t, 0, starts) && k < |starts| && starts[k] <= o <= |t|
    requires k + 1 < |starts| ==> o < starts[k + 1]
    ensures LINE_FEED !in t[starts[k]..o]
  {
    forall i | starts[k] <= i < o ensures t[i] != LINE_FEED {
      BetweenNeighbours(t, starts, k, i + 1);
      assert !IsLineStart(t, i + 1);
    }
  }

  lemma BetweenNeighbours(t: Text, starts: seq<nat>, k: nat, o: nat)
    requires AreLineStarts(t, 0, starts) && k < |starts| && starts[k] < o
    requires k + 1 < |starts| ==> o < starts[k + 1]
    ensures o !in starts
  {
    forall l | 0 <= l < |starts| ensures starts[l] != o {
      assert l < k ==> starts[l] < starts[k];
      assert l > k + 1 ==> starts[k + 1] < starts[l];
    }
  }

  /** How many of the first offsets are at most x. */
  function UpperBound(offsets: seq<nat>, x: nat): (r: nat)
    ensures r <= |offsets|
  {
    if offsets == [] || offsets[0] > x then 0 else 1 + UpperBound(offsets[1..], x)
  }

  lemma {:induction false} UpperBoundSplits(offsets: seq<nat>, x: nat)
    ensures var r := UpperBound(offsets, x);
            (forall k :: 0 <= k < r ==> offsets[k] <= x) && (r < |offsets| ==> x < offsets[r])
    decreases |offsets|
  {
    if offsets == [] || offsets[0] > x {
    } else {
      UpperBoundSplits(offsets[1..], x);
    }
  }

  /** 1-based line and column of an offset, which is clamped to the text. */
  function LineColumn(f: SourceFile, start: nat): (nat, nat) {
    if f.lineOffsets == [] then (0, 0)
    else
      var clamped := if start <= |f.contents| then start else |f.contents|;
      var bound := UpperBound(f.lineOffsets, clamped);
      var line := if bound == 0 then 0 else bound - 1;
      (line + 1, if f.lineOffsets[line] <= clamped then clamped - f.lineOffsets[line] + 1 else 1)
  }

  function LineText(f: SourceFile, line: nat): Text
    requires f.lineOffsets == LineOffsets(f.contents)
  {
    if line == 0 || line > |f.lineOffsets| then []
    else
      LineOffsetsAre(f.contents);
      var start := f.lineOffsets[line - 1];
      var end := if line < |f.lineOffsets| then f.lineOffsets[line] - 1 else |f.contents|;
      f.contents[start..end]
  }

  /** A position leads back to its offset; its line starts there or before and has no line feed in between. */
  lemma LineColumnRoundTrip(path: string, raw: Text, o: nat)
    requires o <= |Prepared(path, raw).contents|
    ensures var f := Prepared(path, raw);
            var (line, column) := LineColumn(f, o);
            1 <= line <= |f.lineOffsets| && 1 <= column && f.lineOffsets[line - 1] + column - 1 == o &&
            LINE_FEED !in f.contents[f.lineOffsets[line - 1]..o]
  {
    RoundTripIn(Prepared(path, raw), o);
  }

  lemma RoundTripIn(f: SourceFile, o: nat)
    requires f.lineOffsets == LineOffsets(f.contents) && o <= |f.contents|
    ensures var (line, column) := LineColumn(f, o);
            1 <= line <= |f.lineOffsets| && 1 <= column && f.lineOffsets[line - 1] + column - 1 == o &&
            LINE_FEED !in f.contents[f.lineOffsets[line - 1]..o]
  {
    LineOffsetsAre(f.contents);
    UpperBoundSplits(f.lineOffsets, o);
    var bound := UpperBound(f.lineOffsets, o);
    assert bound >= 1;
    NoFeedWithin(f.contents, f.lineOffsets, bound - 1, o);
  }

  /** The lines from a line number on, joined by line feeds. */
  function JoinLines(f: SourceFile, line: nat): Text
    requires f.lineOffsets == LineOffsets(f.contents) && 1 <= line <= |f.lineOffsets|
    decreases |f.lineOffsets| - line
  {
    LineText(f, line) + if line < |f.lineOffsets| then [LINE_FEED] + JoinLines(f, line + 1) else []
  }

  lemma CutAtFeed(t: Text, start: nat, next: nat)
    requires start < next <= |t| && t[next - 1] == LINE_FEED
    ensures t[start..] == t[start..next - 1] + ([LINE_FEED] + t[next..])
  {
  }

  lemma {:induction false} JoinLinesFrom(f: SourceFile, line: nat)
    requires f.lineOffsets == LineOffsets(f.contents) && 1 <= line <= |f.lineOffsets|
    ensures f.lineOffsets[line - 1] <= |f.contents| && JoinLines(f, line) == f.contents[f.lineOffsets[line - 1]..]
    decreases |f.lineOffsets| - line
  {
    LineOffsetsAre(f.contents);
    if line == |f.lineOffsets| {
    } else {
      JoinLinesFrom(f, line + 1);
      CutAtFeed(f.contents, f.lineOffsets[line - 1], f.lineOffsets[line]);
    }
  }

  /** The lines are the text: joined by line feeds they give it back, and none contains one. */
  lemma LinesAreTheText(path: string, raw: Text)
    ensures var f := Prepared(path, raw);
            JoinLines(f, 1) == f.contents &&
            forall line :: 1 <= line <= |f.lineOffsets| ==> LINE_FEED !in LineText(f, line)
  {
    var f := Prepared(path, raw);
    JoinLinesFrom(f, 1);
    assert f.contents[0..] == f.contents;
    forall line | 1 <= line <= |f.lineOffsets| ensures LINE_FEED !in LineText(f, line) {
      LineHasNoFeed(f, line);
    }
  }

  lemma LineHasNoFeed(f: SourceFile, line: nat)
    requires f.lineOffsets == LineOffsets(f.contents) && 1 <= line <= |f.lineOffsets|
    ensures LINE_FEED !in LineText(f, line)
  {
    LineOffsetsAre(f.contents);
    var end := if line < |f.lineOffsets| then f.lineOffsets[line] - 1 else |f.contents|;
    NoFeedWithin(f.contents, f.lineOffsets, line - 1, end);
  }

  // ---------------------------------------------------------------------------------------------
  // The manager.

  class SourceManager {
    var files: seq<SourceFile>

    constructor ()
      ensures files == []
    {
      files := [];
    }

    method AddVirtualFile(path: string, contents: Text) returns (id: nat, utf8Errors: seq<nat>)
      modifies this
      ensures id == |old(files)| && files == old(files) + [Prepared(path, contents)]
      ensures utf8Errors == ErrorOffsets(files[id].contents, 0)
    {
      var prepared;
      prepared, utf8Errors := Prepare(path, contents);
      id := |files|;
      files := files + [prepared];
    }

    method Position(id: nat, start: nat) returns (line: nat, column: nat)
      ensures (line, column) == if id < |files| then LineColumn(files[id], start) else (0, 0)
    {
      if id >= |files| || files[id].lineOffsets == [] {
        return 0, 0;
      }
      var p := LineColumn(files[id], start);
      return p.0, p.1;
    }
  }
}
