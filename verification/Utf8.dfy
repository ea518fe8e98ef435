/** UTF-8 recognition (RFC 3629) as support/src/SourceManager.cpp does it. */
module Utf8 {

  type Byte = b: int | 0 <= b < 256

  type Text = seq<Byte>

  // ---------------------------------------------------------------------------------------------
  // Section 3 of RFC 3629: the encoding of a scalar value.

  predicate IsScalar(s: int) {
    0 <= s <= 0xD7FF || 0xE000 <= s <= 0x10FFFF
  }

  type Scalar = s: int | 0 <= s <= 0xD7FF || 0xE000 <= s <= 0x10FFFF

  function Encode(s: Scalar): (r: Text)
    ensures 1 <= |r| <= 4
  {
    if s <= 0x7F then [s]
    else if s <= 0x7FF then [0xC0 + s / 64, Tail(s)]
    else if s <= 0xFFFF then [0xE0 + s / 4096, Tail(s / 64), Tail(s)]
    else [0xF0 + s / 262144, Tail(s / 4096), Tail(s / 64), Tail(s)]
  }

  function Tail(s: nat): Byte {
    0x80 + s % 64
  }

  function EncodeAll(scalars: seq<Scalar>): Text {
    if scalars == [] then [] else Encode(scalars[0]) + EncodeAll(scalars[1..])
  }

  // ---------------------------------------------------------------------------------------------
  // The recognizer.

  predicate IsContinuation(t: Text, i: nat) {
    i < |t| && 0x80 <= t[i] <= 0xBF
  }

  predicate IsBetween(t: Text, i: nat, low: int, high: int) {
    i < |t| && low <= t[i] <= high
  }

  /** The length of the sequence accepted at i, or 0. */
  function SequenceLength(t: Text, i: nat): nat
    requires i < |t|
  {
    var first := t[i];
    if first <= 0x7F then 1
    else if 0xC2 <= first <= 0xDF then if IsContinuation(t, i + 1) then 2 else 0
    else if first == 0xE0 then if IsBetween(t, i + 1, 0xA0, 0xBF) && IsContinuation(t, i + 2) then 3 else 0
    else if 0xE1 <= first <= 0xEC then if IsContinuation(t, i + 1) && IsContinuation(t, i + 2) then 3 else 0
    else if first == 0xED then if IsBetween(t, i + 1, 0x80, 0x9F) && IsContinuation(t, i + 2) then 3 else 0
    else if 0xEE <= first <= 0xEF then if IsContinuation(t, i + 1) && IsContinuation(t, i + 2) then 3 else 0
    else if first == 0xF0 then
      if IsBetween(t, i + 1, 0x90, 0xBF) && IsContinuation(t, i + 2) && IsContinuation(t, i + 3) then 4 else 0
    else if 0xF1 <= first <= 0xF3 then
      if IsContinuation(t, i + 1) && IsContinuation(t, i + 2) && IsContinuation(t, i + 3) then 4 else 0
    else if first == 0xF4 then
      if IsBetween(t, i + 1, 0x80, 0x8F) && IsContinuation(t, i + 2) && IsContinuation(t, i + 3) then 4 else 0
    else 0
  }

  /** The offsets reported from i on, each for one byte. */
  function ErrorOffsets(t: Text, i: nat): seq<nat>
    requires i <= |t|
    decreases |t| - i
  {
    if i == |t| then []
    else if SequenceLength(t, i) == 0 then [i] + ErrorOffsets(t, i + 1)
    else
      SequenceLengthInText(t, i);
      ErrorOffsets(t, i + SequenceLength(t, i))
  }

  lemma SequenceLengthInText(t: Text, i: nat)
    requires i < |t|
    ensures i + SequenceLength(t, i) <= |t|
  {
  }

  method ValidateUtf8(t: Text) returns (errors: seq<nat>)
    ensures errors == ErrorOffsets(t, 0)
  {
    errors := [];
    var index := 0;
    while index < |t|
      invariant 0 <= index <= |t|
      invariant ErrorOffsets(t, 0) == errors + ErrorOffsets(t, index)
    {
      var first := t[index];
      if first <= 0x7F {
        index := index + 1;
        continue;
      }
      var length, valid := 0, false;
      if 0xC2 <= first <= 0xDF {
        length := 2;
        valid := index + length <= |t| && IsContinuation(t, index + 1);
      } else if first == 0xE0 {
        length := 3;
        valid := index + length <= |t| && 0xA0 <= t[index + 1] <= 0xBF && IsContinuation(t, index + 2);
      } else if 0xE1 <= first <= 0xEC {
        length := 3;
        valid := index + length <= |t| && IsContinuation(t, index + 1) && IsContinuation(t, index + 2);
      } else if first == 0xED {
        length := 3;
        valid := index + length <= |t| && 0x80 <= t[index + 1] <= 0x9F && IsContinuation(t, index + 2);
      } else if 0xEE <= first <= 0xEF {
        length := 3;
        valid := index + length <= |t| && IsContinuation(t, index + 1) && IsContinuation(t, index + 2);
      } else if first == 0xF0 {
        length := 4;
        valid := index + length <= |t| && 0x90 <= t[index + 1] <= 0xBF && IsContinuation(t, index + 2) &&
                 IsContinuation(t, index + 3);
      } else if 0xF1 <= first <= 0xF3 {
        length := 4;
        valid := index + length <= |t| && IsContinuation(t, index + 1) && IsContinuation(t, index + 2) &&
                 IsContinuation(t, index + 3);
      } else if first == 0xF4 {
        length := 4;
        valid := index + length <= |t| && 0x80 <= t[index + 1] <= 0x8F && IsContinuation(t, index + 2) &&
                 IsContinuation(t, index + 3);
      }
      assert SequenceLength(t, index) == if valid then length else 0;
      if valid {
        index := index + length;
        continue;
      }
      errors := errors + [index];
      index := index + 1;
    }
  }

  // ---------------------------------------------------------------------------------------------
  // The recognizer accepts exactly the encodings.

  function Two(a: int, b: int): int {
    (a - 0xC0) * 64 + (b - 0x80)
  }

  function Three(a: int, b: int, c: int): int {
    (a - 0xE0) * 4096 + (b - 0x80) * 64 + (c - 0x80)
  }

  function Four(a: int, b: int, c: int, d: int): int {
    (a - 0xF0) * 262144 + (b - 0x80) * 4096 + (c - 0x80) * 64 + (d - 0x80)
  }

  /** The scalar value whose encoding is accepted at i. */
  function Decoded(t: Text, i: nat): int
    requires i < |t| && SequenceLength(t, i) > 0
  {
    var n := SequenceLength(t, i);
    if n == 1 then t[i]
    else if n == 2 then Two(t[i], t[i + 1])
    else if n == 3 then Three(t[i], t[i + 1], t[i + 2])
    else Four(t[i], t[i + 1], t[i + 2], t[i + 3])
  }

  lemma TwoOctets(a: Byte, b: Byte)
    requires 0xC2 <= a <= 0xDF && 0x80 <= b <= 0xBF
    ensures var s := Two(a, b); IsScalar(s) && Encode(s) == [a, b]
  {
  }

  lemma ThreeOctets(a: Byte, b: Byte, c: Byte)
    requires 0xE0 <= a <= 0xEF && 0x80 <= b <= 0xBF && 0x80 <= c <= 0xBF
    requires (a == 0xE0 ==> 0xA0 <= b) && (a == 0xED ==> b <= 0x9F)
    ensures var s := Three(a, b, c); IsScalar(s) && Encode(s) == [a, b, c]
  {
    var s := Three(a, b, c);
    assert s == (a - 0xE0) * 4096 + ((b - 0x80) * 64 + (c - 0x80));
    assert s / 4096 == a - 0xE0;
    assert s / 64 == (a - 0xE0) * 64 + (b - 0x80);
    assert (s / 64) % 64 == b - 0x80;
    assert s % 64 == c - 0x80;
  }

  lemma FourOctets(a: Byte, b: Byte, c: Byte, d: Byte)
    requires 0xF0 <= a <= 0xF4 && 0x80 <= b <= 0xBF && 0x80 <= c <= 0xBF && 0x80 <= d <= 0xBF
    requires (a == 0xF0 ==> 0x90 <= b) && (a == 0xF4 ==> b <= 0x8F)
    ensures var s := Four(a, b, c, d); IsScalar(s) && Encode(s) == [a, b, c, d]
  {
    var s := Four(a, b, c, d);
    assert s / 262144 == a - 0xF0;
    assert s / 4096 == (a - 0xF0) * 64 + (b - 0x80);
    assert (s / 4096) % 64 == b - 0x80;
    assert s / 64 == (a - 0xF0) * 4096 + (b - 0x80) * 64 + (c - 0x80);
    assert (s / 64) % 64 == c - 0x80;
    assert s % 64 == d - 0x80;
  }

  predicate EncodedAt(t: Text, i: nat, s: Scalar) {
    i + |Encode(s)| <= |t| && t[i..i + |Encode(s)|] == Encode(s)
  }

  lemma AcceptedIsEncoding(t: Text, i: nat)
    requires i < |t| && SequenceLength(t, i) > 0
    ensures IsScalar(Decoded(t, i)) && EncodedAt(t, i, Decoded(t, i))
    ensures |Encode(Decoded(t, i))| == SequenceLength(t, i)
  {
    var n := SequenceLength(t, i);
    SequenceLengthInText(t, i);
    if n == 1 {
      assert t[i..i + 1] == [t[i]];
    } else if n == 2 {
      TwoOctets(t[i], t[i + 1]);
      assert t[i..i + 2] == [t[i], t[i + 1]];
    } else if n == 3 {
      ThreeOctets(t[i], t[i + 1], t[i + 2]);
      assert t[i..i + 3] == [t[i], t[i + 1], t[i + 2]];
    } else {
      FourOctets(t[i], t[i + 1], t[i + 2], t[i + 3]);
      assert t[i..i + 4] == [t[i], t[i + 1], t[i + 2], t[i + 3]];
    }
  }

  lemma EncodedTwo(s: Scalar)
    requires 0x7F < s <= 0x7FF
    ensures var e := Encode(s); 0xC2 <= e[0] <= 0xDF && Two(e[0], e[1]) == s
  {
  }

  lemma EncodedThree(s: Scalar)
    requires 0x7FF < s <= 0xFFFF
    ensures var e := Encode(s);
            0xE0 <= e[0] <= 0xEF && (e[0] == 0xE0 ==> 0xA0 <= e[1]) && (e[0] == 0xED ==> e[1] <= 0x9F) &&
            Three(e[0], e[1], e[2]) == s
  {
  }

  lemma EncodedFour(s: Scalar)
    requires 0xFFFF < s
    ensures var e := Encode(s);
            0xF0 <= e[0] <= 0xF4 && (e[0] == 0xF0 ==> 0x90 <= e[1]) && (e[0] == 0xF4 ==> e[1] <= 0x8F) &&
            Four(e[0], e[1], e[2], e[3]) == s
  {
    assert s / 4096 == (s / 262144) * 64 + (s / 4096) % 64;
    assert s / 64 == (s / 4096) * 64 + (s / 64) % 64;
    assert s == (s / 64) * 64 + s % 64;
  }

  lemma EncodingIsAccepted(t: Text, i: nat, s: Scalar)
    requires EncodedAt(t, i, s)
    ensures i < |t| && SequenceLength(t, i) == |Encode(s)| && Decoded(t, i) == s
  {
    var e := Encode(s);
    if 0xFFFF < s {
      EncodedFour(s);
    } else if 0x7FF < s {
      EncodedThree(s);
    } else if 0x7F < s {
      EncodedTwo(s);
    }
    assert forall k :: 0 <= k < |e| ==> t[i + k] == e[k];
  }

  /** At any offset a sequence is accepted exactly when some scalar value's encoding stands there, and that one only. */
  lemma AcceptedIffEncoded(t: Text, i: nat)
    requires i < |t|
    ensures SequenceLength(t, i) > 0 <==> exists s: Scalar :: EncodedAt(t, i, s)
    ensures forall s: Scalar, u: Scalar :: EncodedAt(t, i, s) && EncodedAt(t, i, u) ==> s == u
  {
    if SequenceLength(t, i) > 0 {
      AcceptedIsEncoding(t, i);
    }
    forall s: Scalar | EncodedAt(t, i, s) ensures SequenceLength(t, i) > 0 && Decoded(t, i) == s {
      EncodingIsAccepted(t, i, s);
    }
  }

  /** No error is reported exactly for the concatenated encodings of scalar values. */
  lemma NoErrorsIffEncoded(t: Text)
    ensures ErrorOffsets(t, 0) == [] <==> exists scalars :: EncodeAll(scalars) == t
  {
    if ErrorOffsets(t, 0) == [] {
      var scalars := DecodeFrom(t, 0);
      assert t[0..] == t;
    }
    if exists scalars :: EncodeAll(scalars) == t {
      var scalars :| EncodeAll(scalars) == t;
      assert t[0..] == t;
      EncodedHasNoErrors(t, 0, scalars);
    }
  }

  lemma {:induction false} DecodeFrom(t: Text, i: nat) returns (scalars: seq<Scalar>)
    requires i <= |t| && ErrorOffsets(t, i) == []
    ensures EncodeAll(scalars) == t[i..]
    decreases |t| - i
  {
    if i == |t| {
      scalars := [];
    } else {
      var n := SequenceLength(t, i);
      AcceptedIsEncoding(t, i);
      var rest := DecodeFrom(t, i + n);
      scalars := [Decoded(t, i)] + rest;
      EncodeAllStep(t, i, Decoded(t, i), rest);
    }
  }

  lemma EncodeAllStep(t: Text, i: nat, s: Scalar, rest: seq<Scalar>)
    requires EncodedAt(t, i, s) && EncodeAll(rest) == t[i + |Encode(s)|..]
    ensures EncodeAll([s] + rest) == t[i..]
  {
    var all := [s] + rest;
    assert all[1..] == rest;
    assert t[i..] == t[i..i + |Encode(s)|] + t[i + |Encode(s)|..];
  }

  lemma {:induction false} EncodedHasNoErrors(t: Text, i: nat, scalars: seq<Scalar>)
    requires i <= |t| && EncodeAll(scalars) == t[i..]
    ensures ErrorOffsets(t, i) == []
    decreases |scalars|
  {
    if scalars == [] {
      assert i == |t|;
    } else {
      var e, rest := Encode(scalars[0]), scalars[1..];
      SplitAfter(t, i, e, EncodeAll(rest));
      EncodingIsAccepted(t, i, scalars[0]);
      EncodedHasNoErrors(t, i + |e|, rest);
      assert ErrorOffsets(t, i) == ErrorOffsets(t, i + |e|);
    }
  }

  lemma SplitAfter(t: Text, i: nat, a: Text, b: Text)
    requires i <= |t| && a + b == t[i..]
    ensures i + |a| <= |t| && t[i..i + |a|] == a && t[i + |a|..] == b
  {
    assert t[i..][..|a|] == a && t[i..][|a|..] == b;
  }

  /** Decoding is unique. */
  lemma {:induction false} EncodeAllInjective(a: seq<Scalar>, b: seq<Scalar>)
    requires EncodeAll(a) == EncodeAll(b)
    ensures a == b
    decreases |a|
  {
    if a == [] || b == [] {
    } else {
      var t := EncodeAll(a);
      var e, f := Encode(a[0]), Encode(b[0]);
      assert t[0..|e|] == e && t[0..|f|] == f;
      EncodingIsAccepted(t, 0, a[0]);
      EncodingIsAccepted(t, 0, b[0]);
      assert t[|e|..] == EncodeAll(a[1..]) && t[|f|..] == EncodeAll(b[1..]);
      EncodeAllInjective(a[1..], b[1..]);
    }
  }

  // ---------------------------------------------------------------------------------------------
  // Any text falls into accepted sequences and single reported bytes.

  datatype Piece = Accepted(scalar: Scalar) | Rejected(b: Byte)

  function Spelled(p: Piece): (r: Text)
    ensures |r| >= 1
  {
    if p.Accepted? then Encode(p.scalar) else [p.b]
  }

  /** The piece stands at i. A byte is rejected only where no encoding stands. */
  ghost predicate PieceAt(t: Text, i: nat, p: Piece) {
    && i + |Spelled(p)| <= |t| && t[i..i + |Spelled(p)|] == Spelled(p)
    && (p.Rejected? ==> forall s: Scalar {:trigger EncodedAt(t, i, s)} :: !EncodedAt(t, i, s))
  }

  /** The pieces stand one after the other from offset i to the end. */
  ghost predicate Partitions(t: Text, i: nat, pieces: seq<Piece>)
    decreases |pieces|
  {
    if pieces == [] then i == |t|
    else PieceAt(t, i, pieces[0]) && Partitions(t, i + |Spelled(pieces[0])|, pieces[1..])
  }

  /** The offsets of the rejected bytes. */
  function RejectedOffsets(i: nat, pieces: seq<Piece>): seq<nat>
    decreases |pieces|
  {
    if pieces == [] then []
    else
      (if pieces[0].Rejected? then [i] else []) + RejectedOffsets(i + |Spelled(pieces[0])|, pieces[1..])
  }

  lemma PieceStanding(t: Text, i: nat) returns (p: Piece)
    requires i < |t|
    ensures PieceAt(t, i, p) && (p.Rejected? <==> SequenceLength(t, i) == 0) && |Spelled(p)| >= 1
    ensures p.Accepted? ==> |Spelled(p)| == SequenceLength(t, i)
  {
    AcceptedIffEncoded(t, i);
    if SequenceLength(t, i) > 0 {
      AcceptedIsEncoding(t, i);
      p := Accepted(Decoded(t, i));
    } else {
      assert t[i..i + 1] == [t[i]];
      p := Rejected(t[i]);
    }
  }

  /** Accepted sequences and one-byte errors partition every text. */
  lemma {:induction false} TextPartition(t: Text, i: nat) returns (pieces: seq<Piece>)
    requires i <= |t|
    ensures Partitions(t, i, pieces)
    decreases |t| - i
  {
    if i == |t| {
      pieces := [];
    } else {
      var first := PieceStanding(t, i);
      var rest := TextPartition(t, i + |Spelled(first)|);
      pieces := [first] + rest;
      assert pieces[1..] == rest;
    }
  }

  /** The reported errors are exactly the rejected bytes. */
  lemma {:induction false} ErrorsAreRejected(t: Text, i: nat, pieces: seq<Piece>)
    requires i <= |t| && Partitions(t, i, pieces)
    ensures ErrorOffsets(t, i) == RejectedOffsets(i, pieces)
    decreases |pieces|
  {
    if pieces == [] {
    } else {
      var first, rest := pieces[0], pieces[1..];
      var next := i + |Spelled(first)|;
      assert PieceAt(t, i, first) && Partitions(t, next, rest);
      PieceStep(t, i, first);
      ErrorsAreRejected(t, next, rest);
      assert RejectedOffsets(i, pieces) == (if first.Rejected? then [i] else []) + RejectedOffsets(next, rest);
    }
  }

  lemma PieceStep(t: Text, i: nat, p: Piece)
    requires PieceAt(t, i, p)
    ensures i < |t|
    ensures ErrorOffsets(t, i) == (if p.Rejected? then [i] else []) + ErrorOffsets(t, i + |Spelled(p)|)
  {
    var standing := PieceStanding(t, i);
    PieceUnique(t, i, standing, p);
  }

  /** There is only one such partition. */
  lemma {:induction false} PartitionUnique(t: Text, i: nat, a: seq<Piece>, b: seq<Piece>)
    requires Partitions(t, i, a) && Partitions(t, i, b)
    ensures a == b
    decreases |a|
  {
    if a == [] {
    } else {
      var first, next := a[0], i + |Spelled(a[0])|;
      assert PieceAt(t, i, first) && Partitions(t, next, a[1..]);
      PieceUnique(t, i, first, b[0]);
      PartitionUnique(t, next, a[1..], b[1..]);
      SamePieces(a, b);
    }
  }

  lemma SamePieces(a: seq<Piece>, b: seq<Piece>)
    requires a != [] && b != [] && a[0] == b[0] && a[1..] == b[1..]
    ensures a == b
  {
    assert a == [a[0]] + a[1..] && b == [b[0]] + b[1..];
  }

  lemma PieceUnique(t: Text, i: nat, p: Piece, q: Piece)
    requires PieceAt(t, i, p) && PieceAt(t, i, q)
    ensures p == q
  {
    if p.Rejected? && q.Rejected? {
      assert t[i..i + 1][0] == t[i];
    } else {
      AcceptedIffEncoded(t, i);
      assert p.Accepted? ==> EncodedAt(t, i, p.scalar);
      assert q.Accepted? ==> EncodedAt(t, i, q.scalar);
    }
  }
}
