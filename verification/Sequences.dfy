/** Order inside lists: duplicate-freedom, subsequences and "occurs before". */
module Sequences {

  predicate NoDuplicates<T(==)>(s: seq<T>) {
    forall i, j :: 0 <= i < j < |s| ==> s[i] != s[j]
  }

  /** s can be obtained from w by deleting elements. */
  predicate Subsequence<T(==)>(s: seq<T>, w: seq<T>) {
    s == [] || (w != [] && if s[0] == w[0] then Subsequence(s[1..], w[1..]) else Subsequence(s, w[1..]))
  }

  /** Some occurrence of x in w precedes some occurrence of y. */
  ghost predicate Before<T(!new)>(w: seq<T>, x: T, y: T) {
    exists i, j :: 0 <= i < j < |w| && w[i] == x && w[j] == y
  }

  function Reversed<T>(s: seq<T>): (r: seq<T>)
    ensures |r| == |s| && forall i :: 0 <= i < |s| ==> r[i] == s[|s| - 1 - i]
  {
    seq(|s|, i requires 0 <= i < |s| => s[|s| - 1 - i])
  }

  lemma ReversedMembers<T>(s: seq<T>)
    ensures forall x :: x in s <==> x in Reversed(s)
  {
    forall x | x in s
      ensures x in Reversed(s)
    {
      var i :| 0 <= i < |s| && s[i] == x;
      assert Reversed(s)[|s| - 1 - i] == x;
    }
  }

  lemma {:induction false} SubsequenceMembers<T>(s: seq<T>, w: seq<T>)
    requires Subsequence(s, w)
    ensures forall x :: x in s ==> x in w
    decreases |w|
  {
    if s == [] {
    } else {
      assert s == [s[0]] + s[1..] && w == [w[0]] + w[1..];
      SubsequenceMembers(if s[0] == w[0] then s[1..] else s, w[1..]);
    }
  }

  lemma {:induction false} SubsequenceDrop<T>(s: seq<T>, w: seq<T>)
    requires Subsequence(s, w) && s != []
    ensures Subsequence(s[1..], w)
    decreases |w|, 0
  {
    if s[0] != w[0] {
      SubsequenceDrop(s, w[1..]);
    }
    SubsequenceWeaken(s[1..], w[0], w[1..]);
    assert [w[0]] + w[1..] == w;
  }

  /** A longer list still contains the subsequence. */
  lemma {:induction false} SubsequenceWeaken<T>(s: seq<T>, c: T, w: seq<T>)
    requires Subsequence(s, w)
    ensures Subsequence(s, [c] + w)
    decreases |w|, 1
  {
    assert ([c] + w)[1..] == w;
    if s != [] && s[0] == c {
      SubsequenceDrop(s, w);
    }
  }

  lemma SubsequenceCons<T>(s: seq<T>, c: T, w: seq<T>)
    requires Subsequence(s, w)
    ensures Subsequence([c] + s, [c] + w)
  {
    assert ([c] + w)[1..] == w && ([c] + s)[1..] == s;
  }

  lemma {:induction false} SubsequenceReflexive<T>(s: seq<T>)
    ensures Subsequence(s, s)
  {
    if s == [] {
    } else {
      SubsequenceReflexive(s[1..]);
    }
  }

  lemma {:induction false} SubsequenceTransitive<T>(a: seq<T>, b: seq<T>, c: seq<T>)
    requires Subsequence(a, b) && Subsequence(b, c)
    ensures Subsequence(a, c)
    decreases |c|
  {
    if a == [] {
    } else if b[0] == c[0] {
      if a[0] == b[0] {
        SubsequenceTransitive(a[1..], b[1..], c[1..]);
      } else {
        SubsequenceTransitive(a, b[1..], c[1..]);
      }
    } else {
      SubsequenceTransitive(a, b, c[1..]);
      assert [c[0]] + c[1..] == c;
      SubsequenceWeaken(a, c[0], c[1..]);
    }
  }

  /** Subsequences keep the order of the longer list. */
  lemma {:induction false} SubsequenceBefore<T(!new)>(s: seq<T>, w: seq<T>, x: T, y: T)
    requires Subsequence(s, w) && Before(s, x, y)
    ensures Before(w, x, y)
    decreases |w|
  {
    var i, j :| 0 <= i < j < |s| && s[i] == x && s[j] == y;
    if s[0] == w[0] {
      if i == 0 {
        assert s[1..][j - 1] == y && y in s[1..];
        SubsequenceMembers(s[1..], w[1..]);
        assert y in w[1..];
        var k :| 0 <= k < |w[1..]| && w[1..][k] == y;
        assert w[0] == x && w[k + 1] == y;
      } else {
        assert s[1..][i - 1] == x && s[1..][j - 1] == y;
        SubsequenceBefore(s[1..], w[1..], x, y);
        BeforeShift(w, x, y);
      }
    } else {
      SubsequenceBefore(s, w[1..], x, y);
      BeforeShift(w, x, y);
    }
  }

  lemma BeforeShift<T(!new)>(w: seq<T>, x: T, y: T)
    requires w != [] && Before(w[1..], x, y)
    ensures Before(w, x, y)
  {
    var i, j :| 0 <= i < j < |w[1..]| && w[1..][i] == x && w[1..][j] == y;
    assert w[i + 1] == x && w[j + 1] == y;
  }

  /** In a duplicate-free list two elements have one order. */
  lemma BeforeAsymmetric<T(!new)>(w: seq<T>, x: T, y: T)
    requires NoDuplicates(w) && Before(w, x, y)
    ensures x != y && !Before(w, y, x)
  {
  }
}
