/** The C3 merge of nir/src/Nir.cpp: what order a list of name sequences is merged into. */
module Merge {
  import opened Basics
  import opened Sequences

  // ---------------------------------------------------------------------------------------------
  // The merge as a function: repeatedly take the first head that is in no tail.

  predicate AllNonEmpty(ss: seq<seq<Name>>) {
    forall i :: 0 <= i < |ss| ==> ss[i] != []
  }

  function DropEmpty(ss: seq<seq<Name>>): seq<seq<Name>> {
    if ss == [] then []
    else if ss[0] == [] then DropEmpty(ss[1..])
    else [ss[0]] + DropEmpty(ss[1..])
  }

  lemma {:induction false} DropEmptyKeepsRest(ss: seq<seq<Name>>)
    ensures var live := DropEmpty(ss);
      && AllNonEmpty(live)
      && (forall s :: s in live ==> s in ss)
      && (forall s :: s in ss && s != [] ==> s in live)
      && TotalLength(live) == TotalLength(ss)
  {
    if ss == [] {
    } else {
      DropEmptyKeepsRest(ss[1..]);
    }
  }

  function TotalLength(ss: seq<seq<Name>>): nat {
    if ss == [] then 0 else |ss[0]| + TotalLength(ss[1..])
  }

  predicate InSomeTail(x: Name, ss: seq<seq<Name>>) {
    exists i :: 0 <= i < |ss| && ss[i] != [] && x in ss[i][1..]
  }

  /** The head at index i can be taken: no sequence holds it in its tail. */
  predicate FreeHead(ss: seq<seq<Name>>, i: nat) {
    i < |ss| && ss[i] != [] && !InSomeTail(ss[i][0], ss)
  }

  /** Index of the first free head from i on; |ss| when there is none. */
  function FirstFreeHead(ss: seq<seq<Name>>, i: nat): (k: nat)
    requires i <= |ss|
    ensures i <= k <= |ss|
    ensures k < |ss| ==> FreeHead(ss, k)
    decreases |ss| - i
  {
    if i == |ss| || FreeHead(ss, i) then i else FirstFreeHead(ss, i + 1)
  }

  lemma FirstFreeHeadExists(ss: seq<seq<Name>>, i: nat, k: nat)
    requires i <= k && FreeHead(ss, k)
    ensures FirstFreeHead(ss, i) < |ss|
    decreases |ss| - i
  {
  }

  function PopOne(s: seq<Name>, c: Name): seq<Name> {
    if s != [] && s[0] == c then s[1..] else s
  }

  function Pop(ss: seq<seq<Name>>, c: Name): seq<seq<Name>> {
    seq(|ss|, i requires 0 <= i < |ss| => PopOne(ss[i], c))
  }

  function Merged(ss: seq<seq<Name>>): Option<seq<Name>>
    decreases TotalLength(ss)
  {
    var live := DropEmpty(ss);
    if live == [] then Some([])
    else
      var k := FirstFreeHead(live, 0);
      if k == |live| || live[k][0] == "" then None
      else
        var c := live[k][0];
        DropEmptyKeepsRest(ss);
        PopShrinks(live, c, k);
        match Merged(Pop(live, c))
        case None => None
        case Some(rest) => Some([c] + rest)
  }

  lemma TotalLengthPop(ss: seq<seq<Name>>, c: Name)
    ensures TotalLength(Pop(ss, c)) <= TotalLength(ss)
  {
    if ss != [] {
      TotalLengthPop(ss[1..], c);
      assert Pop(ss, c)[1..] == Pop(ss[1..], c);
    }
  }

  lemma {:induction false} PopShrinks(ss: seq<seq<Name>>, c: Name, k: nat)
    requires k < |ss| && ss[k] != [] && ss[k][0] == c
    ensures TotalLength(Pop(ss, c)) < TotalLength(ss)
  {
    assert Pop(ss, c)[1..] == Pop(ss[1..], c);
    if k == 0 {
      TotalLengthPop(ss[1..], c);
    } else {
      PopShrinks(ss[1..], c, k - 1);
    }
  }

  // ---------------------------------------------------------------------------------------------
  // What a correct order is.

  /** w is a duplicate-free order that respects every input sequence. */
  ghost predicate Respects(w: seq<Name>, ss: seq<seq<Name>>) {
    NoDuplicates(w) && forall s :: s in ss ==> Subsequence(s, w)
  }

  ghost predicate Orderable(ss: seq<seq<Name>>) {
    exists w :: Respects(w, ss)
  }

  ghost predicate NoEmptyName(ss: seq<seq<Name>>) {
    forall s :: s in ss ==> "" !in s
  }

  ghost predicate SomeInputHas(ss: seq<seq<Name>>, x: Name) {
    exists s :: s in ss && x in s
  }

  // ---------------------------------------------------------------------------------------------
  // Soundness: a produced order respects the inputs and has exactly their elements.

  lemma {:induction false} MergedSound(ss: seq<seq<Name>>)
    requires Merged(ss).Some?
    ensures Respects(Merged(ss).value, ss)
    ensures forall x :: x in Merged(ss).value <==> SomeInputHas(ss, x)
    ensures NoEmptyName(ss)
    decreases TotalLength(ss)
  {
    var live := DropEmpty(ss);
    DropEmptyKeepsRest(ss);
    if live == [] {
    } else {
      var k := FirstFreeHead(live, 0);
      var c := live[k][0];
      PopShrinks(live, c, k);
      var popped := Pop(live, c);
      var rest := Merged(popped).value;
      MergedSound(popped);
      PoppedHeadIsGone(live, c);
      forall s | s in ss
        ensures Subsequence(s, [c] + rest) && "" !in s
      {
        if s != [] {
          MergedSoundFor(live, c, rest, s);
        }
      }
      forall x
        ensures x in [c] + rest <==> SomeInputHas(ss, x)
      {
        PoppedMembers(live, c, k, x);
        LiveMembers(ss, x);
      }
    }
  }

  lemma LiveMembers(ss: seq<seq<Name>>, x: Name)
    ensures SomeInputHas(DropEmpty(ss), x) <==> SomeInputHas(ss, x)
  {
    DropEmptyKeepsRest(ss);
    if SomeInputHas(ss, x) {
      var s :| s in ss && x in s;
      assert s in DropEmpty(ss);
    }
  }

  lemma MergedSoundFor(live: seq<seq<Name>>, c: Name, rest: seq<Name>, s: seq<Name>)
    requires s in live && s != [] && c != ""
    requires Respects(rest, Pop(live, c)) && NoEmptyName(Pop(live, c))
    ensures Subsequence(s, [c] + rest) && "" !in s
  {
    var i :| 0 <= i < |live| && live[i] == s;
    var p := PopOne(s, c);
    assert Pop(live, c)[i] == p && p in Pop(live, c);
    if s[0] == c {
      SubsequenceCons(p, c, rest);
      assert [c] + p == s;
    } else {
      SubsequenceWeaken(p, c, rest);
    }
  }

  /** The taken head occurs in no remaining sequence, so it is emitted once. */
  lemma PoppedHeadIsGone(live: seq<seq<Name>>, c: Name)
    requires AllNonEmpty(live)
    requires !InSomeTail(c, live)
    ensures !SomeInputHas(Pop(live, c), c)
  {
    forall p | p in Pop(live, c)
      ensures c !in p
    {
      var i :| 0 <= i < |live| && Pop(live, c)[i] == p;
      var s := live[i];
      assert s in live && c !in s[1..];
      assert s == [s[0]] + s[1..];
    }
  }

  lemma PoppedMembers(live: seq<seq<Name>>, c: Name, k: nat, x: Name)
    requires k < |live| && live[k] != [] && live[k][0] == c
    ensures SomeInputHas(live, x) <==> x == c || SomeInputHas(Pop(live, c), x)
  {
    if x == c {
      assert live[k] in live && c in live[k];
    }
    if SomeInputHas(live, x) && x != c {
      var s :| s in live && x in s;
      var i :| 0 <= i < |live| && live[i] == s;
      assert Pop(live, c)[i] == PopOne(s, c) && x in PopOne(s, c);
    }
    if SomeInputHas(Pop(live, c), x) {
      var p :| p in Pop(live, c) && x in p;
      var i :| 0 <= i < |live| && Pop(live, c)[i] == p;
      assert live[i] in live && x in live[i];
    }
  }

  // ---------------------------------------------------------------------------------------------
  // Completeness: when any order exists the greedy choice never gets stuck.

  /** Among orderable sequences some head is in no tail: the one that comes first in the order. */
  lemma {:induction false} SomeHeadIsFree(live: seq<seq<Name>>, w: seq<Name>) returns (k: nat)
    requires live != [] && AllNonEmpty(live)
    requires Respects(w, live)
    ensures FreeHead(live, k)
    decreases |w|
  {
    assert live[0] in live;
    if exists i :: 0 <= i < |live| && live[i][0] == w[0] {
      k :| 0 <= k < |live| && live[k][0] == w[0];
      forall i | 0 <= i < |live|
        ensures w[0] !in live[i][1..]
      {
        FirstOfOrderIsInNoTail(live[i], w);
      }
    } else {
      forall s | s in live
        ensures Subsequence(s, w[1..])
      {
        var i :| 0 <= i < |live| && live[i] == s;
      }
      k := SomeHeadIsFree(live, w[1..]);
    }
  }

  lemma FirstOfOrderIsInNoTail(s: seq<Name>, w: seq<Name>)
    requires s != [] && w != [] && NoDuplicates(w) && Subsequence(s, w)
    ensures w[0] !in s[1..]
  {
    if w[0] in s[1..] {
      assert Before(s, s[0], w[0]) by {
        var j :| 0 <= j < |s[1..]| && s[1..][j] == w[0];
        assert s[j + 1] == w[0];
      }
      SubsequenceBefore(s, w, s[0], w[0]);
      assert false;
    }
  }

  lemma {:induction false} MergedComplete(ss: seq<seq<Name>>)
    requires Orderable(ss) && NoEmptyName(ss)
    ensures Merged(ss).Some?
    decreases TotalLength(ss)
  {
    var w :| Respects(w, ss);
    var live := DropEmpty(ss);
    DropEmptyKeepsRest(ss);
    if live == [] {
    } else {
      var free := SomeHeadIsFree(live, w);
      FirstFreeHeadExists(live, 0, free);
      var k := FirstFreeHead(live, 0);
      var c := live[k][0];
      assert live[k] in live && c in live[k];
      PopShrinks(live, c, k);
      forall p | p in Pop(live, c)
        ensures Subsequence(p, w) && "" !in p
      {
        var i :| 0 <= i < |live| && Pop(live, c)[i] == p;
        assert live[i] in live;
        if p != live[i] {
          SubsequenceDrop(live[i], w);
        }
      }
      assert Respects(w, Pop(live, c));
      MergedComplete(Pop(live, c));
    }
  }

  /** The merge succeeds exactly when no name is empty and some duplicate-free order contains every input. */
  lemma MergeSucceedsIff(ss: seq<seq<Name>>)
    ensures Merged(ss).Some? <==> NoEmptyName(ss) && Orderable(ss)
  {
    if Merged(ss).Some? {
      MergedSound(ss);
    }
    if NoEmptyName(ss) && Orderable(ss) {
      MergedComplete(ss);
    }
  }
}
