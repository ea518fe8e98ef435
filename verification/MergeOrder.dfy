/** Which order the merge gives when several are possible: the first sequence whose head is free goes first. */
module MergeOrder {
  import opened Basics
  import opened Sequences
  import opened Merge
  import opened ParentGraph
  import opened Linearization

  /** What is left of s when the names of u have been emitted. */
  function Without(s: seq<Name>, u: seq<Name>): seq<Name> {
    if s == [] then [] else (if s[0] in u then [] else [s[0]]) + Without(s[1..], u)
  }

  predicate WaitsIn(s: seq<Name>, u: seq<Name>, x: Name) {
    Without(s, u) != [] && x in Without(s, u)[1..]
  }

  /** Some sequence still holds x behind its first name. */
  ghost predicate Waits(ss: seq<seq<Name>>, u: seq<Name>, x: Name) {
    exists i {:trigger ss[i]} :: 0 <= i < |ss| && WaitsIn(ss[i], u, x)
  }

  /** After u, c heads the k-th sequence and waits in none, and the heads of all sequences before do wait. */
  ghost predicate TakenFrom(ss: seq<seq<Name>>, u: seq<Name>, c: Name, k: nat) {
    && k < |ss| && Without(ss[k], u) != [] && Without(ss[k], u)[0] == c && !Waits(ss, u, c)
    && forall j {:trigger ss[j]} :: 0 <= j < k && Without(ss[j], u) != [] ==> Waits(ss, u, Without(ss[j], u)[0])
  }

  ghost predicate TakenFirst(ss: seq<seq<Name>>, u: seq<Name>, c: Name) {
    exists k: nat :: TakenFrom(ss, u, c, k)
  }

  /** Every name of w is the one taken first after the names before it. */
  ghost predicate Greedy(ss: seq<seq<Name>>, w: seq<Name>) {
    forall u, c, v {:trigger u + [c] + v} :: w == u + [c] + v ==> TakenFirst(ss, u, c)
  }

  // ---------------------------------------------------------------------------------------------
  // Sequences that are left.

  lemma {:induction false} WithoutNothing(s: seq<Name>)
    ensures Without(s, []) == s
  {
    if s == [] {
    } else {
      WithoutNothing(s[1..]);
    }
  }

  lemma {:induction false} WithoutOthers(s: seq<Name>, c: Name, u: seq<Name>)
    requires c !in s
    ensures Without(s, [c] + u) == Without(s, u)
  {
    if s == [] {
    } else {
      assert s == [s[0]] + s[1..];
      WithoutOthers(s[1..], c, u);
    }
  }

  /** Taking a head off is leaving its name out, when it is in no tail. */
  lemma WithoutPopped(s: seq<Name>, c: Name, u: seq<Name>)
    requires s != [] ==> c !in s[1..]
    ensures Without(PopOne(s, c), u) == Without(s, [c] + u)
  {
    if s == [] {
    } else {
      WithoutOthers(s[1..], c, u);
    }
  }

  lemma PoppedWaits(live: seq<seq<Name>>, c: Name, u: seq<Name>, x: Name)
    requires !InSomeTail(c, live)
    ensures Waits(Pop(live, c), u, x) <==> Waits(live, [c] + u, x)
  {
    forall i | 0 <= i < |live| ensures Without(Pop(live, c)[i], u) == Without(live[i], [c] + u) {
      WithoutPopped(live[i], c, u);
    }
    if Waits(Pop(live, c), u, x) {
      var i :| 0 <= i < |live| && WaitsIn(Pop(live, c)[i], u, x);
      assert live[i] == live[i];
    }
    if Waits(live, [c] + u, x) {
      var i :| 0 <= i < |live| && WaitsIn(live[i], [c] + u, x);
      assert Pop(live, c)[i] == PopOne(live[i], c);
    }
  }

  lemma PoppedTaken(live: seq<seq<Name>>, c: Name, u: seq<Name>, x: Name, k: nat)
    requires !InSomeTail(c, live) && TakenFrom(Pop(live, c), u, x, k)
    ensures TakenFrom(live, [c] + u, x, k)
  {
    var popped := Pop(live, c);
    forall i | 0 <= i < |live| ensures Without(popped[i], u) == Without(live[i], [c] + u) {
      WithoutPopped(live[i], c, u);
    }
    PoppedWaits(live, c, u, x);
    forall j | 0 <= j < k && Without(live[j], [c] + u) != []
      ensures Waits(live, [c] + u, Without(live[j], [c] + u)[0])
    {
      assert popped[j] == PopOne(live[j], c);
      PoppedWaits(live, c, u, Without(live[j], [c] + u)[0]);
    }
  }

  // ---------------------------------------------------------------------------------------------
  // Empty sequences.

  lemma NonEmptyWaits(s: seq<Name>, rest: seq<seq<Name>>, u: seq<Name>, x: Name)
    ensures Waits([s] + rest, u, x) <==>
            WaitsIn(s, u, x) || Waits(rest, u, x)
  {
    var ss := [s] + rest;
    if Waits(ss, u, x) && !WaitsIn(s, u, x) {
      var i :| 0 <= i < |ss| && WaitsIn(ss[i], u, x);
      assert rest[i - 1] == ss[i];
    }
    if WaitsIn(s, u, x) {
      assert ss[0] == s;
    }
    if Waits(rest, u, x) {
      var i :| 0 <= i < |rest| && WaitsIn(rest[i], u, x);
      assert ss[i + 1] == rest[i];
    }
  }

  lemma {:induction false} LiveWaits(ss: seq<seq<Name>>, u: seq<Name>, x: Name)
    ensures Waits(DropEmpty(ss), u, x) <==> Waits(ss, u, x)
  {
    if ss == [] {
    } else {
      assert ss == [ss[0]] + ss[1..];
      NonEmptyWaits(ss[0], ss[1..], u, x);
      NonEmptyWaits(ss[0], DropEmpty(ss[1..]), u, x);
      LiveWaits(ss[1..], u, x);
    }
  }

  /** Where the k-th sequence that is not empty stands. */
  lemma {:induction false} LiveAt(ss: seq<seq<Name>>, k: nat) returns (i: nat)
    requires k < |DropEmpty(ss)|
    ensures i < |ss| && ss[i] == DropEmpty(ss)[k]
    ensures forall j :: 0 <= j < i && ss[j] != [] ==> ss[j] in DropEmpty(ss)[..k]
  {
    var rest := DropEmpty(ss[1..]);
    if ss[0] == [] {
      i := LiveAt(ss[1..], k);
      i := i + 1;
    } else if k == 0 {
      i := 0;
    } else {
      i := LiveAt(ss[1..], k - 1);
      assert DropEmpty(ss)[..k] == [ss[0]] + rest[..k - 1];
      forall j | 0 <= j < i + 1 && ss[j] != [] ensures ss[j] in DropEmpty(ss)[..k] {
        assert j > 0 ==> ss[1..][j - 1] in rest[..k - 1];
      }
      i := i + 1;
    }
  }

  lemma LiveTaken(ss: seq<seq<Name>>, u: seq<Name>, c: Name, k: nat)
    requires TakenFrom(DropEmpty(ss), u, c, k)
    ensures TakenFirst(ss, u, c)
  {
    var live := DropEmpty(ss);
    var i := LiveAt(ss, k);
    LiveWaits(ss, u, c);
    forall j | 0 <= j < i && Without(ss[j], u) != [] ensures Waits(ss, u, Without(ss[j], u)[0]) {
      assert ss[j] in live[..k];
      var l :| 0 <= l < k && live[l] == ss[j];
      LiveWaits(ss, u, Without(ss[j], u)[0]);
    }
    assert TakenFrom(ss, u, c, i);
  }

  // ---------------------------------------------------------------------------------------------
  // The merge.

  lemma WaitsAtFirst(ss: seq<seq<Name>>, x: Name)
    ensures Waits(ss, [], x) <==> InSomeTail(x, ss)
  {
    forall i | 0 <= i < |ss| ensures Without(ss[i], []) == ss[i] {
      WithoutNothing(ss[i]);
    }
    if InSomeTail(x, ss) {
      var i :| 0 <= i < |ss| && ss[i] != [] && x in ss[i][1..];
      assert Without(ss[i], []) == ss[i];
    }
  }

  lemma {:induction false} NoFreeHeadBefore(ss: seq<seq<Name>>, i: nat, j: nat)
    requires i <= |ss| && i <= j < FirstFreeHead(ss, i)
    ensures !FreeHead(ss, j)
    decreases |ss| - i
  {
    if i < j {
      NoFreeHeadBefore(ss, i + 1, j);
    }
  }

  lemma FirstTaken(live: seq<seq<Name>>)
    requires AllNonEmpty(live) && FirstFreeHead(live, 0) < |live|
    ensures TakenFrom(live, [], live[FirstFreeHead(live, 0)][0], FirstFreeHead(live, 0))
  {
    var k := FirstFreeHead(live, 0);
    WithoutNothing(live[k]);
    WaitsAtFirst(live, live[k][0]);
    forall j | 0 <= j < k && Without(live[j], []) != [] ensures Waits(live, [], Without(live[j], [])[0]) {
      WithoutNothing(live[j]);
      WaitsAtFirst(live, live[j][0]);
      NoFreeHeadBefore(live, 0, j);
    }
  }

  /** Main result: every name of the merged order is the first free head among what is left of the sequences. */
  lemma {:induction false} MergedTakesFirst(ss: seq<seq<Name>>, u: seq<Name>, c: Name, v: seq<Name>)
    requires Merged(ss) == Some(u + [c] + v)
    ensures TakenFirst(ss, u, c)
    decreases |u|
  {
    var live := DropEmpty(ss);
    DropEmptyKeepsRest(ss);
    assert (u + [c] + v)[|u|] == c;
    var k := FirstFreeHead(live, 0);
    var first := live[k][0];
    if u == [] {
      FirstTaken(live);
      LiveTaken(ss, u, c, k);
    } else {
      assert (u + [c] + v)[0] == u[0] == first;
      assert (u + [c] + v)[1..] == u[1..] + [c] + v;
      PopShrinks(live, first, k);
      MergedTakesFirst(Pop(live, first), u[1..], c, v);
      var l: nat :| TakenFrom(Pop(live, first), u[1..], c, l);
      PoppedTaken(live, first, u[1..], c, l);
      assert u == [first] + u[1..];
      LiveTaken(ss, u, c, l);
    }
  }

  lemma MergedIsGreedy(ss: seq<seq<Name>>)
    requires Merged(ss).Some?
    ensures Greedy(ss, Merged(ss).value)
  {
    forall u, c, v | Merged(ss).value == u + [c] + v ensures TakenFirst(ss, u, c) {
      MergedTakesFirst(ss, u, c, v);
    }
  }

  /** There is only one such name, so the order is the only one that is made in this way. */
  lemma FirstIsUnique(ss: seq<seq<Name>>, u: seq<Name>, c: Name, d: Name)
    requires TakenFirst(ss, u, c) && TakenFirst(ss, u, d)
    ensures c == d
  {
    var k: nat :| TakenFrom(ss, u, c, k);
    var l: nat :| TakenFrom(ss, u, d, l);
    assert !(k < l) && !(l < k);
  }

  // ---------------------------------------------------------------------------------------------
  // Linearizations.

  /** The last parent's linearization first, the first one's last, and behind them the parents themselves in this
      order. */
  ghost predicate AreInputs(pm: ParentMap, direct: seq<Name>, inputs: seq<seq<Name>>) {
    var n := |direct|;
    && |inputs| == n + 1
    && (forall i {:trigger inputs[i]} :: 0 <= i < n ==> inputs[i] == Linearized(pm, direct[n - 1 - i]))
    && |inputs[n]| == n && forall i {:trigger inputs[n][i]} :: 0 <= i < n ==> inputs[n][i] == direct[n - 1 - i]
  }

  lemma InputsAre(pm: ParentMap, direct: seq<Name>)
    requires direct != []
    ensures AreInputs(pm, direct, MergeInputs(pm, direct))
  {
    LinearizedEachAt(pm, Reversed(direct), {});
  }

  /** The merged parents are taken in this way; where no order exists there are none. */
  lemma ParentsTakenFirst(pm: ParentMap, direct: seq<Name>, inputs: seq<seq<Name>>)
    requires AreInputs(pm, direct, inputs) && direct != []
    ensures var merged := LinearizedParents(pm, direct);
            if NoEmptyName(inputs) && Orderable(inputs) then Greedy(inputs, merged) else merged == []
  {
    InputsAre(pm, direct);
    assert inputs == MergeInputs(pm, direct) by {
      assert inputs[|direct|] == MergeInputs(pm, direct)[|direct|];
    }
    MergeSucceedsIff(inputs);
    if NoEmptyName(inputs) && Orderable(inputs) {
      MergedIsGreedy(inputs);
    }
  }
}
