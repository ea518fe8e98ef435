/** `checkedLinearizedParentNames` of nir/src/Nir.cpp with its cache, its on-stack set and its two flags. */
module Linearizer {
  import opened Basics
  import opened Sequences
  import opened Merge
  import opened ParentGraph
  import opened Linearization
  import opened MergeOrder

  datatype LinearizationResult = LinearizationResult(names: seq<Name>, cyclic: bool, consistent: bool)

  ghost predicate ClosedUpward(pm: ParentMap, s: set<Name>) {
    forall t, p {:trigger t in s, p in Parents(pm, t)} :: t in s && p in Parents(pm, t) ==> p in s
  }

  lemma ClosedReaches(pm: ParentMap, s: set<Name>, x: Name, y: Name)
    requires ClosedUpward(pm, s) && x in s && Reaches(pm, x, y)
    ensures y in s
  {
    var n: nat :| ReachesIn(pm, x, y, n);
    ClosedReachesIn(pm, s, x, y, n);
  }

  lemma {:induction false} ClosedReachesIn(pm: ParentMap, s: set<Name>, x: Name, y: Name, n: nat)
    requires ClosedUpward(pm, s) && x in s && ReachesIn(pm, x, y, n)
    ensures y in s
    decreases n
  {
    if n == 0 {
    } else {
      var z :| z in Parents(pm, x) && ReachesIn(pm, z, y, n - 1);
      ClosedReachesIn(pm, s, z, y, n - 1);
    }
  }

  /** A type outside a closed acyclic set that holds all its parents is on no cycle. */
  lemma AcyclicExtension(pm: ParentMap, s: set<Name>, t: Name)
    requires ClosedUpward(pm, s)
    requires forall z {:trigger Acyclic(pm, z)} :: z in s ==> Acyclic(pm, z)
    requires t !in s && forall p :: p in Parents(pm, t) ==> p in s
    ensures Acyclic(pm, t)
  {
    forall x | Reaches(pm, t, x)
      ensures !Ancestor(pm, x, x)
    {
      ReachesCases(pm, t, x);
      if Ancestor(pm, t, x) {
        var z :| z in Parents(pm, t) && Reaches(pm, z, x);
        ClosedReaches(pm, s, z, x);
        assert Acyclic(pm, z);
      }
    }
  }

  /** A cached entry is the cache-free linearization of an acyclic type reached from the roots. */
  ghost predicate EntryCorrect(pm: ParentMap, roots: seq<Name>, t: Name, entry: seq<Name>) {
    ReachedFrom(pm, roots, t) && Acyclic(pm, t) && entry == Linearized(pm, t)
  }

  ghost predicate EntriesCorrect(pm: ParentMap, roots: seq<Name>, cache: map<Name, seq<Name>>) {
    forall t {:trigger EntryCorrect(pm, roots, t, cache[t])} :: t in cache ==> EntryCorrect(pm, roots, t, cache[t])
  }

  ghost predicate AllConsistent(pm: ParentMap, s: set<Name>) {
    forall t {:trigger ConsistentAt(pm, t)} :: t in s ==> ConsistentAt(pm, t)
  }

  ghost predicate CacheCorrect(pm: ParentMap, roots: seq<Name>, cache: map<Name, seq<Name>>, consistent: bool) {
    && EntriesCorrect(pm, roots, cache)
    && ClosedUpward(pm, cache.Keys)
    && (consistent <==> AllConsistent(pm, cache.Keys))
  }

  /** What holds between calls: the flags and the cache tell the truth. */
  ghost predicate StateCorrect(pm: ParentMap, roots: seq<Name>, visiting: set<Name>,
                               cache: map<Name, seq<Name>>, cyclic: bool, consistent: bool)
  {
    && visiting !! cache.Keys
    && (cyclic ==> CycleReached(pm, roots))
    && (!cyclic ==> CacheCorrect(pm, roots, cache, consistent))
  }

  /** t lies above the roots and above every type still on the call stack. */
  ghost predicate AboveVisiting(pm: ParentMap, roots: seq<Name>, visiting: set<Name>, t: Name) {
    ReachedFrom(pm, roots, t) && forall x {:trigger Ancestor(pm, x, t)} :: x in visiting ==> Ancestor(pm, x, t)
  }

  ghost predicate AllAboveVisiting(pm: ParentMap, roots: seq<Name>, visiting: set<Name>, ts: seq<Name>) {
    forall i {:trigger AboveVisiting(pm, roots, visiting, ts[i])} :: 0 <= i < |ts| ==>
      AboveVisiting(pm, roots, visiting, ts[i])
  }

  /** A type reached again while on the stack lies on a cycle. */
  lemma BackEdgeIsCycle(pm: ParentMap, roots: seq<Name>, visiting: set<Name>, t: Name)
    requires AboveVisiting(pm, roots, visiting, t) && t in visiting
    ensures CycleReached(pm, roots)
  {
    assert Ancestor(pm, t, t);
  }

  lemma ParentsAboveVisiting(pm: ParentMap, roots: seq<Name>, visiting: set<Name>, t: Name, p: Name)
    requires AboveVisiting(pm, roots, visiting, t) && p in Parents(pm, t)
    ensures AboveVisiting(pm, roots, visiting + {t}, p)
  {
    ReachesSelf(pm, p);
    ReachesStep(pm, t, p, p);
    var d :| d in roots && Reaches(pm, d, t);
    ReachesTransitive(pm, d, t, p);
    forall x | x in visiting + {t}
      ensures Ancestor(pm, x, p)
    {
      if x in visiting {
        assert Ancestor(pm, x, t);
        AncestorReaches(pm, x, t, p);
      }
    }
  }

  lemma AllParentsAboveVisiting(pm: ParentMap, roots: seq<Name>, visiting: set<Name>, t: Name)
    requires AboveVisiting(pm, roots, visiting, t)
    ensures AllAboveVisiting(pm, roots, visiting + {t}, Reversed(Parents(pm, t)))
  {
    var priority := Reversed(Parents(pm, t));
    ReversedMembers(Parents(pm, t));
    forall i | 0 <= i < |priority|
      ensures AboveVisiting(pm, roots, visiting + {t}, priority[i])
    {
      ParentsAboveVisiting(pm, roots, visiting, t, priority[i]);
    }
  }

  lemma RootsAboveVisiting(pm: ParentMap, roots: seq<Name>)
    ensures AllAboveVisiting(pm, roots, {}, Reversed(roots))
  {
    var priority := Reversed(roots);
    ReversedMembers(roots);
    forall i | 0 <= i < |priority|
      ensures AboveVisiting(pm, roots, {}, priority[i])
    {
      ReachesSelf(pm, priority[i]);
    }
  }

  /** The first n types are cached and their linearizations collected in order. */
  ghost predicate EachDone(pm: ParentMap, ts: seq<Name>, n: nat, sequences: seq<seq<Name>>, cached: set<Name>) {
    && |sequences| == n <= |ts|
    && forall j {:trigger sequences[j]} :: 0 <= j < n ==> ts[j] in cached && sequences[j] == Linearized(pm, ts[j])
  }

  lemma EachDoneGrows(pm: ParentMap, ts: seq<Name>, n: nat, sequences: seq<seq<Name>>, cached: set<Name>,
                      one: seq<Name>, nowCached: set<Name>)
    requires EachDone(pm, ts, n, sequences, cached) && n < |ts|
    requires cached <= nowCached && ts[n] in nowCached && one == Linearized(pm, ts[n])
    ensures EachDone(pm, ts, n + 1, sequences + [one], nowCached)
  {
    forall j | 0 <= j < n + 1
      ensures ts[j] in nowCached && (sequences + [one])[j] == Linearized(pm, ts[j])
    {
      if j < n {
        assert sequences[j] == Linearized(pm, ts[j]);
      }
    }
  }

  lemma EachDoneIsAll(pm: ParentMap, ts: seq<Name>, sequences: seq<seq<Name>>, cached: set<Name>)
    requires EachDone(pm, ts, |ts|, sequences, cached)
    ensures sequences == LinearizedEach(pm, ts, {}) && forall t :: t in ts ==> t in cached
  {
    LinearizedEachAt(pm, ts, {});
    forall t | t in ts
      ensures t in cached
    {
      var j :| 0 <= j < |ts| && ts[j] == t;
      assert sequences[j] == Linearized(pm, ts[j]);
    }
  }

  /** A type outside the cache whose parents are all cached gets a correct entry. */
  lemma NewEntryCorrect(pm: ParentMap, roots: seq<Name>, cache: map<Name, seq<Name>>, t: Name)
    requires EntriesCorrect(pm, roots, cache) && ClosedUpward(pm, cache.Keys)
    requires t !in cache && ReachedFrom(pm, roots, t) && forall p :: p in Parents(pm, t) ==> p in cache
    ensures EntryCorrect(pm, roots, t, [t] + LinearizedParents(pm, Parents(pm, t)))
  {
    forall x | x in cache.Keys
      ensures Acyclic(pm, x)
    {
      assert EntryCorrect(pm, roots, x, cache[x]);
    }
    AcyclicExtension(pm, cache.Keys, t);
    LinearizedUnfold(pm, t);
  }

  lemma EntriesExtension(pm: ParentMap, roots: seq<Name>, cache: map<Name, seq<Name>>, t: Name, entry: seq<Name>)
    requires EntriesCorrect(pm, roots, cache) && EntryCorrect(pm, roots, t, entry)
    ensures EntriesCorrect(pm, roots, cache[t := entry])
  {
    var extended := cache[t := entry];
    forall x | x in extended
      ensures EntryCorrect(pm, roots, x, extended[x])
    {
      if x != t {
        assert EntryCorrect(pm, roots, x, cache[x]);
      }
    }
  }

  lemma ClosedExtension(pm: ParentMap, s: set<Name>, t: Name)
    requires ClosedUpward(pm, s) && forall p :: p in Parents(pm, t) ==> p in s
    ensures ClosedUpward(pm, s + {t})
  {
  }

  /** Caching a type whose parents are all cached keeps the cache correct. */
  lemma CacheExtension(pm: ParentMap, roots: seq<Name>, cache: map<Name, seq<Name>>, consistent: bool, t: Name)
    requires CacheCorrect(pm, roots, cache, consistent)
    requires t !in cache && ReachedFrom(pm, roots, t) && forall p :: p in Parents(pm, t) ==> p in cache
    ensures CacheCorrect(pm, roots, cache[t := [t] + LinearizedParents(pm, Parents(pm, t))],
                         consistent && ConsistentAt(pm, t))
    ensures Linearized(pm, t) == [t] + LinearizedParents(pm, Parents(pm, t))
  {
    var entry := [t] + LinearizedParents(pm, Parents(pm, t));
    assert cache[t := entry].Keys == cache.Keys + {t};
    NewEntryCorrect(pm, roots, cache, t);
    EntriesExtension(pm, roots, cache, t, entry);
    ClosedExtension(pm, cache.Keys, t);
    ConsistencyExtension(pm, cache.Keys, t);
  }

  lemma ConsistencyExtension(pm: ParentMap, s: set<Name>, t: Name)
    ensures AllConsistent(pm, s + {t}) <==> AllConsistent(pm, s) && ConsistentAt(pm, t)
  {
  }

  /** The cache covers exactly what the roots reach, so no reached type is on a cycle. */
  lemma CacheCoversRoots(pm: ParentMap, roots: seq<Name>, cache: map<Name, seq<Name>>, consistent: bool)
    requires CacheCorrect(pm, roots, cache, consistent) && forall d :: d in roots ==> d in cache
    ensures forall x :: ReachedFrom(pm, roots, x) <==> x in cache
    ensures !CycleReached(pm, roots)
  {
    forall x | ReachedFrom(pm, roots, x)
      ensures x in cache && !Ancestor(pm, x, x)
    {
      var d :| d in roots && Reaches(pm, d, x);
      ClosedReaches(pm, cache.Keys, d, x);
      ReachesSelf(pm, x);
      assert EntryCorrect(pm, roots, x, cache[x]);
    }
    forall x | x in cache
      ensures ReachedFrom(pm, roots, x)
    {
      assert EntryCorrect(pm, roots, x, cache[x]);
    }
  }

  /** What the cache says at the end, when every root has been handled without meeting a cycle. */
  lemma AcyclicAnswer(pm: ParentMap, roots: seq<Name>, cache: map<Name, seq<Name>>, consistent: bool,
                      sequences: seq<seq<Name>>)
    requires CacheCorrect(pm, roots, cache, consistent)
    requires EachDone(pm, Reversed(roots), |roots|, sequences, cache.Keys)
    ensures !CycleReached(pm, roots)
    ensures WithPriority(sequences, Reversed(roots)) == MergeInputs(pm, roots)
    ensures consistent && Merged(MergeInputs(pm, roots)).Some? <==> ConsistentFrom(pm, roots)
  {
    ReversedMembers(roots);
    EachDoneIsAll(pm, Reversed(roots), sequences, cache.Keys);
    CacheCoversRoots(pm, roots, cache, consistent);
  }

  // What holds of the names with and without cycles: they lie above the type.

  ghost predicate Ancestral(pm: ParentMap, t: Name, names: seq<Name>) {
    forall x {:trigger Reaches(pm, t, x)} {:trigger x in names} :: x in names ==> Reaches(pm, t, x)
  }

  ghost predicate CacheAncestral(pm: ParentMap, cache: map<Name, seq<Name>>) {
    forall t {:trigger cache[t]} :: t in cache ==> Ancestral(pm, t, cache[t])
  }

  ghost predicate EachAncestral(pm: ParentMap, ts: seq<Name>, n: nat, sequences: seq<seq<Name>>) {
    |sequences| == n <= |ts| && forall j {:trigger sequences[j]} :: 0 <= j < n ==> Ancestral(pm, ts[j], sequences[j])
  }

  lemma EachAncestralGrows(pm: ParentMap, ts: seq<Name>, n: nat, sequences: seq<seq<Name>>, one: seq<Name>)
    requires EachAncestral(pm, ts, n, sequences) && n < |ts| && Ancestral(pm, ts[n], one)
    ensures EachAncestral(pm, ts, n + 1, sequences + [one])
  {
    forall j | 0 <= j < n + 1 ensures Ancestral(pm, ts[j], (sequences + [one])[j]) {
      if j < n {
        assert Ancestral(pm, ts[j], sequences[j]);
      }
    }
  }

  /** The merged names are distinct and lie above the direct parents. */
  lemma MergedAncestral(pm: ParentMap, direct: seq<Name>, sequences: seq<seq<Name>>)
    requires EachAncestral(pm, Reversed(direct), |direct|, sequences)
    ensures var names := MergedOrEmpty(WithPriority(sequences, Reversed(direct)));
            NoDuplicates(names) && forall x :: x in names ==> ReachedFrom(pm, direct, x)
  {
    var priority := Reversed(direct);
    var inputs := WithPriority(sequences, priority);
    if Merged(inputs).Some? {
      MergedSound(inputs);
      ReversedMembers(direct);
      forall x | x in Merged(inputs).value ensures ReachedFrom(pm, direct, x) {
        assert SomeInputHas(inputs, x);
        var s :| s in inputs && x in s;
        if s in sequences {
          var j :| 0 <= j < |sequences| && sequences[j] == s;
          assert Reaches(pm, priority[j], x);
        } else {
          ReachesSelf(pm, x);
        }
      }
    }
  }

  lemma ParentsAncestral(pm: ParentMap, t: Name, names: seq<Name>)
    requires forall x :: x in names ==> ReachedFrom(pm, Parents(pm, t), x)
    ensures Ancestral(pm, t, [t] + names)
  {
    ReachesSelf(pm, t);
    forall x | x in names ensures Reaches(pm, t, x) {
      var d :| d in Parents(pm, t) && Reaches(pm, d, x);
      ReachesStep(pm, t, d, x);
    }
  }

  /** The part of the merge still to be done is the part of the answer still missing. */
  ghost predicate MergeProgress(input: seq<seq<Name>>, done: seq<Name>, left: seq<seq<Name>>) {
    && Merged(input).Some? == Merged(left).Some?
    && (Merged(input).Some? ==> Merged(input).value == done + Merged(left).value)
  }

  ghost predicate NoneLeft(emitted: set<Name>, left: seq<seq<Name>>) {
    forall x :: x in emitted ==> !SomeInputHas(left, x)
  }

  lemma MergeStuck(input: seq<seq<Name>>, done: seq<Name>, left: seq<seq<Name>>)
    requires MergeProgress(input, done, left)
    ensures DropEmpty(left) == [] ==> Merged(input) == Some(done)
    ensures var live := DropEmpty(left);
      var k := FirstFreeHead(live, 0);
      live != [] && (k == |live| || live[k][0] == "") ==> Merged(input) == None
  {
    assert done + [] == done;
  }

  lemma MergeAdvance(input: seq<seq<Name>>, done: seq<Name>, left: seq<seq<Name>>, emitted: set<Name>)
    requires MergeProgress(input, done, left) && NoneLeft(emitted, left)
    requires var live := DropEmpty(left);
      var k := FirstFreeHead(live, 0);
      k < |live| && live[k][0] != ""
    ensures var live := DropEmpty(left);
      var c := live[FirstFreeHead(live, 0)][0];
      && c !in emitted
      && MergeProgress(input, done + [c], Pop(live, c))
      && NoneLeft(emitted + {c}, Pop(live, c))
      && TotalLength(Pop(live, c)) < TotalLength(left)
  {
    var live := DropEmpty(left);
    var k := FirstFreeHead(live, 0);
    var c := live[k][0];
    DropEmptyKeepsRest(left);
    PopShrinks(live, c, k);
    PoppedHeadIsGone(live, c);
    assert live[k] in live && c in live[k];
    forall x | x in emitted
      ensures !SomeInputHas(live, x) && !SomeInputHas(Pop(live, c), x)
    {
      LiveMembers(left, x);
      PoppedMembers(live, c, k, x);
    }
    MergeAdvanceValue(input, done, left);
  }

  lemma MergeAdvanceValue(input: seq<seq<Name>>, done: seq<Name>, left: seq<seq<Name>>)
    requires MergeProgress(input, done, left)
    requires var live := DropEmpty(left);
      var k := FirstFreeHead(live, 0);
      k < |live| && live[k][0] != ""
    ensures var live := DropEmpty(left);
      var c := live[FirstFreeHead(live, 0)][0];
      MergeProgress(input, done + [c], Pop(live, c))
  {
    var live := DropEmpty(left);
    var k := FirstFreeHead(live, 0);
    var c := live[k][0];
    DropEmptyKeepsRest(left);
    PopShrinks(live, c, k);
    if Merged(left).Some? {
      var rest := Merged(Pop(live, c)).value;
      assert done + ([c] + rest) == (done + [c]) + rest;
    }
  }

  class Linearizer {
    const parentMap: ParentMap
    const roots: seq<Name>
    var cache: map<Name, seq<Name>>
    var visiting: set<Name>
    var cyclic: bool
    var consistent: bool

    constructor (directParents: seq<Name>, parentMap: ParentMap)
      ensures Valid() && visiting == {} && !cyclic
      ensures this.parentMap == parentMap && roots == directParents
    {
      this.parentMap, roots := parentMap, directParents;
      cache, visiting, cyclic, consistent := map[], {}, false, true;
    }

    ghost predicate Valid()
      reads this
    {
      StateCorrect(parentMap, roots, visiting, cache, cyclic, consistent) && CacheAncestral(parentMap, cache)
    }

    method Merge(input: seq<seq<Name>>) returns (result: seq<Name>)
      modifies this`consistent
      ensures result == MergedOrEmpty(input)
      ensures consistent == (old(consistent) && Merged(input).Some?)
      ensures Merged(input).Some? ==> Greedy(input, result)
    {
      var sequences := input;
      result := [];
      var emitted: set<Name> := {};
      while true
        invariant NoneLeft(emitted, sequences) && MergeProgress(input, result, sequences)
        invariant consistent == old(consistent)
        decreases TotalLength(sequences)
      {
        MergeStuck(input, result, sequences);
        DropEmptyKeepsRest(sequences);
        ghost var before := sequences;
        sequences := DropEmpty(sequences);
        if |sequences| == 0 {
          MergedIsGreedy(input);
          return result;
        }
        var k := FindCandidate(sequences);
        var candidate := if k < |sequences| then sequences[k][0] else "";
        if candidate == "" {
          consistent := false;
          return [];
        }
        MergeAdvance(input, result, before, emitted);
        if candidate !in emitted {
          emitted := emitted + {candidate};
          result := result + [candidate];
        }
        sequences := PopAll(sequences, candidate);
      }
    }

    /** Scans the heads for the first one that no sequence holds in its tail. */
    method FindCandidate(sequences: seq<seq<Name>>) returns (k: nat)
      requires AllNonEmpty(sequences)
      ensures k == FirstFreeHead(sequences, 0)
      ensures forall m :: 0 <= m < k ==> !FreeHead(sequences, m)
      ensures k < |sequences| ==> FreeHead(sequences, k)
    {
      k := 0;
      while k < |sequences|
        invariant k <= |sequences| && FirstFreeHead(sequences, 0) == FirstFreeHead(sequences, k)
        invariant forall m :: 0 <= m < k ==> !FreeHead(sequences, m)
      {
        var appearsInTail := false;
        var j := 0;
        while j < |sequences| && !appearsInTail
          invariant j <= |sequences|
          invariant appearsInTail ==> InSomeTail(sequences[k][0], sequences)
          invariant !appearsInTail ==> forall m :: 0 <= m < j ==> sequences[k][0] !in sequences[m][1..]
        {
          appearsInTail := sequences[k][0] in sequences[j][1..];
          j := j + 1;
        }
        if !appearsInTail {
          return;
        }
        k := k + 1;
      }
    }

    method PopAll(sequences: seq<seq<Name>>, candidate: Name) returns (popped: seq<seq<Name>>)
      ensures popped == Pop(sequences, candidate)
    {
      popped := sequences;
      var i := 0;
      while i < |popped|
        invariant i <= |popped| == |sequences|
        invariant forall m :: 0 <= m < i ==> popped[m] == PopOne(sequences[m], candidate)
        invariant forall m :: i <= m < |popped| ==> popped[m] == sequences[m]
      {
        if popped[i] != [] && popped[i][0] == candidate {
          popped := popped[i := popped[i][1..]];
        }
        i := i + 1;
      }
    }

    method Linearize(t: Name) returns (result: seq<Name>)
      requires Valid() && AboveVisiting(parentMap, roots, visiting, t)
      modifies this
      ensures Valid() && visiting == old(visiting) && (old(cyclic) ==> cyclic)
      ensures old(cache.Keys) <= cache.Keys
      ensures !cyclic ==> t in cache && result == Linearized(parentMap, t)
      ensures Ancestral(parentMap, t, result)
      decreases parentMap.Keys - visiting, 0, 1
    {
      if t in cache {
        assert !cyclic ==> EntryCorrect(parentMap, roots, t, cache[t]);
        return cache[t];
      }
      if t in visiting {
        cyclic := true;
        BackEdgeIsCycle(parentMap, roots, visiting, t);
        return [];
      }
      visiting := visiting + {t};
      var parents := if t in parentMap then parentMap[t] else [];
      var priority := Reversed(parents);
      AllParentsAboveVisiting(parentMap, roots, old(visiting), t);
      var sequences := LinearizeEach(priority);
      result := Finish(t, priority, sequences);
    }

    /** The end of one recursion: merge, leave the stack and remember the result. */
    method Finish(t: Name, priority: seq<Name>, sequences: seq<seq<Name>>) returns (result: seq<Name>)
      requires Valid() && t in visiting && ReachedFrom(parentMap, roots, t)
      requires priority == Reversed(Parents(parentMap, t))
      requires !cyclic ==> EachDone(parentMap, priority, |priority|, sequences, cache.Keys)
      requires EachAncestral(parentMap, priority, |priority|, sequences)
      modifies this
      ensures Valid() && visiting == old(visiting) - {t} && cyclic == old(cyclic)
      ensures cache.Keys == old(cache.Keys) + {t}
      ensures !cyclic ==> result == Linearized(parentMap, t)
      ensures Ancestral(parentMap, t, result)
    {
      MergedAncestral(parentMap, Parents(parentMap, t), sequences);
      ParentsAncestral(parentMap, t, MergedOrEmpty(WithPriority(sequences, priority)));
      ghost var wasConsistent := consistent;
      var ancestors := Merge(WithPriority(sequences, priority));
      result := [t] + ancestors;
      if !cyclic {
        EachDoneIsAll(parentMap, priority, sequences, cache.Keys);
        ReversedMembers(Parents(parentMap, t));
        CacheExtension(parentMap, roots, cache, wasConsistent, t);
      }
      visiting := visiting - {t};
      cache := cache[t := result];
    }

    method LinearizeEach(priority: seq<Name>) returns (sequences: seq<seq<Name>>)
      requires Valid() && AllAboveVisiting(parentMap, roots, visiting, priority)
      modifies this
      ensures Valid() && visiting == old(visiting) && (old(cyclic) ==> cyclic)
      ensures old(cache.Keys) <= cache.Keys
      ensures !cyclic ==> EachDone(parentMap, priority, |priority|, sequences, cache.Keys)
      ensures EachAncestral(parentMap, priority, |priority|, sequences)
      decreases parentMap.Keys - visiting, |priority|, 0
    {
      sequences := [];
      var i := 0;
      while i < |priority|
        invariant 0 <= i <= |priority|
        invariant Valid() && visiting == old(visiting) && (old(cyclic) ==> cyclic)
        invariant old(cache.Keys) <= cache.Keys
        invariant !cyclic ==> EachDone(parentMap, priority, i, sequences, cache.Keys)
        invariant EachAncestral(parentMap, priority, i, sequences)
      {
        ghost var cached := cache.Keys;
        ghost var before := sequences;
        assert AboveVisiting(parentMap, roots, old(visiting), priority[i]);
        var one := Linearize(priority[i]);
        EachAncestralGrows(parentMap, priority, i, sequences, one);
        sequences := sequences + [one];
        if !cyclic {
          EachDoneGrows(parentMap, priority, i, before, cached, one, cache.Keys);
        }
        i := i + 1;
      }
    }
  }

  /** The cycle flag is exact on every finite map; without a cycle the cached result is the cache-free one. */
  method CheckedLinearizedParentNames(directParents: seq<Name>, parentMap: ParentMap)
    returns (checked: LinearizationResult)
    ensures checked.cyclic <==> CycleReached(parentMap, directParents)
    ensures !checked.cyclic ==> checked.names == LinearizedParents(parentMap, directParents)
    ensures !checked.cyclic ==> (checked.consistent <==> ConsistentFrom(parentMap, directParents))
    ensures NoDuplicates(checked.names) && forall x :: x in checked.names ==> ReachedFrom(parentMap, directParents, x)
  {
    var state := new Linearizer(directParents, parentMap);
    var priority := Reversed(directParents);
    RootsAboveVisiting(parentMap, directParents);
    var sequences := state.LinearizeEach(priority);
    if !state.cyclic {
      AcyclicAnswer(parentMap, directParents, state.cache, state.consistent, sequences);
    }
    MergedAncestral(parentMap, directParents, sequences);
    var names := state.Merge(WithPriority(sequences, priority));
    checked := LinearizationResult(names, state.cyclic, state.consistent);
  }

  /** The type first, then distinct names above it; on an acyclic hierarchy the linearization. */
  method ComputeLinearizedTypeNames(t: Name, parentMap: ParentMap) returns (names: seq<Name>)
    ensures names != [] && names[0] == t && NoDuplicates(names[1..]) && Ancestral(parentMap, t, names)
    ensures Acyclic(parentMap, t) ==> names == Linearized(parentMap, t)
  {
    ReachesSelf(parentMap, t);
    names := [t];
    if t in parentMap {
      var checked := CheckedLinearizedParentNames(parentMap[t], parentMap);
      names := names + checked.names;
      ParentsAncestral(parentMap, t, checked.names);
      if Acyclic(parentMap, t) {
        LinearizedUnfold(parentMap, t);
        AcyclicRoots(parentMap, t);
      }
    }
  }

  lemma AcyclicRoots(pm: ParentMap, t: Name)
    requires Acyclic(pm, t)
    ensures !CycleReached(pm, Parents(pm, t))
  {
    forall x | ReachedFrom(pm, Parents(pm, t), x)
      ensures !Ancestor(pm, x, x)
    {
      var d :| d in Parents(pm, t) && Reaches(pm, d, x);
      ReachesStep(pm, t, d, x);
    }
  }
}
