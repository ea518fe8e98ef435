/** The linearization of nir/src/Nir.cpp without its cache, and the order it guarantees. */
module Linearization {
  import opened Basics
  import opened Sequences
  import opened Merge
  import opened ParentGraph

  function MergedOrEmpty(ss: seq<seq<Name>>): seq<Name> {
    match Merged(ss)
    case Some(order) => order
    case None => []
  }

  function WithPriority(linearizations: seq<seq<Name>>, priority: seq<Name>): seq<seq<Name>> {
    if priority == [] then linearizations else linearizations + [priority]
  }

  /** The recursion of `linearize` with the names on the call stack and no cache. */
  function LinearizedOn(pm: ParentMap, t: Name, stack: set<Name>): seq<Name>
    decreases pm.Keys - stack, 0
  {
    if t in stack then []
    else if t !in pm then [t]
    else
      var priority := Reversed(pm[t]);
      [t] + MergedOrEmpty(WithPriority(LinearizedEach(pm, priority, stack + {t}), priority))
  }

  function LinearizedEach(pm: ParentMap, ts: seq<Name>, stack: set<Name>): (r: seq<seq<Name>>)
    ensures |r| == |ts|
    decreases pm.Keys - stack, |ts|
  {
    if ts == [] then [] else [LinearizedOn(pm, ts[0], stack)] + LinearizedEach(pm, ts[1..], stack)
  }

  lemma {:induction false} LinearizedEachAt(pm: ParentMap, ts: seq<Name>, stack: set<Name>)
    ensures forall i :: 0 <= i < |ts| ==> LinearizedEach(pm, ts, stack)[i] == LinearizedOn(pm, ts[i], stack)
    decreases |ts|
  {
    if ts == [] {
    } else {
      LinearizedEachAt(pm, ts[1..], stack);
    }
  }

  function Linearized(pm: ParentMap, t: Name): seq<Name> {
    LinearizedOn(pm, t, {})
  }

  /** What the merge is given for a type with these direct parents. */
  function MergeInputs(pm: ParentMap, direct: seq<Name>): seq<seq<Name>> {
    WithPriority(LinearizedEach(pm, Reversed(direct), {}), Reversed(direct))
  }

  function LinearizedParents(pm: ParentMap, direct: seq<Name>): seq<Name> {
    MergedOrEmpty(MergeInputs(pm, direct))
  }

  function LinearizedTypeNames(pm: ParentMap, t: Name): seq<Name> {
    if t in pm then [t] + LinearizedParents(pm, pm[t]) else [t]
  }

  predicate ConsistentAt(pm: ParentMap, t: Name) {
    Merged(MergeInputs(pm, Parents(pm, t))).Some?
  }

  /** Every type at or above t has a merge order. */
  ghost predicate Consistent(pm: ParentMap, t: Name) {
    forall x :: Reaches(pm, t, x) ==> ConsistentAt(pm, x)
  }

  ghost predicate ConsistentFrom(pm: ParentMap, direct: seq<Name>) {
    (forall x :: ReachedFrom(pm, direct, x) ==> ConsistentAt(pm, x)) && Merged(MergeInputs(pm, direct)).Some?
  }

  // ---------------------------------------------------------------------------------------------
  // On an acyclic part the call stack does not influence the result.

  lemma {:induction false} StackIrrelevant(pm: ParentMap, t: Name, stack: set<Name>)
    requires Acyclic(pm, t) && forall x :: x in stack ==> !Reaches(pm, t, x)
    ensures LinearizedOn(pm, t, stack) == Linearized(pm, t)
    decreases Above(pm, t)
  {
    ReachesSelf(pm, t);
    if t in pm {
      var priority := Reversed(pm[t]);
      EachStackIrrelevant(pm, t, stack + {t});
      EachStackIrrelevant(pm, t, {t});
      assert LinearizedEach(pm, priority, stack + {t}) == LinearizedEach(pm, priority, {t});
      assert {} + {t} == {t};
    }
  }

  lemma {:induction false} EachStackIrrelevant(pm: ParentMap, t: Name, stack: set<Name>)
    requires Acyclic(pm, t) && t in pm
    requires forall x :: x in stack && x != t ==> !Reaches(pm, t, x)
    ensures LinearizedEach(pm, Reversed(pm[t]), stack) == LinearizedEach(pm, Reversed(pm[t]), {})
    decreases Above(pm, t), 0
  {
    var priority := Reversed(pm[t]);
    ReversedMembers(pm[t]);
    LinearizedEachAt(pm, priority, stack);
    LinearizedEachAt(pm, priority, {});
    forall i | 0 <= i < |priority|
      ensures LinearizedOn(pm, priority[i], stack) == LinearizedOn(pm, priority[i], {})
    {
      var p := priority[i];
      AcyclicParent(pm, t, p);
      forall x | x in stack
        ensures !Reaches(pm, p, x)
      {
        if Reaches(pm, p, x) {
          ReachesStep(pm, t, p, x);
        }
      }
      StackIrrelevant(pm, p, stack);
    }
  }

  /** The linearization of a type is the type followed by the merge of its parents' linearizations. */
  lemma LinearizedUnfold(pm: ParentMap, t: Name)
    requires Acyclic(pm, t)
    ensures Linearized(pm, t) == [t] + LinearizedParents(pm, Parents(pm, t))
    ensures Linearized(pm, t) == LinearizedTypeNames(pm, t)
  {
    if t in pm {
      EachStackIrrelevant(pm, t, {t});
      assert {} + {t} == {t};
    }
  }

  // ---------------------------------------------------------------------------------------------
  // The order theorem.

  /** w starts with t and lists t and its ancestors once each, every type before all its own ancestors. */
  ghost predicate OrderOf(pm: ParentMap, t: Name, w: seq<Name>) {
    && w != [] && w[0] == t && NoDuplicates(w)
    && (forall x :: x in w <==> Reaches(pm, t, x))
    && (forall x, y :: Reaches(pm, t, x) && Ancestor(pm, x, y) ==> Before(w, x, y))
  }

  lemma ParentInput(pm: ParentMap, direct: seq<Name>, p: Name)
    requires p in direct
    ensures Linearized(pm, p) in MergeInputs(pm, direct)
    ensures Reversed(direct) in MergeInputs(pm, direct)
  {
    ReversedMembers(direct);
    var priority := Reversed(direct);
    var i :| 0 <= i < |priority| && priority[i] == p;
    LinearizedEachAt(pm, priority, {});
    assert LinearizedEach(pm, priority, {})[i] == Linearized(pm, p);
    assert MergeInputs(pm, direct)[i] == Linearized(pm, p);
    assert MergeInputs(pm, direct)[|priority|] == priority;
  }

  lemma InputCases(pm: ParentMap, direct: seq<Name>, s: seq<Name>)
    requires s in MergeInputs(pm, direct)
    ensures s == Reversed(direct) || exists p :: p in direct && s == Linearized(pm, p)
  {
    ReversedMembers(direct);
    var priority := Reversed(direct);
    var each := LinearizedEach(pm, priority, {});
    if s in each {
      LinearizedEachAt(pm, priority, {});
      var i :| 0 <= i < |each| && each[i] == s;
      assert priority[i] in direct;
    }
  }

  lemma ConsistentParent(pm: ParentMap, t: Name, p: Name)
    requires Consistent(pm, t) && p in Parents(pm, t)
    ensures Consistent(pm, p)
  {
    forall x | Reaches(pm, p, x)
      ensures ConsistentAt(pm, x)
    {
      ReachesStep(pm, t, p, x);
    }
  }

  /** The merged parents list exactly the direct parents and everything above them. */
  lemma MergedParentsMembers(pm: ParentMap, t: Name)
    requires ConsistentAt(pm, t)
    requires forall p :: p in Parents(pm, t) ==> OrderOf(pm, p, Linearized(pm, p))
    ensures forall x :: x in LinearizedParents(pm, Parents(pm, t)) <==> Ancestor(pm, t, x)
  {
    var direct := Parents(pm, t);
    var inputs := MergeInputs(pm, direct);
    MergedSound(inputs);
    ReversedMembers(direct);
    forall x
      ensures SomeInputHas(inputs, x) <==> Ancestor(pm, t, x)
    {
      if SomeInputHas(inputs, x) {
        var s :| s in inputs && x in s;
        InputCases(pm, direct, s);
        ReachesSelf(pm, x);
      }
      if Ancestor(pm, t, x) {
        var p :| p in direct && Reaches(pm, p, x);
        ParentInput(pm, direct, p);
        assert x in Linearized(pm, p);
      }
    }
  }

  lemma MergedParentsOrder(pm: ParentMap, t: Name, x: Name, y: Name)
    requires ConsistentAt(pm, t)
    requires forall p :: p in Parents(pm, t) ==> OrderOf(pm, p, Linearized(pm, p))
    requires Ancestor(pm, t, x) && Ancestor(pm, x, y)
    ensures Before(LinearizedParents(pm, Parents(pm, t)), x, y)
  {
    var direct := Parents(pm, t);
    MergedSound(MergeInputs(pm, direct));
    var p :| p in direct && Reaches(pm, p, x);
    ParentInput(pm, direct, p);
    assert OrderOf(pm, p, Linearized(pm, p));
    SubsequenceBefore(Linearized(pm, p), LinearizedParents(pm, direct), x, y);
  }

  lemma BeforeConsCases(t: Name, w: seq<Name>, x: Name, y: Name)
    requires y in w && (x == t || Before(w, x, y))
    ensures Before([t] + w, x, y)
  {
    var c := [t] + w;
    if x == t {
      var j :| 0 <= j < |w| && w[j] == y;
      assert c[0] == x && c[j + 1] == y;
    } else {
      assert c[1..] == w;
      BeforeShift(c, x, y);
    }
  }

  /** On an acyclic, consistent hierarchy the linearization is an order of the type and its ancestors. */
  lemma {:induction false} LinearizationOrder(pm: ParentMap, t: Name)
    requires Acyclic(pm, t) && Consistent(pm, t)
    ensures OrderOf(pm, t, Linearized(pm, t))
    decreases Above(pm, t)
  {
    var direct := Parents(pm, t);
    var merged := LinearizedParents(pm, direct);
    var w := Linearized(pm, t);
    ReachesSelf(pm, t);
    LinearizedUnfold(pm, t);
    forall p | p in direct
      ensures OrderOf(pm, p, Linearized(pm, p))
    {
      AcyclicParent(pm, t, p);
      ConsistentParent(pm, t, p);
      LinearizationOrder(pm, p);
    }
    MergedSound(MergeInputs(pm, direct));
    MergedParentsMembers(pm, t);
    assert t !in merged;
    forall x
      ensures x in w <==> Reaches(pm, t, x)
    {
      ReachesCases(pm, t, x);
    }
    forall x, y | Reaches(pm, t, x) && Ancestor(pm, x, y)
      ensures Before(w, x, y)
    {
      ReachesCases(pm, t, x);
      ReachesAncestor(pm, t, x, y);
      if x != t {
        MergedParentsOrder(pm, t, x, y);
      }
      BeforeConsCases(t, merged, x, y);
    }
  }

  /** It also contains the reversed direct parents and every parent's own linearization in order. */
  lemma LinearizationContainsParents(pm: ParentMap, t: Name)
    requires Acyclic(pm, t) && ConsistentAt(pm, t)
    ensures Subsequence(Reversed(Parents(pm, t)), Linearized(pm, t))
    ensures forall p :: p in Parents(pm, t) ==> Subsequence(Linearized(pm, p), Linearized(pm, t))
  {
    var direct := Parents(pm, t);
    var inputs := MergeInputs(pm, direct);
    var merged := LinearizedParents(pm, direct);
    LinearizedUnfold(pm, t);
    MergedSound(inputs);
    forall s | s in inputs
      ensures Subsequence(s, Linearized(pm, t))
    {
      SubsequenceWeaken(s, t, merged);
    }
    forall p | p in direct
      ensures Subsequence(Linearized(pm, p), Linearized(pm, t))
    {
      ParentInput(pm, direct, p);
    }
    if direct != [] {
      ParentInput(pm, direct, direct[0]);
    }
  }
}
