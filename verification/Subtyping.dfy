/** The worklist subtype search shared by nir/src/Verifier.cpp and tools/linker/src/Linker.cpp. */
module Subtyping {
  import opened Basics
  import opened Sequences
  import opened Merge
  import opened ParentGraph
  import opened Linearization
  import opened Linearizer
  import opened QualifiedNames

  /** The search does not look above the empty name and above java.lang.Object. */
  function Searched(pm: ParentMap): ParentMap {
    pm - {"", JAVA_LANG_OBJECT}
  }

  ghost predicate Subtype(pm: ParentMap, actual: Name, expected: Name) {
    Reaches(Searched(pm), actual, expected)
  }

  /** Every searched parent of a visited type is visited or waiting, and none is the wanted one. */
  ghost predicate SearchFrontier(pm: ParentMap, visited: set<Name>, waiting: set<Name>, expected: Name) {
    forall x, p {:trigger x in visited, p in Parents(Searched(pm), x)} ::
      x in visited && p in Parents(Searched(pm), x) ==> p != expected && (p in visited || p in waiting)
  }

  ghost function Elements(s: seq<Name>): set<Name> {
    set x | x in s
  }

  lemma SearchExhausted(pm: ParentMap, visited: set<Name>, actual: Name, expected: Name)
    requires SearchFrontier(pm, visited + {"", JAVA_LANG_OBJECT}, {}, expected)
    requires actual != expected && actual in visited + {"", JAVA_LANG_OBJECT}
    ensures !Subtype(pm, actual, expected)
  {
    if Subtype(pm, actual, expected) {
      var closed := visited + {"", JAVA_LANG_OBJECT} - {expected};
      assert ClosedUpward(Searched(pm), closed);
      ClosedReaches(Searched(pm), closed, actual, expected);
    }
  }

  /** The search decides reachability along parent edges, in whatever order the worklist runs. */
  method IsSubtypeOf(actual: Name, expected: Name, pm: ParentMap) returns (found: bool)
    ensures found <==> Subtype(pm, actual, expected)
  {
    ReachesSelf(Searched(pm), actual);
    if actual == expected {
      return true;
    }
    var worklist := [actual];
    var visited: set<Name> := {};
    while worklist != []
      invariant forall x :: x in worklist ==> Subtype(pm, actual, x)
      invariant SearchFrontier(pm, visited + {"", JAVA_LANG_OBJECT}, Elements(worklist), expected)
      invariant actual in visited + {"", JAVA_LANG_OBJECT} || actual in worklist
      decreases pm.Keys - visited, |worklist|
    {
      ghost var before := Elements(worklist);
      var current := worklist[|worklist| - 1];
      worklist := worklist[..|worklist| - 1];
      assert before == Elements(worklist) + {current};
      if current == "" || current == JAVA_LANG_OBJECT || current in visited {
        continue;
      }
      visited := visited + {current};
      if current !in pm {
        continue;
      }
      var parents := pm[current];
      ghost var waiting := worklist;
      var i := 0;
      while i < |parents|
        invariant 0 <= i <= |parents| && worklist == waiting + parents[..i]
        invariant forall x :: x in parents[..i] ==> Subtype(pm, actual, x) && x != expected
      {
        assert parents[i] in Parents(Searched(pm), current);
        ReachesSelf(Searched(pm), parents[i]);
        ReachesStep(Searched(pm), current, parents[i], parents[i]);
        ReachesTransitive(Searched(pm), actual, current, parents[i]);
        if parents[i] == expected {
          return true;
        }
        worklist := worklist + [parents[i]];
        assert parents[..i + 1] == parents[..i] + [parents[i]];
        i := i + 1;
      }
      assert parents[..i] == parents;
      assert Parents(Searched(pm), current) == parents;
    }
    SearchExhausted(pm, visited, actual, expected);
    return false;
  }

  lemma SubtypeTransitive(pm: ParentMap, a: Name, b: Name, c: Name)
    requires Subtype(pm, a, b) && Subtype(pm, b, c)
    ensures Subtype(pm, a, c)
  {
    ReachesTransitive(Searched(pm), a, b, c);
  }

  // ---------------------------------------------------------------------------------------------
  // Agreement with the linearization.

  lemma {:induction false} SearchedReaches(pm: ParentMap, x: Name, y: Name, n: nat)
    requires ReachesIn(Searched(pm), x, y, n)
    ensures Reaches(pm, x, y)
    decreases n
  {
    ReachesSelf(pm, x);
    if n == 0 {
    } else {
      var z :| z in Parents(Searched(pm), x) && ReachesIn(Searched(pm), z, y, n - 1);
      SearchedReaches(pm, z, y, n - 1);
      ReachesStep(pm, x, z, y);
    }
  }

  /** A consistent type has no parent with the empty name. */
  lemma ConsistentParentsNamed(pm: ParentMap, t: Name, p: Name)
    requires ConsistentAt(pm, t) && p in Parents(pm, t)
    ensures p != ""
  {
    MergedSound(MergeInputs(pm, Parents(pm, t)));
    ParentInput(pm, Parents(pm, t), p);
    ReversedMembers(Parents(pm, t));
  }

  lemma {:induction false} ReachesSearched(pm: ParentMap, x: Name, y: Name, n: nat)
    requires ReachesIn(pm, x, y, n) && Consistent(pm, x)
    requires x != "" && Parents(pm, JAVA_LANG_OBJECT) == []
    ensures Subtype(pm, x, y)
    decreases n
  {
    ReachesSelf(Searched(pm), x);
    if n == 0 {
    } else {
      var z :| z in Parents(pm, x) && ReachesIn(pm, z, y, n - 1);
      ReachesSelf(pm, x);
      ConsistentParentsNamed(pm, x, z);
      ConsistentParent(pm, x, z);
      ReachesSearched(pm, z, y, n - 1);
      ReachesStep(Searched(pm), x, z, y);
    }
  }

  /** On an acyclic, consistent hierarchy the search and the linearization list the same supertypes. */
  lemma SubtypeIffLinearized(pm: ParentMap, t: Name, e: Name)
    requires Acyclic(pm, t) && Consistent(pm, t)
    requires t != "" && Parents(pm, JAVA_LANG_OBJECT) == []
    ensures Subtype(pm, t, e) <==> e in LinearizedTypeNames(pm, t)
  {
    LinearizationOrder(pm, t);
    LinearizedUnfold(pm, t);
    if Subtype(pm, t, e) {
      var n: nat :| ReachesIn(Searched(pm), t, e, n);
      SearchedReaches(pm, t, e, n);
    }
    if Reaches(pm, t, e) {
      var n: nat :| ReachesIn(pm, t, e, n);
      ReachesSearched(pm, t, e, n);
    }
  }
}
