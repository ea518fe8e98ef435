/** Parent maps as graphs: paths along parent edges, ancestors and cycles. */
module ParentGraph {
  import opened Basics

  type ParentMap = map<Name, seq<Name>>

  /** The direct parents; a name the map does not list has none. */
  function Parents(pm: ParentMap, t: Name): seq<Name> {
    if t in pm then pm[t] else []
  }

  /** n parent edges lead from x to y. */
  ghost predicate ReachesIn(pm: ParentMap, x: Name, y: Name, n: nat)
    decreases n
  {
    if n == 0 then x == y else exists z :: z in Parents(pm, x) && ReachesIn(pm, z, y, n - 1)
  }

  /** y is x or one of its ancestors. */
  ghost predicate Reaches(pm: ParentMap, x: Name, y: Name) {
    exists n: nat :: ReachesIn(pm, x, y, n)
  }

  /** y is reached from x by at least one parent edge. */
  ghost predicate Ancestor(pm: ParentMap, x: Name, y: Name) {
    exists z :: z in Parents(pm, x) && Reaches(pm, z, y)
  }

  ghost predicate ReachedFrom(pm: ParentMap, roots: seq<Name>, y: Name) {
    exists d :: d in roots && Reaches(pm, d, y)
  }

  /** No type at or above t is its own ancestor. */
  ghost predicate Acyclic(pm: ParentMap, t: Name) {
    forall x :: Reaches(pm, t, x) ==> !Ancestor(pm, x, x)
  }

  ghost predicate CycleReached(pm: ParentMap, roots: seq<Name>) {
    exists x :: ReachedFrom(pm, roots, x) && Ancestor(pm, x, x)
  }

  /** The listed names at or above t; shrinks along every parent edge of an acyclic map. */
  ghost function Above(pm: ParentMap, t: Name): set<Name> {
    set y | y in pm.Keys && Reaches(pm, t, y)
  }

  lemma ReachesSelf(pm: ParentMap, x: Name)
    ensures Reaches(pm, x, x)
  {
    assert ReachesIn(pm, x, x, 0);
  }

  lemma ReachesStep(pm: ParentMap, x: Name, z: Name, y: Name)
    requires z in Parents(pm, x) && Reaches(pm, z, y)
    ensures Reaches(pm, x, y)
  {
    var n: nat :| ReachesIn(pm, z, y, n);
    assert ReachesIn(pm, x, y, n + 1);
  }

  lemma {:induction false} ReachesInThenReaches(pm: ParentMap, x: Name, y: Name, z: Name, n: nat)
    requires ReachesIn(pm, x, y, n) && Reaches(pm, y, z)
    ensures Reaches(pm, x, z)
    decreases n
  {
    if n == 0 {
    } else {
      var a :| a in Parents(pm, x) && ReachesIn(pm, a, y, n - 1);
      ReachesInThenReaches(pm, a, y, z, n - 1);
      ReachesStep(pm, x, a, z);
    }
  }

  lemma ReachesTransitive(pm: ParentMap, x: Name, y: Name, z: Name)
    requires Reaches(pm, x, y) && Reaches(pm, y, z)
    ensures Reaches(pm, x, z)
  {
    var n: nat :| ReachesIn(pm, x, y, n);
    ReachesInThenReaches(pm, x, y, z, n);
  }

  lemma ReachesCases(pm: ParentMap, x: Name, y: Name)
    ensures Reaches(pm, x, y) <==> x == y || Ancestor(pm, x, y)
  {
    if Reaches(pm, x, y) {
      var n: nat :| ReachesIn(pm, x, y, n);
      if n > 0 {
        var z :| z in Parents(pm, x) && ReachesIn(pm, z, y, n - 1);
        assert Reaches(pm, z, y);
      }
    }
    if x == y {
      ReachesSelf(pm, x);
    }
    if Ancestor(pm, x, y) {
      var z :| z in Parents(pm, x) && Reaches(pm, z, y);
      ReachesStep(pm, x, z, y);
    }
  }

  lemma AncestorReaches(pm: ParentMap, x: Name, y: Name, z: Name)
    requires Ancestor(pm, x, y) && Reaches(pm, y, z)
    ensures Ancestor(pm, x, z)
  {
    var a :| a in Parents(pm, x) && Reaches(pm, a, y);
    ReachesTransitive(pm, a, y, z);
  }

  lemma ReachesAncestor(pm: ParentMap, x: Name, y: Name, z: Name)
    requires Reaches(pm, x, y) && Ancestor(pm, y, z)
    ensures Ancestor(pm, x, z)
  {
    ReachesCases(pm, x, y);
    ReachesCases(pm, y, z);
    if x != y {
      AncestorReaches(pm, x, y, z);
    }
  }

  lemma AcyclicAbove(pm: ParentMap, t: Name, x: Name)
    requires Acyclic(pm, t) && Reaches(pm, t, x)
    ensures Acyclic(pm, x)
  {
    forall y | Reaches(pm, x, y)
      ensures !Ancestor(pm, y, y)
    {
      ReachesTransitive(pm, t, x, y);
    }
  }

  lemma AcyclicParent(pm: ParentMap, t: Name, p: Name)
    requires Acyclic(pm, t) && p in Parents(pm, t)
    ensures Acyclic(pm, p) && !Reaches(pm, p, t) && Above(pm, p) < Above(pm, t)
  {
    ReachesSelf(pm, p);
    ReachesSelf(pm, t);
    ReachesStep(pm, t, p, p);
    AcyclicAbove(pm, t, p);
    assert !Ancestor(pm, t, t);
    forall y | y in Above(pm, p)
      ensures y in Above(pm, t)
    {
      ReachesStep(pm, t, p, y);
    }
    assert t in Above(pm, t) && t !in Above(pm, p);
  }
}
