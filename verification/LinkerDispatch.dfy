/** Linking drops nothing that dynamic dispatch can choose. */
module LinkerDispatch {
  import opened Basics
  import opened ParentGraph
  import opened Linearization
  import opened QualifiedNames
  import opened Subtyping
  import opened LinkerReferences
  import opened Linker

  /** Every type at or above d that declares the member of r declares a field or a method,
      and d's own declaration is r, a field, or a virtual method with a matching signature. */
  ghost predicate MembersMatch(g: Globals, d: Name, r: Name) {
    var member := MemberNameOf(r);
    && (forall c {:trigger Qualify(c, member)} :: Reaches(ParentMapFor(g), d, c) && Qualify(c, member) in g ==>
          g[Qualify(c, member)].kind.Field? || IsFunction(g[Qualify(c, member)].kind))
    && (var own := Qualify(d, member);
        own in g && own != r && !g[own].kind.Field? ==>
          r in g && IsVirtual(g, own) && SignaturesMatch(ParentMapFor(g), g[r], g[own]))
  }

  lemma EnqueuedIsKept(g: Globals, roots: set<Name>, reachable: set<Name>, x: Name, y: Name)
    requires LinkClosed(g, roots, reachable) && x in reachable && x in g && y in Enqueued(g, x)
    ensures y in reachable
  {
    assert Links(g, x, y);
    assert LinkEdges(g)(x, y);
  }

  lemma FirstDeclaringIsListed(g: Globals, types: seq<Name>, member: Name)
    requires FirstDeclaring(g, types, member).Some?
    ensures exists c :: c in types && c != "" && c != JAVA_LANG_OBJECT
                        && FirstDeclaring(g, types, member).value == Qualify(c, member)
  {
  }

  lemma FirstDeclaringFinds(g: Globals, types: seq<Name>, member: Name, c: Name)
    requires c in types && c != "" && c != JAVA_LANG_OBJECT && Qualify(c, member) in g
    ensures FirstDeclaring(g, types, member).Some?
  {
  }

  lemma ParentsBelowObject(pm: ParentMap, x: Name)
    requires Parents(pm, JAVA_LANG_OBJECT) == []
    ensures Parents(BelowObject(pm), x) == Parents(pm, x)
  {
  }

  lemma {:induction false} ReachesBelowObject(pm: ParentMap, x: Name, y: Name, n: nat)
    requires Parents(pm, JAVA_LANG_OBJECT) == [] && ReachesIn(pm, x, y, n)
    ensures Reaches(BelowObject(pm), x, y)
    decreases n
  {
    ReachesSelf(BelowObject(pm), x);
    if n == 0 {
    } else {
      var z :| z in Parents(pm, x) && ReachesIn(pm, z, y, n - 1);
      ParentsBelowObject(pm, x);
      ReachesBelowObject(pm, z, y, n - 1);
      ReachesStep(BelowObject(pm), x, z, y);
    }
  }

  /** A reachable class keeps all fields it inherits. */
  lemma InheritedFieldKept(g: Globals, roots: set<Name>, reachable: set<Name>, d: Name, c: Name, f: Name)
    requires LinkClosed(g, roots, reachable) && d in reachable && d in g && IsClassLike(g[d].kind)
    requires Parents(ParentMapFor(g), JAVA_LANG_OBJECT) == [] && Reaches(ParentMapFor(g), d, c)
    requires f in g && g[f].kind.Field? && OwnerNameOf(f) == c && c != JAVA_LANG_OBJECT
    ensures f in reachable
  {
    var n: nat :| ReachesIn(ParentMapFor(g), d, c, n);
    ReachesBelowObject(ParentMapFor(g), d, c, n);
    assert f in ClassFields(g, d);
    EnqueuedIsKept(g, roots, reachable, d, f);
  }

  lemma ParentMethodKept(g: Globals, roots: set<Name>, reachable: set<Name>, d: Name, c: Name, f: Name)
    requires LinkClosed(g, roots, reachable) && d in reachable && d in g && IsClassLike(g[d].kind)
    requires c in g[d].parents && c != JAVA_LANG_OBJECT
    requires f in g && IsFunction(g[f].kind) && OwnerNameOf(f) == c
    ensures f in reachable
  {
    assert f in ParentReferences(g, g[d].parents);
    EnqueuedIsKept(g, roots, reachable, d, f);
  }

  lemma ParentKept(g: Globals, roots: set<Name>, reachable: set<Name>, d: Name, p: Name)
    requires LinkClosed(g, roots, reachable) && d in reachable && d in g && IsClassLike(g[d].kind)
    requires p in g[d].parents && p in g && p != JAVA_LANG_OBJECT
    ensures p in reachable
  {
    assert p in ParentReferences(g, g[d].parents);
    EnqueuedIsKept(g, roots, reachable, d, p);
  }

  /** A reachable class keeps all methods of its proper ancestors, whatever their signatures. */
  lemma {:induction false} InheritedMethodKept(g: Globals, roots: set<Name>, reachable: set<Name>,
                                               d: Name, c: Name, f: Name, n: nat)
    requires LinkClosed(g, roots, reachable) && d in reachable && d in g && IsClassLike(g[d].kind)
    requires Parents(ParentMapFor(g), JAVA_LANG_OBJECT) == []
    requires n > 0 && ReachesIn(ParentMapFor(g), d, c, n)
    requires f in g && IsFunction(g[f].kind) && OwnerNameOf(f) == c && c != JAVA_LANG_OBJECT
    ensures f in reachable
    decreases n
  {
    var pm := ParentMapFor(g);
    var z :| z in Parents(pm, d) && ReachesIn(pm, z, c, n - 1);
    if n == 1 {
      ParentMethodKept(g, roots, reachable, d, c, f);
    } else {
      var w :| w in Parents(pm, z) && ReachesIn(pm, w, c, n - 2);
      ParentKept(g, roots, reachable, d, z);
      InheritedMethodKept(g, roots, reachable, z, c, f, n - 1);
    }
  }

  lemma OwnMethodKept(g: Globals, roots: set<Name>, reachable: set<Name>, from: Name, r: Name, d: Name)
    requires LinkClosed(g, roots, reachable)
    requires from in reachable && from in g && r in DefinitionReferences(g, from) && IsVirtual(g, r)
    requires Subtype(ParentMapFor(g), d, OwnerNameOf(r)) && MembersMatch(g, d, r)
    requires Qualify(d, MemberNameOf(r)) in g && !g[Qualify(d, MemberNameOf(r))].kind.Field?
    ensures Qualify(d, MemberNameOf(r)) in reachable
  {
    var own := Qualify(d, MemberNameOf(r));
    QualifiedFromParts(r);
    QualifyRoundTrip(d, MemberNameOf(r));
    if own != r {
      assert OverriddenBy(g, r, own);
      assert OverridesAReference(g, from, own);
    }
    EnqueuedIsKept(g, roots, reachable, from, own);
  }

  /** The member that lookup selects for a reachable receiver class is itself reachable. */
  lemma DispatchSafety(g: Globals, roots: set<Name>, reachable: set<Name>, from: Name, r: Name, d: Name)
    requires "" !in g && Parents(ParentMapFor(g), JAVA_LANG_OBJECT) == []
    requires LinkClosed(g, roots, reachable)
    requires from in reachable && from in g && r in DefinitionReferences(g, from) && IsVirtual(g, r)
    requires d in reachable && d in g && IsClassLike(g[d].kind)
    requires Subtype(ParentMapFor(g), d, OwnerNameOf(r))
    requires Acyclic(ParentMapFor(g), d) && Consistent(ParentMapFor(g), d)
    requires MembersMatch(g, d, r)
    ensures OwnerNameOf(r) != JAVA_LANG_OBJECT ==> ResolveMember(g, d, MemberNameOf(r)).Some?
    ensures ResolveMember(g, d, MemberNameOf(r)).Some? ==> ResolveMember(g, d, MemberNameOf(r)).value in reachable
  {
    var pm := ParentMapFor(g);
    var member := MemberNameOf(r);
    var types := LinearizedTypeNames(pm, d);
    LinearizationOrder(pm, d);
    LinearizedUnfold(pm, d);
    QualifiedFromParts(r);
    if OwnerNameOf(r) != JAVA_LANG_OBJECT {
      SubtypeIffLinearized(pm, d, OwnerNameOf(r));
      FirstDeclaringFinds(g, types, member, OwnerNameOf(r));
    }
    if ResolveMember(g, d, member).Some? {
      var s := ResolveMember(g, d, member).value;
      FirstDeclaringIsListed(g, types, member);
      var c :| c in types && c != "" && c != JAVA_LANG_OBJECT && s == Qualify(c, member);
      assert Reaches(pm, d, c);
      QualifyRoundTrip(c, member);
      if g[s].kind.Field? {
        InheritedFieldKept(g, roots, reachable, d, c, s);
      } else if c == d {
        OwnMethodKept(g, roots, reachable, from, r, d);
      } else {
        var n: nat :| ReachesIn(pm, d, c, n);
        InheritedMethodKept(g, roots, reachable, d, c, s, n);
      }
    }
  }
}
