/** A program in which lookup by name selects a member that linking has dropped. */
module LinkerLimits {
  import opened Basics
  import opened Closure
  import opened Sequences
  import opened Merge
  import opened ParentGraph
  import opened Linearization
  import opened QualifiedNames
  import opened Subtyping
  import Linearizer
  import opened LinkerReferences
  import opened Linker
  import opened LinkerDispatch

  function ClassWith(parents: seq<Name>): Definition {
    Definition(Kind.Class, parents, [], "", "", false, [], [])
  }

  function FunctionWith(parameterTypes: seq<Name>, body: seq<Mention>): Definition {
    Definition(FunctionDef, [], parameterTypes, "Unit", "", true, [], body)
  }

  /** Class b extends class a and overloads its method m; main mentions the method of a and constructs b. */
  function Overloaded(a: Name, b: Name, m: Name, main: Name): Globals {
    map[a := ClassWith([]),
        b := ClassWith([a]),
        Qualify(a, m) := FunctionWith([a], []),
        Qualify(b, m) := FunctionWith([b, "Int"], []),
        main := FunctionWith([], [Named(Qualify(a, m)), Constructed(b)])]
  }

  /** Five different names, none of them reserved, and main owned by none of them. */
  predicate NamesApart(a: Name, b: Name, m: Name, main: Name) {
    && '.' !in m && m != "" && a !in {"", JAVA_LANG_OBJECT} && b !in {"", JAVA_LANG_OBJECT}
    && Apart(a, b, Qualify(a, m), Qualify(b, m), main)
    && {OwnerNameOf(main), Qualify(b, "$init")} !! {a, b, Qualify(a, m), Qualify(b, m), main}
  }

  predicate Apart(a: Name, b: Name, am: Name, bm: Name, main: Name) {
    a != b && a != am && a != bm && a != main && b != am && b != bm && b != main && am != main && bm != main
  }

  /** The same as facts about a map. */
  ghost predicate IsOverloaded(g: Globals, a: Name, b: Name, am: Name, bm: Name, main: Name) {
    && Apart(a, b, am, bm, main) && am != bm && g.Keys == {a, b, am, bm, main}
    && a !in {"", JAVA_LANG_OBJECT} && b !in {"", JAVA_LANG_OBJECT}
    && g[a] == ClassWith([]) && g[b] == ClassWith([a])
    && g[am] == FunctionWith([a], []) && g[bm] == FunctionWith([b, "Int"], [])
    && g[main] == FunctionWith([], [Named(am), Constructed(b)])
    && OwnerNameOf(am) == a && OwnerNameOf(bm) == b && OwnerNameOf(main) !in g && Qualify(b, "$init") !in g
  }

  lemma OverloadedFacts(a: Name, b: Name, m: Name, main: Name)
    requires NamesApart(a, b, m, main)
    ensures IsOverloaded(Overloaded(a, b, m, main), a, b, Qualify(a, m), Qualify(b, m), main)
    ensures MemberNameOf(Qualify(a, m)) == m
  {
    QualifyRoundTrip(a, m);
    QualifyRoundTrip(b, m);
  }

  lemma NoFields(g: Globals, c: Name)
    requires forall n :: n in g ==> !g[n].kind.Field?
    ensures ClassFields(g, c) == {}
  {
  }

  lemma MainReferences(g: Globals, a: Name, b: Name, am: Name, bm: Name, main: Name)
    requires IsOverloaded(g, a, b, am, bm, main)
    ensures DefinitionReferences(g, main) == {am, b}
  {
    var owner := OwnerNameOf(main);
    var body := g[main].body;
    NoFields(g, b);
    assert MentionReferences(g, owner, "", Named(am)) == {am};
    assert MentionReferences(g, owner, "", Constructed(b)) == {b};
    assert BodyReferences(g, owner, "", []) == {};
    assert [Constructed(b)][1..] == [] && BodyReferences(g, owner, "", [Constructed(b)]) == {b};
    assert body[1..] == [Constructed(b)] && BodyReferences(g, owner, "", body) == {am} + {b};
  }

  lemma ClassReferences(g: Globals, a: Name, b: Name, am: Name, bm: Name, main: Name)
    requires IsOverloaded(g, a, b, am, bm, main)
    ensures DefinitionReferences(g, a) == {} && DefinitionReferences(g, b) == {a, am}
  {
    NoFields(g, a);
    NoFields(g, b);
  }

  lemma MethodReferences(g: Globals, a: Name, b: Name, am: Name, bm: Name, main: Name)
    requires IsOverloaded(g, a, b, am, bm, main)
    ensures DefinitionReferences(g, am) == {}
  {
  }

  lemma VirtualMethods(g: Globals, a: Name, b: Name, am: Name, bm: Name, main: Name, x: Name)
    requires IsOverloaded(g, a, b, am, bm, main)
    ensures IsVirtual(g, x) <==> x == am || x == bm
  {
    assert x in g ==> x in {a, b, am, bm, main};
  }

  /** The overload overrides nothing, because its parameters do not match. */
  lemma NothingOverrides(g: Globals, a: Name, b: Name, am: Name, bm: Name, main: Name, r: Name, c: Name)
    requires IsOverloaded(g, a, b, am, bm, main)
    ensures !OverriddenBy(g, r, c)
  {
    VirtualMethods(g, a, b, am, bm, main, r);
    VirtualMethods(g, a, b, am, bm, main, c);
    assert |g[am].parameterTypes| != |g[bm].parameterTypes|;
  }

  lemma EnqueuedIsKept(g: Globals, a: Name, b: Name, am: Name, bm: Name, main: Name, x: Name, y: Name)
    requires IsOverloaded(g, a, b, am, bm, main) && x in {main, a, b, am} && y in Enqueued(g, x)
    ensures y in {main, a, b, am}
  {
    MainReferences(g, a, b, am, bm, main);
    ClassReferences(g, a, b, am, bm, main);
    MethodReferences(g, a, b, am, bm, main);
    if y !in DefinitionReferences(g, x) {
      var r :| r in DefinitionReferences(g, x) && OverriddenBy(g, r, y);
      NothingOverrides(g, a, b, am, bm, main, r, y);
    }
  }

  lemma KeptIsClosed(g: Globals, a: Name, b: Name, am: Name, bm: Name, main: Name)
    requires IsOverloaded(g, a, b, am, bm, main)
    ensures LinkClosed(g, {main}, {main, a, b, am})
  {
    forall x, y | x in {main, a, b, am} && LinkEdges(g)(x, y) ensures y in {main, a, b, am} {
      assert Links(g, x, y);
      EnqueuedIsKept(g, a, b, am, bm, main, x, y);
    }
  }

  lemma BothAreReachable(g: Globals, a: Name, b: Name, am: Name, bm: Name, main: Name, reachable: set<Name>)
    requires IsOverloaded(g, a, b, am, bm, main) && LinkClosed(g, {main}, reachable)
    ensures main in reachable && b in reachable
  {
    MainReferences(g, a, b, am, bm, main);
    assert main in reachable;
    assert Links(g, main, b);
    assert LinkEdges(g)(main, b);
  }

  lemma OverloadIsUnreachable(g: Globals, a: Name, b: Name, am: Name, bm: Name, main: Name, reachable: set<Name>)
    requires IsOverloaded(g, a, b, am, bm, main) && LinkClosed(g, {main}, reachable)
    requires forall y :: y in reachable <==> Linked(g, {main}, y)
    ensures bm !in reachable
  {
    KeptIsClosed(g, a, b, am, bm, main);
    ClosedReachedIsLeast({main}, LinkEdges(g), reachable);
    assert reachable <= {main, a, b, am};
  }

  lemma OneParentIsConsistent(pm: ParentMap, a: Name, b: Name)
    requires a != "" && a in pm && b in pm && pm[a] == [] && pm[b] == [a]
    ensures ConsistentAt(pm, a) && ConsistentAt(pm, b)
  {
    assert MergeInputs(pm, []) == [];
    assert Reversed([a]) == [a];
    assert Linearized(pm, a) == [a];
    assert LinearizedEach(pm, [a], {}) == [[a]];
    var inputs := [[a], [a]];
    assert MergeInputs(pm, [a]) == inputs;
    assert Subsequence([a], [a]);
    assert Respects([a], inputs);
    MergedComplete(inputs);
  }

  lemma HierarchyOk(pm: ParentMap, a: Name, b: Name)
    requires a != b && a !in {"", JAVA_LANG_OBJECT} && b !in {"", JAVA_LANG_OBJECT}
    requires pm == map[a := [], b := [a]]
    ensures Subtype(pm, b, a) && Acyclic(pm, b) && Consistent(pm, b)
  {
    assert a in Parents(Searched(pm), b);
    ReachesSelf(Searched(pm), a);
    ReachesStep(Searched(pm), b, a, a);
    OneParentIsConsistent(pm, a, b);
    forall x | Reaches(pm, b, x) ensures !Ancestor(pm, x, x) && ConsistentAt(pm, x) {
      Linearizer.ClosedReaches(pm, {a, b}, b, x);
      if Ancestor(pm, b, b) {
        Linearizer.ClosedReaches(pm, {a}, a, b);
      }
    }
  }

  /** All that dispatch safety asks holds but the match of members, and the member that lookup selects is dropped. */
  lemma OverloadIsDropped(a: Name, b: Name, m: Name, main: Name, reachable: set<Name>)
    requires NamesApart(a, b, m, main)
    requires var g := Overloaded(a, b, m, main);
             LinkClosed(g, {main}, reachable) && forall y :: y in reachable <==> Linked(g, {main}, y)
    ensures var g := Overloaded(a, b, m, main);
            && main in reachable && Qualify(a, m) in DefinitionReferences(g, main) && IsVirtual(g, Qualify(a, m))
            && b in reachable && Subtype(ParentMapFor(g), b, a)
            && Acyclic(ParentMapFor(g), b) && Consistent(ParentMapFor(g), b)
            && !MembersMatch(g, b, Qualify(a, m))
            && ResolveMember(g, b, m) == Some(Qualify(b, m)) && Qualify(b, m) !in reachable
  {
    var g, am, bm := Overloaded(a, b, m, main), Qualify(a, m), Qualify(b, m);
    OverloadedFacts(a, b, m, main);
    MainReferences(g, a, b, am, bm, main);
    ParentsOf(g, a, b, am, bm, main);
    HierarchyOk(ParentMapFor(g), a, b);
    BothAreReachable(g, a, b, am, bm, main, reachable);
    OverloadIsUnreachable(g, a, b, am, bm, main, reachable);
    VirtualMethods(g, a, b, am, bm, main, am);
    NotMatching(g, a, b, am, bm, main);
    LookupSelectsOverload(g, a, b, am, bm, main, m);
  }

  lemma ParentsOf(g: Globals, a: Name, b: Name, am: Name, bm: Name, main: Name)
    requires IsOverloaded(g, a, b, am, bm, main)
    ensures ParentMapFor(g) == map[a := [], b := [a]]
  {
  }

  lemma LookupSelectsOverload(g: Globals, a: Name, b: Name, am: Name, bm: Name, main: Name, m: Name)
    requires IsOverloaded(g, a, b, am, bm, main) && bm == Qualify(b, m)
    ensures ResolveMember(g, b, m) == Some(bm)
  {
    assert LinearizedTypeNames(ParentMapFor(g), b)[0] == b;
  }

  lemma NotMatching(g: Globals, a: Name, b: Name, am: Name, bm: Name, main: Name)
    requires IsOverloaded(g, a, b, am, bm, main) && bm == Qualify(b, MemberNameOf(am))
    ensures !MembersMatch(g, b, am)
  {
    assert |g[am].parameterTypes| != |g[bm].parameterTypes|;
  }

  /** Such names exist. */
  lemma SampleNamesApart()
    ensures NamesApart("A", "B", "m", "main")
  {
    var am, bm, init := Qualify("A", "m"), Qualify("B", "m"), Qualify("B", "$init");
    assert am == "A.m" && bm == "B.m" && init == "B.$init";
    assert |"main"| == 4 && |am| == 3 && |bm| == 3 && |init| == 7 && am[0] != bm[0];
    assert LastDot("main"[..0]) == -1;
    assert LastDot("main"[..1]) == -1;
    assert LastDot("main"[..2]) == -1;
    assert LastDot("main"[..3]) == -1;
    assert OwnerNameOf("main") == "";
  }
}
