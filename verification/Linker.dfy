/** The reachability worklist of tools/linker/src/Linker.cpp and what it keeps for dynamic dispatch. */
module Linker {
  import opened Basics
  import opened Closure
  import opened ParentGraph
  import opened Linearizer
  import opened QualifiedNames
  import opened Subtyping
  import opened LinkerReferences
  import opened LinkerReasons

  const RUNTIME_MAIN: Name := "scala.scalanative.runtime.main"

  datatype LinkError =
    | NoEntryPoint
    | UnresolvedGlobal(name: Name)
    | UnresolvedReference(from: Name, mention: Mention)
    | RootNotReachable(name: Name)

  // ---------------------------------------------------------------------------------------------
  // The least closed set.

  /** Some reference of x is overridden by c. */
  ghost predicate OverridesAReference(g: Globals, x: Name, c: Name)
    requires x in g
  {
    exists r :: r in DefinitionReferences(g, x) && OverriddenBy(g, r, c)
  }

  /** Everything the worklist enqueues while it handles x. */
  ghost function Enqueued(g: Globals, x: Name): set<Name>
    requires x in g
  {
    DefinitionReferences(g, x) + set c | c in g && OverridesAReference(g, x, c)
  }

  ghost predicate Links(g: Globals, x: Name, y: Name) {
    x in g && y in Enqueued(g, x)
  }

  ghost function LinkEdges(g: Globals): (Name, Name) -> bool {
    (x, y) => Links(g, x, y)
  }

  /** y is a root or is enqueued by something linked. */
  ghost predicate Linked(g: Globals, roots: set<Name>, y: Name) {
    Reached(roots, LinkEdges(g), y)
  }

  ghost predicate LinkClosed(g: Globals, roots: set<Name>, s: set<Name>) {
    Closed(roots, LinkEdges(g), s)
  }

  lemma EnqueuedAreGlobals(g: Globals, x: Name)
    requires x in g
    ensures Enqueued(g, x) <= g.Keys
  {
    ReferencesAreGlobals(g, x);
  }

  // ---------------------------------------------------------------------------------------------
  // The collectors.

  lemma ElementsAppend(s: seq<Name>, x: Name)
    ensures Elements(s + [x]) == Elements(s) + {x}
  {
  }

  lemma ElementsConcat(s: seq<Name>, t: seq<Name>)
    ensures Elements(s + t) == Elements(s) + Elements(t)
  {
  }

  method SignaturesAgree(pm: ParentMap, expected: Definition, candidate: Definition) returns (agree: bool)
    ensures agree <==> SignaturesMatch(pm, expected, candidate)
  {
    if expected.parameterTypes == [] || |expected.parameterTypes| != |candidate.parameterTypes| {
      return false;
    }
    var result := IsSubtypeOf(candidate.resultType, expected.resultType, pm);
    if !result {
      return false;
    }
    var i := 1;
    while i < |expected.parameterTypes|
      invariant 1 <= i <= |expected.parameterTypes|
      invariant forall j :: 1 <= j < i ==> expected.parameterTypes[j] == candidate.parameterTypes[j]
    {
      if expected.parameterTypes[i] != candidate.parameterTypes[i] {
        assert expected.parameterTypes[1..][i - 1] != candidate.parameterTypes[1..][i - 1];
        return false;
      }
      i := i + 1;
    }
    return true;
  }

  method IsOverride(reference: Name, candidate: Name, g: Globals) returns (overrides: bool)
    requires IsVirtual(g, reference) && candidate in g
    ensures overrides <==> OverriddenBy(g, reference, candidate)
  {
    if candidate == reference || MemberNameOf(candidate) != MemberNameOf(reference) || !IsVirtual(g, candidate) {
      return false;
    }
    var below := IsSubtypeOf(OwnerNameOf(candidate), OwnerNameOf(reference), ParentMapFor(g));
    var agree := SignaturesAgree(ParentMapFor(g), g[reference], g[candidate]);
    return below && agree;
  }

  ghost function OverridersAmong(g: Globals, reference: Name, names: set<Name>): set<Name> {
    set c | c in names && OverriddenBy(g, reference, c)
  }

  lemma OverridersAmongAdd(g: Globals, reference: Name, names: set<Name>, candidate: Name)
    ensures OverridersAmong(g, reference, names + {candidate}) ==
            OverridersAmong(g, reference, names) + if OverriddenBy(g, reference, candidate) then {candidate} else {}
  {
  }

  /** Scans all globals, in any order, for methods that override the reference. */
  method CollectVirtualOverrideReferences(reference: Name, g: Globals, collected: seq<Name>)
    returns (references: seq<Name>)
    ensures Elements(references) == Elements(collected) + OverridersAmong(g, reference, g.Keys)
  {
    references := collected;
    if !IsVirtual(g, reference) {
      return;
    }
    var left := g.Keys;
    while left != {}
      invariant left <= g.Keys
      invariant Elements(references) == Elements(collected) + OverridersAmong(g, reference, g.Keys - left)
    {
      var candidate :| candidate in left;
      OverridersAmongAdd(g, reference, g.Keys - left, candidate);
      assert g.Keys - (left - {candidate}) == g.Keys - left + {candidate};
      left := left - {candidate};
      ghost var before := references;
      var overrides := IsOverride(reference, candidate, g);
      if overrides {
        references := references + [candidate];
        ElementsAppend(before, candidate);
      }
    }
    assert g.Keys - left == g.Keys;
  }

  /** The fields owned by the listed types, java.lang.Object excepted. */
  ghost function OwnedFields(g: Globals, owners: set<Name>): set<Name> {
    set f | f in g && g[f].kind.Field? && OwnerNameOf(f) in owners && OwnerNameOf(f) != JAVA_LANG_OBJECT
  }

  lemma OwnedFieldsUnion(g: Globals, a: set<Name>, b: set<Name>)
    ensures OwnedFields(g, a + b) == OwnedFields(g, a) + OwnedFields(g, b)
  {
  }

  /** Parents of the handled types have been seen. */
  ghost predicate ParentsSeen(pm: ParentMap, handled: set<Name>, seen: set<Name>) {
    forall x, p {:trigger x in handled, p in Parents(pm, x)} :: x in handled && p in Parents(pm, x) ==> p in seen
  }

  method CollectOwnFields(className: Name, g: Globals, collected: seq<Name>) returns (references: seq<Name>)
    ensures Elements(references) == Elements(collected) + FieldsOf(g, className)
  {
    references := collected;
    var left := g.Keys;
    while left != {}
      invariant left <= g.Keys
      invariant Elements(references) ==
                Elements(collected) + set f | f in g.Keys - left && OwnerNameOf(f) == className && g[f].kind.Field?
    {
      var f :| f in left;
      left := left - {f};
      if g[f].kind.Field? && OwnerNameOf(f) == className {
        ElementsAppend(references, f);
        references := references + [f];
      }
    }
  }

  /** Walks the hierarchy above a class depth first; `seen` cuts off repeated and cyclic visits. */
  method CollectClassFields(className: Name, g: Globals, collected: seq<Name>, visited: set<Name>)
    returns (references: seq<Name>, seen: set<Name>)
    ensures visited + {className} <= seen
    ensures forall x :: x in seen && x !in visited ==> Reaches(BelowObject(ParentMapFor(g)), className, x)
    ensures ParentsSeen(BelowObject(ParentMapFor(g)), seen - visited, seen)
    ensures Elements(references) == Elements(collected) + OwnedFields(g, seen - visited)
    decreases ParentMapFor(g).Keys - visited
  {
    ghost var pm := BelowObject(ParentMapFor(g));
    ReachesSelf(pm, className);
    references, seen := collected, visited + {className};
    if className in visited {
      assert seen - visited == {};
      return;
    }
    assert seen - visited == {className};
    if className == JAVA_LANG_OBJECT {
      return;
    }
    if className in g && IsClassLike(g[className].kind) {
      var parents := g[className].parents;
      assert Parents(pm, className) == parents;
      var i := 0;
      while i < |parents|
        invariant 0 <= i <= |parents|
        invariant visited + {className} <= seen
        invariant forall x :: x in seen && x !in visited ==> Reaches(pm, className, x)
        invariant forall j :: 0 <= j < i ==> parents[j] in seen
        invariant ParentsSeen(pm, seen - visited - {className}, seen)
        invariant Elements(references) == Elements(collected) + OwnedFields(g, seen - visited - {className})
      {
        ghost var seenBefore := seen;
        references, seen := CollectClassFields(parents[i], g, references, seen);
        forall x | x in seen && x !in visited
          ensures Reaches(pm, className, x)
        {
          if x !in seenBefore {
            assert parents[i] in Parents(pm, className);
            ReachesStep(pm, className, parents[i], x);
          }
        }
        assert seen - visited - {className} == (seenBefore - visited - {className}) + (seen - seenBefore);
        OwnedFieldsUnion(g, seenBefore - visited - {className}, seen - seenBefore);
        i := i + 1;
      }
    }
    references := CollectOwnFields(className, g, references);
    assert seen - visited == (seen - visited - {className}) + {className};
    OwnedFieldsUnion(g, seen - visited - {className}, {className});
    assert OwnedFields(g, {className}) == FieldsOf(g, className);
  }

  method CollectClassFieldReferences(className: Name, g: Globals, collected: seq<Name>) returns (references: seq<Name>)
    ensures Elements(references) == Elements(collected) + ClassFields(g, className)
  {
    var seen;
    references, seen := CollectClassFields(className, g, collected, {});
    ghost var pm := BelowObject(ParentMapFor(g));
    assert seen - {} == seen;
    forall x | Reaches(pm, className, x)
      ensures x in seen
    {
      ClosedReaches(pm, seen, className, x);
    }
    assert OwnedFields(g, seen) == ClassFields(g, className);
  }

  method CollectMention(m: Mention, owner: Name, moduleName: Name, g: Globals, collected: seq<Name>)
    returns (references: seq<Name>)
    ensures Elements(references) == Elements(collected) + MentionReferences(g, owner, moduleName, m)
  {
    references := collected;
    match m {
      case Named(text) =>
        var n := ResolveGlobal(g, owner, moduleName, text);
        if n.Some? {
          references := references + [n.value];
          ElementsAppend(collected, n.value);
        }
      case Selected(receiverType, member) =>
        var n := ResolveGlobal(g, owner, moduleName, receiverType);
        if n.Some? && IsClassLike(g[n.value].kind) {
          var selected := ResolveMember(g, n.value, member);
          if selected.Some? {
            references := references + [selected.value];
            ElementsAppend(collected, selected.value);
          }
        }
      case Constructed(className) =>
        var n := ResolveGlobal(g, owner, moduleName, className);
        if n.Some? {
          references := references + [n.value];
          ElementsAppend(collected, n.value);
          references := CollectClassFieldReferences(n.value, g, references);
          references := CollectInitializer(n.value, g, references);
        }
      case IfDefined(text) =>
        if text in g {
          references := references + [text];
          ElementsAppend(collected, text);
        }
    }
  }

  method CollectInitializer(className: Name, g: Globals, collected: seq<Name>) returns (references: seq<Name>)
    ensures Elements(references) == Elements(collected) + InitializerOf(g, className)
  {
    references := collected;
    if Qualify(className, "$init") in g {
      references := references + [Qualify(className, "$init")];
      ElementsAppend(collected, Qualify(className, "$init"));
    }
  }

  lemma BodyReferencesAppend(g: Globals, owner: Name, moduleName: Name, body: seq<Mention>, m: Mention)
    ensures BodyReferences(g, owner, moduleName, body + [m]) ==
            BodyReferences(g, owner, moduleName, body) + MentionReferences(g, owner, moduleName, m)
  {
    if body != [] {
      BodyReferencesAppend(g, owner, moduleName, body[1..], m);
      assert (body + [m])[1..] == body[1..] + [m];
    }
  }

  method CollectBody(body: seq<Mention>, owner: Name, moduleName: Name, g: Globals, collected: seq<Name>)
    returns (references: seq<Name>, unresolved: seq<Mention>)
    ensures Elements(references) == Elements(collected) + BodyReferences(g, owner, moduleName, body)
    ensures forall m :: m in unresolved <==> m in body && IsUnresolved(g, owner, moduleName, m)
  {
    references, unresolved := collected, [];
    var i := 0;
    while i < |body|
      invariant 0 <= i <= |body|
      invariant Elements(references) == Elements(collected) + BodyReferences(g, owner, moduleName, body[..i])
      invariant forall m :: m in unresolved <==> m in body[..i] && IsUnresolved(g, owner, moduleName, m)
    {
      references := CollectMention(body[i], owner, moduleName, g, references);
      if IsUnresolved(g, owner, moduleName, body[i]) {
        unresolved := unresolved + [body[i]];
      }
      BodyReferencesAppend(g, owner, moduleName, body[..i], body[i]);
      assert body[..i + 1] == body[..i] + [body[i]];
      i := i + 1;
    }
    assert body[..i] == body;
  }

  method CollectDefined(names: seq<Name>, g: Globals, collected: seq<Name>) returns (references: seq<Name>)
    ensures Elements(references) == Elements(collected) + Defined(g, names)
  {
    references := collected;
    var i := 0;
    while i < |names|
      invariant 0 <= i <= |names|
      invariant Elements(references) == Elements(collected) + Defined(g, names[..i])
    {
      if names[i] in g {
        ElementsAppend(references, names[i]);
        references := references + [names[i]];
      }
      assert names[..i + 1] == names[..i] + [names[i]];
      i := i + 1;
    }
    assert names[..i] == names;
  }

  /** For each parent: the parent itself, then every function it owns. */
  method CollectParents(parents: seq<Name>, g: Globals) returns (references: seq<Name>)
    ensures Elements(references) == ParentReferences(g, parents)
  {
    references := [];
    var i := 0;
    while i < |parents|
      invariant 0 <= i <= |parents|
      invariant Elements(references) == ParentReferences(g, parents[..i])
    {
      var parent := parents[i];
      ghost var before := references;
      if parent != JAVA_LANG_OBJECT {
        if parent in g {
          ElementsAppend(references, parent);
          references := references + [parent];
        }
        references := CollectFunctions(parent, g, references);
      }
      assert parents[..i + 1] == parents[..i] + [parent];
      i := i + 1;
    }
    assert parents[..i] == parents;
  }

  method CollectFunctions(owner: Name, g: Globals, collected: seq<Name>) returns (references: seq<Name>)
    ensures Elements(references) == Elements(collected) + FunctionsOf(g, owner)
  {
    references := collected;
    var left := g.Keys;
    while left != {}
      invariant left <= g.Keys
      invariant Elements(references) ==
                Elements(collected) + set f | f in g.Keys - left && OwnerNameOf(f) == owner && IsFunction(g[f].kind)
    {
      var f :| f in left;
      left := left - {f};
      if OwnerNameOf(f) == owner && IsFunction(g[f].kind) {
        ElementsAppend(references, f);
        references := references + [f];
      }
    }
  }

  /** The unresolved mentions of a definition's body. */
  ghost predicate HasUnresolved(g: Globals, name: Name, m: Mention)
    requires name in g
  {
    ScansBody(g[name]) && m in g[name].body && IsUnresolved(g, OwnerNameOf(name), g[name].moduleName, m)
  }

  method CollectDefinitionReferences(name: Name, g: Globals) returns (references: seq<Name>, unresolved: seq<Mention>)
    requires name in g
    ensures Elements(references) == DefinitionReferences(g, name)
    ensures forall m :: m in unresolved <==> HasUnresolved(g, name, m)
  {
    var d := g[name];
    references, unresolved := [], [];
    if IsClassLike(d.kind) {
      references := CollectParents(d.parents, g);
      references := CollectClassFieldReferences(name, g, references);
      return;
    }
    if d.kind.Field? {
      references := CollectDefined([d.resultType], g, references);
    }
    if IsFunction(d.kind) {
      references := CollectDefined(d.failures, g, references);
    }
    if !ScansBody(d) {
      return;
    }
    var owner := OwnerNameOf(name);
    if owner in g && g[owner].kind.Module? {
      ghost var before := references;
      references := references + [owner];
      ElementsAppend(before, owner);
      references := CollectClassFieldReferences(owner, g, references);
      references := CollectInitializer(owner, g, references);
    }
    references, unresolved := CollectBody(d.body, owner, d.moduleName, g, references);
  }

  // ---------------------------------------------------------------------------------------------
  // The worklist.

  predicate IsMainCandidate(g: Globals, name: Name)
    requires name in g
  {
    IsFunction(g[name].kind) && (name == "main" || (|name| >= 5 && name[|name| - 5..] == ".main"))
  }

  /** The runtime main when the program has one, else every main candidate. */
  function Roots(g: Globals): (roots: set<Name>)
    ensures roots <= g.Keys
  {
    if RUNTIME_MAIN in g then {RUNTIME_MAIN} else set name | name in g && IsMainCandidate(g, name)
  }

  method Expand(references: seq<Name>, g: Globals) returns (virtualReferences: seq<Name>)
    ensures Elements(virtualReferences) == set c | c in g && exists r :: r in references && OverriddenBy(g, r, c)
  {
    virtualReferences := [];
    var i := 0;
    while i < |references|
      invariant 0 <= i <= |references|
      invariant Elements(virtualReferences) ==
                set c | c in g && exists r :: r in references[..i] && OverriddenBy(g, r, c)
    {
      virtualReferences := CollectVirtualOverrideReferences(references[i], g, virtualReferences);
      assert references[..i + 1] == references[..i] + [references[i]];
      i := i + 1;
    }
    assert references[..i] == references;
  }

  /** Every linked name of the handled set has been handled or is waiting. */
  ghost predicate LinkFrontier(g: Globals, reachable: set<Name>, waiting: set<Name>) {
    forall x, y {:trigger Links(g, x, y)} :: x in reachable && Links(g, x, y) ==> y in reachable || y in waiting
  }

  ghost predicate AllLinked(g: Globals, roots: set<Name>, names: set<Name>) {
    forall y {:trigger Linked(g, roots, y)} :: y in names ==> Linked(g, roots, y)
  }

  ghost predicate LinkState(g: Globals, roots: set<Name>, reachable: set<Name>, waiting: set<Name>) {
    && roots <= reachable + waiting <= g.Keys
    && LinkFrontier(g, reachable, waiting)
    && AllLinked(g, roots, reachable + waiting)
  }

  method HandleGlobal(current: Name, g: Globals) returns (references: seq<Name>, errors: set<LinkError>)
    requires current in g
    ensures Elements(references) == Enqueued(g, current)
    ensures errors == set m | m in g[current].body && HasUnresolved(g, current, m) :: UnresolvedReference(current, m)
  {
    var unresolved, virtualReferences;
    references, unresolved := CollectDefinitionReferences(current, g);
    virtualReferences := Expand(references, g);
    ElementsConcat(references, virtualReferences);
    assert forall r :: r in references <==> r in Elements(references);
    assert Elements(virtualReferences) == set c | c in g && OverridesAReference(g, current, c);
    references := references + virtualReferences;
    errors := set m | m in unresolved :: UnresolvedReference(current, m);
  }

  /** All names still to be queued for one definition, in collection order. */
  method Enqueue(worklist: seq<Name>, references: seq<Name>, reachable: set<Name>) returns (longer: seq<Name>)
    ensures Elements(longer) == Elements(worklist) + (Elements(references) - reachable)
  {
    longer := worklist;
    var i := 0;
    while i < |references|
      invariant 0 <= i <= |references|
      invariant Elements(longer) == Elements(worklist) + (Elements(references[..i]) - reachable)
    {
      assert references[..i + 1] == references[..i] + [references[i]];
      ElementsAppend(references[..i], references[i]);
      if references[i] !in reachable {
        ElementsAppend(longer, references[i]);
        longer := longer + [references[i]];
      }
      i := i + 1;
    }
    assert references[..i] == references;
  }

  method QueueRoots(g: Globals) returns (worklist: seq<Name>)
    ensures Elements(worklist) == Roots(g)
  {
    worklist := [];
    var left := Roots(g);
    while left != {}
      invariant left <= Roots(g) && Elements(worklist) == Roots(g) - left
    {
      var root :| root in left;
      left := left - {root};
      ElementsAppend(worklist, root);
      worklist := worklist + [root];
    }
  }

  ghost predicate IsUnresolvedIn(g: Globals, reachable: set<Name>, error: LinkError) {
    && error.UnresolvedReference? && error.from in reachable && error.from in g
    && HasUnresolved(g, error.from, error.mention)
  }

  lemma LinkStateSkips(g: Globals, roots: set<Name>, reachable: set<Name>, waiting: set<Name>, nowWaiting: set<Name>)
    requires LinkState(g, roots, reachable, waiting)
    requires nowWaiting <= waiting <= nowWaiting + reachable
    ensures LinkState(g, roots, reachable, nowWaiting)
  {
  }

  lemma LinkStateAdvances(g: Globals, roots: set<Name>, reachable: set<Name>, waiting: set<Name>,
                          current: Name, rest: set<Name>)
    requires LinkState(g, roots, reachable, waiting)
    requires current in waiting && rest <= waiting <= rest + {current}
    ensures LinkState(g, roots, reachable + {current}, rest + (Enqueued(g, current) - (reachable + {current})))
  {
    var nowReachable := reachable + {current};
    var nowWaiting := rest + (Enqueued(g, current) - nowReachable);
    assert Linked(g, roots, current);
    EnqueuedAreGlobals(g, current);
    forall y | y in nowReachable + nowWaiting
      ensures Linked(g, roots, y)
    {
      if y in Enqueued(g, current) {
        assert Links(g, current, y);
        ReachedStep(roots, LinkEdges(g), current, y);
      }
    }
  }

  lemma LinkStateDone(g: Globals, roots: set<Name>, reachable: set<Name>)
    requires LinkState(g, roots, reachable, {})
    ensures LinkClosed(g, roots, reachable)
    ensures forall y :: y in reachable <==> Linked(g, roots, y)
    ensures forall other :: LinkClosed(g, roots, other) ==> reachable <= other
  {
    forall y | y in reachable
      ensures Linked(g, roots, y)
    {
      assert y in reachable + {};
    }
    ClosedReachedIsLeast(roots, LinkEdges(g), reachable);
  }

  lemma LinkStateStarts(g: Globals)
    ensures LinkState(g, Roots(g), {}, Roots(g))
  {
    forall y | y in {} + Roots(g)
      ensures Linked(g, Roots(g), y)
    {
      ReachedStart(Roots(g), LinkEdges(g), y);
    }
  }

  /** What the worklist enqueues is what there is a reason to keep. */
  lemma LinksIff(g: Globals, x: Name, y: Name)
    ensures Links(g, x, y) <==> Needs(g, x, y)
  {
    if x in g {
      EnqueuedAreGlobals(g, x);
      forall r | r in g ensures r in DefinitionReferences(g, x) <==> Refers(g, x, r) {
        RefersIff(g, x, r);
      }
      forall r ensures OverriddenBy(g, r, y) <==> Overrides(g, y, r) {
        OverridesIff(g, r, y);
      }
      if Needs(g, x, y) && !Refers(g, x, y) {
        var r :| Refers(g, x, r) && Overrides(g, y, r);
        assert OverridesAReference(g, x, y);
      }
      if Links(g, x, y) && y !in DefinitionReferences(g, x) {
        var r :| r in DefinitionReferences(g, x) && OverriddenBy(g, r, y);
        assert r in g;
      }
    }
  }

  /** An unresolved reference is a name in a scanned body that nothing is called. */
  lemma UnresolvedIff(g: Globals, x: Name, m: Mention)
    requires x in g
    ensures HasUnresolved(g, x, m) <==> Dangles(g, x, m)
  {
    if m.Named? {
      forall n ensures ResolveGlobal(g, OwnerNameOf(x), g[x].moduleName, m.text) == Some(n) <==>
                       ResolvesTo(g, OwnerNameOf(x), g[x].moduleName, m.text, n)
      {
        ResolvesIff(g, OwnerNameOf(x), g[x].moduleName, m.text, n);
      }
    }
  }

  lemma RootsAre(g: Globals)
    ensures forall name :: name in Roots(g) <==> IsRoot(g, name)
  {
    forall name | name in g ensures name in Roots(g) <==> IsRoot(g, name) {
      if |name| >= 5 && name[|name| - 5..] == ".main" {
        assert name == Qualify(name[..|name| - 5], "main");
        QualifyRoundTrip(name[..|name| - 5], "main");
      } else if MemberNameOf(name) == "main" && OwnerNameOf(name) != "" {
        QualifiedFromParts(name);
        assert false;
      }
    }
  }

  lemma KeptIff(g: Globals, roots: set<Name>, s: set<Name>)
    ensures LinkClosed(g, roots, s) <==> KeepsNeeds(g, roots, s)
  {
    forall x, y ensures LinkEdges(g)(x, y) <==> Needs(g, x, y) {
      LinksIff(g, x, y);
    }
  }

  lemma LeastKept(g: Globals, roots: set<Name>, s: set<Name>)
    requires LinkClosed(g, roots, s) && forall other :: LinkClosed(g, roots, other) ==> s <= other
    ensures KeepsNeeds(g, roots, s) && forall other :: KeepsNeeds(g, roots, other) ==> s <= other
  {
    KeptIff(g, roots, s);
    forall other | KeepsNeeds(g, roots, other) ensures s <= other {
      KeptIff(g, roots, other);
    }
  }

  /** The reachable set is the least set that holds the roots and is closed under references and their overrides. */
  method Link(g: Globals) returns (reachable: set<Name>, errors: set<LinkError>)
    ensures reachable <= g.Keys
    ensures forall y :: y in reachable <==> Linked(g, Roots(g), y)
    ensures LinkClosed(g, Roots(g), reachable)
    ensures forall other :: LinkClosed(g, Roots(g), other) ==> reachable <= other
    ensures KeepsNeeds(g, Roots(g), reachable)
    ensures forall other :: KeepsNeeds(g, Roots(g), other) ==> reachable <= other
    ensures Roots(g) == {} ==> errors == {NoEntryPoint}
    ensures Roots(g) != {} ==> forall error :: error in errors <==> IsUnresolvedIn(g, reachable, error)
  {
    reachable, errors := {}, {};
    var roots := Roots(g);
    LinkStateStarts(g);
    if roots == {} {
      LinkStateDone(g, roots, {});
      LeastKept(g, roots, {});
      return {}, {NoEntryPoint};
    }
    var worklist := QueueRoots(g);
    while worklist != []
      invariant LinkState(g, roots, reachable, Elements(worklist))
      invariant forall error :: error in errors <==> IsUnresolvedIn(g, reachable, error)
      decreases g.Keys - reachable, |worklist|
    {
      ghost var waiting := Elements(worklist);
      var current := worklist[0];
      worklist := worklist[1..];
      assert waiting == Elements(worklist) + {current};
      if current in reachable {
        LinkStateSkips(g, roots, reachable, waiting, Elements(worklist));
        continue;
      }
      LinkStateAdvances(g, roots, reachable, waiting, current, Elements(worklist));
      reachable := reachable + {current};
      if current !in g {
        errors := errors + {UnresolvedGlobal(current)};
        continue;
      }
      var references, unresolved := HandleGlobal(current, g);
      errors := errors + unresolved;
      worklist := Enqueue(worklist, references, reachable);
    }
    LinkStateDone(g, roots, reachable);
    LeastKept(g, roots, reachable);
    var left := roots;
    while left != {}
      invariant left <= roots
      invariant forall error :: error in errors <==> IsUnresolvedIn(g, reachable, error)
    {
      var root :| root in left;
      left := left - {root};
      if root !in reachable {
        errors := errors + {RootNotReachable(root)};
      }
    }
  }
}
