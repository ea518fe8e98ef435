/** Where in a constructor everything else stands: the order inside one trait, the arguments and the classes' items. */
module ConstructorRuns {
  import opened Basics
  import opened Sequences
  import opened ParentGraph
  import opened Linearization
  import opened TraitValues
  import opened TraitInitialization
  import opened ConstructorOrder

  // ---------------------------------------------------------------------------------------------
  // The assignments a class adds.

  /** Values of one trait stand as they are declared, values of different traits as their owners. */
  ghost predicate ValuesInOrder(m: Program, owners: seq<Name>, values: seq<TraitValue>) {
    forall i, j {:trigger values[i], values[j]} :: 0 <= i < j < |values| ==>
      if values[i].owner == values[j].owner
      then values[i].owner in m && Before(m[values[i].owner].members, values[i].member, values[j].member)
      else Before(owners, values[i].owner, values[j].owner)
  }

  /** Values of one trait, as they are declared. */
  ghost predicate ListedIn(owner: Name, members: seq<Member>, values: seq<TraitValue>) {
    && (forall i {:trigger values[i]} :: 0 <= i < |values| ==> values[i].owner == owner && values[i].member in members)
    && (forall i, j {:trigger values[i], values[j]} ::
          0 <= i < j < |values| ==> Before(members, values[i].member, values[j].member))
  }

  lemma ListedInTail(owner: Name, members: seq<Member>, values: seq<TraitValue>)
    requires members != [] && ListedIn(owner, members[1..], values)
    ensures ListedIn(owner, members, values)
  {
    assert members == [members[0]] + members[1..];
    forall i, j | 0 <= i < j < |values| ensures Before(members, values[i].member, values[j].member) {
      BeforeShift(members, values[i].member, values[j].member);
    }
  }

  lemma ListedInCons(owner: Name, members: seq<Member>, effective: bool, values: seq<TraitValue>)
    requires members != [] && ListedIn(owner, members[1..], values)
    ensures ListedIn(owner, members, [TraitValue(owner, members[0], effective)] + values)
  {
    var all := [TraitValue(owner, members[0], effective)] + values;
    ListedInTail(owner, members, values);
    assert members == [members[0]] + members[1..];
    forall i, j | 0 <= i < j < |all| ensures Before(members, all[i].member, all[j].member) {
      assert all[j] == values[j - 1];
      if i == 0 {
        FirstIsBefore(members[0], members[1..], values[j - 1].member);
      } else {
        assert all[i] == values[i - 1];
      }
    }
  }

  lemma {:induction false} TraitValuesInOrder(owner: Name, members: seq<Member>, resolved: set<Name>,
                                              inherited: set<Name>)
    ensures ListedIn(owner, members, ValuesOfTrait(owner, members, resolved, inherited))
    decreases |members|
  {
    if members == [] {
    } else {
      var grown := if IsTermMember(members[0]) then resolved + {members[0].name} else resolved;
      var rest := ValuesOfTrait(owner, members[1..], grown, inherited);
      TraitValuesInOrder(owner, members[1..], grown, inherited);
      ListedInTail(owner, members, rest);
      ListedInCons(owner, members, members[0].name !in resolved, rest);
    }
  }

  lemma FirstIsBefore<T(!new)>(x: T, rest: seq<T>, y: T)
    requires y in rest
    ensures Before([x] + rest, x, y)
  {
    var k :| 0 <= k < |rest| && rest[k] == y;
    assert ([x] + rest)[0] == x && ([x] + rest)[k + 1] == y;
  }

  lemma ValuesInOrderJoin(m: Program, o: Name, rest: seq<Name>, own: seq<TraitValue>, others: seq<TraitValue>)
    requires o in m && o !in rest && ValuesInOrder(m, rest, others) && AllFrom(rest, others)
    requires ListedIn(o, m[o].members, own)
    ensures ValuesInOrder(m, [o] + rest, own + others)
  {
    var values := own + others;
    forall i, j | 0 <= i < j < |values|
      ensures if values[i].owner == values[j].owner
              then values[i].owner in m && Before(m[values[i].owner].members, values[i].member, values[j].member)
              else Before([o] + rest, values[i].owner, values[j].owner)
    {
      if j < |own| {
        assert values[i] == own[i] && values[j] == own[j];
      } else if i < |own| {
        assert values[i] == own[i] && values[j] == others[j - |own|];
        FirstIsBefore(o, rest, values[j].owner);
      } else {
        assert values[i] == others[i - |own|] && values[j] == others[j - |own|];
        if values[i].owner != values[j].owner {
          assert ([o] + rest)[1..] == rest;
          BeforeShift([o] + rest, values[i].owner, values[j].owner);
        }
      }
    }
  }

  lemma ValuesInOrderWeaken(m: Program, o: Name, rest: seq<Name>, values: seq<TraitValue>)
    requires ValuesInOrder(m, rest, values)
    ensures ValuesInOrder(m, [o] + rest, values)
  {
    forall i, j | 0 <= i < j < |values| && values[i].owner != values[j].owner
      ensures Before([o] + rest, values[i].owner, values[j].owner)
    {
      assert ([o] + rest)[1..] == rest;
      BeforeShift([o] + rest, values[i].owner, values[j].owner);
    }
  }

  lemma {:induction false} OwnersValuesInOrder(m: Program, owners: seq<Name>, resolved: set<Name>, inherited: set<Name>)
    requires NoDuplicates(owners)
    ensures ValuesInOrder(m, owners, ValuesOfOwners(m, owners, resolved, inherited))
    decreases |owners|
  {
    if owners == [] {
    } else {
      var o, rest := owners[0], owners[1..];
      assert owners == [o] + rest;
      if o !in m || m[o].kind.Object? {
        OwnersValuesInOrder(m, rest, resolved, inherited);
        ValuesInOrderWeaken(m, o, rest, ValuesOfOwners(m, rest, resolved, inherited));
      } else if m[o].kind.Class? {
        var types := LinearizedTypeNames(ParentMapOf(m), o);
        OwnersValuesInOrder(m, rest, resolved + NamesIn(m, types), inherited + KeysIn(m, types));
        ValuesInOrderWeaken(m, o, rest, ValuesOfOwners(m, rest, resolved + NamesIn(m, types),
                                                       inherited + KeysIn(m, types)));
      } else {
        var names := TermNames(m[o].members);
        TraitValuesInOrder(o, m[o].members, resolved, inherited);
        OwnersValuesInOrder(m, rest, resolved + names, inherited);
        ValuesOfOwnersListed(m, rest, resolved + names, inherited);
        ValuesInOrderJoin(m, o, rest, ValuesOfTrait(o, m[o].members, resolved, inherited),
                          ValuesOfOwners(m, rest, resolved + names, inherited));
      }
    }
  }

  /** The value with this name is declared before the other one. */
  ghost predicate DeclaredBefore(members: seq<Member>, name: Name, other: Name) {
    exists a, b {:trigger Before(members, a, b)} :: Before(members, a, b) && a.name == name && b.name == other
  }

  /** The own assignments of a class follow the linearization backwards, and the declarations of each trait too. */
  lemma OwnAssignmentsReversed(m: Program, c: Name, i: nat, j: nat)
    requires Accepted(m) && c in m && m[c].kind.Class? && i < j < |OwnAssignments(m, c)|
    ensures var (t, n) := OwnAssignments(m, c)[i];
            var (u, k) := OwnAssignments(m, c)[j];
            if t == u then t in m && DeclaredBefore(m[t].members, k, n)
            else Before(LinearizedParents(ParentMapOf(m), m[c].parents), u, t)
  {
    var owners := LinearizedParents(ParentMapOf(m), m[c].parents);
    var values := MaterializedTraitValues(m, c);
    OwnersOrder(m, c);
    OwnersValuesInOrder(m, owners, DeclaredMemberNames(m[c]), {});
    AssignedTraitAssignments(values);
    var later, earlier := values[|values| - 1 - i], values[|values| - 1 - j];
    assert earlier.owner == later.owner ==> Before(m[later.owner].members, earlier.member, later.member);
  }

  // ---------------------------------------------------------------------------------------------
  // The whole constructor.

  /** The arguments come first, those of the nearest superclass before those of farther ones. */
  ghost predicate ArgumentsFirst(pm: ParentMap, steps: seq<InitStep>) {
    forall i, j {:trigger steps[i], steps[j]} :: 0 <= i < j < |steps| && steps[j].AssignParentArguments? ==>
      steps[i].AssignParentArguments? && Ancestor(pm, steps[i].cls, steps[j].cls)
  }

  /** A superclass runs its items before a class below it does. */
  ghost predicate ItemsOrdered(pm: ParentMap, steps: seq<InitStep>) {
    forall i, j {:trigger steps[i], steps[j]} ::
      0 <= i < j < |steps| && steps[i].RunClassItems? && steps[j].RunClassItems? ==>
        Ancestor(pm, steps[j].cls, steps[i].cls)
  }

  /** The items of a class run behind exactly the trait values that the class inherits. */
  ghost predicate ItemsInPlace(m: Program, steps: seq<InitStep>) {
    forall i, j {:trigger steps[i], steps[j]} ::
      0 <= i < |steps| && 0 <= j < |steps| && steps[i].AssignTraitValue? && steps[j].RunClassItems? ==>
        (i < j <==> InheritsValue(m, steps[j].cls, steps[i].owner, steps[i].name))
  }

  ghost predicate RunsInOrder(m: Program, c: Name, steps: seq<InitStep>)
    requires Accepted(m) && c in m
  {
    var chain := SuperclassChain(m, c);
    && (forall d {:trigger RunClassItems(d) in steps} {:trigger d in chain} ::
          RunClassItems(d) in steps <==> d in chain)
    && (forall d {:trigger AssignParentArguments(d) in steps} {:trigger d in chain[1..]} ::
          AssignParentArguments(d) in steps <==> d in chain[1..])
    && ArgumentsFirst(ParentMapOf(m), steps) && ItemsOrdered(ParentMapOf(m), steps) && ItemsInPlace(m, steps)
  }

  function OwnSteps(m: Program, c: Name): seq<InitStep>
    requires c in m
  {
    TraitAssignments(MaterializedTraitValues(m, c)) + [RunClassItems(c)]
  }

  lemma {:induction false} TraitAssignmentsOnly(values: seq<TraitValue>)
    ensures forall k {:trigger TraitAssignments(values)[k]} ::
              0 <= k < |TraitAssignments(values)| ==> TraitAssignments(values)[k].AssignTraitValue?
  {
    if values == [] {
    } else {
      TraitAssignmentsOnly(values[1..]);
    }
  }

  /** What a class adds: assignments, then its items. */
  lemma OwnStepsAre(m: Program, c: Name)
    requires c in m
    ensures var own := OwnSteps(m, c);
            && |own| > 0 && own[|own| - 1] == RunClassItems(c)
            && forall k {:trigger own[k]} :: 0 <= k < |own| - 1 ==> own[k].AssignTraitValue?
  {
    TraitAssignmentsOnly(MaterializedTraitValues(m, c));
  }

  lemma {:induction false} AssignedMembers(steps: seq<InitStep>, t: Name, n: Name)
    ensures (t, n) in Assigned(steps) <==> AssignTraitValue(t, n) in steps
  {
    if steps == [] {
    } else {
      assert steps == [steps[0]] + steps[1..];
      AssignedMembers(steps[1..], t, n);
    }
  }

  lemma ConstructorUnfolds(m: Program, c: Name)
    requires Accepted(m) && c in m
    ensures Superclass(m, c).None? ==> ConstructorSteps(m, c) == OwnSteps(m, c)
    ensures Superclass(m, c).Some? ==>
              var p := Superclass(m, c).value;
              p in m && ConstructorSteps(m, c) == [AssignParentArguments(p)] + ConstructorSteps(m, p) + OwnSteps(m, c)
  {
    if Superclass(m, c).Some? {
      SuperclassIsParent(m, c);
      ParentStepsAreConstructor(m, c);
    }
    assert ConstructorSteps(m, c) == ParentInitialization(m, c) + OwnSteps(m, c);
  }

  /** The values assigned by a superclass's constructor and the classes whose items it runs. */
  lemma AboveReached(m: Program, c: Name)
    requires Accepted(m) && c in m && Superclass(m, c).Some?
    ensures var p := Superclass(m, c).value;
            p in m && m[p].kind.Class? && Ancestor(ParentMapOf(m), c, p) &&
            forall d :: d in SuperclassChain(m, p) ==> Reaches(ParentMapOf(m), p, d) && d in m
  {
    var p := Superclass(m, c).value;
    SuperclassIsParent(m, c);
    ChainReached(m, p);
    ReachesSelf(ParentMapOf(m), p);
  }

  lemma {:induction false} ChainReached(m: Program, c: Name)
    requires Accepted(m) && c in m
    ensures forall d :: d in SuperclassChain(m, c) ==> Reaches(ParentMapOf(m), c, d) && d in m
    decreases Above(ParentMapOf(m), c)
  {
    ReachesSelf(ParentMapOf(m), c);
    if Superclass(m, c).Some? {
      var p := Superclass(m, c).value;
      SuperclassIsParent(m, c);
      ChainReached(m, p);
      forall d | d in SuperclassChain(m, p) ensures Reaches(ParentMapOf(m), c, d) {
        ReachesStep(ParentMapOf(m), c, p, d);
      }
    }
  }

  // ---------------------------------------------------------------------------------------------
  // One class more.

  lemma ArgumentsStayFirst(pm: ParentMap, p: Name, above: seq<InitStep>, own: seq<InitStep>)
    requires ArgumentsFirst(pm, above)
    requires forall d {:trigger AssignParentArguments(d)} :: AssignParentArguments(d) in above ==> Ancestor(pm, p, d)
    requires forall k {:trigger own[k]} :: 0 <= k < |own| ==> !own[k].AssignParentArguments?
    ensures ArgumentsFirst(pm, [AssignParentArguments(p)] + above + own)
  {
    var all := [AssignParentArguments(p)] + above + own;
    assert forall k {:trigger all[k]} :: 0 < k <= |above| ==> all[k] == above[k - 1] && above[k - 1] in above;
    assert forall k {:trigger all[k]} :: |above| < k < |all| ==> all[k] == own[k - 1 - |above|];
    forall i, j | 0 <= i < j < |all| && all[j].AssignParentArguments?
      ensures all[i].AssignParentArguments? && Ancestor(pm, all[i].cls, all[j].cls)
    {
      assert j <= |above| && all[j] == AssignParentArguments(all[j].cls);
    }
  }

  lemma ItemsStayOrdered(pm: ParentMap, c: Name, p: Name, above: seq<InitStep>, own: seq<InitStep>)
    requires ItemsOrdered(pm, above)
    requires forall d {:trigger RunClassItems(d)} :: RunClassItems(d) in above ==> Ancestor(pm, c, d)
    requires |own| > 0 && own[|own| - 1] == RunClassItems(c)
    requires forall k {:trigger own[k]} :: 0 <= k < |own| - 1 ==> own[k].AssignTraitValue?
    ensures ItemsOrdered(pm, [AssignParentArguments(p)] + above + own)
  {
    var all := [AssignParentArguments(p)] + above + own;
    assert forall k {:trigger all[k]} :: 0 < k <= |above| ==> all[k] == above[k - 1] && above[k - 1] in above;
    assert forall k {:trigger all[k]} :: |above| < k < |all| ==> all[k] == own[k - 1 - |above|];
    forall i, j | 0 <= i < j < |all| && all[i].RunClassItems? && all[j].RunClassItems?
      ensures Ancestor(pm, all[j].cls, all[i].cls)
    {
      assert 0 < i <= |above| && all[i] == RunClassItems(all[i].cls);
    }
  }

  lemma ItemsStayInPlace(m: Program, c: Name, p: Name, above: seq<InitStep>, own: seq<InitStep>)
    requires ItemsInPlace(m, above)
    requires |own| > 0 && own[|own| - 1] == RunClassItems(c)
    requires forall k {:trigger own[k]} :: 0 <= k < |own| - 1 ==>
               own[k].AssignTraitValue? && InheritsValue(m, c, own[k].owner, own[k].name)
    requires forall t, n {:trigger AssignTraitValue(t, n)} ::
               AssignTraitValue(t, n) in above ==> InheritsValue(m, c, t, n)
    requires forall d, k {:trigger RunClassItems(d), own[k]} :: RunClassItems(d) in above && 0 <= k < |own| - 1 ==>
               !InheritsValue(m, d, own[k].owner, own[k].name)
    ensures ItemsInPlace(m, [AssignParentArguments(p)] + above + own)
  {
    var all := [AssignParentArguments(p)] + above + own;
    assert forall k {:trigger all[k]} :: 0 < k <= |above| ==> all[k] == above[k - 1] && above[k - 1] in above;
    assert forall k {:trigger all[k]} :: |above| < k < |all| ==> all[k] == own[k - 1 - |above|];
    forall i, j | 0 <= i < |all| && 0 <= j < |all| && all[i].AssignTraitValue? && all[j].RunClassItems?
      ensures i < j <==> InheritsValue(m, all[j].cls, all[i].owner, all[i].name)
    {
      assert all[i] == AssignTraitValue(all[i].owner, all[i].name) && all[j] == RunClassItems(all[j].cls);
    }
  }

  // ---------------------------------------------------------------------------------------------
  // All classes of the chain.

  /** The values a class adds are inherited by it and by no class above. */
  lemma OwnValuesInherited(m: Program, c: Name, k: nat)
    requires Accepted(m) && c in m && m[c].kind.Class? && k < |OwnSteps(m, c)| - 1
    ensures var step := OwnSteps(m, c)[k];
            step.AssignTraitValue? && InheritsValue(m, c, step.owner, step.name) &&
            forall d :: Superclass(m, c).Some? && Reaches(ParentMapOf(m), Superclass(m, c).value, d) ==>
              !InheritsValue(m, d, step.owner, step.name)
  {
    var step := OwnSteps(m, c)[k];
    OwnStepsAre(m, c);
    assert step == AssignTraitValue(step.owner, step.name) && step in TraitAssignments(MaterializedTraitValues(m, c));
    AssignedMembers(TraitAssignments(MaterializedTraitValues(m, c)), step.owner, step.name);
    OwnAssignmentsMembers(m, c, step.owner, step.name);
    forall d | Superclass(m, c).Some? && Reaches(ParentMapOf(m), Superclass(m, c).value, d)
      ensures !InheritsValue(m, d, step.owner, step.name)
    {
      if Ancestor(ParentMapOf(m), d, step.owner) {
        ReachesAncestor(ParentMapOf(m), Superclass(m, c).value, d, step.owner);
        AncestorIsReached(ParentMapOf(m), Superclass(m, c).value, step.owner);
      }
    }
  }

  lemma AncestorIsReached(pm: ParentMap, x: Name, y: Name)
    requires Ancestor(pm, x, y)
    ensures Reaches(pm, x, y)
  {
    var z :| z in Parents(pm, x) && Reaches(pm, z, y);
    ReachesStep(pm, x, z, y);
  }

  lemma AboveAssignsInherited(m: Program, c: Name)
    requires Accepted(m) && c in m && m[c].kind.Class? && Superclass(m, c).Some?
    ensures var p := Superclass(m, c).value;
            p in m && forall t, n {:trigger AssignTraitValue(t, n)} ::
              AssignTraitValue(t, n) in ConstructorSteps(m, p) ==> InheritsValue(m, c, t, n)
  {
    var p := Superclass(m, c).value;
    AboveReached(m, c);
    ConstructorAssignsTraitValues(m, p);
    forall t, n | AssignTraitValue(t, n) in ConstructorSteps(m, p) ensures InheritsValue(m, c, t, n) {
      AssignedMembers(ConstructorSteps(m, p), t, n);
      assert InheritsValue(m, p, t, n);
      SuperclassValues(m, c, t, n);
    }
  }

  lemma ReachedIsAncestor(pm: ParentMap, c: Name, p: Name, d: Name)
    requires Ancestor(pm, c, p) && Reaches(pm, p, d)
    ensures Ancestor(pm, c, d)
  {
    var z :| z in Parents(pm, c) && Reaches(pm, z, p);
    ReachesTransitive(pm, z, p, d);
  }

  /** The superclass's own superclasses are proper ancestors of it. */
  lemma {:induction false} ChainTailIsAbove(m: Program, p: Name)
    requires Accepted(m) && p in m
    ensures forall d :: d in SuperclassChain(m, p)[1..] ==> Ancestor(ParentMapOf(m), p, d)
  {
    if Superclass(m, p).Some? {
      var q := Superclass(m, p).value;
      AboveReached(m, p);
      ChainShift(m, p);
      assert SuperclassChain(m, p)[1..] == SuperclassChain(m, q);
      forall d | d in SuperclassChain(m, q) ensures Ancestor(ParentMapOf(m), p, d) {
        ReachedIsAncestor(ParentMapOf(m), p, q, d);
      }
    }
  }

  lemma RunsOneMore(m: Program, c: Name)
    requires Accepted(m) && c in m && m[c].kind.Class? && Superclass(m, c).Some? && Superclass(m, c).value in m
    requires RunsInOrder(m, Superclass(m, c).value, ConstructorSteps(m, Superclass(m, c).value))
    ensures RunsInOrder(m, c, ConstructorSteps(m, c))
  {
    var pm, p := ParentMapOf(m), Superclass(m, c).value;
    var above, own := ConstructorSteps(m, p), OwnSteps(m, c);
    ConstructorUnfolds(m, c);
    OwnStepsAre(m, c);
    AboveReached(m, c);
    ChainTailIsAbove(m, p);
    ArgumentsStayFirst(pm, p, above, own);
    forall d | RunClassItems(d) in above ensures Ancestor(pm, c, d) {
      ReachedIsAncestor(pm, c, p, d);
    }
    ItemsStayOrdered(pm, c, p, above, own);
    AboveAssignsInherited(m, c);
    forall k | 0 <= k < |own| - 1
      ensures own[k].AssignTraitValue? && InheritsValue(m, c, own[k].owner, own[k].name)
      ensures forall d :: RunClassItems(d) in above ==> !InheritsValue(m, d, own[k].owner, own[k].name)
    {
      OwnValuesInherited(m, c, k);
    }
    ItemsStayInPlace(m, c, p, above, own);
    ChainGrows(m, c, above, own);
  }

  lemma ChainGrows(m: Program, c: Name, above: seq<InitStep>, own: seq<InitStep>)
    requires Accepted(m) && c in m && Superclass(m, c).Some? && Superclass(m, c).value in m
    requires RunsInOrder(m, Superclass(m, c).value, above)
    requires |own| > 0 && own[|own| - 1] == RunClassItems(c)
    requires forall k {:trigger own[k]} :: 0 <= k < |own| - 1 ==> own[k].AssignTraitValue?
    ensures var all, chain := [AssignParentArguments(Superclass(m, c).value)] + above + own, SuperclassChain(m, c);
            && (forall d :: RunClassItems(d) in all <==> d in chain)
            && (forall d :: AssignParentArguments(d) in all <==> d in chain[1..])
  {
    var p := Superclass(m, c).value;
    var all, chain, up := [AssignParentArguments(p)] + above + own, SuperclassChain(m, c), SuperclassChain(m, p);
    assert chain == [c] + up && up == [p] + up[1..];
    OwnStepsHold(c, own);
    forall d ensures RunClassItems(d) in all <==> d in chain {
      assert RunClassItems(d) in all <==> RunClassItems(d) in above || RunClassItems(d) in own;
    }
    forall d ensures AssignParentArguments(d) in all <==> d in chain[1..] {
      assert AssignParentArguments(d) in all <==> d == p || AssignParentArguments(d) in above;
    }
  }

  lemma OwnStepsHold(c: Name, own: seq<InitStep>)
    requires |own| > 0 && own[|own| - 1] == RunClassItems(c)
    requires forall k {:trigger own[k]} :: 0 <= k < |own| - 1 ==> own[k].AssignTraitValue?
    ensures forall d :: RunClassItems(d) in own <==> d == c
    ensures forall d :: AssignParentArguments(d) !in own
  {
  }

  /** Main result: arguments first, then class by class from the top, each with its trait values before its items. */
  lemma {:induction false} ConstructorRunsInOrder(m: Program, c: Name)
    requires Accepted(m) && c in m && m[c].kind.Class?
    ensures RunsInOrder(m, c, ConstructorSteps(m, c))
    decreases Above(ParentMapOf(m), c)
  {
    if Superclass(m, c).Some? {
      SuperclassIsParent(m, c);
      ConstructorRunsInOrder(m, Superclass(m, c).value);
      RunsOneMore(m, c);
    } else {
      FirstClassRuns(m, c);
    }
  }

  lemma FirstClassRuns(m: Program, c: Name)
    requires Accepted(m) && c in m && m[c].kind.Class? && Superclass(m, c).None?
    ensures RunsInOrder(m, c, ConstructorSteps(m, c))
  {
    var own := OwnSteps(m, c);
    ConstructorUnfolds(m, c);
    OwnStepsAre(m, c);
    assert SuperclassChain(m, c) == [c];
    forall k | 0 <= k < |own| - 1 ensures InheritsValue(m, c, own[k].owner, own[k].name) {
      OwnValuesInherited(m, c, k);
    }
  }
}
