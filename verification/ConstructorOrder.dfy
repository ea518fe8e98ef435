/** The trait-value assignments of a generated constructor (nscplugin/src/NirEmitter.cpp). */
module ConstructorOrder {
  import opened Basics
  import opened Sequences
  import opened ParentGraph
  import opened Linearization
  import opened TraitValues
  import opened TraitInitialization

  datatype InitStep =
    | AssignParentArguments(cls: Name)
    | AssignTraitValue(owner: Name, name: Name)
    | RunClassItems(cls: Name)

  /** The values of one class, last one first. */
  function TraitAssignments(values: seq<TraitValue>): seq<InitStep> {
    if values == [] then []
    else TraitAssignments(values[1..]) + [AssignTraitValue(values[0].owner, values[0].member.name)]
  }

  /** What runs for the superclass chain: the topmost class first. */
  function ParentInitialization(m: Program, c: Name): seq<InitStep>
    requires Accepted(m) && c in m
    decreases Above(ParentMapOf(m), c)
  {
    if Superclass(m, c).None? then []
    else
      var p := Superclass(m, c).value;
      SuperclassIsParent(m, c);
      [AssignParentArguments(p)] + ParentInitialization(m, p)
      + TraitAssignments(MaterializedTraitValues(m, p)) + [RunClassItems(p)]
  }

  function ConstructorSteps(m: Program, c: Name): seq<InitStep>
    requires Accepted(m) && c in m
  {
    ParentInitialization(m, c) + TraitAssignments(MaterializedTraitValues(m, c)) + [RunClassItems(c)]
  }

  // ---------------------------------------------------------------------------------------------
  // The emitter's recursion.

  method AppendMaterializedTraitInitializerItems(m: Program, c: Name, before: seq<InitStep>)
    returns (body: seq<InitStep>)
    requires c in m
    ensures body == before + TraitAssignments(MaterializedTraitValues(m, c))
  {
    body := before;
    var values := MaterializedTraitValuesForClass(m, c);
    var i := |values|;
    while i > 0
      invariant 0 <= i <= |values|
      invariant body == before + TraitAssignments(values[i..])
    {
      i := i - 1;
      assert values[i..][1..] == values[i + 1..];
      body := body + [AssignTraitValue(values[i].owner, values[i].member.name)];
    }
    assert values[0..] == values;
  }

  method AppendParentInitialization(m: Program, c: Name, before: seq<InitStep>) returns (body: seq<InitStep>)
    requires Accepted(m) && c in m
    ensures body == before + ParentInitialization(m, c)
    decreases Above(ParentMapOf(m), c)
  {
    body := before;
    if Superclass(m, c).None? {
      return;
    }
    var p := Superclass(m, c).value;
    SuperclassIsParent(m, c);
    body := body + [AssignParentArguments(p)];
    body := AppendParentInitialization(m, p, body);
    body := AppendMaterializedTraitInitializerItems(m, p, body);
    body := body + [RunClassItems(p)];
    ConcatAssociates(before, [AssignParentArguments(p)], ParentInitialization(m, p),
                     TraitAssignments(MaterializedTraitValues(m, p)), [RunClassItems(p)]);
  }

  lemma ConcatAssociates(a: seq<InitStep>, b: seq<InitStep>, c: seq<InitStep>, d: seq<InitStep>, e: seq<InitStep>)
    ensures a + b + c + d + e == a + (b + c + d + e)
  {
  }

  method ConstructorBodyFor(m: Program, c: Name) returns (body: seq<InitStep>)
    requires Accepted(m) && c in m
    ensures body == ConstructorSteps(m, c)
  {
    body := AppendParentInitialization(m, c, []);
    assert [] + ParentInitialization(m, c) == ParentInitialization(m, c);
    body := AppendMaterializedTraitInitializerItems(m, c, body);
    body := body + [RunClassItems(c)];
  }

  // ---------------------------------------------------------------------------------------------
  // The assignments of one class.

  /** The trait values a constructor assigns, in order, as owner and name. */
  function Assigned(steps: seq<InitStep>): seq<(Name, Name)> {
    if steps == [] then []
    else (if steps[0].AssignTraitValue? then [(steps[0].owner, steps[0].name)] else []) + Assigned(steps[1..])
  }

  lemma {:induction false} AssignedConcat(a: seq<InitStep>, b: seq<InitStep>)
    ensures Assigned(a + b) == Assigned(a) + Assigned(b)
    decreases |a|
  {
    if a == [] {
      assert a + b == b;
    } else {
      AssignedConcat(a[1..], b);
      assert (a + b)[1..] == a[1..] + b;
    }
  }

  lemma {:induction false} AssignedTraitAssignments(values: seq<TraitValue>)
    ensures var r := Assigned(TraitAssignments(values));
      && |r| == |values|
      && forall i :: 0 <= i < |r| ==> r[i] == (values[|values| - 1 - i].owner, values[|values| - 1 - i].member.name)
    decreases |values|
  {
    if values == [] {
    } else {
      AssignedTraitAssignments(values[1..]);
      var step := AssignTraitValue(values[0].owner, values[0].member.name);
      AssignedConcat(TraitAssignments(values[1..]), [step]);
      assert Assigned([step]) == [(step.owner, step.name)];
    }
  }

  /** Values of one owner keep different names; values of different owners follow the owners' order. */
  ghost predicate ValuesOrdered(owners: seq<Name>, values: seq<TraitValue>) {
    forall i, j {:trigger values[i], values[j]} :: 0 <= i < j < |values| ==>
      if values[i].owner == values[j].owner then values[i].member.name != values[j].member.name
      else Before(owners, values[i].owner, values[j].owner)
  }

  lemma {:induction false} ValuesOfTraitOrdered(owner: Name, members: seq<Member>, resolved: set<Name>,
                                                inherited: set<Name>)
    requires forall i, j :: 0 <= i < j < |members| ==> !SameValueName(members[i], members[j])
    ensures var values := ValuesOfTrait(owner, members, resolved, inherited);
      && ValuesOrdered([owner], values)
      && forall i {:trigger values[i]} :: 0 <= i < |values| ==>
           values[i].owner == owner && values[i].member in members && IsInitializedValue(values[i].member)
    decreases |members|
  {
    if members == [] {
    } else {
      var grown := if IsTermMember(members[0]) then resolved + {members[0].name} else resolved;
      var rest := ValuesOfTrait(owner, members[1..], grown, inherited);
      ValuesOfTraitOrdered(owner, members[1..], grown, inherited);
      forall i | 0 <= i < |rest|
        ensures !SameValueName(members[0], rest[i].member)
      {
        assert rest[i].member in members[1..];
        var k :| 0 <= k < |members[1..]| && members[1..][k] == rest[i].member;
        assert members[k + 1] == rest[i].member;
      }
    }
  }

  lemma BeforeFirst(o: Name, rest: seq<Name>, y: Name)
    requires y in rest
    ensures Before([o] + rest, o, y)
  {
    BeforeConsCases(o, rest, o, y);
  }

  lemma ValuesOrderedWeaken(o: Name, owners: seq<Name>, values: seq<TraitValue>)
    requires ValuesOrdered(owners, values)
    ensures ValuesOrdered([o] + owners, values)
  {
    forall i, j | 0 <= i < j < |values| && values[i].owner != values[j].owner
      ensures Before([o] + owners, values[i].owner, values[j].owner)
    {
      assert Before(owners, values[i].owner, values[j].owner);
      assert ([o] + owners)[1..] == owners;
      BeforeShift([o] + owners, values[i].owner, values[j].owner);
    }
  }

  lemma ValuesOrderedJoin(o: Name, rest: seq<Name>, own: seq<TraitValue>, others: seq<TraitValue>)
    requires o !in rest && ValuesOrdered([o], own) && forall i {:trigger own[i]} :: 0 <= i < |own| ==> own[i].owner == o
    requires ValuesOrdered(rest, others) && AllFrom(rest, others)
    ensures ValuesOrdered([o] + rest, own + others)
  {
    ValuesOrderedWeaken(o, rest, others);
    var values := own + others;
    forall i, j | 0 <= i < j < |values|
      ensures if values[i].owner == values[j].owner then values[i].member.name != values[j].member.name
              else Before([o] + rest, values[i].owner, values[j].owner)
    {
      if j < |own| {
        assert values[i] == own[i] && values[j] == own[j];
      } else if i < |own| {
        assert values[i] == own[i] && values[j] == others[j - |own|];
        BeforeFirst(o, rest, values[j].owner);
      } else {
        assert values[i] == others[i - |own|] && values[j] == others[j - |own|];
      }
    }
  }

  lemma {:induction false} ValuesOfOwnersOrdered(m: Program, owners: seq<Name>, resolved: set<Name>,
                                                 inherited: set<Name>)
    requires Accepted(m) && NoDuplicates(owners)
    ensures ValuesOrdered(owners, ValuesOfOwners(m, owners, resolved, inherited))
    decreases |owners|
  {
    if owners == [] {
    } else {
      var o, rest := owners[0], owners[1..];
      assert [o] + rest == owners;
      assert o !in rest;
      if o !in m || m[o].kind.Object? {
        ValuesOfOwnersOrdered(m, rest, resolved, inherited);
        ValuesOrderedWeaken(o, rest, ValuesOfOwners(m, rest, resolved, inherited));
      } else if m[o].kind.Class? {
        var types := LinearizedTypeNames(ParentMapOf(m), o);
        ValuesOfOwnersOrdered(m, rest, resolved + NamesIn(m, types), inherited + KeysIn(m, types));
        ValuesOrderedWeaken(o, rest,
                            ValuesOfOwners(m, rest, resolved + NamesIn(m, types), inherited + KeysIn(m, types)));
      } else {
        var names := TermNames(m[o].members);
        assert ValueNamesAccepted(m, o);
        ValuesOfTraitOrdered(o, m[o].members, resolved, inherited);
        ValuesOfOwnersOrdered(m, rest, resolved + names, inherited);
        ValuesOfOwnersListed(m, rest, resolved + names, inherited);
        ValuesOrderedJoin(o, rest, ValuesOfTrait(o, m[o].members, resolved, inherited),
                          ValuesOfOwners(m, rest, resolved + names, inherited));
      }
    }
  }

  ghost predicate InheritsValue(m: Program, c: Name, t: Name, n: Name) {
    && Ancestor(ParentMapOf(m), c, t)
    && exists member {:trigger TraitHas(m, t, member)} :: TraitHas(m, t, member) && member.name == n
  }

  /** No earlier assignment belongs to a trait that extends the owner of a later one. */
  ghost predicate SupertraitsFirst(pm: ParentMap, a: seq<(Name, Name)>) {
    forall i, j {:trigger a[i], a[j]} :: 0 <= i < j < |a| ==> !Ancestor(pm, a[i].0, a[j].0)
  }

  function OwnAssignments(m: Program, c: Name): seq<(Name, Name)>
    requires c in m
  {
    Assigned(TraitAssignments(MaterializedTraitValues(m, c)))
  }

  lemma OwnAssignmentsMembers(m: Program, c: Name, t: Name, n: Name)
    requires Accepted(m) && c in m && m[c].kind.Class?
    ensures (t, n) in OwnAssignments(m, c) <==> InheritsValue(m, c, t, n) && !SuperclassReaches(m, c, t)
  {
    var values := MaterializedTraitValues(m, c);
    var r := OwnAssignments(m, c);
    AssignedTraitAssignments(values);
    if (t, n) in r {
      var i :| 0 <= i < |r| && r[i] == (t, n);
      var v := values[|values| - 1 - i];
      assert HasValue(values, t, v.member);
      MaterializedIff(m, c, t, v.member);
    }
    if InheritsValue(m, c, t, n) && !SuperclassReaches(m, c, t) {
      var member :| TraitHas(m, t, member) && member.name == n;
      MaterializedIff(m, c, t, member);
      var i :| 0 <= i < |values| && values[i].owner == t && values[i].member == member;
      assert r[|values| - 1 - i] == (t, n);
    }
  }

  lemma OwnAssignmentsOrder(m: Program, c: Name)
    requires Accepted(m) && c in m && m[c].kind.Class?
    ensures NoDuplicates(OwnAssignments(m, c)) && SupertraitsFirst(ParentMapOf(m), OwnAssignments(m, c))
  {
    var pm := ParentMapOf(m);
    var owners := LinearizedParents(pm, m[c].parents);
    var values := MaterializedTraitValues(m, c);
    var r := OwnAssignments(m, c);
    OwnersOrder(m, c);
    ValuesOfOwnersOrdered(m, owners, DeclaredMemberNames(m[c]), {});
    ValuesOfOwnersListed(m, owners, DeclaredMemberNames(m[c]), {});
    AssignedTraitAssignments(values);
    forall i, j | 0 <= i < j < |r|
      ensures r[i] != r[j] && !Ancestor(pm, r[i].0, r[j].0)
    {
      OwnersKeepSupertraitsApart(m, c, values[|values| - 1 - j].owner, values[|values| - 1 - i].owner);
    }
  }

  lemma OwnersKeepSupertraitsApart(m: Program, c: Name, earlier: Name, later: Name)
    requires Accepted(m) && c in m
    requires Ancestor(ParentMapOf(m), c, later)
    requires earlier == later || Before(LinearizedParents(ParentMapOf(m), m[c].parents), earlier, later)
    ensures !Ancestor(ParentMapOf(m), later, earlier)
  {
    var pm := ParentMapOf(m);
    OwnersOrder(m, c);
    assert Acyclic(pm, c);
    ReachesCases(pm, c, later);
    if Ancestor(pm, later, earlier) && earlier != later {
      BeforeAsymmetric(LinearizedParents(pm, m[c].parents), earlier, later);
    }
  }

  lemma AssignedBetween(parents: seq<InitStep>, own: seq<InitStep>, last: InitStep)
    requires !last.AssignTraitValue?
    ensures Assigned(parents + own + [last]) == Assigned(parents) + Assigned(own)
  {
    AssignedConcat(parents + own, [last]);
    AssignedConcat(parents, own);
    assert Assigned([last]) == [];
  }

  lemma AssignedUnfold(m: Program, c: Name)
    requires Accepted(m) && c in m
    ensures Assigned(ConstructorSteps(m, c)) == Assigned(ParentInitialization(m, c)) + OwnAssignments(m, c)
  {
    AssignedBetween(ParentInitialization(m, c), TraitAssignments(MaterializedTraitValues(m, c)), RunClassItems(c));
  }

  lemma AssignedAbove(m: Program, c: Name)
    requires Accepted(m) && c in m && Superclass(m, c).Some? && Superclass(m, c).value in m
    ensures Assigned(ParentInitialization(m, c)) == Assigned(ConstructorSteps(m, Superclass(m, c).value))
  {
    var p := Superclass(m, c).value;
    ParentStepsAreConstructor(m, c);
    AssignedConcat([AssignParentArguments(p)], ConstructorSteps(m, p));
    assert Assigned([AssignParentArguments(p)]) == [];
  }

  /** A class runs its superclass's whole constructor after passing the arguments. */
  lemma ParentStepsAreConstructor(m: Program, c: Name)
    requires Accepted(m) && c in m && Superclass(m, c).Some? && Superclass(m, c).value in m
    ensures ParentInitialization(m, c) ==
            [AssignParentArguments(Superclass(m, c).value)] + ConstructorSteps(m, Superclass(m, c).value)
  {
    var p := Superclass(m, c).value;
    ConcatRegroups([AssignParentArguments(p)], ParentInitialization(m, p),
                   TraitAssignments(MaterializedTraitValues(m, p)), [RunClassItems(p)]);
  }

  lemma ConcatRegroups(a: seq<InitStep>, b: seq<InitStep>, c: seq<InitStep>, d: seq<InitStep>)
    ensures a + b + c + d == a + (b + c + d)
  {
  }

  /** The list holds every initialized value of every trait above c exactly once, supertraits first. */
  ghost predicate AssignsAll(m: Program, c: Name, a: seq<(Name, Name)>) {
    && (forall t, n {:trigger InheritsValue(m, c, t, n)} {:trigger (t, n) in a} ::
          (t, n) in a <==> InheritsValue(m, c, t, n))
    && NoDuplicates(a)
    && SupertraitsFirst(ParentMapOf(m), a)
  }

  lemma AssignsAllExtends(m: Program, c: Name, above: seq<(Name, Name)>)
    requires Accepted(m) && c in m && m[c].kind.Class? && Superclass(m, c).Some?
    requires AssignsAll(m, Superclass(m, c).value, above)
    ensures AssignsAll(m, c, above + OwnAssignments(m, c))
  {
    var own := OwnAssignments(m, c);
    OwnAssignmentsOrder(m, c);
    forall t, n
      ensures (t, n) in above <==> InheritsValue(m, c, t, n) && SuperclassReaches(m, c, t)
      ensures (t, n) in own <==> InheritsValue(m, c, t, n) && !SuperclassReaches(m, c, t)
    {
      SuperclassValues(m, c, t, n);
      OwnAssignmentsMembers(m, c, t, n);
    }
    AssignmentsJoin(ParentMapOf(m), Superclass(m, c).value, above, own);
  }

  /** The constructor of a class assigns every initialized value of every trait above it exactly once, and all
      values of a supertrait before any value of a trait that extends it. */
  lemma {:induction false} ConstructorAssignsTraitValues(m: Program, c: Name)
    requires Accepted(m) && c in m && m[c].kind.Class?
    ensures AssignsAll(m, c, Assigned(ConstructorSteps(m, c)))
    decreases Above(ParentMapOf(m), c)
  {
    AssignedUnfold(m, c);
    if Superclass(m, c).Some? {
      var p := Superclass(m, c).value;
      SuperclassIsParent(m, c);
      AssignedAbove(m, c);
      ConstructorAssignsTraitValues(m, p);
      AssignsAllExtends(m, c, Assigned(ConstructorSteps(m, p)));
    } else {
      OwnAssignmentsOrder(m, c);
      forall t, n
        ensures (t, n) in OwnAssignments(m, c) <==> InheritsValue(m, c, t, n)
      {
        OwnAssignmentsMembers(m, c, t, n);
      }
      assert Assigned(ParentInitialization(m, c)) == [];
    }
  }

  lemma SuperclassValues(m: Program, c: Name, t: Name, n: Name)
    requires Accepted(m) && c in m && m[c].kind.Class? && Superclass(m, c).Some?
    ensures InheritsValue(m, Superclass(m, c).value, t, n) <==> InheritsValue(m, c, t, n) && SuperclassReaches(m, c, t)
  {
    var pm, p := ParentMapOf(m), Superclass(m, c).value;
    SuperclassIsParent(m, c);
    ReachesCases(pm, p, t);
    if Ancestor(pm, p, t) {
      ReachesStep(pm, c, p, t);
      assert Ancestor(pm, c, t);
    }
    if InheritsValue(m, c, t, n) && Reaches(pm, p, t) {
      assert m[t].kind.Trait? && m[p].kind.Class?;
    }
  }

  /** Appending the own values keeps the order: a supertrait of anything above is itself above. */
  lemma AssignmentsJoin(pm: ParentMap, p: Name, above: seq<(Name, Name)>, own: seq<(Name, Name)>)
    requires NoDuplicates(above) && NoDuplicates(own) && SupertraitsFirst(pm, above) && SupertraitsFirst(pm, own)
    requires forall t, n :: (t, n) in above ==> Reaches(pm, p, t)
    requires forall t, n :: (t, n) in own ==> !Reaches(pm, p, t)
    ensures NoDuplicates(above + own) && SupertraitsFirst(pm, above + own)
  {
    var all := above + own;
    forall i, j | 0 <= i < j < |all|
      ensures all[i] != all[j] && !Ancestor(pm, all[i].0, all[j].0)
    {
      if j < |above| {
        assert all[i] == above[i] && all[j] == above[j];
      } else if i < |above| {
        assert (above[i].0, above[i].1) in above && (own[j - |above|].0, own[j - |above|].1) in own;
        if Ancestor(pm, all[i].0, all[j].0) {
          ReachesCases(pm, all[i].0, all[j].0);
          ReachesTransitive(pm, p, all[i].0, all[j].0);
        }
      } else {
        assert all[i] == own[i - |above|] && all[j] == own[j - |above|];
      }
    }
  }
}
