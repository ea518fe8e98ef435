/** Which of the stored trait values gets the accessor of its name. */
module EffectiveValues {
  import opened Basics
  import opened Sequences
  import opened Linearization
  import opened TraitValues
  import opened TraitInitialization

  /** The names a type of the linearization takes: a trait its own, a class all that it has or inherits. */
  function Provided(m: Program, x: Name): set<Name> {
    if x !in m || m[x].kind.Object? then {}
    else if m[x].kind.Class? then NamesIn(m, LinearizedTypeNames(ParentMapOf(m), x))
    else TermNames(m[x].members)
  }

  /** The names taken when the selection reaches an owner. */
  function ResolvedAt(m: Program, owners: seq<Name>, resolved: set<Name>, o: Name): set<Name> {
    if owners == [] || owners[0] == o then resolved
    else ResolvedAt(m, owners[1..], resolved + Provided(m, owners[0]), o)
  }

  lemma {:induction false} ResolvedAtIff(m: Program, owners: seq<Name>, resolved: set<Name>, o: Name, name: Name)
    requires NoDuplicates(owners) && o in owners
    ensures name in ResolvedAt(m, owners, resolved, o) <==>
            name in resolved || exists x :: Before(owners, x, o) && name in Provided(m, x)
    decreases |owners|
  {
    var first, rest := owners[0], owners[1..];
    assert owners == [first] + rest;
    if first == o {
      NothingBeforeFirst(owners);
    } else {
      ResolvedAtIff(m, rest, resolved + Provided(m, first), o, name);
      forall x ensures Before(owners, x, o) <==> x == first || Before(rest, x, o) {
        if Before(owners, x, o) && x != first {
          BeforeInTail(owners, x, o);
        }
        if x == first || Before(rest, x, o) {
          BeforeConsCases(first, rest, x, o);
        }
      }
    }
  }

  ghost predicate DistinctValues(members: seq<Member>) {
    forall i, j :: 0 <= i < j < |members| ==> !SameValueName(members[i], members[j])
  }

  /** No term member before it has its name. */
  ghost predicate FirstNamed(members: seq<Member>, member: Member) {
    forall i, j {:trigger members[i], members[j]} ::
      0 <= i < j < |members| && members[j] == member && IsTermMember(members[i]) ==> members[i].name != member.name
  }

  lemma FirstNamedTail(members: seq<Member>, member: Member)
    requires members != [] && member in members[1..] && IsInitializedValue(member) && DistinctValues(members)
    ensures FirstNamed(members, member) <==>
            FirstNamed(members[1..], member) && (IsTermMember(members[0]) ==> members[0].name != member.name)
  {
    var rest := members[1..];
    var k :| 0 <= k < |rest| && rest[k] == member;
    assert members[k + 1] == member;
    if FirstNamed(members, member) {
      forall i, j | 0 <= i < j < |rest| && rest[j] == member && IsTermMember(rest[i])
        ensures rest[i].name != member.name
      {
        assert members[i + 1] == rest[i] && members[j + 1] == rest[j];
      }
    }
    if FirstNamed(rest, member) && (IsTermMember(members[0]) ==> members[0].name != member.name) {
      forall i, j | 0 <= i < j < |members| && members[j] == member && IsTermMember(members[i])
        ensures members[i].name != member.name
      {
        if i > 0 {
          assert members[i] == rest[i - 1] && members[j] == rest[j - 1];
        }
      }
    }
  }

  ghost predicate FreeInTrait(owner: Name, members: seq<Member>, resolved: set<Name>, v: TraitValue) {
    && v.owner == owner && v.member in members && IsInitializedValue(v.member)
    && (v.effective <==> v.member.name !in resolved && FirstNamed(members, v.member))
  }

  lemma {:induction false} TraitEffectiveIff(owner: Name, members: seq<Member>, resolved: set<Name>,
                                             inherited: set<Name>, v: TraitValue)
    requires DistinctValues(members) && v in ValuesOfTrait(owner, members, resolved, inherited)
    ensures FreeInTrait(owner, members, resolved, v)
    decreases |members|
  {
    var first, rest := members[0], members[1..];
    var grown := if IsTermMember(first) then resolved + {first.name} else resolved;
    assert members == [first] + rest;
    if v in ValuesOfTrait(owner, rest, grown, inherited) {
      TraitEffectiveIff(owner, rest, grown, inherited, v);
      FirstNamedTail(members, v.member);
    } else {
      assert v == TraitValue(owner, first, first.name !in resolved);
      assert forall j :: 0 < j < |members| ==> !SameValueName(members[0], members[j]);
    }
  }

  ghost predicate FreeInOwners(m: Program, owners: seq<Name>, resolved: set<Name>, v: TraitValue) {
    && v.owner in owners && v.owner in m && v.member in m[v.owner].members
    && (v.effective <==>
        v.member.name !in ResolvedAt(m, owners, resolved, v.owner) && FirstNamed(m[v.owner].members, v.member))
  }

  lemma {:induction false} OwnersEffectiveIff(m: Program, owners: seq<Name>, resolved: set<Name>, inherited: set<Name>,
                                              v: TraitValue)
    requires Accepted(m) && NoDuplicates(owners) && v in ValuesOfOwners(m, owners, resolved, inherited)
    ensures FreeInOwners(m, owners, resolved, v)
    decreases |owners|
  {
    var o, rest := owners[0], owners[1..];
    assert owners == [o] + rest;
    var grown := resolved + Provided(m, o);
    if o !in m || m[o].kind.Object? {
      assert grown == resolved;
      OwnersEffectiveIff(m, rest, grown, inherited, v);
    } else if m[o].kind.Class? {
      OwnersEffectiveIff(m, rest, grown, inherited + KeysIn(m, LinearizedTypeNames(ParentMapOf(m), o)), v);
    } else if v in ValuesOfTrait(o, m[o].members, resolved, inherited) {
      assert ValueNamesAccepted(m, o);
      TraitEffectiveIff(o, m[o].members, resolved, inherited, v);
    } else {
      OwnersEffectiveIff(m, rest, grown, inherited, v);
    }
  }

  /** A stored value gets the accessor of its name exactly if the class does not declare the name, no type before its
      trait provides it, and no member before it in the trait has it. */
  lemma EffectiveValueIsSelected(m: Program, c: Name, i: nat)
    requires Accepted(m) && c in m && m[c].kind.Class? && i < |MaterializedTraitValues(m, c)|
    ensures var v := MaterializedTraitValues(m, c)[i];
            v.owner in m &&
            (v.effective <==>
             && v.member.name !in DeclaredMemberNames(m[c]) && FirstNamed(m[v.owner].members, v.member)
             && forall x :: Before(LinearizedParents(ParentMapOf(m), m[c].parents), x, v.owner) ==>
                  v.member.name !in Provided(m, x))
  {
    var v := MaterializedTraitValues(m, c)[i];
    var owners := LinearizedParents(ParentMapOf(m), m[c].parents);
    OwnersOrder(m, c);
    OwnersEffectiveIff(m, owners, DeclaredMemberNames(m[c]), {}, v);
    ResolvedAtIff(m, owners, DeclaredMemberNames(m[c]), v.owner, v.member.name);
  }

  /** In particular no type before the trait declares the name. */
  lemma DeclaredIsProvided(m: Program, x: Name, name: Name)
    requires Accepted(m) && Declares(m, x, name)
    ensures name in Provided(m, x)
  {
    if m[x].kind.Class? {
      NamesInFirst(m, LinearizedTypeNames(ParentMapOf(m), x));
    }
  }
}
