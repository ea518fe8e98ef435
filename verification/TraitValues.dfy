/** Which class of a superclass chain stores each initialized trait value, as nscplugin/src/NirEmitter.cpp
    decides it. */
module TraitValues {
  import opened Basics
  import opened ParentGraph
  import opened Linearization
  import opened QualifiedNames

  datatype MemberKind = Def | Val | Var | TypeAlias
  datatype Member = Member(kind: MemberKind, name: Name, hasInitializer: bool, isPolymorphicFunctionValue: bool)

  datatype DeclarationKind = Class | Trait | Object
  datatype Declaration = Declaration(kind: DeclarationKind, parents: seq<Name>, parameters: seq<Name>,
                                     members: seq<Member>)

  type Program = map<Name, Declaration>

  datatype TraitValue = TraitValue(owner: Name, member: Member, effective: bool)

  function ParentMapOf(m: Program): ParentMap {
    map name | name in m :: m[name].parents
  }

  predicate IsTermMember(member: Member) {
    member.kind.Def? || member.kind.Val? || member.kind.Var?
  }

  /** A value that needs storage and an assignment in some constructor. */
  predicate IsInitializedValue(member: Member) {
    (member.kind.Val? || member.kind.Var?) && member.hasInitializer && !member.isPolymorphicFunctionValue
  }

  function DeclaredMemberNames(d: Declaration): set<Name> {
    (if d.kind.Class? then set p | p in d.parameters && p != "" else {})
    + set member | member in d.members && IsTermMember(member) :: member.name
  }

  // ---------------------------------------------------------------------------------------------
  // The selection as a function of the linearized owners.

  /** Names declared anywhere in the listed types. */
  function NamesIn(m: Program, types: seq<Name>): set<Name> {
    if types == [] then {}
    else (if types[0] in m then DeclaredMemberNames(m[types[0]]) else {}) + NamesIn(m, types[1..])
  }

  function ValueKeys(owner: Name, members: seq<Member>): set<Name> {
    set member | member in members && IsInitializedValue(member) :: Qualify(owner, member.name)
  }

  /** Keys of the initialized values of the listed traits. */
  function KeysIn(m: Program, types: seq<Name>): set<Name> {
    if types == [] then {}
    else (if types[0] in m && m[types[0]].kind.Trait? then ValueKeys(types[0], m[types[0]].members) else {})
         + KeysIn(m, types[1..])
  }

  /** The values one trait contributes, given the names resolved and the keys inherited so far. */
  function ValuesOfTrait(owner: Name, members: seq<Member>, resolved: set<Name>,
                         inherited: set<Name>): seq<TraitValue> {
    if members == [] then []
    else if !IsTermMember(members[0]) then ValuesOfTrait(owner, members[1..], resolved, inherited)
    else
      var rest := ValuesOfTrait(owner, members[1..], resolved + {members[0].name}, inherited);
      if IsInitializedValue(members[0]) && Qualify(owner, members[0].name) !in inherited then
        [TraitValue(owner, members[0], members[0].name !in resolved)] + rest
      else rest
  }

  function TermNames(members: seq<Member>): set<Name> {
    set member | member in members && IsTermMember(member) :: member.name
  }

  function ValuesOfOwners(m: Program, owners: seq<Name>, resolved: set<Name>, inherited: set<Name>): seq<TraitValue> {
    if owners == [] then []
    else if owners[0] !in m || m[owners[0]].kind.Object? then ValuesOfOwners(m, owners[1..], resolved, inherited)
    else if m[owners[0]].kind.Class? then
      var types := LinearizedTypeNames(ParentMapOf(m), owners[0]);
      ValuesOfOwners(m, owners[1..], resolved + NamesIn(m, types), inherited + KeysIn(m, types))
    else
      ValuesOfTrait(owners[0], m[owners[0]].members, resolved, inherited)
      + ValuesOfOwners(m, owners[1..], resolved + TermNames(m[owners[0]].members), inherited)
  }

  function MaterializedTraitValues(m: Program, c: Name): seq<TraitValue>
    requires c in m
  {
    if !m[c].kind.Class? then []
    else ValuesOfOwners(m, LinearizedParents(ParentMapOf(m), m[c].parents), DeclaredMemberNames(m[c]), {})
  }

  // ---------------------------------------------------------------------------------------------
  // The selection as the emitter runs it.

  method AddInheritedClass(m: Program, types: seq<Name>, resolvedBefore: set<Name>, inheritedBefore: set<Name>)
    returns (resolved: set<Name>, inherited: set<Name>)
    ensures resolved == resolvedBefore + NamesIn(m, types)
    ensures inherited == inheritedBefore + KeysIn(m, types)
  {
    resolved, inherited := resolvedBefore, inheritedBefore;
    var i := 0;
    while i < |types|
      invariant 0 <= i <= |types|
      invariant resolved + NamesIn(m, types[i..]) == resolvedBefore + NamesIn(m, types)
      invariant inherited + KeysIn(m, types[i..]) == inheritedBefore + KeysIn(m, types)
    {
      if types[i] in m {
        resolved := resolved + DeclaredMemberNames(m[types[i]]);
        if m[types[i]].kind.Trait? {
          inherited := inherited + ValueKeys(types[i], m[types[i]].members);
        }
      }
      assert types[i..][1..] == types[i + 1..];
      i := i + 1;
    }
  }

  method AddTrait(owner: Name, members: seq<Member>, resolvedBefore: set<Name>, inherited: set<Name>,
                  before: seq<TraitValue>)
    returns (values: seq<TraitValue>, resolved: set<Name>)
    ensures values == before + ValuesOfTrait(owner, members, resolvedBefore, inherited)
    ensures resolved == resolvedBefore + TermNames(members)
  {
    values, resolved := before, resolvedBefore;
    var i := 0;
    while i < |members|
      invariant 0 <= i <= |members|
      invariant values + ValuesOfTrait(owner, members[i..], resolved, inherited) ==
                before + ValuesOfTrait(owner, members, resolvedBefore, inherited)
      invariant resolved == resolvedBefore + TermNames(members[..i])
    {
      var member := members[i];
      if IsTermMember(member) {
        var effective := member.name !in resolved;
        resolved := resolved + {member.name};
        if IsInitializedValue(member) && Qualify(owner, member.name) !in inherited {
          values := values + [TraitValue(owner, member, effective)];
        }
      }
      assert members[i..][1..] == members[i + 1..];
      assert members[..i + 1] == members[..i] + [member];
      i := i + 1;
    }
    assert members[..i] == members;
  }

  method MaterializedTraitValuesForClass(m: Program, c: Name) returns (values: seq<TraitValue>)
    requires c in m
    ensures values == MaterializedTraitValues(m, c)
  {
    values := [];
    if !m[c].kind.Class? {
      return;
    }
    var resolved, inherited := DeclaredMemberNames(m[c]), {};
    var owners := LinearizedParents(ParentMapOf(m), m[c].parents);
    var i := 0;
    while i < |owners|
      invariant 0 <= i <= |owners|
      invariant values + ValuesOfOwners(m, owners[i..], resolved, inherited) ==
                ValuesOfOwners(m, owners, DeclaredMemberNames(m[c]), {})
    {
      var owner := owners[i];
      assert owners[i..][1..] == owners[i + 1..];
      if owner in m && m[owner].kind.Class? {
        resolved, inherited := AddInheritedClass(m, LinearizedTypeNames(ParentMapOf(m), owner), resolved, inherited);
      } else if owner in m && m[owner].kind.Trait? {
        values, resolved := AddTrait(owner, m[owner].members, resolved, inherited, values);
      }
      i := i + 1;
    }
  }
}
