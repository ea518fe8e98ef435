/** Constructors assign every initialized trait value once, supertraits first (nscplugin/src/NirEmitter.cpp). */
module TraitInitialization {
  import opened Basics
  import opened Sequences
  import opened ParentGraph
  import opened Linearization
  import opened QualifiedNames
  import opened TraitValues

  // ---------------------------------------------------------------------------------------------
  // Hierarchies the verifier accepts.

  /** Parents keep the verifier's kind rules: no objects, only traits above a trait, a class only in first position. */
  ghost predicate ParentKindsAccepted(m: Program, c: Name) {
    c in m ==> forall i {:trigger m[c].parents[i]} :: 0 <= i < |m[c].parents| && m[c].parents[i] in m ==>
      && !m[m[c].parents[i]].kind.Object?
      && (m[c].kind.Trait? ==> m[m[c].parents[i]].kind.Trait?)
      && (m[m[c].parents[i]].kind.Class? ==> i == 0)
  }

  predicate SameValueName(a: Member, b: Member) {
    IsInitializedValue(a) && IsInitializedValue(b) && a.name == b.name
  }

  /** Value names are plain identifiers and a type declares each initialized value once. */
  ghost predicate ValueNamesAccepted(m: Program, c: Name) {
    c in m ==>
      && (forall member :: member in m[c].members ==> '.' !in member.name)
      && (forall i, j :: 0 <= i < j < |m[c].members| ==> !SameValueName(m[c].members[i], m[c].members[j]))
  }

  ghost predicate Accepted(m: Program) {
    forall c {:trigger ParentKindsAccepted(m, c)} {:trigger ValueNamesAccepted(m, c)}
             {:trigger Acyclic(ParentMapOf(m), c)} ::
      && ParentKindsAccepted(m, c) && ValueNamesAccepted(m, c)
      && (c in m ==> Acyclic(ParentMapOf(m), c) && Consistent(ParentMapOf(m), c))
  }

  /** The superclass: the first parent, when that is a class. */
  function Superclass(m: Program, c: Name): Option<Name>
    requires c in m
  {
    if m[c].parents != [] && m[c].parents[0] in m && m[m[c].parents[0]].kind.Class? then Some(m[c].parents[0]) else None
  }

  ghost predicate TraitHas(m: Program, t: Name, member: Member) {
    t in m && m[t].kind.Trait? && member in m[t].members && IsInitializedValue(member)
  }

  // ---------------------------------------------------------------------------------------------
  // Classes above a class form one chain.

  lemma {:induction false} TraitsReachOnlyTraits(m: Program, t: Name, y: Name, n: nat)
    requires Accepted(m) && t in m && m[t].kind.Trait? && ReachesIn(ParentMapOf(m), t, y, n) && y in m
    ensures m[y].kind.Trait?
    decreases n
  {
    if n == 0 {
    } else {
      assert ParentKindsAccepted(m, t);
      var z :| z in Parents(ParentMapOf(m), t) && ReachesIn(ParentMapOf(m), z, y, n - 1);
      var i :| 0 <= i < |m[t].parents| && m[t].parents[i] == z;
      assert z in m by {
        if n > 1 {
          var w :| w in Parents(ParentMapOf(m), z) && ReachesIn(ParentMapOf(m), w, y, n - 2);
        }
      }
      TraitsReachOnlyTraits(m, z, y, n - 1);
    }
  }

  /** Every class strictly above c lies at or above its superclass. */
  lemma ClassesAboveSuperclass(m: Program, c: Name, b: Name)
    requires Accepted(m) && c in m && b in m && m[b].kind.Class? && Ancestor(ParentMapOf(m), c, b)
    ensures Superclass(m, c).Some? && Reaches(ParentMapOf(m), Superclass(m, c).value, b)
  {
    var pm := ParentMapOf(m);
    assert ParentKindsAccepted(m, c);
    var z :| z in Parents(pm, c) && Reaches(pm, z, b);
    var i :| 0 <= i < |m[c].parents| && m[c].parents[i] == z;
    var n: nat :| ReachesIn(pm, z, b, n);
    assert z in m by {
      if n > 0 {
        var w :| w in Parents(pm, z) && ReachesIn(pm, w, b, n - 1);
      }
    }
    if m[z].kind.Trait? {
      TraitsReachOnlyTraits(m, z, b, n);
    }
  }

  lemma SuperclassIsParent(m: Program, c: Name)
    requires Accepted(m) && c in m && Superclass(m, c).Some?
    ensures var p := Superclass(m, c).value;
      && p in m && m[p].kind.Class? && p in Parents(ParentMapOf(m), c)
      && Ancestor(ParentMapOf(m), c, p)
      && Above(ParentMapOf(m), p) < Above(ParentMapOf(m), c)
  {
    var p := Superclass(m, c).value;
    assert ParentKindsAccepted(m, c);
    ReachesSelf(ParentMapOf(m), p);
    AcyclicParent(ParentMapOf(m), c, p);
  }

  // ---------------------------------------------------------------------------------------------
  // What a class materializes.

  ghost predicate HasValue(values: seq<TraitValue>, t: Name, member: Member) {
    exists i :: 0 <= i < |values| && values[i].owner == t && values[i].member == member
  }

  lemma HasValueConcat(a: seq<TraitValue>, b: seq<TraitValue>, t: Name, member: Member)
    ensures HasValue(a + b, t, member) <==> HasValue(a, t, member) || HasValue(b, t, member)
  {
    if HasValue(a, t, member) {
      var i :| 0 <= i < |a| && a[i].owner == t && a[i].member == member;
      assert (a + b)[i] == a[i];
    }
    if HasValue(b, t, member) {
      var i :| 0 <= i < |b| && b[i].owner == t && b[i].member == member;
      assert (a + b)[|a| + i] == b[i];
    }
  }

  lemma {:induction false} ValuesOfTraitHas(owner: Name, members: seq<Member>, resolved: set<Name>,
                                            inherited: set<Name>, t: Name, member: Member)
    ensures HasValue(ValuesOfTrait(owner, members, resolved, inherited), t, member) <==>
            t == owner && member in members && IsInitializedValue(member) && Qualify(owner, member.name) !in inherited
    decreases |members|
  {
    if members == [] {
    } else {
      var grown := if IsTermMember(members[0]) then resolved + {members[0].name} else resolved;
      var rest := ValuesOfTrait(owner, members[1..], grown, inherited);
      ValuesOfTraitHas(owner, members[1..], grown, inherited, t, member);
      if IsInitializedValue(members[0]) && Qualify(owner, members[0].name) !in inherited {
        HasValueConcat([TraitValue(owner, members[0], members[0].name !in resolved)], rest, t, member);
        assert [TraitValue(owner, members[0], members[0].name !in resolved)][0].owner == owner;
      }
    }
  }

  lemma {:induction false} KeysInHas(m: Program, types: seq<Name>, t: Name, member: Member)
    requires Accepted(m) && TraitHas(m, t, member)
    ensures Qualify(t, member.name) in KeysIn(m, types) <==> t in types
    decreases |types|
  {
    if types == [] {
    } else {
      KeysInHas(m, types[1..], t, member);
      var x := types[0];
      assert ValueNamesAccepted(m, t) && ValueNamesAccepted(m, x);
      QualifyRoundTrip(t, member.name);
      if x in m && m[x].kind.Trait? && Qualify(t, member.name) in ValueKeys(x, m[x].members) {
        var other :| other in m[x].members && IsInitializedValue(other) &&
                     Qualify(x, other.name) == Qualify(t, member.name);
        QualifyRoundTrip(x, other.name);
      }
    }
  }

  /** A class listed before t that itself inherits t. */
  ghost predicate InheritedEarlier(m: Program, owners: seq<Name>, t: Name) {
    exists b {:trigger Before(owners, b, t)} ::
      Before(owners, b, t) && b in m && m[b].kind.Class? && t in LinearizedTypeNames(ParentMapOf(m), b)
  }

  lemma InheritedEarlierCons(m: Program, owners: seq<Name>, t: Name)
    requires owners != [] && NoDuplicates(owners) && t in owners[1..]
    ensures InheritedEarlier(m, owners, t) <==>
            InheritedEarlier(m, owners[1..], t)
            || (owners[0] in m && m[owners[0]].kind.Class? && t in LinearizedTypeNames(ParentMapOf(m), owners[0]))
  {
    assert [owners[0]] + owners[1..] == owners;
    BeforeConsCases(owners[0], owners[1..], owners[0], t);
    if InheritedEarlier(m, owners, t) {
      var b :| Before(owners, b, t) && b in m && m[b].kind.Class? && t in LinearizedTypeNames(ParentMapOf(m), b);
      var i, j :| 0 <= i < j < |owners| && owners[i] == b && owners[j] == t;
      if i > 0 {
        assert owners[1..][i - 1] == b && owners[1..][j - 1] == t;
        assert Before(owners[1..], b, t);
      }
    }
    if InheritedEarlier(m, owners[1..], t) {
      var b :| Before(owners[1..], b, t) && b in m && m[b].kind.Class? && t in LinearizedTypeNames(ParentMapOf(m), b);
      BeforeShift(owners, b, t);
    }
  }

  /** The key of t's value was inherited by one of the classes walked so far. */
  lemma {:induction false} ValuesOfOwnersHas(m: Program, owners: seq<Name>, resolved: set<Name>, inherited: set<Name>,
                                             t: Name, member: Member)
    requires Accepted(m) && NoDuplicates(owners) && TraitHas(m, t, member)
    ensures HasValue(ValuesOfOwners(m, owners, resolved, inherited), t, member) <==>
            t in owners && Qualify(t, member.name) !in inherited && !InheritedEarlier(m, owners, t)
    decreases |owners|
  {
    if owners == [] {
    } else {
      var o, rest := owners[0], owners[1..];
      assert [o] + rest == owners;
      if o !in m || m[o].kind.Object? {
        ValuesOfOwnersHas(m, rest, resolved, inherited, t, member);
      } else if m[o].kind.Class? {
        var types := LinearizedTypeNames(ParentMapOf(m), o);
        ValuesOfOwnersHas(m, rest, resolved + NamesIn(m, types), inherited + KeysIn(m, types), t, member);
        KeysInHas(m, types, t, member);
      } else {
        var names := TermNames(m[o].members);
        ValuesOfOwnersHas(m, rest, resolved + names, inherited, t, member);
        ValuesOfTraitHas(o, m[o].members, resolved, inherited, t, member);
        HasValueConcat(ValuesOfTrait(o, m[o].members, resolved, inherited),
                       ValuesOfOwners(m, rest, resolved + names, inherited), t, member);
      }
      if t in rest {
        InheritedEarlierCons(m, owners, t);
      } else if t == o {
        assert !InheritedEarlier(m, owners, t);
      }
    }
  }

  /** Every value comes from a trait that has it. */
  lemma {:induction false} ValuesAreTraitValues(m: Program, owners: seq<Name>, resolved: set<Name>,
                                                inherited: set<Name>, t: Name, member: Member)
    requires HasValue(ValuesOfOwners(m, owners, resolved, inherited), t, member)
    ensures TraitHas(m, t, member)
    decreases |owners|
  {
    var o, rest := owners[0], owners[1..];
    if o !in m || m[o].kind.Object? {
      ValuesAreTraitValues(m, rest, resolved, inherited, t, member);
    } else if m[o].kind.Class? {
      var types := LinearizedTypeNames(ParentMapOf(m), o);
      ValuesAreTraitValues(m, rest, resolved + NamesIn(m, types), inherited + KeysIn(m, types), t, member);
    } else {
      var names := TermNames(m[o].members);
      ValuesOfTraitHas(o, m[o].members, resolved, inherited, t, member);
      HasValueConcat(ValuesOfTrait(o, m[o].members, resolved, inherited),
                     ValuesOfOwners(m, rest, resolved + names, inherited), t, member);
      if !HasValue(ValuesOfTrait(o, m[o].members, resolved, inherited), t, member) {
        ValuesAreTraitValues(m, rest, resolved + names, inherited, t, member);
      }
    }
  }

  /** The superclass already stores the values of t. */
  ghost predicate SuperclassReaches(m: Program, c: Name, t: Name)
    requires c in m
  {
    Superclass(m, c).Some? && Reaches(ParentMapOf(m), Superclass(m, c).value, t)
  }

  lemma BeforeInTail(w: seq<Name>, x: Name, y: Name)
    requires w != [] && x != w[0] && Before(w, x, y)
    ensures Before(w[1..], x, y)
  {
    var i, j :| 0 <= i < j < |w| && w[i] == x && w[j] == y;
    assert w[1..][i - 1] == x && w[1..][j - 1] == y;
  }

  /** The walked owners are the ancestors, each once, every type before its own ancestors. */
  lemma OwnersOrder(m: Program, c: Name)
    requires Accepted(m) && c in m
    ensures var owners := LinearizedParents(ParentMapOf(m), m[c].parents);
      && NoDuplicates(owners)
      && (forall x :: x in owners <==> Ancestor(ParentMapOf(m), c, x))
      && (forall x, y :: Ancestor(ParentMapOf(m), c, x) && Ancestor(ParentMapOf(m), x, y) ==> Before(owners, x, y))
  {
    var pm := ParentMapOf(m);
    var owners := LinearizedParents(pm, m[c].parents);
    assert Acyclic(pm, c) && Consistent(pm, c);
    LinearizationOrder(pm, c);
    LinearizedUnfold(pm, c);
    ReachesSelf(pm, c);
    var w := Linearized(pm, c);
    assert w[1..] == owners;
    forall x
      ensures x in owners <==> Ancestor(pm, c, x)
    {
      ReachesCases(pm, c, x);
    }
    forall x, y | Ancestor(pm, c, x) && Ancestor(pm, x, y)
      ensures Before(owners, x, y)
    {
      ReachesCases(pm, c, x);
      BeforeInTail(w, x, y);
    }
  }

  lemma InheritedEarlierIffSuperclass(m: Program, c: Name, t: Name)
    requires Accepted(m) && c in m && t in m && m[t].kind.Trait? && Ancestor(ParentMapOf(m), c, t)
    ensures InheritedEarlier(m, LinearizedParents(ParentMapOf(m), m[c].parents), t) <==> SuperclassReaches(m, c, t)
  {
    var pm := ParentMapOf(m);
    var owners := LinearizedParents(pm, m[c].parents);
    OwnersOrder(m, c);
    if InheritedEarlier(m, owners, t) {
      var b :| Before(owners, b, t) && b in m && m[b].kind.Class? && t in LinearizedTypeNames(pm, b);
      ClassesAboveSuperclass(m, c, b);
      assert Acyclic(pm, b) && Consistent(pm, b);
      LinearizationOrder(pm, b);
      LinearizedUnfold(pm, b);
      ReachesTransitive(pm, Superclass(m, c).value, b, t);
    }
    if SuperclassReaches(m, c, t) {
      var p := Superclass(m, c).value;
      SuperclassIsParent(m, c);
      assert Acyclic(pm, p) && Consistent(pm, p);
      LinearizationOrder(pm, p);
      LinearizedUnfold(pm, p);
      ReachesCases(pm, p, t);
      assert Before(owners, p, t);
    }
  }

  /** A class materializes exactly the initialized values of the traits above it that its superclass does not reach. */
  lemma MaterializedIff(m: Program, c: Name, t: Name, member: Member)
    requires Accepted(m) && c in m && m[c].kind.Class?
    ensures HasValue(MaterializedTraitValues(m, c), t, member) <==>
            TraitHas(m, t, member) && Ancestor(ParentMapOf(m), c, t) && !SuperclassReaches(m, c, t)
  {
    var owners := LinearizedParents(ParentMapOf(m), m[c].parents);
    OwnersOrder(m, c);
    if HasValue(MaterializedTraitValues(m, c), t, member) {
      ValuesAreTraitValues(m, owners, DeclaredMemberNames(m[c]), {}, t, member);
    }
    if TraitHas(m, t, member) {
      ValuesOfOwnersHas(m, owners, DeclaredMemberNames(m[c]), {}, t, member);
      if t in owners {
        InheritedEarlierIffSuperclass(m, c, t);
      }
    }
  }

  // ---------------------------------------------------------------------------------------------
  // One class of the chain stores each value.

  function SuperclassChain(m: Program, c: Name): seq<Name>
    requires Accepted(m) && c in m
    decreases Above(ParentMapOf(m), c)
  {
    if Superclass(m, c).Some? then
      SuperclassIsParent(m, c);
      [c] + SuperclassChain(m, Superclass(m, c).value)
    else [c]
  }

  ghost predicate Materializes(m: Program, b: Name, t: Name, member: Member) {
    b in m && HasValue(MaterializedTraitValues(m, b), t, member)
  }

  /** Each initialized value of each trait above a class is materialized in exactly one class of its chain. */
  lemma {:induction false} MaterializedInOneClass(m: Program, c: Name, t: Name, member: Member) returns (k: nat)
    requires Accepted(m) && c in m && m[c].kind.Class?
    requires TraitHas(m, t, member) && Ancestor(ParentMapOf(m), c, t)
    ensures StoredOnceAt(m, SuperclassChain(m, c), t, member, k)
    decreases Above(ParentMapOf(m), c)
  {
    var pm := ParentMapOf(m);
    MaterializedIff(m, c, t, member);
    if SuperclassReaches(m, c, t) {
      var p := Superclass(m, c).value;
      SuperclassIsParent(m, c);
      ReachesCases(pm, p, t);
      k := MaterializedInOneClass(m, p, t, member);
      k := k + 1;
      StoredOnceAbove(m, c, t, member, k - 1);
    } else {
      k := 0;
      if Superclass(m, c).Some? {
        SuperclassIsParent(m, c);
        ChainBelowMaterializesNothing(m, Superclass(m, c).value, t, member);
        ChainShift(m, c);
      }
    }
  }

  ghost predicate StoredOnceAt(m: Program, chain: seq<Name>, t: Name, member: Member, k: nat) {
    && k < |chain| && Materializes(m, chain[k], t, member)
    && forall j {:trigger Materializes(m, chain[j], t, member)} ::
         0 <= j < |chain| && Materializes(m, chain[j], t, member) ==> j == k
  }

  lemma StoredOnceAbove(m: Program, c: Name, t: Name, member: Member, k: nat)
    requires Accepted(m) && c in m && Superclass(m, c).Some? && Superclass(m, c).value in m
    requires !Materializes(m, c, t, member)
    requires StoredOnceAt(m, SuperclassChain(m, Superclass(m, c).value), t, member, k)
    ensures StoredOnceAt(m, SuperclassChain(m, c), t, member, k + 1)
  {
    ChainShift(m, c);
  }

  lemma ChainShift(m: Program, c: Name)
    requires Accepted(m) && c in m && Superclass(m, c).Some?
    ensures Superclass(m, c).value in m
    ensures var chain, above := SuperclassChain(m, c), SuperclassChain(m, Superclass(m, c).value);
      |chain| == |above| + 1 && chain[0] == c && forall j :: 1 <= j < |chain| ==> chain[j] == above[j - 1]
  {
  }

  lemma {:induction false} ChainBelowMaterializesNothing(m: Program, c: Name, t: Name, member: Member)
    requires Accepted(m) && c in m && m[c].kind.Class? && !Reaches(ParentMapOf(m), c, t)
    ensures var chain := SuperclassChain(m, c);
      forall j :: 0 <= j < |chain| ==> !Materializes(m, chain[j], t, member)
    decreases Above(ParentMapOf(m), c)
  {
    MaterializedIff(m, c, t, member);
    ReachesCases(ParentMapOf(m), c, t);
    if Superclass(m, c).Some? {
      SuperclassIsParent(m, c);
      var p := Superclass(m, c).value;
      if Reaches(ParentMapOf(m), p, t) {
        ReachesStep(ParentMapOf(m), c, p, t);
      }
      ChainBelowMaterializesNothing(m, p, t, member);
      ChainShift(m, c);
    }
  }

  // ---------------------------------------------------------------------------------------------
  // Accessors: the effective value of a name is the one member lookup finds.

  ghost predicate Declares(m: Program, x: Name, name: Name) {
    x in m && !m[x].kind.Object? && name in TermNames(m[x].members)
  }

  ghost predicate OwnAndFresh(owner: Name, resolved: set<Name>, values: seq<TraitValue>) {
    forall i {:trigger values[i]} :: 0 <= i < |values| ==>
      values[i].owner == owner && (values[i].effective ==> values[i].member.name !in resolved)
  }

  lemma {:induction false} ValuesOfTraitEffective(owner: Name, members: seq<Member>, resolved: set<Name>,
                                                  inherited: set<Name>)
    ensures OwnAndFresh(owner, resolved, ValuesOfTrait(owner, members, resolved, inherited))
    decreases |members|
  {
    if members == [] {
    } else {
      var grown := if IsTermMember(members[0]) then resolved + {members[0].name} else resolved;
      var rest := ValuesOfTrait(owner, members[1..], grown, inherited);
      ValuesOfTraitEffective(owner, members[1..], grown, inherited);
      assert OwnAndFresh(owner, resolved, rest);
      var first := [TraitValue(owner, members[0], members[0].name !in resolved)];
      forall i | 0 <= i < |first + rest|
        ensures (first + rest)[i] == if i == 0 then first[0] else rest[i - 1]
      {
      }
    }
  }

  ghost predicate AllFrom(owners: seq<Name>, values: seq<TraitValue>) {
    forall i {:trigger values[i]} :: 0 <= i < |values| ==> values[i].owner in owners
  }

  lemma {:induction false} ValuesOfOwnersListed(m: Program, owners: seq<Name>, resolved: set<Name>,
                                                inherited: set<Name>)
    ensures AllFrom(owners, ValuesOfOwners(m, owners, resolved, inherited))
    decreases |owners|
  {
    if owners == [] {
    } else {
      var o, rest := owners[0], owners[1..];
      assert [o] + rest == owners;
      if o !in m || m[o].kind.Object? {
        ValuesOfOwnersListed(m, rest, resolved, inherited);
      } else if m[o].kind.Class? {
        var types := LinearizedTypeNames(ParentMapOf(m), o);
        ValuesOfOwnersListed(m, rest, resolved + NamesIn(m, types), inherited + KeysIn(m, types));
      } else {
        var own := ValuesOfTrait(o, m[o].members, resolved, inherited);
        var others := ValuesOfOwners(m, rest, resolved + TermNames(m[o].members), inherited);
        ValuesOfOwnersListed(m, rest, resolved + TermNames(m[o].members), inherited);
        ValuesOfTraitEffective(o, m[o].members, resolved, inherited);
        forall i | 0 <= i < |own + others|
          ensures (own + others)[i] == if i < |own| then own[i] else others[i - |own|]
        {
        }
      }
    }
  }

  lemma NothingBeforeFirst(owners: seq<Name>)
    requires NoDuplicates(owners) && owners != []
    ensures forall x :: !Before(owners, x, owners[0])
  {
  }

  lemma NamesInFirst(m: Program, types: seq<Name>)
    requires types != []
    ensures forall name :: Declares(m, types[0], name) ==> name in NamesIn(m, types)
  {
  }
}
