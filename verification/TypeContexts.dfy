/** The types of a whole program: how names resolve and which class lies below which. */
module TypeContexts {
  import opened Basics
  import opened ParentGraph
  import opened Subtyping
  import opened LinkerReferences
  import opened Types
  import opened Bodies
  import opened TypePreservation

  // ---------------------------------------------------------------------------------------------
  // The context of a program.

  predicate Canonical(names: Names, t: Type) {
    names.read(names.spell(t)) == t
  }

  ghost predicate SubtypeOf(names: Names, pm: ParentMap, actual: Type, expected: Type) {
    actual == expected ||
    (Canonical(names, actual) && Canonical(names, expected) && Subtype(pm, names.spell(actual), names.spell(expected)))
  }

  function ResolutionOf(names: Names, g: Globals, name: Name): Resolution
    requires name in g
  {
    Resolution(g[name].kind.Class?, g[name].kind.Trait?, names.read(name),
               names.read(if IsClassLike(g[name].kind) || g[name].kind.TypeMember? then name else g[name].resultType))
  }

  /** resolveGlobal of a definition in a program. */
  function Resolver(names: Names, g: Globals, owner: Name, moduleName: Name): Name -> Option<Resolution> {
    (name: Name) => var r := ResolveGlobal(g, owner, moduleName, name);
                    if r.Some? then Some(ResolutionOf(names, g, r.value)) else None
  }

  ghost function ContextOf(names: Names, pm: ParentMap, resolve: Name -> Option<Resolution>,
                           constructorTypes: Type -> seq<Type>): Context {
    Context((actual: Type, expected: Type) => SubtypeOf(names, pm, actual, expected), resolve, names.spell,
            constructorTypes)
  }

  ghost function ContextFor(names: Names, g: Globals, owner: Name, moduleName: Name,
                            constructorTypes: Type -> seq<Type>): Context {
    ContextOf(names, ParentMapFor(g), Resolver(names, g, owner, moduleName), constructorTypes)
  }

  lemma ContextIsPreorder(names: Names, g: Globals, owner: Name, moduleName: Name, constructorTypes: Type -> seq<Type>)
    ensures BelowIsPreorder(ContextFor(names, g, owner, moduleName, constructorTypes))
  {
    var pm := ParentMapFor(g);
    forall x, y, z | SubtypeOf(names, pm, x, y) && SubtypeOf(names, pm, y, z) ensures SubtypeOf(names, pm, x, z) {
      if x != y && y != z {
        SubtypeTransitive(pm, names.spell(x), names.spell(y), names.spell(z));
      }
    }
  }

  // ---------------------------------------------------------------------------------------------
  // The exact condition.

  ghost function Listed(pm: ParentMap): set<Name> {
    pm.Keys + set k, p | k in pm && p in pm[k] :: p
  }

  lemma {:induction false} ReachedIsListed(pm: ParentMap, x: Name, y: Name, n: nat)
    requires ReachesIn(Searched(pm), x, y, n) && x != y
    ensures x in Listed(pm) && y in Listed(pm)
    decreases n
  {
    var z :| z in Parents(Searched(pm), x) && ReachesIn(Searched(pm), z, y, n - 1);
    assert z in pm[x];
    if z != y {
      ReachedIsListed(pm, z, y, n - 1);
    }
  }

  /** Some name is longer than all of a finite set. */
  lemma {:induction false} LongerName(names: set<Name>, least: nat) returns (longer: Name)
    ensures |longer| >= least && longer !in names
    decreases |names|
  {
    longer := seq(least, i => 'x');
    if longer in names {
      var smaller := names - {longer};
      longer := LongerName(smaller, least + 1);
    }
  }

  /** Some class type is related to no other type. */
  lemma UnrelatedType(names: Names, pm: ParentMap) returns (t: Type)
    requires NamesClasses(names)
    ensures t.ClassType? && forall a :: SubtypeOf(names, pm, a, t) || SubtypeOf(names, pm, t, a) ==> a == t
  {
    var name := LongerName(Listed(pm), 8);
    t := ClassType(name);
    forall a | SubtypeOf(names, pm, a, t) || SubtypeOf(names, pm, t, a) ensures a == t {
      if SubtypeOf(names, pm, a, t) && a != t {
        RelatedIsListed(names, pm, a, t);
      } else if a != t {
        RelatedIsListed(names, pm, t, a);
      }
    }
  }

  lemma RelatedIsListed(names: Names, pm: ParentMap, a: Type, b: Type)
    requires SubtypeOf(names, pm, a, b) && a != b
    ensures names.spell(a) in Listed(pm) && names.spell(b) in Listed(pm)
  {
    assert names.spell(a) != names.spell(b);
    var n: nat :| ReachesIn(Searched(pm), names.spell(a), names.spell(b), n);
    ReachedIsListed(pm, names.spell(a), names.spell(b), n);
  }

  ghost predicate Unrelated(c: Context, t: Type) {
    t.ClassType? && forall a :: c.below(a, t) || c.below(t, a) ==> a == t
  }

  lemma NullKept(c: Context, t: Type, a: Type)
    requires ConformityIsTransitive(c) && Unrelated(c, t)
    requires IsReference(a) && Known(a) && c.below(a, NullType)
    ensures a.NullType?
  {
    assert Conforms(c, t, NullType) && Conforms(c, NullType, a);
    assert Conforms(c, t, a);
  }

  lemma ObjectKept(c: Context, t: Type, b: Type)
    requires ConformityIsTransitive(c) && Unrelated(c, t)
    requires IsReference(b) && Known(b) && c.below(ObjectType, b)
    ensures b.ObjectType?
  {
    assert Conforms(c, b, ObjectType) && Conforms(c, ObjectType, t);
    assert Conforms(c, b, t);
  }

  lemma TransitiveThenReservedNamesKept(c: Context, t: Type)
    requires ConformityIsTransitive(c) && Unrelated(c, t)
    ensures ReservedNamesKept(c)
  {
    forall a | IsReference(a) && Known(a) && c.below(a, NullType) ensures a.NullType? {
      NullKept(c, t, a);
    }
    forall b | IsReference(b) && Known(b) && c.below(ObjectType, b) ensures b.ObjectType? {
      ObjectKept(c, t, b);
    }
  }

  /** Conformity is transitive on known types exactly when the reserved names are kept. */
  lemma TransitiveIffReservedNamesKept(names: Names, g: Globals, owner: Name, moduleName: Name,
                                       constructorTypes: Type -> seq<Type>)
    requires NamesClasses(names)
    ensures var c := ContextFor(names, g, owner, moduleName, constructorTypes);
            ConformityIsTransitive(c) <==> ReservedNamesKept(c)
  {
    var c := ContextFor(names, g, owner, moduleName, constructorTypes);
    if ReservedNamesKept(c) {
      ContextIsPreorder(names, g, owner, moduleName, constructorTypes);
      ReservedNamesKeptThenTransitive(c);
    }
    if ConformityIsTransitive(c) {
      var t := UnrelatedType(names, ParentMapFor(g));
      assert Unrelated(c, t);
      TransitiveThenReservedNamesKept(c, t);
    }
  }

  lemma ReservedNamesKeptThenTransitive(c: Context)
    requires BelowIsPreorder(c) && ReservedNamesKept(c)
    ensures ConformityIsTransitive(c)
  {
    forall x, y, z | Known(x) && Known(y) && Known(z) && Conforms(c, x, y) && Conforms(c, y, z)
      ensures Conforms(c, x, z)
    {
      ConformsTransitive(c, x, y, z);
    }
  }

  // ---------------------------------------------------------------------------------------------
  // A check of the definitions' names that gives what preservation assumes.

  /** Class-like definitions do not take built-in names, none lists Null as a parent, and every global has a known
      type. */
  predicate OrdinaryNames(names: Names, g: Globals) {
    forall name {:trigger g[name]} | name in g ::
      && Known(names.read(g[name].resultType))
      && (IsClassLike(g[name].kind) || g[name].kind.TypeMember? ==> names.read(name).ClassType?)
      && (IsClassLike(g[name].kind) ==> names.spell(NullType) !in g[name].parents)
  }

  lemma OrdinaryNamesSuffice(names: Names, g: Globals, owner: Name, moduleName: Name,
                             constructorTypes: Type -> seq<Type>)
    requires OrdinaryNames(names, g)
    ensures NamesOk(ContextFor(names, g, owner, moduleName, constructorTypes))
  {
    var c := ContextFor(names, g, owner, moduleName, constructorTypes);
    ContextIsPreorder(names, g, owner, moduleName, constructorTypes);
    forall a, b | c.below(a, b) && a != b ensures a.ClassType? && !b.NullType? {
      RelatedIsClass(names, g, a, b);
    }
    forall x ensures var r := c.resolve(x);
                     r.Some? ==>
                       && Known(r.value.mentioned)
                       && (r.value.isClass || r.value.isTrait ==> IsReference(r.value.own) && Known(r.value.own))
    {
      var r := ResolveGlobal(g, owner, moduleName, x);
      if r.Some? {
        assert c.resolve(x) == Some(ResolutionOf(names, g, r.value));
        assert g[r.value] == g[r.value];
      }
    }
  }

  /** In a program with ordinary names some world meets all that preservation assumes. */
  lemma AssumptionsAreMet(names: Names, g: Globals, owner: Name, moduleName: Name,
                          constructorTypes: Type -> seq<Type>, steps: nat)
    requires OrdinaryNames(names, g)
    ensures var c := ContextFor(names, g, owner, moduleName, constructorTypes);
            Assumed(c, PlainWorld(c, steps), Scope(map[], {}), map[])
  {
    OrdinaryNamesSuffice(names, g, owner, moduleName, constructorTypes);
    PlainWorldOk(ContextFor(names, g, owner, moduleName, constructorTypes), steps);
  }

  lemma RelatedIsClass(names: Names, g: Globals, a: Type, b: Type)
    requires OrdinaryNames(names, g) && SubtypeOf(names, ParentMapFor(g), a, b) && a != b
    ensures a.ClassType? && !b.NullType?
  {
    var pm := ParentMapFor(g);
    assert names.spell(a) != names.spell(b);
    var n: nat :| ReachesIn(Searched(pm), names.spell(a), names.spell(b), n);
    assert names.spell(a) in pm;
    assert names.read(names.spell(a)).ClassType?;
    LastParent(pm, names.spell(a), names.spell(b), n);
  }

  /** What is reached by parent edges is somebody's parent. */
  lemma {:induction false} LastParent(pm: ParentMap, x: Name, y: Name, n: nat)
    requires ReachesIn(Searched(pm), x, y, n) && x != y
    ensures exists k :: k in pm && y in pm[k]
    decreases n
  {
    var z :| z in Parents(Searched(pm), x) && ReachesIn(Searched(pm), z, y, n - 1);
    if z == y {
      assert y in pm[x];
    } else {
      LastParent(pm, z, y, n - 1);
    }
  }
}
