/** What zones of a program are checked against, and a check of its definitions that gives what zones assume. */
module ZoneContexts {
  import opened Basics
  import opened LinkerReferences
  import opened Types
  import TypeContexts
  import opened ZoneBodies
  import opened ZoneTypes

  /** The class-like definition that a type's text resolves to. */
  function DefinitionOf(names: Names, g: Globals, owner: Name, moduleName: Name, t: Type): Option<Name> {
    var r := ResolveGlobal(g, owner, moduleName, names.spell(t));
    if r.Some? && IsClassLike(g[r.value].kind) then r else None
  }

  /** The type of a global; only members of definitions are asked for. */
  function GlobalType(names: Names, g: Globals, m: Name): Type {
    if m in g then TypeContexts.ResolutionOf(names, g, m).mentioned else UnitType
  }

  /** The type of a mention that is no local. */
  function MentionedType(names: Names, g: Globals, owner: Name, moduleName: Name, x: Name): Type {
    var r := ResolveGlobal(g, owner, moduleName, x);
    if r.Some? then GlobalType(names, g, r.value) else UnknownType
  }

  ghost function ZoneContextFor(names: Names, g: Globals, owner: Name, moduleName: Name,
                                escapingReceivers: set<Name>, constructorFields: Name -> seq<Name>): ZoneContext {
    var program := TypeContexts.ContextFor(names, g, owner, moduleName, _ => []);
    ZoneContext(names.read,
                t => DefinitionOf(names, g, owner, moduleName, t),
                name => name in g && g[name].kind.Class?,
                (receiver, member) => ResolveMember(g, receiver, member),
                name => name in g && IsFunction(g[name].kind),
                name => GlobalType(names, g, name),
                name => MentionedType(names, g, owner, moduleName, name),
                (expected, actual) => Conforms(program, expected, actual),
                escapingReceivers,
                constructorFields)
  }

  /** No class, trait or object is reached by the name of a primitive type, not even by a short name. */
  predicate PrimitivesUnshadowed(names: Names, g: Globals, owner: Name, moduleName: Name) {
    forall t {:trigger names.spell(t)} | t in PRIMITIVES :: DefinitionOf(names, g, owner, moduleName, t).None?
  }

  const PRIMITIVES: set<Type> :=
    {UnitType, BooleanType, ByteType, ShortType, IntType, LongType, FloatType, DoubleType, CharType, SymbolType,
     NothingType, UnknownType}

  lemma DefinitionsAreReferences(names: Names, g: Globals, owner: Name, moduleName: Name, t: Type)
    requires NamesClasses(names) && TypeContexts.OrdinaryNames(names, g)
    requires PrimitivesUnshadowed(names, g, owner, moduleName) && DefinitionOf(names, g, owner, moduleName, t).Some?
    ensures var d := DefinitionOf(names, g, owner, moduleName, t).value;
            && IsReference(t) && Known(t) && names.read(d) == ClassType(d)
            && DefinitionOf(names, g, owner, moduleName, ClassType(d)) == Some(d)
  {
    var d := DefinitionOf(names, g, owner, moduleName, t).value;
    assert g[d] == g[d];
    assert t !in PRIMITIVES by {
      assert names.spell(t) == names.spell(t);
    }
    assert names.spell(ClassType(d)) == d;
  }

  /** Ordinary names and unshadowed primitives are what zones assume of a program. */
  lemma UnshadowedSuffices(names: Names, g: Globals, owner: Name, moduleName: Name,
                           escapingReceivers: set<Name>, constructorFields: Name -> seq<Name>)
    requires NamesClasses(names) && TypeContexts.OrdinaryNames(names, g)
    requires PrimitivesUnshadowed(names, g, owner, moduleName)
    ensures TypesOk(ZoneContextFor(names, g, owner, moduleName, escapingReceivers, constructorFields))
  {
    var c := ZoneContextFor(names, g, owner, moduleName, escapingReceivers, constructorFields);
    forall t | c.definitionOf(t).Some?
      ensures var d := c.definitionOf(t).value;
              && IsReference(t) && Known(t) && IsReference(c.read(d)) && Known(c.read(d))
              && c.definitionOf(c.read(d)) == Some(d)
    {
      DefinitionsAreReferences(names, g, owner, moduleName, t);
    }
    forall m ensures Known(c.typeOf(m)) {
      assert m in g ==> g[m] == g[m];
    }
  }

  lemma ShadowedFails(c: ZoneContext, t: Type)
    requires TypesOk(c) && t in PRIMITIVES
    ensures c.definitionOf(t).None?
  {
  }

  /** The condition on primitives is exact. */
  lemma ZoneTypesIffUnshadowed(names: Names, g: Globals, owner: Name, moduleName: Name,
                               escapingReceivers: set<Name>, constructorFields: Name -> seq<Name>)
    requires NamesClasses(names) && TypeContexts.OrdinaryNames(names, g)
    ensures TypesOk(ZoneContextFor(names, g, owner, moduleName, escapingReceivers, constructorFields)) <==>
            PrimitivesUnshadowed(names, g, owner, moduleName)
  {
    if PrimitivesUnshadowed(names, g, owner, moduleName) {
      UnshadowedSuffices(names, g, owner, moduleName, escapingReceivers, constructorFields);
    }
    if TypesOk(ZoneContextFor(names, g, owner, moduleName, escapingReceivers, constructorFields)) {
      forall t | t in PRIMITIVES ensures DefinitionOf(names, g, owner, moduleName, t).None? {
        ShadowedFails(ZoneContextFor(names, g, owner, moduleName, escapingReceivers, constructorFields), t);
      }
    }
  }
}
