/** What one definition refers to, as tools/linker/src/Linker.cpp collects it. */
module LinkerReferences {
  import opened Basics
  import opened ParentGraph
  import opened Linearization
  import opened QualifiedNames
  import opened Subtyping

  datatype Kind = Module | Class | Trait | TypeMember | Field | FunctionDecl | FunctionDef

  /** One place in a body that can refer to a global; names are resolved from the definition's owner and module. */
  datatype Mention =
    | Named(text: Name)                            // must resolve
    | Selected(receiverType: Name, member: Name)   // looked up in the receiver's linearization
    | Constructed(className: Name)                 // the class, its fields and its initializer
    | IfDefined(text: Name)                        // a runtime failure class, when the program has it

  /** A definition with its signature text already taken apart. */
  datatype Definition = Definition(kind: Kind,
                                   parents: seq<Name>,
                                   parameterTypes: seq<Name>,
                                   resultType: Name,
                                   moduleName: Name,
                                   hasBody: bool,
                                   failures: seq<Name>,
                                   body: seq<Mention>)

  type Globals = map<Name, Definition>

  predicate IsFunction(kind: Kind) {
    kind.FunctionDecl? || kind.FunctionDef?
  }

  predicate IsClassLike(kind: Kind) {
    kind.Module? || kind.Class? || kind.Trait?
  }

  predicate IsDispatchType(kind: Kind) {
    kind.Class? || kind.Trait?
  }

  function ParentMapFor(g: Globals): ParentMap {
    map name | name in g && IsClassLike(g[name].kind) :: g[name].parents
  }

  // ---------------------------------------------------------------------------------------------
  // Virtual methods and overriding.

  /** A function of a class or trait whose first parameter is its owner. */
  predicate IsVirtual(g: Globals, name: Name) {
    && name in g && IsFunction(g[name].kind)
    && var owner := OwnerNameOf(name);
       && owner != "" && owner in g && IsDispatchType(g[owner].kind)
       && g[name].parameterTypes != [] && g[name].parameterTypes[0] == owner
  }

  ghost predicate SignaturesMatch(pm: ParentMap, expected: Definition, candidate: Definition) {
    && expected.parameterTypes != [] && |candidate.parameterTypes| == |expected.parameterTypes|
    && candidate.parameterTypes[1..] == expected.parameterTypes[1..]
    && Subtype(pm, candidate.resultType, expected.resultType)
  }

  /** candidate is collected whenever target is referenced. */
  ghost predicate OverriddenBy(g: Globals, target: Name, candidate: Name) {
    && IsVirtual(g, target) && IsVirtual(g, candidate) && candidate != target
    && MemberNameOf(candidate) == MemberNameOf(target)
    && Subtype(ParentMapFor(g), OwnerNameOf(candidate), OwnerNameOf(target))
    && SignaturesMatch(ParentMapFor(g), g[target], g[candidate])
  }

  /** One round of expansion is enough: an override of an override is an override. */
  lemma OverridingIsTransitive(g: Globals, a: Name, b: Name, c: Name)
    requires OverriddenBy(g, a, b) && OverriddenBy(g, b, c)
    ensures c == a || OverriddenBy(g, a, c)
  {
    var pm := ParentMapFor(g);
    SubtypeTransitive(pm, OwnerNameOf(c), OwnerNameOf(b), OwnerNameOf(a));
    SubtypeTransitive(pm, g[c].resultType, g[b].resultType, g[a].resultType);
  }

  // ---------------------------------------------------------------------------------------------
  // Resolution.

  function ResolveGlobal(g: Globals, ownerName: Name, moduleName: Name, name: Name): (r: Option<Name>)
    ensures r.Some? ==> r.value in g
  {
    if name in g then Some(name)
    else if ownerName != "" && Qualify(ownerName, name) in g then Some(Qualify(ownerName, name))
    else if moduleName != "" && Qualify(moduleName, name) in g then Some(Qualify(moduleName, name))
    else None
  }

  /** The first listed type that declares the member; the empty name and java.lang.Object are passed over. */
  function FirstDeclaring(g: Globals, types: seq<Name>, member: Name): (r: Option<Name>)
    ensures r.Some? ==> r.value in g
  {
    if types == [] then None
    else if types[0] != "" && types[0] != JAVA_LANG_OBJECT && Qualify(types[0], member) in g
    then Some(Qualify(types[0], member))
    else FirstDeclaring(g, types[1..], member)
  }

  function ResolveMember(g: Globals, receiver: Name, member: Name): (r: Option<Name>)
    ensures r.Some? ==> r.value in g
  {
    FirstDeclaring(g, LinearizedTypeNames(ParentMapFor(g), receiver), member)
  }

  // ---------------------------------------------------------------------------------------------
  // References.

  function FunctionsOf(g: Globals, owner: Name): set<Name> {
    set f | f in g && OwnerNameOf(f) == owner && IsFunction(g[f].kind)
  }

  function FieldsOf(g: Globals, owner: Name): set<Name> {
    set f | f in g && OwnerNameOf(f) == owner && g[f].kind.Field?
  }

  /** Parent edges that do not start at java.lang.Object. */
  function BelowObject(pm: ParentMap): ParentMap {
    pm - {JAVA_LANG_OBJECT}
  }

  /** The fields of a class and of everything it inherits from, java.lang.Object excepted. */
  ghost function ClassFields(g: Globals, className: Name): set<Name> {
    set f | f in g && g[f].kind.Field? && OwnerNameOf(f) != JAVA_LANG_OBJECT
            && Reaches(BelowObject(ParentMapFor(g)), className, OwnerNameOf(f))
  }

  function InitializerOf(g: Globals, className: Name): set<Name> {
    if Qualify(className, "$init") in g then {Qualify(className, "$init")} else {}
  }

  function Defined(g: Globals, names: seq<Name>): set<Name> {
    set n | n in names && n in g
  }

  /** A parent is referenced together with every function it owns. */
  function ParentReferences(g: Globals, parents: seq<Name>): set<Name> {
    set n | n in g && ((n in parents && n != JAVA_LANG_OBJECT)
                       || (OwnerNameOf(n) in parents && OwnerNameOf(n) != JAVA_LANG_OBJECT && IsFunction(g[n].kind)))
  }

  ghost function MentionReferences(g: Globals, owner: Name, moduleName: Name, m: Mention): set<Name> {
    match m
    case Named(text) =>
      (match ResolveGlobal(g, owner, moduleName, text) case Some(n) => {n} case None => {})
    case Selected(receiverType, member) =>
      (match ResolveGlobal(g, owner, moduleName, receiverType)
       case Some(n) =>
         (if IsClassLike(g[n].kind) then
            (match ResolveMember(g, n, member) case Some(s) => {s} case None => {})
          else {})
       case None => {})
    case Constructed(className) =>
      (match ResolveGlobal(g, owner, moduleName, className)
       case Some(n) => {n} + ClassFields(g, n) + InitializerOf(g, n)
       case None => {})
    case IfDefined(text) =>
      if text in g then {text} else {}
  }

  predicate IsUnresolved(g: Globals, owner: Name, moduleName: Name, m: Mention) {
    m.Named? && ResolveGlobal(g, owner, moduleName, m.text).None?
  }

  ghost function BodyReferences(g: Globals, owner: Name, moduleName: Name, body: seq<Mention>): set<Name> {
    if body == [] then {}
    else MentionReferences(g, owner, moduleName, body[0]) + BodyReferences(g, owner, moduleName, body[1..])
  }

  /** A member of a module also refers to the module, its fields and its initializer. */
  ghost function ModuleReferences(g: Globals, owner: Name): set<Name> {
    if owner in g && g[owner].kind.Module? then {owner} + ClassFields(g, owner) + InitializerOf(g, owner) else {}
  }

  predicate ScansBody(d: Definition) {
    d.kind.FunctionDef? || (d.kind.Field? && d.hasBody)
  }

  ghost function DefinitionReferences(g: Globals, name: Name): set<Name>
    requires name in g
  {
    var d := g[name];
    if IsClassLike(d.kind) then ParentReferences(g, d.parents) + ClassFields(g, name)
    else
      var typed := if d.kind.Field? then Defined(g, [d.resultType]) else {};
      var failing := if IsFunction(d.kind) then Defined(g, d.failures) else {};
      var scanned :=
        if ScansBody(d) then
          ModuleReferences(g, OwnerNameOf(name)) + BodyReferences(g, OwnerNameOf(name), d.moduleName, d.body)
        else {};
      typed + failing + scanned
  }

  /** Every collected reference is a known global. */
  lemma {:induction false} BodyReferencesAreGlobals(g: Globals, owner: Name, moduleName: Name, body: seq<Mention>)
    ensures BodyReferences(g, owner, moduleName, body) <= g.Keys
    decreases |body|
  {
    if body == [] {
    } else {
      MentionReferencesAreGlobals(g, owner, moduleName, body[0]);
      BodyReferencesAreGlobals(g, owner, moduleName, body[1..]);
    }
  }

  lemma MentionReferencesAreGlobals(g: Globals, owner: Name, moduleName: Name, m: Mention)
    ensures MentionReferences(g, owner, moduleName, m) <= g.Keys
  {
  }

  lemma ReferencesAreGlobals(g: Globals, name: Name)
    requires name in g
    ensures DefinitionReferences(g, name) <= g.Keys
  {
    BodyReferencesAreGlobals(g, OwnerNameOf(name), g[name].moduleName, g[name].body);
  }
}
