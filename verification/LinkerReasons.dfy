/** Why linking keeps a definition: every reason on its own, without the collectors. */
module LinkerReasons {
  import opened Basics
  import opened ParentGraph
  import opened Linearization
  import opened QualifiedNames
  import opened Subtyping
  import opened LinkerReferences

  // ---------------------------------------------------------------------------------------------
  // Names.

  /** n is the first definition called `text`, a member of the owner or of the module called so. */
  ghost predicate ResolvesTo(g: Globals, owner: Name, moduleName: Name, text: Name, n: Name) {
    && n in g
    && (text in g ==> n == text)
    && (text !in g && owner != "" && owner + "." + text in g ==> n == owner + "." + text)
    && (text !in g && !(owner != "" && owner + "." + text in g) ==> moduleName != "" && n == moduleName + "." + text)
  }

  lemma ResolvesIff(g: Globals, owner: Name, moduleName: Name, text: Name, n: Name)
    ensures ResolveGlobal(g, owner, moduleName, text) == Some(n) <==> ResolvesTo(g, owner, moduleName, text, n)
  {
  }

  predicate Declares(g: Globals, t: Name, member: Name) {
    t != "" && t != JAVA_LANG_OBJECT && t + "." + member in g
  }

  /** s is the member of the first of the types that declares it. */
  ghost predicate LooksUp(g: Globals, types: seq<Name>, member: Name, s: Name) {
    exists i {:trigger types[i]} ::
      && 0 <= i < |types| && Declares(g, types[i], member) && s == types[i] + "." + member
      && forall j {:trigger types[j]} :: 0 <= j < i ==> !Declares(g, types[j], member)
  }

  lemma {:induction false} LooksUpIff(g: Globals, types: seq<Name>, member: Name, s: Name)
    ensures FirstDeclaring(g, types, member) == Some(s) <==> LooksUp(g, types, member, s)
  {
    if types == [] {
    } else if Declares(g, types[0], member) {
    } else {
      LooksUpIff(g, types[1..], member, s);
      if LooksUp(g, types[1..], member, s) {
        var i :| 0 <= i < |types[1..]| && Declares(g, types[1..][i], member) && s == types[1..][i] + "." + member &&
                 forall j {:trigger types[1..][j]} :: 0 <= j < i ==> !Declares(g, types[1..][j], member);
        assert types[i + 1] == types[1..][i];
        forall j | 0 <= j < i + 1 ensures !Declares(g, types[j], member) {
          assert j > 0 ==> types[j] == types[1..][j - 1];
        }
      }
      if LooksUp(g, types, member, s) {
        var i :| 0 <= i < |types| && Declares(g, types[i], member) && s == types[i] + "." + member &&
                 forall j {:trigger types[j]} :: 0 <= j < i ==> !Declares(g, types[j], member);
        assert types[1..][i - 1] == types[i];
        assert forall j {:trigger types[1..][j]} :: 0 <= j < i - 1 ==> types[1..][j] == types[j + 1];
      }
    }
  }

  // ---------------------------------------------------------------------------------------------
  // References.

  /** A field of the class or of something above it, not looked for above java.lang.Object. */
  ghost predicate HasField(g: Globals, className: Name, f: Name) {
    && f in g && g[f].kind.Field? && OwnerNameOf(f) != JAVA_LANG_OBJECT
    && Reaches(ParentMapFor(g) - {JAVA_LANG_OBJECT}, className, OwnerNameOf(f))
  }

  /** What an instance needs: its class, the fields it has and the initializer. */
  ghost predicate InstanceNeeds(g: Globals, className: Name, y: Name) {
    y == className || HasField(g, className, y) || y == className + "." + "$init"
  }

  ghost predicate MentionNeeds(g: Globals, owner: Name, moduleName: Name, m: Mention, y: Name) {
    match m
    case Named(text) => ResolvesTo(g, owner, moduleName, text, y)
    case Selected(receiverType, member) =>
      exists n {:trigger ResolvesTo(g, owner, moduleName, receiverType, n)} ::
        && ResolvesTo(g, owner, moduleName, receiverType, n) && IsClassLike(g[n].kind)
        && LooksUp(g, LinearizedTypeNames(ParentMapFor(g), n), member, y)
    case Constructed(className) =>
      exists n {:trigger ResolvesTo(g, owner, moduleName, className, n)} ::
        ResolvesTo(g, owner, moduleName, className, n) && InstanceNeeds(g, n, y)
    case IfDefined(text) => y == text
  }

  predicate IsParent(g: Globals, x: Name, p: Name)
    requires x in g
  {
    p in g[x].parents && p != JAVA_LANG_OBJECT
  }

  /** A class or trait: its parents, their methods, its fields. */
  ghost predicate TypeNeeds(g: Globals, x: Name, y: Name)
    requires x in g && y in g
  {
    IsParent(g, x, y) || (IsFunction(g[y].kind) && IsParent(g, x, OwnerNameOf(y))) || HasField(g, x, y)
  }

  /** A method or field: its type, the failures it may raise, its module, and what its body mentions. */
  ghost predicate MemberNeeds(g: Globals, x: Name, y: Name)
    requires x in g
  {
    var d, owner := g[x], OwnerNameOf(x);
    || (d.kind.Field? && y == d.resultType)
    || ((d.kind.FunctionDecl? || d.kind.FunctionDef?) && y in d.failures)
    || ((d.kind.FunctionDef? || (d.kind.Field? && d.hasBody)) &&
        ((owner in g && g[owner].kind.Module? && InstanceNeeds(g, owner, y)) ||
         exists m {:trigger MentionNeeds(g, owner, d.moduleName, m, y)} ::
           m in d.body && MentionNeeds(g, owner, d.moduleName, m, y)))
  }

  ghost predicate Refers(g: Globals, x: Name, y: Name) {
    x in g && y in g && if IsClassLike(g[x].kind) then TypeNeeds(g, x, y) else MemberNeeds(g, x, y)
  }

  lemma MentionIff(g: Globals, owner: Name, moduleName: Name, m: Mention, y: Name)
    requires y in g
    ensures y in MentionReferences(g, owner, moduleName, m) <==> MentionNeeds(g, owner, moduleName, m, y)
  {
    match m
    case Named(text) => ResolvesIff(g, owner, moduleName, text, y);
    case Selected(receiverType, member) =>
      var r := ResolveGlobal(g, owner, moduleName, receiverType);
      forall n ensures r == Some(n) <==> ResolvesTo(g, owner, moduleName, receiverType, n) {
        ResolvesIff(g, owner, moduleName, receiverType, n);
      }
      if r.Some? {
        LooksUpIff(g, LinearizedTypeNames(ParentMapFor(g), r.value), member, y);
      }
    case Constructed(className) =>
      var r := ResolveGlobal(g, owner, moduleName, className);
      forall n ensures r == Some(n) <==> ResolvesTo(g, owner, moduleName, className, n) {
        ResolvesIff(g, owner, moduleName, className, n);
      }
    case IfDefined(text) =>
  }

  lemma {:induction false} BodyIff(g: Globals, owner: Name, moduleName: Name, body: seq<Mention>, y: Name)
    requires y in g
    ensures y in BodyReferences(g, owner, moduleName, body) <==>
            exists m {:trigger MentionNeeds(g, owner, moduleName, m, y)} ::
              m in body && MentionNeeds(g, owner, moduleName, m, y)
  {
    if body == [] {
    } else {
      assert body == [body[0]] + body[1..];
      MentionIff(g, owner, moduleName, body[0], y);
      BodyIff(g, owner, moduleName, body[1..], y);
    }
  }

  lemma RefersIff(g: Globals, x: Name, y: Name)
    requires x in g && y in g
    ensures y in DefinitionReferences(g, x) <==> Refers(g, x, y)
  {
    if !IsClassLike(g[x].kind) {
      BodyIff(g, OwnerNameOf(x), g[x].moduleName, g[x].body, y);
    }
  }

  // ---------------------------------------------------------------------------------------------
  // Overriding.

  /** A method called on a receiver: its first parameter is the class or trait that owns it. */
  predicate TakesReceiver(g: Globals, f: Name) {
    && f in g && (g[f].kind.FunctionDecl? || g[f].kind.FunctionDef?)
    && OwnerNameOf(f) != "" && OwnerNameOf(f) in g
    && (g[OwnerNameOf(f)].kind.Class? || g[OwnerNameOf(f)].kind.Trait?)
    && |g[f].parameterTypes| > 0 && g[f].parameterTypes[0] == OwnerNameOf(f)
  }

  predicate SameParameters(a: seq<Name>, b: seq<Name>) {
    |a| == |b| && forall i {:trigger a[i]} {:trigger b[i]} :: 1 <= i < |a| ==> a[i] == b[i]
  }

  /** The same member of a class below, with the same further parameters and a result type at or below. */
  ghost predicate Overrides(g: Globals, candidate: Name, target: Name) {
    && TakesReceiver(g, candidate) && TakesReceiver(g, target) && candidate != target
    && MemberNameOf(candidate) == MemberNameOf(target)
    && Subtype(ParentMapFor(g), OwnerNameOf(candidate), OwnerNameOf(target))
    && SameParameters(g[candidate].parameterTypes, g[target].parameterTypes)
    && Subtype(ParentMapFor(g), g[candidate].resultType, g[target].resultType)
  }

  lemma OverridesIff(g: Globals, target: Name, candidate: Name)
    ensures OverriddenBy(g, target, candidate) <==> Overrides(g, candidate, target)
  {
    if TakesReceiver(g, candidate) && TakesReceiver(g, target) {
      var c, t := g[candidate].parameterTypes, g[target].parameterTypes;
      if |c| == |t| {
        assert forall i {:trigger c[i]} :: 1 <= i < |c| ==> c[i] == c[1..][i - 1] && t[i] == t[1..][i - 1];
      }
    }
  }

  // ---------------------------------------------------------------------------------------------
  // The closure.

  /** x refers to y, or to a method that y overrides. */
  ghost predicate Needs(g: Globals, x: Name, y: Name) {
    Refers(g, x, y) ||
    exists r {:trigger Refers(g, x, r)} {:trigger Overrides(g, y, r)} :: Refers(g, x, r) && Overrides(g, y, r)
  }

  ghost predicate KeepsNeeds(g: Globals, roots: set<Name>, s: set<Name>) {
    roots <= s && forall x, y {:trigger Needs(g, x, y)} :: x in s && Needs(g, x, y) ==> y in s
  }

  /** A name mentioned in a body that no definition has. */
  ghost predicate Dangles(g: Globals, x: Name, m: Mention)
    requires x in g
  {
    && (g[x].kind.FunctionDef? || (g[x].kind.Field? && g[x].hasBody)) && m in g[x].body && m.Named?
    && forall n {:trigger ResolvesTo(g, OwnerNameOf(x), g[x].moduleName, m.text, n)} ::
         !ResolvesTo(g, OwnerNameOf(x), g[x].moduleName, m.text, n)
  }

  /** An entry point: the runtime's, or every function called main when there is none. */
  predicate IsRoot(g: Globals, name: Name) {
    name in g &&
    if "scala.scalanative.runtime.main" in g then name == "scala.scalanative.runtime.main"
    else (g[name].kind.FunctionDecl? || g[name].kind.FunctionDef?) && (name == "main" || MemberNameOf(name) == "main")
  }

  /** The initializer of a class that kept code constructs is kept. */
  lemma ConstructedKeepsInitializer(g: Globals, roots: set<Name>, kept: set<Name>, x: Name, text: Name, n: Name)
    requires KeepsNeeds(g, roots, kept) && x in kept && x in g && g[x].kind.FunctionDef?
    requires Constructed(text) in g[x].body && ResolvesTo(g, OwnerNameOf(x), g[x].moduleName, text, n)
    requires n + "." + "$init" in g
    ensures n in kept && n + "." + "$init" in kept
  {
    var owner, moduleName := OwnerNameOf(x), g[x].moduleName;
    assert MentionNeeds(g, owner, moduleName, Constructed(text), n + "." + "$init");
    assert MentionNeeds(g, owner, moduleName, Constructed(text), n);
    assert Needs(g, x, n + "." + "$init") && Needs(g, x, n);
  }

  /** So is that of the module a kept member belongs to. */
  lemma MemberKeepsModule(g: Globals, roots: set<Name>, kept: set<Name>, x: Name)
    requires KeepsNeeds(g, roots, kept) && x in kept && x in g && g[x].kind.FunctionDef?
    requires OwnerNameOf(x) in g && g[OwnerNameOf(x)].kind.Module?
    ensures OwnerNameOf(x) in kept && (OwnerNameOf(x) + "." + "$init" in g ==> OwnerNameOf(x) + "." + "$init" in kept)
  {
    var owner := OwnerNameOf(x);
    assert Needs(g, x, owner);
    assert owner + "." + "$init" in g ==> Needs(g, x, owner + "." + "$init");
  }
}
