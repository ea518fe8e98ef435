/** The verifier's order test on handlers, in terms of which exceptions a handler takes when it runs. */
module HandlerOrder {
  import opened Basics
  import opened QualifiedNames
  import opened LinkerReferences
  import opened Types
  import opened Bodies
  import opened TypePreservation
  import opened TypeContexts

  // ---------------------------------------------------------------------------------------------
  // What handlers take.

  ghost predicate TakesEveryException(c: Context, t: Type) {
    forall v {:trigger IsThrowable(c, v)} :: IsThrowable(c, v) ==> Catches(c, t, v)
  }

  ghost predicate TakesWhatever(c: Context, earlier: Type, later: Type) {
    forall v {:trigger Catches(c, earlier, v)} {:trigger Catches(c, later, v)} ::
      Catches(c, later, v) ==> Catches(c, earlier, v)
  }

  ghost predicate TakesExceptionsOf(c: Context, earlier: Type, later: Type) {
    forall v {:trigger Catches(c, earlier, v)} {:trigger Catches(c, later, v)} ::
      IsThrowable(c, v) && Catches(c, later, v) ==> Catches(c, earlier, v)
  }

  /** A handler names a class or a trait in full, or everything. */
  predicate NamesItself(c: Context, t: Type) {
    IsCatchAll(t) || (t.ClassType? && var r := c.resolve(c.spell(t)); r.Some? && r.value.own == t)
  }

  predicate IsCaughtClass(c: Context, t: Type) {
    IsCatchAll(t) || var r := c.resolve(c.spell(t)); r.Some? && r.value.isClass && !r.value.isTrait
  }

  /** Nothing lies above Object and java.lang.Object. */
  ghost predicate ObjectsOnTop(c: Context) {
    forall a, b {:trigger c.below(a, b)} :: IsCatchAll(a) && c.below(a, b) ==> a == b
  }

  ghost predicate OrderAssumed(c: Context) {
    BelowIsPreorder(c) && ObjectsOnTop(c)
  }

  /** Programs with ordinary names meet this. */
  lemma OrdinaryNamesKeepObjectsOnTop(names: Names, g: Globals, owner: Name, moduleName: Name,
                                      constructorTypes: Type -> seq<Type>)
    requires NamesClasses(names) && OrdinaryNames(names, g)
    ensures OrderAssumed(ContextFor(names, g, owner, moduleName, constructorTypes))
  {
    var c := ContextFor(names, g, owner, moduleName, constructorTypes);
    ContextIsPreorder(names, g, owner, moduleName, constructorTypes);
    forall a, b | IsCatchAll(a) && c.below(a, b) ensures a == b {
      if a != b {
        RelatedIsClass(names, g, a, b);
        assert names.spell(a) == JAVA_LANG_OBJECT;
        RelatedIsListed(names, ParentMapFor(g), a, b);
        NothingAboveObject(names, g, b);
      }
    }
  }

  lemma NothingAboveObject(names: Names, g: Globals, b: Type)
    requires NamesClasses(names) && SubtypeOf(names, ParentMapFor(g), JAVA_LANG_OBJECT_TYPE, b)
    ensures b == JAVA_LANG_OBJECT_TYPE
  {
  }

  // ---------------------------------------------------------------------------------------------
  // The test.

  lemma Takes(c: Context, t: Type, v: Value)
    requires NamesItself(c, t)
    ensures Catches(c, t, v) <==> IsCatchAll(t) || v.tag.NullType? || c.below(v.tag, t)
  {
  }

  lemma TakesEveryExceptionIff(c: Context, t: Type)
    requires OrderAssumed(c) && NamesItself(c, t)
    ensures TakesEveryException(c, t) <==> IsCatchAll(t) || c.below(THROWABLE, t)
  {
    if TakesEveryException(c, t) {
      assert IsThrowable(c, Value(THROWABLE, 0));
      Takes(c, t, Value(THROWABLE, 0));
    }
    if IsCatchAll(t) || c.below(THROWABLE, t) {
      forall v | IsThrowable(c, v) ensures Catches(c, t, v) {
        Takes(c, t, v);
      }
    }
  }

  lemma TakesWhateverIff(c: Context, earlier: Type, later: Type)
    requires OrderAssumed(c) && NamesItself(c, earlier) && NamesItself(c, later)
    ensures TakesWhatever(c, earlier, later) <==> IsCatchAll(earlier) || c.below(later, earlier)
  {
    if TakesWhatever(c, earlier, later) {
      Takes(c, later, Value(later, 0));
      Takes(c, earlier, Value(later, 0));
    }
    if IsCatchAll(earlier) || c.below(later, earlier) {
      forall v | Catches(c, later, v) ensures Catches(c, earlier, v) {
        Takes(c, later, v);
        Takes(c, earlier, v);
      }
    }
  }

  /** Main result: a handler is out of order exactly if the earlier one takes every exception, or whatever this one
      could take. */
  lemma ShadowsIff(c: Context, earlier: Type, later: Type)
    requires OrderAssumed(c) && NamesItself(c, earlier) && NamesItself(c, later)
    ensures CatchShadows(c, earlier, later) <==> TakesEveryException(c, earlier) || TakesWhatever(c, earlier, later)
  {
    TakesEveryExceptionIff(c, earlier);
    TakesWhateverIff(c, earlier, later);
  }

  /** For a class it is enough to look at exceptions. */
  lemma ClassShadowsIff(c: Context, earlier: Type, later: Type)
    requires OrderAssumed(c) && NamesItself(c, earlier) && NamesItself(c, later)
    requires IsCaughtClass(c, later) && IsValidCatch(c, later)
    ensures CatchShadows(c, earlier, later) <==> TakesExceptionsOf(c, earlier, later)
  {
    ShadowsIff(c, earlier, later);
    if TakesExceptionsOf(c, earlier, later) {
      var v := Value(if IsCatchAll(later) then THROWABLE else later, 0);
      Takes(c, later, v);
      Takes(c, earlier, v);
      assert IsThrowable(c, v) && Catches(c, later, v);
      TakesEveryExceptionIff(c, earlier);
      TakesWhateverIff(c, earlier, later);
    }
  }

  const E := ClassType("E")
  const T := ClassType("T")

  /** An exception class E with a trait T, which no other exception has. */
  function OneException(): Context {
    Context((a, b) => a == b || (a == E && (b == T || b == THROWABLE)),
            name => if name == "E" then Some(Resolution(true, false, E, E))
                    else if name == "T" then Some(Resolution(false, true, T, T)) else None,
            (t: Type) => if t.ClassType? then t.name else "",
            t => [])
  }

  /** For a trait it is not: this handler of T is in order behind one of E, and takes no exception. */
  lemma TraitHandlerNeverRuns()
    ensures var c := OneException();
            && OrderAssumed(c) && NamesItself(c, E) && NamesItself(c, T) && IsValidCatch(c, E) && IsValidCatch(c, T)
            && TakesExceptionsOf(c, E, T) && !CatchShadows(c, E, T)
  {
  }

  // ---------------------------------------------------------------------------------------------
  // Whole tries.

  ghost predicate HandlersNameThemselves(c: Context, e: Expr)
    requires e.Try?
  {
    forall k {:trigger e.handlers[k]} :: 0 <= k < |e.handlers| ==>
      NamesItself(c, e.handlers[k].caught) && IsValidCatch(c, e.handlers[k].caught)
  }

  function CaughtTypes(e: Expr, k: nat): seq<Type>
    requires e.Try? && k <= |e.handlers|
  {
    seq(k, i requires 0 <= i < k => e.handlers[i].caught)
  }

  /** No handler before the k-th takes every exception, or whatever the k-th could take. */
  ghost predicate Unshadowed(c: Context, e: Expr, k: nat)
    requires e.Try? && k < |e.handlers|
  {
    forall i {:trigger e.handlers[i]} :: 0 <= i < k ==>
      !TakesEveryException(c, e.handlers[i].caught) && !TakesWhatever(c, e.handlers[i].caught, e.handlers[k].caught)
  }

  ghost predicate NoneShadowed(c: Context, e: Expr, low: nat)
    requires e.Try?
  {
    forall k {:trigger Unshadowed(c, e, k)} :: low <= k < |e.handlers| ==> Unshadowed(c, e, k)
  }

  ghost predicate BodiesAccepted(c: Context, s: Scope, e: Expr)
    requires e.Try?
  {
    forall k {:trigger e.handlers[k]} :: 0 <= k < |e.handlers| ==> CheckHandler(c, s, e, k)
  }

  lemma ShadowedAt(c: Context, e: Expr, k: nat, sawCatchAll: bool)
    requires e.Try? && k < |e.handlers| && OrderAssumed(c) && HandlersNameThemselves(c, e)
    requires sawCatchAll <==> exists i {:trigger e.handlers[i]} :: 0 <= i < k && IsCatchAll(e.handlers[i].caught)
    ensures CatchInOrder(c, CaughtTypes(e, k), sawCatchAll, e.handlers[k].caught) <==> Unshadowed(c, e, k)
  {
    var caught := e.handlers[k].caught;
    forall i | 0 <= i < k
      ensures CatchShadows(c, e.handlers[i].caught, caught) <==>
              TakesEveryException(c, e.handlers[i].caught) || TakesWhatever(c, e.handlers[i].caught, caught)
      ensures CaughtTypes(e, k)[i] == e.handlers[i].caught
    {
      ShadowsIff(c, e.handlers[i].caught, caught);
    }
  }

  lemma {:induction false} HandlersFrom(c: Context, s: Scope, e: Expr, k: nat, sawCatchAll: bool)
    requires e.Try? && k <= |e.handlers| && OrderAssumed(c) && HandlersNameThemselves(c, e)
    requires BodiesAccepted(c, s, e)
    requires sawCatchAll <==> exists i {:trigger e.handlers[i]} :: 0 <= i < k && IsCatchAll(e.handlers[i].caught)
    ensures CheckHandlers(c, s, e, k, CaughtTypes(e, k), sawCatchAll) <==> NoneShadowed(c, e, k)
    decreases |e.handlers| - k
  {
    if k < |e.handlers| {
      var caught := e.handlers[k].caught;
      ShadowedAt(c, e, k, sawCatchAll);
      assert CaughtTypes(e, k + 1) == CaughtTypes(e, k) + [caught];
      HandlersFrom(c, s, e, k + 1, sawCatchAll || IsCatchAll(caught));
      assert NoneShadowed(c, e, k) <==> NoneShadowed(c, e, k + 1) && Unshadowed(c, e, k);
    }
  }

  /** Handlers whose bodies are accepted are accepted exactly if none is shadowed. */
  lemma HandlersOkIff(c: Context, s: Scope, e: Expr)
    requires e.Try? && OrderAssumed(c) && HandlersNameThemselves(c, e) && BodiesAccepted(c, s, e)
    ensures CheckHandlers(c, s, e, 0, [], false) <==> NoneShadowed(c, e, 0)
  {
    assert CaughtTypes(e, 0) == [];
    HandlersFrom(c, s, e, 0, false);
  }

  lemma {:induction false} FirstTaker(c: Context, w: World, s: Scope, e: Expr, i: nat, k: nat, v: Value, store: Store)
    requires e.Try? && i <= k < |e.handlers|
    requires forall j {:trigger e.handlers[j]} :: i <= j < k ==> !Catches(c, e.handlers[j].caught, v)
    ensures EvalHandlers(c, w, s, e, i, v, store) == EvalHandlers(c, w, s, e, k, v, store)
    decreases k - i
  {
    if i < k {
      assert e.handlers[i] == e.handlers[i];
      FirstTaker(c, w, s, e, i + 1, k, v, store);
    }
  }

  /** Every handler of an accepted try that names a class can run: it is the first to take some exception. */
  lemma HandlerCanRun(c: Context, w: World, s: Scope, e: Expr, k: nat, store: Store) returns (v: Value)
    requires e.Try? && k < |e.handlers| && OrderAssumed(c) && HandlersNameThemselves(c, e)
    requires BodiesAccepted(c, s, e) && CheckHandlers(c, s, e, 0, [], false)
    requires IsCaughtClass(c, e.handlers[k].caught)
    ensures IsThrowable(c, v) && Catches(c, e.handlers[k].caught, v)
    ensures EvalHandlers(c, w, s, e, 0, v, store) == EvalHandlers(c, w, s, e, k, v, store)
  {
    var caught := e.handlers[k].caught;
    HandlersOkIff(c, s, e);
    assert Unshadowed(c, e, k);
    v := Value(if IsCatchAll(caught) then THROWABLE else caught, 0);
    Takes(c, caught, v);
    forall j | 0 <= j < k ensures !Catches(c, e.handlers[j].caught, v) {
      TakesEveryExceptionIff(c, e.handlers[j].caught);
      TakesWhateverIff(c, e.handlers[j].caught, caught);
      Takes(c, e.handlers[j].caught, v);
    }
    FirstTaker(c, w, s, e, 0, k, v, store);
  }
}
