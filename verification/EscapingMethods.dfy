/** The receiver-escape fixpoint of nir/src/Verifier.cpp. */
module EscapingMethods {
  import opened Basics
  import opened Closure
  import opened ParentGraph
  import opened Linearization
  import opened QualifiedNames

  /** What the scan of the method bodies hands to the fixpoint; `overrides(c, m)` says that c overrides m. */
  datatype Effects = Effects(overrides: (Name, Name) -> bool,
                             receiverMethods: set<Name>,
                             direct: set<Name>,
                             dependencies: map<Name, set<Name>>)

  /** candidate has the method's member name and its owner lies at or below the method's owner. */
  predicate OverridesIn(pm: ParentMap, candidate: Name, overridden: Name) {
    && OwnerNameOf(overridden) != "" && MemberNameOf(overridden) != ""
    && MemberNameOf(candidate) == MemberNameOf(overridden)
    && OwnerNameOf(overridden) in LinearizedTypeNames(pm, OwnerNameOf(candidate))
  }

  function EffectsOf(pm: ParentMap, receiverMethods: set<Name>, direct: set<Name>,
                     dependencies: map<Name, set<Name>>): Effects
  {
    Effects((candidate, overridden) => OverridesIn(pm, candidate, overridden), receiverMethods, direct, dependencies)
  }

  predicate IsOrOverrides(e: Effects, c: Name, callee: Name) {
    callee == c || e.overrides(c, callee)
  }

  ghost predicate Calls(e: Effects, m: Name, c: Name) {
    m in e.dependencies && exists callee {:trigger IsOrOverrides(e, c, callee)} ::
      callee in e.dependencies[m] && IsOrOverrides(e, c, callee)
  }

  /** If c escapes then so does m. */
  ghost predicate Spreads(e: Effects, c: Name, m: Name) {
    (m in e.receiverMethods && e.overrides(c, m)) || Calls(e, m, c)
  }

  ghost function SpreadEdges(e: Effects): (Name, Name) -> bool {
    (c, m) => Spreads(e, c, m)
  }

  /** A chain of overridden and called methods leads from m to a direct escaper. */
  ghost predicate Escapes(e: Effects, m: Name) {
    Reached(e.direct, SpreadEdges(e), m)
  }

  ghost predicate ClosedUnderSpreading(e: Effects, s: set<Name>) {
    Closed(e.direct, SpreadEdges(e), s)
  }

  lemma EscapesStep(e: Effects, c: Name, m: Name)
    requires Escapes(e, c) && Spreads(e, c, m)
    ensures Escapes(e, m)
  {
    ReachedStep(e.direct, SpreadEdges(e), c, m);
  }

  method HasEscapingOverride(e: Effects, escaping: set<Name>, m: Name) returns (found: bool)
    ensures found <==> exists c :: c in escaping && e.overrides(c, m)
  {
    var left := escaping;
    while left != {}
      invariant left <= escaping
      invariant forall c :: c in escaping && c !in left ==> !e.overrides(c, m)
    {
      var candidate :| candidate in left;
      left := left - {candidate};
      if e.overrides(candidate, m) {
        return true;
      }
    }
    return false;
  }

  /** No receiver method in `done` is overridden by an escaper without escaping itself. */
  ghost predicate OverridesSpread(e: Effects, escaping: set<Name>, done: set<Name>) {
    forall c, m {:trigger e.overrides(c, m)} :: c in escaping && m in done && e.overrides(c, m) ==> m in escaping
  }

  /** One pass over the receiver methods, in any order. */
  method SpreadToOverridden(e: Effects, before: set<Name>) returns (escaping: set<Name>)
    requires forall m :: m in before ==> Escapes(e, m)
    ensures before <= escaping <= before + e.receiverMethods
    ensures forall m :: m in escaping ==> Escapes(e, m)
    ensures escaping == before ==> OverridesSpread(e, before, e.receiverMethods)
  {
    escaping := before;
    var left := e.receiverMethods;
    while left != {}
      invariant left <= e.receiverMethods && before <= escaping <= before + e.receiverMethods
      invariant forall m :: m in escaping ==> Escapes(e, m)
      invariant escaping == before ==> OverridesSpread(e, before, e.receiverMethods - left)
    {
      var m :| m in left;
      left := left - {m};
      if m !in escaping {
        var found := HasEscapingOverride(e, escaping, m);
        if found {
          var c :| c in escaping && e.overrides(c, m);
          EscapesStep(e, c, m);
          escaping := escaping + {m};
        }
      }
    }
  }

  /** Whether one of the callees escapes or has an escaping override. */
  method DependsOnEscaping(e: Effects, escaping: set<Name>, m: Name) returns (found: bool)
    requires m in e.dependencies
    ensures found <==> exists c :: c in escaping && Calls(e, m, c)
  {
    var callees := e.dependencies[m];
    var left := callees;
    while left != {}
      invariant left <= callees
      invariant forall callee, c {:trigger IsOrOverrides(e, c, callee)} ::
                  callee in callees && callee !in left && c in escaping ==> !IsOrOverrides(e, c, callee)
    {
      var callee :| callee in left;
      left := left - {callee};
      var overridden := HasEscapingOverride(e, escaping, callee);
      if callee in escaping {
        assert IsOrOverrides(e, callee, callee) && Calls(e, m, callee);
        return true;
      }
      if overridden {
        ghost var c :| c in escaping && e.overrides(c, callee);
        assert IsOrOverrides(e, c, callee) && Calls(e, m, c);
        return true;
      }
    }
    return false;
  }

  /** No method in `done` calls an escaper without escaping itself. */
  ghost predicate CallsSpread(e: Effects, escaping: set<Name>, done: set<Name>) {
    forall c, m {:trigger Calls(e, m, c)} :: c in escaping && m in done && Calls(e, m, c) ==> m in escaping
  }

  /** One pass over the methods with recorded callees, in any order. */
  method SpreadToCallers(e: Effects, before: set<Name>) returns (escaping: set<Name>)
    requires forall m :: m in before ==> Escapes(e, m)
    ensures before <= escaping <= before + e.dependencies.Keys
    ensures forall m :: m in escaping ==> Escapes(e, m)
    ensures escaping == before ==> CallsSpread(e, before, e.dependencies.Keys)
  {
    escaping := before;
    var left := e.dependencies.Keys;
    while left != {}
      invariant left <= e.dependencies.Keys && before <= escaping <= before + e.dependencies.Keys
      invariant forall m :: m in escaping ==> Escapes(e, m)
      invariant escaping == before ==> CallsSpread(e, before, e.dependencies.Keys - left)
    {
      var m :| m in left;
      left := left - {m};
      if m !in escaping {
        var found := DependsOnEscaping(e, escaping, m);
        if found {
          ghost var c :| c in escaping && Calls(e, m, c);
          EscapesStep(e, c, m);
          escaping := escaping + {m};
        }
      }
    }
  }

  /** The loop ends with the least closed set, whatever order the passes visit their methods in. */
  method ComputeEscapingReceiverMethods(e: Effects) returns (escaping: set<Name>)
    ensures ClosedUnderSpreading(e, escaping)
    ensures forall other :: ClosedUnderSpreading(e, other) ==> escaping <= other
    ensures forall m :: m in escaping <==> Escapes(e, m)
  {
    escaping := e.direct;
    forall m | m in e.direct
      ensures Escapes(e, m)
    {
      ReachedStart(e.direct, SpreadEdges(e), m);
    }
    var changed := true;
    while changed
      invariant e.direct <= escaping
      invariant forall m :: m in escaping ==> Escapes(e, m)
      invariant !changed ==> ClosedUnderSpreading(e, escaping)
      decreases e.receiverMethods + e.dependencies.Keys - escaping, changed
    {
      var overridden := SpreadToOverridden(e, escaping);
      var called := SpreadToCallers(e, overridden);
      changed := called != escaping;
      assert called != escaping ==> exists m :: m in called && m !in escaping;
      escaping := called;
    }
    ClosedReachedIsLeast(e.direct, SpreadEdges(e), escaping);
  }

  // ---------------------------------------------------------------------------------------------
  // What the set says about calls.

  /** Selecting `method` on some receiver may run c: the same member, declared by the owner or by a class below it. */
  ghost predicate MayRun(pm: ParentMap, c: Name, method_: Name) {
    c == method_ ||
    (&& OwnerNameOf(method_) != "" && MemberNameOf(method_) != "" && MemberNameOf(c) == MemberNameOf(method_)
     && Reaches(pm, OwnerNameOf(c), OwnerNameOf(method_)))
  }

  /** On an acyclic, consistent hierarchy the search in the linearization finds exactly the classes above. */
  lemma MayRunIffOverrides(pm: ParentMap, c: Name, method_: Name)
    requires Acyclic(pm, OwnerNameOf(c)) && Consistent(pm, OwnerNameOf(c))
    ensures MayRun(pm, c, method_) <==> c == method_ || OverridesIn(pm, c, method_)
  {
    LinearizationOrder(pm, OwnerNameOf(c));
    LinearizedUnfold(pm, OwnerNameOf(c));
  }

  /** No method that may run when `target` is selected is in the computed set, if m is not: neither in place of m itself
      nor at a call that m makes on its receiver. */
  lemma DispatchStaysOutside(pm: ParentMap, receiverMethods: set<Name>, direct: set<Name>,
                             dependencies: map<Name, set<Name>>, escaping: set<Name>, m: Name, target: Name, c: Name)
    requires ClosedUnderSpreading(EffectsOf(pm, receiverMethods, direct, dependencies), escaping) && m !in escaping
    requires (m in receiverMethods && target == m) || (m in dependencies && target in dependencies[m])
    requires MayRun(pm, c, target) && Acyclic(pm, OwnerNameOf(c)) && Consistent(pm, OwnerNameOf(c))
    ensures c !in escaping
  {
    var e := EffectsOf(pm, receiverMethods, direct, dependencies);
    MayRunIffOverrides(pm, c, target);
    assert IsOrOverrides(e, c, target);
    assert c == m || Spreads(e, c, m);
    assert c == m || SpreadEdges(e)(c, m);
  }

  // ---------------------------------------------------------------------------------------------
  // The set in terms of what may run.

  /** m is selected itself, or it selects a method on its receiver. */
  predicate Selects(receiverMethods: set<Name>, dependencies: map<Name, set<Name>>, m: Name, target: Name) {
    (m in receiverMethods && target == m) || (m in dependencies && target in dependencies[m])
  }

  ghost predicate RunsEscaper(pm: ParentMap, receiverMethods: set<Name>, dependencies: map<Name, set<Name>>, m: Name,
                              target: Name, c: Name) {
    Selects(receiverMethods, dependencies, m, target) && MayRun(pm, c, target)
  }

  /** Direct escapers belong to the set, and so does every method that, selected, may run or select one of the set. */
  ghost predicate HoldsEscapers(pm: ParentMap, receiverMethods: set<Name>, direct: set<Name>,
                                dependencies: map<Name, set<Name>>, s: set<Name>) {
    && direct <= s
    && forall m, target, c {:trigger RunsEscaper(pm, receiverMethods, dependencies, m, target, c)} ::
         c in s && RunsEscaper(pm, receiverMethods, dependencies, m, target, c) ==> m in s
  }

  ghost predicate WellFormed(pm: ParentMap) {
    forall owner {:trigger Acyclic(pm, owner)} :: Acyclic(pm, owner) && Consistent(pm, owner)
  }

  lemma HoldsEscapersIff(pm: ParentMap, receiverMethods: set<Name>, direct: set<Name>,
                         dependencies: map<Name, set<Name>>, s: set<Name>)
    requires WellFormed(pm)
    ensures HoldsEscapers(pm, receiverMethods, direct, dependencies, s) <==>
            ClosedUnderSpreading(EffectsOf(pm, receiverMethods, direct, dependencies), s)
  {
    var e := EffectsOf(pm, receiverMethods, direct, dependencies);
    if ClosedUnderSpreading(e, s) {
      forall m, target, c | c in s && RunsEscaper(pm, receiverMethods, dependencies, m, target, c) ensures m in s {
        SpreadsIfRun(pm, receiverMethods, direct, dependencies, m, target, c);
        assert c == m || SpreadEdges(e)(c, m);
      }
    }
    if HoldsEscapers(pm, receiverMethods, direct, dependencies, s) {
      forall c, m | c in s && SpreadEdges(e)(c, m) ensures m in s {
        var target := RunIfSpreads(pm, receiverMethods, direct, dependencies, m, c);
        assert RunsEscaper(pm, receiverMethods, dependencies, m, target, c);
      }
    }
  }

  lemma SpreadsIfRun(pm: ParentMap, receiverMethods: set<Name>, direct: set<Name>, dependencies: map<Name, set<Name>>,
                     m: Name, target: Name, c: Name)
    requires WellFormed(pm) && RunsEscaper(pm, receiverMethods, dependencies, m, target, c)
    ensures c == m || Spreads(EffectsOf(pm, receiverMethods, direct, dependencies), c, m)
  {
    assert Acyclic(pm, OwnerNameOf(c));
    MayRunIffOverrides(pm, c, target);
    assert IsOrOverrides(EffectsOf(pm, receiverMethods, direct, dependencies), c, target);
  }

  lemma RunIfSpreads(pm: ParentMap, receiverMethods: set<Name>, direct: set<Name>, dependencies: map<Name, set<Name>>,
                     m: Name, c: Name) returns (target: Name)
    requires WellFormed(pm) && Spreads(EffectsOf(pm, receiverMethods, direct, dependencies), c, m)
    ensures RunsEscaper(pm, receiverMethods, dependencies, m, target, c)
  {
    var e := EffectsOf(pm, receiverMethods, direct, dependencies);
    assert Acyclic(pm, OwnerNameOf(c));
    if m in receiverMethods && e.overrides(c, m) {
      target := m;
    } else {
      target :| target in dependencies[m] && IsOrOverrides(e, c, target);
    }
    MayRunIffOverrides(pm, c, target);
  }

  /** Main result: on a well-formed hierarchy the computed set is the least one that holds the direct escapers and every
      method that may run or select one of its own. */
  lemma EscapersAreLeast(pm: ParentMap, receiverMethods: set<Name>, direct: set<Name>,
                         dependencies: map<Name, set<Name>>, escaping: set<Name>)
    requires WellFormed(pm)
    requires forall m :: m in escaping <==> Escapes(EffectsOf(pm, receiverMethods, direct, dependencies), m)
    ensures HoldsEscapers(pm, receiverMethods, direct, dependencies, escaping)
    ensures forall other :: HoldsEscapers(pm, receiverMethods, direct, dependencies, other) ==> escaping <= other
  {
    var e := EffectsOf(pm, receiverMethods, direct, dependencies);
    forall m | m in e.direct ensures m in escaping {
      ReachedStart(e.direct, SpreadEdges(e), m);
    }
    forall c, m | c in escaping && SpreadEdges(e)(c, m) ensures m in escaping {
      EscapesStep(e, c, m);
    }
    HoldsEscapersIff(pm, receiverMethods, direct, dependencies, escaping);
    ClosedReachedIsLeast(e.direct, SpreadEdges(e), escaping);
    forall other | HoldsEscapers(pm, receiverMethods, direct, dependencies, other) ensures escaping <= other {
      HoldsEscapersIff(pm, receiverMethods, direct, dependencies, other);
    }
  }
}
