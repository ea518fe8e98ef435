/** Rules for which values of a zone may refer to its arena, and what the escape analysis reports in terms of them. */
module EscapeRules {
  import opened Basics
  import opened Types
  import opened ZoneBodies

  /** From state s the value e may be a reference into the arena, or not, and leaves the state s2; nothing escapes. */
  ghost predicate Flows(c: ZoneContext, s: ZoneState, e: Expr, flagged: bool, s2: ZoneState)
    decreases e, 1
  {
    match e
    case Literal(_, _) => !flagged && s2 == s
    case Local(x) => s2 == s && (flagged <==> x in s.arenaReferences && s.arenaReferences[x])
    case New(_, _) => flagged && exists flags, states :: FlowsThrough(c, s, e, flags, states, s2)
    case Block(_) =>
      s2 == s && exists flags, states, last ::
        FlowsThrough(c, s, e, flags, states, last) && flagged == LastFlag(flags)
    case LocalBinding(_, _, initializer) =>
      !flagged && exists f, s1 :: Flows(c, s, initializer, f, s1) && Belongs(c, s1, e, f, s2)
    case Select(receiver, member) =>
      exists f ::
        Flows(c, s, receiver, f, s2) && Gives(c, MemberOf(c, ZoneType(c, s2.localTypes, receiver), member), f, flagged)
    case Assign(x, newValue) =>
      !flagged && exists f, s1 :: Flows(c, s, newValue, f, s1) && Stored(s1, x, f, s2)
    case AssignField(receiver, _, newValue) =>
      !flagged && exists f, s1, g :: Flows(c, s, newValue, f, s1) && Flows(c, s1, receiver, g, s2) && (f ==> g)
    case If(_, condition, thenBranch, elseBranch) =>
      exists f, s1, g :: Flows(c, s, condition, f, s1) && BranchesFlow(c, s1, e, g, s2) && (flagged <==> f || g)
    case While(condition, body) =>
      !flagged && exists f, s1, g :: Flows(c, s, condition, f, s1) && Flows(c, s1, body, g, s2)
    case Unary(_, operand) => !flagged && exists f :: Flows(c, s, operand, f, s2)
    case Binary(_, left, right) =>
      !flagged && exists f, s1, g :: Flows(c, s, left, f, s1) && Flows(c, s1, right, g, s2)
    case Box(_, operand) => flagged && exists f :: Flows(c, s, operand, f, s2)
    case Unbox(_, operand) => !flagged && exists f :: Flows(c, s, operand, f, s2)
    case IsInstanceOf(_, operand) => !flagged && exists f :: Flows(c, s, operand, f, s2)
    case AsInstanceOf(_, operand) => Flows(c, s, operand, flagged, s2)
  }

  ghost predicate BranchesFlow(c: ZoneContext, s: ZoneState, e: Expr, flagged: bool, s2: ZoneState)
    requires e.If?
    decreases e, 0
  {
    exists f, s1, g :: Flows(c, s, e.thenBranch, f, s1) && Flows(c, s1, e.elseBranch, g, s2) && (flagged <==> f || g)
  }

  function Parts(e: Expr): seq<Expr>
    requires e.New? || e.Block?
  {
    if e.New? then e.arguments else e.operands
  }

  /** Arguments and operands are looked at one after the other. */
  ghost predicate FlowsThrough(c: ZoneContext, s: ZoneState, e: Expr, flags: seq<bool>, states: seq<ZoneState>,
                               s2: ZoneState)
    requires e.New? || e.Block?
    decreases e, 0
  {
    var parts := Parts(e);
    && |flags| == |parts| && |states| == |flags| + 1 && states[0] == s && states[|flags|] == s2
    && forall k {:trigger flags[k]} :: 0 <= k < |flags| ==> Flows(c, states[k], parts[k], flags[k], states[k + 1])
  }

  predicate LastFlag(flags: seq<bool>) {
    flags != [] && flags[|flags| - 1]
  }

  /** A bound name becomes a local of the zone. */
  predicate Belongs(c: ZoneContext, s: ZoneState, e: Expr, flagged: bool, s2: ZoneState)
    requires e.LocalBinding?
  {
    var t := if e.declared.Some? then e.declared.value else ZoneType(c, s.localTypes, e.initializer);
    s2 == ZoneState(s.arenaReferences[e.name := flagged], s.localTypes[e.name := t], s.zoneLocals + {e.name})
  }

  /** Locals of the zone may be given arena references, others not. */
  predicate Stored(s: ZoneState, x: Name, flagged: bool, s2: ZoneState) {
    if x in s.zoneLocals then s2 == s.(arenaReferences := s.arenaReferences[x := flagged]) else !flagged && s2 == s
  }

  /** A member of an arena object may be an arena reference unless its type is primitive. A method that may leak its
      receiver is not selected on one. */
  predicate Gives(c: ZoneContext, m: Option<Name>, receiver: bool, flagged: bool) {
    match m
    case None => flagged == receiver
    case Some(m) => (receiver ==> !Leaks(c, m)) && (flagged <==> receiver && IsReference(c.typeOf(m)))
  }

  function MemberOf(c: ZoneContext, t: Type, member: Name): Option<Name> {
    match c.definitionOf(t)
    case None => None
    case Some(d) => c.memberOf(d, member)
  }

  predicate Leaks(c: ZoneContext, m: Name) {
    c.isFunction(m) && m in c.escapingReceivers
  }

  // ---------------------------------------------------------------------------------------------
  // What is accepted follows the rules.

  lemma {:induction false} Accepted(c: ZoneContext, s: ZoneState, e: Expr)
    requires CheckZone(c, s, e).ok
    ensures Flows(c, s, e, CheckZone(c, s, e).flagged, CheckZone(c, s, e).state)
    decreases e, 1, 1
  {
    match e
    case Literal(_, _) =>
    case Local(_) =>
    case New(_, _) =>
      var flags, states := ArgumentsFrom(c, s, e, 0);
      assert FlowsThrough(c, s, e, flags, states, CheckZone(c, s, e).state);
    case Block(_) =>
      var flags, states := OperandsFrom(c, s, e, 0, false);
      assert FlowsThrough(c, s, e, flags, states, states[|flags|]);
    case LocalBinding(_, _, initializer) => Accepted(c, s, initializer);
    case Select(receiver, _) => Accepted(c, s, receiver);
    case Assign(_, newValue) => Accepted(c, s, newValue);
    case AssignField(_, _, _) => PairAccepted(c, s, e, e.newValue, e.receiver);
    case If(_, _, _, _) => IfAccepted(c, s, e);
    case While(condition, body) => PairAccepted(c, s, e, condition, body);
    case Unary(_, operand) => Accepted(c, s, operand);
    case Binary(_, left, right) => PairAccepted(c, s, e, left, right);
    case Box(_, operand) => Accepted(c, s, operand);
    case Unbox(_, operand) => Accepted(c, s, operand);
    case IsInstanceOf(_, operand) => Accepted(c, s, operand);
    case AsInstanceOf(_, operand) => Accepted(c, s, operand);
  }

  predicate IsPair(e: Expr, a: Expr, b: Expr) {
    match e
    case AssignField(receiver, _, newValue) => a == newValue && b == receiver
    case While(condition, body) => a == condition && b == body
    case Binary(_, left, right) => a == left && b == right
    case _ => false
  }

  lemma {:induction false} PairAccepted(c: ZoneContext, s: ZoneState, e: Expr, a: Expr, b: Expr)
    requires IsPair(e, a, b) && CheckZone(c, s, e).ok
    ensures Flows(c, s, e, CheckZone(c, s, e).flagged, CheckZone(c, s, e).state)
    decreases e, 1, 0
  {
    Accepted(c, s, a);
    Accepted(c, CheckZone(c, s, a).state, b);
  }

  lemma {:induction false} IfAccepted(c: ZoneContext, s: ZoneState, e: Expr)
    requires e.If? && CheckZone(c, s, e).ok
    ensures Flows(c, s, e, CheckZone(c, s, e).flagged, CheckZone(c, s, e).state)
    decreases e, 1, 0
  {
    var i := CheckZone(c, s, e.condition);
    var a := CheckZone(c, i.state, e.thenBranch);
    var b := CheckZone(c, a.state, e.elseBranch);
    Accepted(c, s, e.condition);
    Accepted(c, i.state, e.thenBranch);
    Accepted(c, a.state, e.elseBranch);
    assert BranchesFlow(c, i.state, e, a.flagged || b.flagged, b.state);
  }

  lemma {:induction false} ArgumentsFrom(c: ZoneContext, s: ZoneState, e: Expr, k: nat)
    returns (flags: seq<bool>, states: seq<ZoneState>)
    requires e.New? && k <= |e.arguments| && CheckArguments(c, s, e, k).ok
    ensures |flags| == |e.arguments| - k && |states| == |flags| + 1
    ensures states[0] == s && states[|flags|] == CheckArguments(c, s, e, k).state
    ensures forall i {:trigger flags[i]} :: 0 <= i < |flags| ==>
              Flows(c, states[i], e.arguments[k + i], flags[i], states[i + 1])
    decreases e, 0, |e.arguments| - k
  {
    if k == |e.arguments| {
      flags, states := [], [s];
    } else {
      var a := CheckZone(c, s, e.arguments[k]);
      Accepted(c, s, e.arguments[k]);
      var rest, after := ArgumentsFrom(c, a.state, e, k + 1);
      flags, states := [a.flagged] + rest, [s] + after;
    }
  }

  lemma {:induction false} OperandsFrom(c: ZoneContext, s: ZoneState, e: Expr, k: nat, last: bool)
    returns (flags: seq<bool>, states: seq<ZoneState>)
    requires e.Block? && k <= |e.operands| && CheckOperands(c, s, e, k, last).ok
    ensures |flags| == |e.operands| - k && |states| == |flags| + 1 && states[0] == s
    ensures CheckOperands(c, s, e, k, last).flagged == if flags == [] then last else LastFlag(flags)
    ensures forall i {:trigger flags[i]} :: 0 <= i < |flags| ==>
              Flows(c, states[i], e.operands[k + i], flags[i], states[i + 1])
    decreases e, 0, |e.operands| - k
  {
    if k == |e.operands| {
      flags, states := [], [s];
    } else {
      var o := CheckZone(c, s, e.operands[k]);
      Accepted(c, s, e.operands[k]);
      var rest, after := OperandsFrom(c, o.state, e, k + 1, o.flagged);
      flags, states := [o.flagged] + rest, [s] + after;
    }
  }

  // ---------------------------------------------------------------------------------------------
  // What follows the rules is accepted.

  lemma {:induction false} Derived(c: ZoneContext, s: ZoneState, e: Expr, flagged: bool, s2: ZoneState)
    requires Flows(c, s, e, flagged, s2)
    ensures CheckZone(c, s, e) == Escape(flagged, s2, true)
    decreases e, 1, 1
  {
    match e
    case Literal(_, _) =>
    case Local(_) =>
    case New(_, _) =>
      var flags, states :| FlowsThrough(c, s, e, flags, states, s2);
      ArgumentsDerived(c, s, e, flags, states, s2, 0);
    case Block(_) =>
      var flags, states, last :| FlowsThrough(c, s, e, flags, states, last) && flagged == LastFlag(flags);
      OperandsDerived(c, s, e, flags, states, last, 0, false);
    case LocalBinding(_, _, _) => BindingDerived(c, s, e, s2);
    case Select(receiver, _) => SelectDerived(c, s, e, flagged, s2);
    case Assign(_, _) => AssignDerived(c, s, e, s2);
    case AssignField(receiver, _, newValue) =>
      var f, s1, g :| Flows(c, s, newValue, f, s1) && Flows(c, s1, receiver, g, s2) && (f ==> g);
      Derived(c, s, newValue, f, s1);
      Derived(c, s1, receiver, g, s2);
    case If(_, _, _, _) => IfDerived(c, s, e, flagged, s2);
    case While(condition, body) =>
      var f, s1, g :| Flows(c, s, condition, f, s1) && Flows(c, s1, body, g, s2);
      Derived(c, s, condition, f, s1);
      Derived(c, s1, body, g, s2);
    case Unary(_, operand) =>
      var f :| Flows(c, s, operand, f, s2);
      Derived(c, s, operand, f, s2);
    case Binary(_, left, right) =>
      var f, s1, g :| Flows(c, s, left, f, s1) && Flows(c, s1, right, g, s2);
      Derived(c, s, left, f, s1);
      Derived(c, s1, right, g, s2);
    case Box(_, operand) =>
      var f :| Flows(c, s, operand, f, s2);
      Derived(c, s, operand, f, s2);
    case Unbox(_, operand) =>
      var f :| Flows(c, s, operand, f, s2);
      Derived(c, s, operand, f, s2);
    case IsInstanceOf(_, operand) =>
      var f :| Flows(c, s, operand, f, s2);
      Derived(c, s, operand, f, s2);
    case AsInstanceOf(_, operand) => Derived(c, s, operand, flagged, s2);
  }

  lemma {:induction false} BindingDerived(c: ZoneContext, s: ZoneState, e: Expr, s2: ZoneState)
    requires e.LocalBinding? && Flows(c, s, e, false, s2)
    ensures CheckZone(c, s, e) == Escape(false, s2, true)
    decreases e, 1, 0
  {
    var f, s1 :| Flows(c, s, e.initializer, f, s1) && Belongs(c, s1, e, f, s2);
    Derived(c, s, e.initializer, f, s1);
  }

  lemma {:induction false} SelectDerived(c: ZoneContext, s: ZoneState, e: Expr, flagged: bool, s2: ZoneState)
    requires e.Select? && Flows(c, s, e, flagged, s2)
    ensures CheckZone(c, s, e) == Escape(flagged, s2, true)
    decreases e, 1, 0
  {
    var f :|
      && Flows(c, s, e.receiver, f, s2)
      && Gives(c, MemberOf(c, ZoneType(c, s2.localTypes, e.receiver), e.member), f, flagged);
    Derived(c, s, e.receiver, f, s2);
  }

  lemma {:induction false} AssignDerived(c: ZoneContext, s: ZoneState, e: Expr, s2: ZoneState)
    requires e.Assign? && Flows(c, s, e, false, s2)
    ensures CheckZone(c, s, e) == Escape(false, s2, true)
    decreases e, 1, 0
  {
    var f, s1 :| Flows(c, s, e.newValue, f, s1) && Stored(s1, e.target, f, s2);
    Derived(c, s, e.newValue, f, s1);
  }

  lemma {:induction false} IfDerived(c: ZoneContext, s: ZoneState, e: Expr, flagged: bool, s2: ZoneState)
    requires e.If? && Flows(c, s, e, flagged, s2)
    ensures CheckZone(c, s, e) == Escape(flagged, s2, true)
    decreases e, 1, 0
  {
    var f, s1, g :| Flows(c, s, e.condition, f, s1) && BranchesFlow(c, s1, e, g, s2) && (flagged <==> f || g);
    Derived(c, s, e.condition, f, s1);
    BranchesDerived(c, s1, e, g, s2);
  }

  lemma {:induction false} BranchesDerived(c: ZoneContext, s: ZoneState, e: Expr, flagged: bool, s2: ZoneState)
    requires e.If? && BranchesFlow(c, s, e, flagged, s2)
    ensures var a := CheckZone(c, s, e.thenBranch);
            var b := CheckZone(c, a.state, e.elseBranch);
            a.ok && b.ok && flagged == (a.flagged || b.flagged) && s2 == b.state
    decreases e, 0
  {
    var f, s1, g :| Flows(c, s, e.thenBranch, f, s1) && Flows(c, s1, e.elseBranch, g, s2) && (flagged <==> f || g);
    Derived(c, s, e.thenBranch, f, s1);
    Derived(c, s1, e.elseBranch, g, s2);
  }

  lemma {:induction false} ArgumentsDerived(c: ZoneContext, s: ZoneState, e: Expr, flags: seq<bool>,
                                            states: seq<ZoneState>, s2: ZoneState, k: nat)
    requires e.New? && FlowsThrough(c, s, e, flags, states, s2) && k <= |flags|
    ensures CheckArguments(c, states[k], e, k) == Escape(true, s2, true)
    decreases e, 0, |flags| - k
  {
    if k == |flags| {
    } else {
      Derived(c, states[k], e.arguments[k], flags[k], states[k + 1]);
      ArgumentsDerived(c, s, e, flags, states, s2, k + 1);
    }
  }

  lemma {:induction false} OperandsDerived(c: ZoneContext, s: ZoneState, e: Expr, flags: seq<bool>,
                                           states: seq<ZoneState>, s2: ZoneState, k: nat, last: bool)
    requires e.Block? && FlowsThrough(c, s, e, flags, states, s2) && k <= |flags|
    ensures CheckOperands(c, states[k], e, k, last) ==
            Escape(if k == |flags| then last else LastFlag(flags), s2, true)
    decreases e, 0, |flags| - k
  {
    if k == |flags| {
    } else {
      Derived(c, states[k], e.operands[k], flags[k], states[k + 1]);
      OperandsDerived(c, s, e, flags, states, s2, k + 1, flags[k]);
    }
  }

  ghost predicate NothingEscapes(c: ZoneContext, s: ZoneState, e: Expr) {
    exists flagged, s2 :: Flows(c, s, e, flagged, s2)
  }

  /** Main result: the analysis adds no error exactly if the rules say that nothing escapes, and then reports what they
      do. */
  lemma AnalysisDecidesFlows(c: ZoneContext, s: ZoneState, e: Expr)
    ensures CheckZone(c, s, e).ok <==> NothingEscapes(c, s, e)
    ensures forall flagged, s2 :: Flows(c, s, e, flagged, s2) ==> CheckZone(c, s, e) == Escape(flagged, s2, true)
  {
    if CheckZone(c, s, e).ok {
      Accepted(c, s, e);
    }
    forall flagged, s2 | Flows(c, s, e, flagged, s2) ensures CheckZone(c, s, e) == Escape(flagged, s2, true) {
      Derived(c, s, e, flagged, s2);
    }
    if NothingEscapes(c, s, e) {
      var flagged, s2 :| Flows(c, s, e, flagged, s2);
      Derived(c, s, e, flagged, s2);
    }
  }
}
