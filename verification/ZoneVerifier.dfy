/** The escape analysis with its state updated in place. */
module ZoneVerifier {
  import opened Basics
  import opened Types
  import opened ZoneBodies
  import opened ZoneTypes

  class ZoneEscapeState {
    var arenaReferences: map<Name, bool>
    var localTypes: map<Name, Type>
    var zoneLocals: set<Name>
    var ok: bool

    /** Entering a zone: the enclosing locals' types are known, and no local belongs to the zone yet. */
    constructor (localTypes: map<Name, Type>)
      ensures Here() == ZoneState(map[], localTypes, {}) && ok
    {
      this.arenaReferences, this.localTypes, this.zoneLocals, this.ok := map[], localTypes, {}, true;
    }

    function Here(): ZoneState
      reads this
    {
      ZoneState(arenaReferences, localTypes, zoneLocals)
    }

    method AddErrorUnless(condition: bool)
      modifies this`ok
      ensures ok == (old(ok) && condition)
    {
      ok := ok && condition;
    }

    /** The walk computes `CheckZone`: the flag it returns, the state it leaves and whether it adds an error. */
    method VerifyZoneEscapeValue(c: ZoneContext, e: Expr) returns (flagged: bool)
      modifies this
      ensures flagged == CheckZone(c, old(Here()), e).flagged && Here() == CheckZone(c, old(Here()), e).state
      ensures ok == (old(ok) && CheckZone(c, old(Here()), e).ok)
      decreases e, 1, 1
    {
      flagged := false;
      match e
      case Literal(_, _) =>
      case Local(x) => flagged := x in arenaReferences && arenaReferences[x];
      case New(_, _) =>
        VerifyArguments(c, e);
        flagged := true;
      case Block(_) => flagged := VerifyBlock(c, e);
      case LocalBinding(x, declared, initializer) =>
        var i := VerifyZoneEscapeValue(c, initializer);
        arenaReferences := arenaReferences[x := i];
        localTypes := localTypes[x := if declared.Some? then declared.value else ZoneType(c, localTypes, initializer)];
        zoneLocals := zoneLocals + {x};
      case Select(receiver, member) =>
        var r := VerifyZoneEscapeValue(c, receiver);
        var m := Selected(c, localTypes, receiver, member);
        AddErrorUnless(!(r && m.Some? && c.isFunction(m.value) && m.value in c.escapingReceivers));
        flagged := r && IsReference(ZoneType(c, localTypes, e));
      case Assign(_, _) => VerifyAssign(c, e);
      case AssignField(receiver, _, newValue) =>
        var v := VerifyZoneEscapeValue(c, newValue);
        var r := VerifyZoneEscapeValue(c, receiver);
        AddErrorUnless(!(v && !r));
      case If(_, _, _, _) => flagged := VerifyIf(c, e);
      case While(condition, body) =>
        var i := VerifyZoneEscapeValue(c, condition);
        var b := VerifyZoneEscapeValue(c, body);
      case Unary(_, operand) => var o := VerifyZoneEscapeValue(c, operand);
      case Binary(_, left, right) =>
        var l := VerifyZoneEscapeValue(c, left);
        var r := VerifyZoneEscapeValue(c, right);
      case Box(_, operand) =>
        var o := VerifyZoneEscapeValue(c, operand);
        flagged := true;
      case Unbox(_, operand) => var o := VerifyZoneEscapeValue(c, operand);
      case IsInstanceOf(_, operand) => var o := VerifyZoneEscapeValue(c, operand);
      case AsInstanceOf(_, operand) => flagged := VerifyZoneEscapeValue(c, operand);
    }

    method VerifyIf(c: ZoneContext, e: Expr) returns (flagged: bool)
      requires e.If?
      modifies this
      ensures flagged == CheckZone(c, old(Here()), e).flagged && Here() == CheckZone(c, old(Here()), e).state
      ensures ok == (old(ok) && CheckZone(c, old(Here()), e).ok)
      decreases e, 1, 0
    {
      flagged := VerifyZoneEscapeValue(c, e.condition);
      var a := VerifyZoneEscapeValue(c, e.thenBranch);
      var b := VerifyZoneEscapeValue(c, e.elseBranch);
      flagged := flagged || a || b;
    }

    method VerifyAssign(c: ZoneContext, e: Expr)
      requires e.Assign?
      modifies this
      ensures Here() == CheckZone(c, old(Here()), e).state
      ensures ok == (old(ok) && CheckZone(c, old(Here()), e).ok)
      decreases e, 1, 0
    {
      var v := VerifyZoneEscapeValue(c, e.newValue);
      AddErrorUnless(!(v && e.target !in zoneLocals));
      if e.target in zoneLocals {
        arenaReferences := arenaReferences[e.target := v];
      }
    }

    method VerifyArguments(c: ZoneContext, e: Expr)
      requires e.New?
      modifies this
      ensures Here() == CheckZone(c, old(Here()), e).state && ok == (old(ok) && CheckZone(c, old(Here()), e).ok)
      decreases e, 1, 0
    {
      ghost var s := Here();
      for k := 0 to |e.arguments|
        invariant var all, rest := CheckArguments(c, s, e, 0), CheckArguments(c, Here(), e, k);
                  all.state == rest.state && (old(ok) && all.ok) == (ok && rest.ok)
      {
        var a := VerifyZoneEscapeValue(c, e.arguments[k]);
      }
    }

    method VerifyBlock(c: ZoneContext, e: Expr) returns (flagged: bool)
      requires e.Block?
      modifies this
      ensures flagged == CheckZone(c, old(Here()), e).flagged && Here() == old(Here())
      ensures ok == (old(ok) && CheckZone(c, old(Here()), e).ok)
      decreases e, 1, 0
    {
      var savedReferences, savedTypes, savedZoneLocals := arenaReferences, localTypes, zoneLocals;
      ghost var s := Here();
      flagged := false;
      for k := 0 to |e.operands|
        invariant var all, rest := CheckOperands(c, s, e, 0, false), CheckOperands(c, Here(), e, k, flagged);
                  all.flagged == rest.flagged && (old(ok) && all.ok) == (ok && rest.ok)
      {
        flagged := VerifyZoneEscapeValue(c, e.operands[k]);
      }
      arenaReferences, localTypes, zoneLocals := savedReferences, savedTypes, savedZoneLocals;
    }
  }

  /** A zone-scoped value: its body's type, the escape walk whose flag is not looked at, and the test of the type. */
  method VerifyZoneScoped(c: ZoneContext, types: LocalTypes, e: Expr) returns (found: Type, ok: bool)
    ensures found == Check(c, types, e).found && (ok <==> ZoneAccepted(c, types, e))
  {
    var result := Check(c, types, e);
    var escapeState := new ZoneEscapeState(types);
    var _ := escapeState.VerifyZoneEscapeValue(c, e);
    found, ok := result.found, result.ok && escapeState.ok && IsZoneResultType(result.found);
  }
}
