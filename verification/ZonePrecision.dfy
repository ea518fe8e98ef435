/** What the escape analysis does not complain about: only references are flagged, so primitive data may leave a
    zone. */
module ZonePrecision {
  import opened Basics
  import opened Types
  import Bodies
  import opened ZoneBodies
  import opened ZoneSafety
  import opened ZoneTypes

  // ---------------------------------------------------------------------------------------------
  // The bodies covered.

  /** Every type is reported known, and the check and the analysis find the same member in every selection. */
  ghost predicate ReadAlike(c: ZoneContext, types: LocalTypes, zoneTypes: LocalTypes, e: Expr)
    decreases e, 1, 0
  {
    Known(Check(c, types, e).found) &&
    match e
    case Literal(_, _) => true
    case Local(_) => true
    case New(_, arguments) => forall a :: a in arguments ==> ReadAlike(c, types, zoneTypes, a)
    case Block(_) => OperandsReadAlike(c, types, zoneTypes, e, 0)
    case LocalBinding(_, _, _) => false
    case Select(receiver, member) =>
      && ReadAlike(c, types, zoneTypes, receiver)
      && Selected(c, zoneTypes, receiver, member) == LookUp(c, Check(c, types, receiver).found, member)
    case Assign(_, newValue) => ReadAlike(c, types, zoneTypes, newValue)
    case AssignField(receiver, _, newValue) =>
      ReadAlike(c, types, zoneTypes, receiver) && ReadAlike(c, types, zoneTypes, newValue)
    case If(_, condition, thenBranch, elseBranch) =>
      && ReadAlike(c, types, zoneTypes, condition) && ReadAlike(c, types, zoneTypes, thenBranch)
      && ReadAlike(c, types, zoneTypes, elseBranch)
    case While(condition, body) => ReadAlike(c, types, zoneTypes, condition) && ReadAlike(c, types, zoneTypes, body)
    case Unary(_, operand) => ReadAlike(c, types, zoneTypes, operand)
    case Binary(_, left, right) => ReadAlike(c, types, zoneTypes, left) && ReadAlike(c, types, zoneTypes, right)
    case Box(_, operand) => ReadAlike(c, types, zoneTypes, operand)
    case Unbox(_, operand) => ReadAlike(c, types, zoneTypes, operand)
    case IsInstanceOf(_, operand) => ReadAlike(c, types, zoneTypes, operand)
    case AsInstanceOf(_, operand) => ReadAlike(c, types, zoneTypes, operand)
  }

  ghost predicate OperandsReadAlike(c: ZoneContext, types: LocalTypes, zoneTypes: LocalTypes, e: Expr, k: nat)
    requires e.Block? && k <= |e.operands|
    decreases e, 0, |e.operands| - k
  {
    k == |e.operands| ||
    var o := e.operands[k];
    if o.LocalBinding? then
      && ReadAlike(c, types, zoneTypes, o.initializer)
      && OperandsReadAlike(c, types[o.name := BoundType(o, Check(c, types, o.initializer).found)],
                           zoneTypes[o.name := BoundType(o, ZoneType(c, zoneTypes, o.initializer))], e, k + 1)
    else ReadAlike(c, types, zoneTypes, o) && OperandsReadAlike(c, types, zoneTypes, e, k + 1)
  }

  /** Flagged locals have reference types. */
  ghost predicate FlagsFit(c: ZoneContext, types: LocalTypes, s: ZoneState) {
    forall x {:trigger IsFlagged(s, x)} :: IsFlagged(s, x) ==> IsReference(NamedType(c, types, x))
  }

  ghost predicate Precise(c: ZoneContext, types: LocalTypes, s: ZoneState, definite: set<Name>, e: Expr) {
    Covered(c, types, s, definite, e) && ReadAlike(c, types, s.localTypes, e) && FlagsFit(c, types, s)
  }

  // ---------------------------------------------------------------------------------------------
  // What is flagged.

  /** Main result: in a type-checked body the analysis flags only values whose reported type is a reference type. */
  lemma {:induction false} FlaggedIsReference(c: ZoneContext, types: LocalTypes, s: ZoneState, definite: set<Name>,
                                              e: Expr)
    requires Precise(c, types, s, definite, e)
    ensures CheckZone(c, s, e).flagged ==> IsReference(Check(c, types, e).found)
    decreases e, 1, 1
  {
    match e
    case Block(_) => FlaggedInBlock(c, types, s, definite, e, 0, UnitType, false);
    case Select(receiver, _) =>
      StateKept(c, s, definite, receiver);
      FlaggedIsReference(c, types, s, definite, receiver);
    case If(_, _, _, _) => FlaggedIf(c, types, s, definite, e);
    case _ =>
  }

  lemma {:induction false} FlaggedIf(c: ZoneContext, types: LocalTypes, s: ZoneState, definite: set<Name>, e: Expr)
    requires e.If? && Precise(c, types, s, definite, e)
    ensures CheckZone(c, s, e).flagged ==> IsReference(Check(c, types, e).found)
    decreases e, 1, 0
  {
    StateKept(c, s, definite, e.condition);
    StateKept(c, s, definite, e.thenBranch);
    FlaggedIsReference(c, types, s, definite, e.condition);
    FlaggedIsReference(c, types, s, definite, e.thenBranch);
    FlaggedIsReference(c, types, s, definite, e.elseBranch);
  }

  lemma {:induction false} FlaggedInBlock(c: ZoneContext, types: LocalTypes, s: ZoneState, definite: set<Name>,
                                          e: Expr, k: nat, last: Type, lastFlagged: bool)
    requires e.Block? && k <= |e.operands| && TypesOk(c) && Aligned(types, s) && FlagsFit(c, types, s)
    requires OperandsInFragment(c, s, definite, e, k) && TypesKnown(e) && CheckBlock(c, types, e, k, last).ok
    requires OperandsReadAlike(c, types, s.localTypes, e, k) && (lastFlagged ==> IsReference(last))
    ensures CheckOperands(c, s, e, k, lastFlagged).flagged ==> IsReference(CheckBlock(c, types, e, k, last).found)
    decreases e, 0, |e.operands| - k
  {
    if k == |e.operands| {
    } else {
      var o := e.operands[k];
      assert TypesKnown(o);
      if o.LocalBinding? {
        FlaggedIsReference(c, types, s, definite, o.initializer);
        AlignedInside(c, types, s, definite, o);
        FlagsFitInside(c, types, s, definite, o);
        FlaggedInBlock(c, types[o.name := BoundType(o, Check(c, types, o.initializer).found)],
                       CheckZone(c, s, o).state, Definite(definite, o), e, k + 1, UnitType, false);
      } else {
        StateKept(c, s, definite, o);
        FlaggedIsReference(c, types, s, definite, o);
        FlaggedInBlock(c, types, s, definite, e, k + 1, Check(c, types, o).found, CheckZone(c, s, o).flagged);
      }
    }
  }

  /** Binding a local keeps the flags on references. */
  lemma FlagsFitInside(c: ZoneContext, types: LocalTypes, s: ZoneState, definite: set<Name>, o: Expr)
    requires o.LocalBinding? && TypesOk(c) && TypesKnown(o) && FlagsFit(c, types, s)
    requires InFragment(c, s, definite, o.initializer)
    requires var found := Check(c, types, o.initializer).found;
             Known(found) && (CheckZone(c, s, o.initializer).flagged ==> IsReference(found)) &&
             (o.declared.Some? ==> c.conforms(o.declared.value, found))
    ensures FlagsFit(c, types[o.name := BoundType(o, Check(c, types, o.initializer).found)], CheckZone(c, s, o).state)
  {
    StateKept(c, s, definite, o.initializer);
    var next := CheckZone(c, s, o).state;
    var inner := types[o.name := BoundType(o, Check(c, types, o.initializer).found)];
    forall x | IsFlagged(next, x) ensures IsReference(NamedType(c, inner, x)) {
      if x != o.name {
        assert IsFlagged(s, x);
      }
    }
  }

  // ---------------------------------------------------------------------------------------------
  // What is accepted.

  /** Locals from outside the zone and fields are given primitive data only, but for the fields of certain arena
      objects, and no method that may leak its receiver is selected. */
  predicate StoresInside(c: ZoneContext, types: LocalTypes, definite: set<Name>, e: Expr)
    decreases e, 1, 0
  {
    match e
    case Literal(_, _) => true
    case Local(_) => true
    case New(_, arguments) => forall a :: a in arguments ==> StoresInside(c, types, definite, a)
    case Block(_) => OperandsStoreInside(c, types, definite, e, 0)
    case LocalBinding(_, _, _) => false
    case Select(receiver, member) =>
      var m := LookUp(c, Check(c, types, receiver).found, member);
      && StoresInside(c, types, definite, receiver)
      && (m.Some? && c.isFunction(m.value) ==> m.value !in c.escapingReceivers)
    case Assign(x, newValue) => StoresInside(c, types, definite, newValue) && x in types && !IsReference(types[x])
    case AssignField(receiver, member, newValue) =>
      var m := LookUp(c, Check(c, types, receiver).found, member);
      && StoresInside(c, types, definite, receiver) && StoresInside(c, types, definite, newValue)
      && (IsDefinite(definite, receiver) || (m.Some? && !IsReference(c.typeOf(m.value))))
    case If(_, condition, thenBranch, elseBranch) =>
      && StoresInside(c, types, definite, condition) && StoresInside(c, types, definite, thenBranch)
      && StoresInside(c, types, definite, elseBranch)
    case While(condition, body) => StoresInside(c, types, definite, condition) && StoresInside(c, types, definite, body)
    case Unary(_, operand) => StoresInside(c, types, definite, operand)
    case Binary(_, left, right) => StoresInside(c, types, definite, left) && StoresInside(c, types, definite, right)
    case Box(_, operand) => StoresInside(c, types, definite, operand)
    case Unbox(_, operand) => StoresInside(c, types, definite, operand)
    case IsInstanceOf(_, operand) => StoresInside(c, types, definite, operand)
    case AsInstanceOf(_, operand) => StoresInside(c, types, definite, operand)
  }

  predicate OperandsStoreInside(c: ZoneContext, types: LocalTypes, definite: set<Name>, e: Expr, k: nat)
    requires e.Block? && k <= |e.operands|
    decreases e, 0, |e.operands| - k
  {
    k == |e.operands| ||
    var o := e.operands[k];
    if o.LocalBinding? then
      && StoresInside(c, types, definite, o.initializer)
      && OperandsStoreInside(c, types[o.name := BoundType(o, Check(c, types, o.initializer).found)],
                             Definite(definite, o), e, k + 1)
    else StoresInside(c, types, definite, o) && OperandsStoreInside(c, types, definite, e, k + 1)
  }

  ghost predicate DefiniteFlagged(s: ZoneState, definite: set<Name>) {
    forall x {:trigger x in definite} :: x in definite ==> IsFlagged(s, x)
  }

  /** Data that conforms to a primitive type is not flagged. */
  lemma PrimitiveIsUnflagged(c: ZoneContext, types: LocalTypes, s: ZoneState, definite: set<Name>, e: Expr, t: Type)
    requires Precise(c, types, s, definite, e) && !IsReference(t) && c.conforms(t, Check(c, types, e).found)
    ensures !CheckZone(c, s, e).flagged
  {
    FlaggedIsReference(c, types, s, definite, e);
  }

  /** Such a body adds no error. */
  lemma {:induction false} PrimitiveStoresAccepted(c: ZoneContext, types: LocalTypes, s: ZoneState,
                                                   definite: set<Name>, e: Expr)
    requires Precise(c, types, s, definite, e) && StoresInside(c, types, definite, e) && DefiniteFlagged(s, definite)
    ensures CheckZone(c, s, e).ok
    decreases e, 1, 1
  {
    match e
    case Literal(_, _) =>
    case Local(_) =>
    case New(_, _) => ArgumentsAccepted(c, types, s, definite, e, 0);
    case Block(_) => OperandsAccepted(c, types, s, definite, e, 0, UnitType, false);
    case Select(receiver, _) =>
      StateKept(c, s, definite, receiver);
      PrimitiveStoresAccepted(c, types, s, definite, receiver);
    case Assign(_, _) => StoreAccepted(c, types, s, definite, e);
    case AssignField(_, _, _) => StoreAccepted(c, types, s, definite, e);
    case If(_, _, _, _) => PartsAccepted(c, types, s, definite, e);
    case While(_, _) => PartsAccepted(c, types, s, definite, e);
    case Binary(_, _, _) => PartsAccepted(c, types, s, definite, e);
    case Unary(_, operand) => PrimitiveStoresAccepted(c, types, s, definite, operand);
    case Box(_, operand) => PrimitiveStoresAccepted(c, types, s, definite, operand);
    case Unbox(_, operand) => PrimitiveStoresAccepted(c, types, s, definite, operand);
    case IsInstanceOf(_, operand) => PrimitiveStoresAccepted(c, types, s, definite, operand);
    case AsInstanceOf(_, operand) => PrimitiveStoresAccepted(c, types, s, definite, operand);
  }

  lemma {:induction false} PartsAccepted(c: ZoneContext, types: LocalTypes, s: ZoneState, definite: set<Name>, e: Expr)
    requires e.If? || e.While? || e.Binary?
    requires Precise(c, types, s, definite, e) && StoresInside(c, types, definite, e) && DefiniteFlagged(s, definite)
    ensures CheckZone(c, s, e).ok
    decreases e, 1, 0
  {
    if e.Binary? {
      StateKept(c, s, definite, e.left);
      PrimitiveStoresAccepted(c, types, s, definite, e.left);
      PrimitiveStoresAccepted(c, types, s, definite, e.right);
    } else {
      StateKept(c, s, definite, e.condition);
      PrimitiveStoresAccepted(c, types, s, definite, e.condition);
      if e.While? {
        PrimitiveStoresAccepted(c, types, s, definite, e.body);
      } else {
        StateKept(c, s, definite, e.thenBranch);
        PrimitiveStoresAccepted(c, types, s, definite, e.thenBranch);
        PrimitiveStoresAccepted(c, types, s, definite, e.elseBranch);
      }
    }
  }

  lemma {:induction false} StoreAccepted(c: ZoneContext, types: LocalTypes, s: ZoneState, definite: set<Name>, e: Expr)
    requires e.Assign? || e.AssignField?
    requires Precise(c, types, s, definite, e) && StoresInside(c, types, definite, e) && DefiniteFlagged(s, definite)
    ensures CheckZone(c, s, e).ok
    decreases e, 1, 0
  {
    StateKept(c, s, definite, e.newValue);
    PrimitiveStoresAccepted(c, types, s, definite, e.newValue);
    if e.Assign? {
      PrimitiveIsUnflagged(c, types, s, definite, e.newValue, types[e.target]);
    } else {
      PrimitiveStoresAccepted(c, types, s, definite, e.receiver);
      if !IsDefinite(definite, e.receiver) {
        PrimitiveIsUnflagged(c, types, s, definite, e.newValue,
                             c.typeOf(LookUp(c, Check(c, types, e.receiver).found, e.member).value));
      }
    }
  }

  lemma {:induction false} ArgumentsAccepted(c: ZoneContext, types: LocalTypes, s: ZoneState, definite: set<Name>,
                                             e: Expr, k: nat)
    requires e.New? && k <= |e.arguments| && TypesOk(c) && Aligned(types, s) && FlagsFit(c, types, s)
    requires InFragment(c, s, definite, e) && TypesKnown(e) && ArgumentsOk(c, types, e, k)
    requires ReadAlike(c, types, s.localTypes, e) && StoresInside(c, types, definite, e) && DefiniteFlagged(s, definite)
    ensures CheckArguments(c, s, e, k).ok
    decreases e, 0, |e.arguments| - k
  {
    if k == |e.arguments| {
    } else {
      StateKept(c, s, definite, e.arguments[k]);
      PrimitiveStoresAccepted(c, types, s, definite, e.arguments[k]);
      ArgumentsAccepted(c, types, s, definite, e, k + 1);
    }
  }

  lemma {:induction false} OperandsAccepted(c: ZoneContext, types: LocalTypes, s: ZoneState, definite: set<Name>,
                                            e: Expr, k: nat, last: Type, lastFlagged: bool)
    requires e.Block? && k <= |e.operands| && TypesOk(c) && Aligned(types, s) && FlagsFit(c, types, s)
    requires OperandsInFragment(c, s, definite, e, k) && TypesKnown(e) && CheckBlock(c, types, e, k, last).ok
    requires OperandsReadAlike(c, types, s.localTypes, e, k)
    requires OperandsStoreInside(c, types, definite, e, k) && DefiniteFlagged(s, definite)
    ensures CheckOperands(c, s, e, k, lastFlagged).ok
    decreases e, 0, |e.operands| - k
  {
    if k == |e.operands| {
    } else {
      var o := e.operands[k];
      assert TypesKnown(o);
      if o.LocalBinding? {
        PrimitiveStoresAccepted(c, types, s, definite, o.initializer);
        FlaggedIsReference(c, types, s, definite, o.initializer);
        AlignedInside(c, types, s, definite, o);
        FlagsFitInside(c, types, s, definite, o);
        DefiniteInside(c, s, definite, o);
        OperandsAccepted(c, types[o.name := BoundType(o, Check(c, types, o.initializer).found)],
                         CheckZone(c, s, o).state, Definite(definite, o), e, k + 1, UnitType, false);
      } else {
        StateKept(c, s, definite, o);
        PrimitiveStoresAccepted(c, types, s, definite, o);
        OperandsAccepted(c, types, s, definite, e, k + 1, Check(c, types, o).found, CheckZone(c, s, o).flagged);
      }
    }
  }

  lemma DefiniteInside(c: ZoneContext, s: ZoneState, definite: set<Name>, o: Expr)
    requires o.LocalBinding? && DefiniteFlagged(s, definite) && InFragment(c, s, definite, o.initializer)
    ensures DefiniteFlagged(CheckZone(c, s, o).state, Definite(definite, o))
  {
    StateKept(c, s, definite, o.initializer);
  }

  /** A zone that only lets primitive data out is accepted, when its value is no reference. */
  lemma PrimitiveZoneAccepted(c: ZoneContext, types: LocalTypes, e: Expr)
    requires TypesOk(c) && TypesKnown(e) && forall x :: x in types ==> Known(types[x])
    requires InFragment(c, Outside(types), {}, e) && ReadAlike(c, types, types, e)
    requires Check(c, types, e).ok && IsZoneResultType(Check(c, types, e).found) && StoresInside(c, types, {}, e)
    ensures ZoneAccepted(c, types, e)
  {
    PrimitiveStoresAccepted(c, types, Outside(types), {}, e);
  }
}
