/** The escape analysis reads types off values without checking them. In bodies that pass the type check it reads the
    types that are reported, but for the widths of numbers. */
module ZoneReading {
  import opened Basics
  import opened Types
  import Bodies
  import opened ZoneBodies
  import opened ZoneTypes
  import opened ZonePrecision
  import ZoneSafety

  /** Types are written as the definitions they name. */
  ghost predicate Canonical(c: ZoneContext) {
    forall t {:trigger c.definitionOf(t)} | c.definitionOf(t).Some? :: t == c.read(c.definitionOf(t).value)
  }

  /** Of primitive data the analysis may read another primitive type, or none. */
  predicate Agrees(found: Type, zoneType: Type) {
    || zoneType == found
    || (IsPrimitive(found) && (IsPrimitive(zoneType) || zoneType.UnknownType?))
  }

  predicate IsPrimitive(t: Type) {
    !IsReference(t) && !t.NothingType?
  }

  ghost predicate LocalsAgree(types: LocalTypes, zoneTypes: LocalTypes) {
    types.Keys == zoneTypes.Keys && forall x {:trigger types[x]} :: x in types ==> Agrees(types[x], zoneTypes[x])
  }

  /** Every type is reported known. */
  predicate AllKnown(c: ZoneContext, types: LocalTypes, e: Expr)
    decreases e, 1, 0
  {
    Known(Check(c, types, e).found) &&
    match e
    case Literal(_, _) => true
    case Local(_) => true
    case New(_, arguments) => forall a :: a in arguments ==> AllKnown(c, types, a)
    case Block(_) => OperandsKnown(c, types, e, 0)
    case LocalBinding(_, _, _) => false
    case Select(receiver, _) => AllKnown(c, types, receiver)
    case Assign(_, newValue) => AllKnown(c, types, newValue)
    case AssignField(receiver, _, newValue) => AllKnown(c, types, receiver) && AllKnown(c, types, newValue)
    case If(_, condition, thenBranch, elseBranch) =>
      AllKnown(c, types, condition) && AllKnown(c, types, thenBranch) && AllKnown(c, types, elseBranch)
    case While(condition, body) => AllKnown(c, types, condition) && AllKnown(c, types, body)
    case Unary(_, operand) => AllKnown(c, types, operand)
    case Binary(_, left, right) => AllKnown(c, types, left) && AllKnown(c, types, right)
    case Box(_, operand) => AllKnown(c, types, operand)
    case Unbox(_, operand) => AllKnown(c, types, operand)
    case IsInstanceOf(_, operand) => AllKnown(c, types, operand)
    case AsInstanceOf(_, operand) => AllKnown(c, types, operand)
  }

  predicate OperandsKnown(c: ZoneContext, types: LocalTypes, e: Expr, k: nat)
    requires e.Block? && k <= |e.operands|
    decreases e, 0, |e.operands| - k
  {
    k == |e.operands| ||
    var o := e.operands[k];
    if o.LocalBinding? then
      && AllKnown(c, types, o.initializer)
      && OperandsKnown(c, types[o.name := BoundType(o, Check(c, types, o.initializer).found)], e, k + 1)
    else AllKnown(c, types, o) && OperandsKnown(c, types, e, k + 1)
  }

  ghost predicate Readable(c: ZoneContext, types: LocalTypes, zoneTypes: LocalTypes) {
    TypesOk(c) && Canonical(c) && LocalsAgree(types, zoneTypes)
  }

  /** Main result: the type read agrees with the reported one, and every selection finds the same member. */
  lemma {:induction false} ZoneTypeAgrees(c: ZoneContext, types: LocalTypes, zoneTypes: LocalTypes, e: Expr)
    requires Readable(c, types, zoneTypes) && AllKnown(c, types, e) && Check(c, types, e).ok
    ensures Agrees(Check(c, types, e).found, ZoneType(c, zoneTypes, e)) && ReadAlike(c, types, zoneTypes, e)
    decreases e, 1, 1
  {
    match e
    case Literal(_, _) =>
    case Local(_) =>
    case New(_, arguments) => ArgumentsReadAlike(c, types, zoneTypes, e, 0);
    case Block(_) => BlockAgrees(c, types, zoneTypes, e, 0, UnitType, UnitType);
    case LocalBinding(_, _, _) =>
    case Select(receiver, _) => ZoneTypeAgrees(c, types, zoneTypes, receiver);
    case Assign(_, newValue) => ZoneTypeAgrees(c, types, zoneTypes, newValue);
    case AssignField(receiver, _, newValue) =>
      ZoneTypeAgrees(c, types, zoneTypes, receiver);
      ZoneTypeAgrees(c, types, zoneTypes, newValue);
    case If(_, _, _, _) => IfAgrees(c, types, zoneTypes, e);
    case While(condition, body) =>
      ZoneTypeAgrees(c, types, zoneTypes, condition);
      ZoneTypeAgrees(c, types, zoneTypes, body);
    case Unary(_, operand) => ZoneTypeAgrees(c, types, zoneTypes, operand);
    case Binary(_, left, right) => BinaryAgrees(c, types, zoneTypes, e);
    case Box(_, operand) => ZoneTypeAgrees(c, types, zoneTypes, operand);
    case Unbox(_, operand) => ZoneTypeAgrees(c, types, zoneTypes, operand);
    case IsInstanceOf(_, operand) => ZoneTypeAgrees(c, types, zoneTypes, operand);
    case AsInstanceOf(_, operand) => ZoneTypeAgrees(c, types, zoneTypes, operand);
  }

  lemma BranchTypesAgree(resultType: Option<Type>, a: Type, b: Type, za: Type, zb: Type)
    requires Known(a) && Known(b) && Agrees(a, za) && Agrees(b, zb)
    requires resultType.None? ==> a == b || a.NothingType? || b.NothingType?
    ensures Agrees(Bodies.BranchType(resultType, a, b), BranchZoneType(resultType, za, zb))
  {
  }

  lemma {:induction false} IfAgrees(c: ZoneContext, types: LocalTypes, zoneTypes: LocalTypes, e: Expr)
    requires e.If? && Readable(c, types, zoneTypes) && AllKnown(c, types, e) && Check(c, types, e).ok
    ensures Agrees(Check(c, types, e).found, ZoneType(c, zoneTypes, e)) && ReadAlike(c, types, zoneTypes, e)
    decreases e, 1, 0
  {
    ZoneTypeAgrees(c, types, zoneTypes, e.condition);
    ZoneTypeAgrees(c, types, zoneTypes, e.thenBranch);
    ZoneTypeAgrees(c, types, zoneTypes, e.elseBranch);
    BranchTypesAgree(e.resultType, Check(c, types, e.thenBranch).found, Check(c, types, e.elseBranch).found,
                     ZoneType(c, zoneTypes, e.thenBranch), ZoneType(c, zoneTypes, e.elseBranch));
  }

  lemma {:induction false} BinaryAgrees(c: ZoneContext, types: LocalTypes, zoneTypes: LocalTypes, e: Expr)
    requires e.Binary? && Readable(c, types, zoneTypes) && AllKnown(c, types, e) && Check(c, types, e).ok
    ensures Agrees(Check(c, types, e).found, ZoneType(c, zoneTypes, e)) && ReadAlike(c, types, zoneTypes, e)
    decreases e, 1, 0
  {
    ZoneTypeAgrees(c, types, zoneTypes, e.left);
    ZoneTypeAgrees(c, types, zoneTypes, e.right);
  }

  lemma {:induction false} ArgumentsReadAlike(c: ZoneContext, types: LocalTypes, zoneTypes: LocalTypes, e: Expr, k: nat)
    requires e.New? && k <= |e.arguments| && Readable(c, types, zoneTypes) && ArgumentsOk(c, types, e, k)
    requires forall a :: a in e.arguments ==> AllKnown(c, types, a)
    ensures forall i {:trigger e.arguments[i]} :: k <= i < |e.arguments| ==>
              ReadAlike(c, types, zoneTypes, e.arguments[i])
    decreases e, 0, |e.arguments| - k
  {
    if k < |e.arguments| {
      ZoneTypeAgrees(c, types, zoneTypes, e.arguments[k]);
      ArgumentsReadAlike(c, types, zoneTypes, e, k + 1);
    }
  }

  lemma {:induction false} BlockAgrees(c: ZoneContext, types: LocalTypes, zoneTypes: LocalTypes, e: Expr, k: nat,
                                       last: Type, zoneLast: Type)
    requires e.Block? && k <= |e.operands| && Readable(c, types, zoneTypes) && OperandsKnown(c, types, e, k)
    requires CheckBlock(c, types, e, k, last).ok && Agrees(last, zoneLast)
    ensures Agrees(CheckBlock(c, types, e, k, last).found, ZoneBlockType(c, zoneTypes, e, k, zoneLast))
    ensures OperandsReadAlike(c, types, zoneTypes, e, k)
    decreases e, 0, |e.operands| - k
  {
    if k == |e.operands| {
    } else {
      var o := e.operands[k];
      if o.LocalBinding? {
        ZoneTypeAgrees(c, types, zoneTypes, o.initializer);
        var t := BoundType(o, Check(c, types, o.initializer).found);
        var z := BoundType(o, ZoneType(c, zoneTypes, o.initializer));
        assert LocalsAgree(types[o.name := t], zoneTypes[o.name := z]);
        BlockAgrees(c, types[o.name := t], zoneTypes[o.name := z], e, k + 1, UnitType, UnitType);
      } else {
        ZoneTypeAgrees(c, types, zoneTypes, o);
        BlockAgrees(c, types, zoneTypes, e, k + 1, Check(c, types, o).found, ZoneType(c, zoneTypes, o));
      }
    }
  }

  /** A zone that only lets primitive data out is accepted, when its value is no reference. */
  lemma CleanZoneAccepted(c: ZoneContext, types: LocalTypes, e: Expr)
    requires TypesOk(c) && Canonical(c) && TypesKnown(e) && forall x :: x in types ==> Known(types[x])
    requires Check(c, types, e).ok && IsZoneResultType(Check(c, types, e).found) && AllKnown(c, types, e)
    requires ZoneSafety.InFragment(c, ZoneSafety.Outside(types), {}, e) && StoresInside(c, types, {}, e)
    ensures ZoneAccepted(c, types, e)
  {
    ZoneTypeAgrees(c, types, types, e);
    PrimitiveZoneAccepted(c, types, e);
  }
}
