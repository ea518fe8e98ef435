/** Typing rules for zone bodies, and what the type check accepts in terms of them. */
module ZoneRules {
  import opened Basics
  import opened Types
  import opened TypingRules
  import opened ZoneBodies
  import opened ZoneTypes
  import Bodies
  import TypingDecided

  // ---------------------------------------------------------------------------------------------
  // The rules.

  ghost predicate HasZoneType(c: ZoneContext, types: LocalTypes, e: Expr, t: Type)
    decreases e, 1
  {
    match e
    case Literal(literalType, _) => t == literalType
    case Local(x) => t == if x in types then types[x] else c.globalType(x)
    case New(className, _) => Constructs(c, className, t) && ArgumentsFit(c, types, e)
    case Block(_) => exists ts, scopes :: BlockHasTypes(c, types, e, ts, scopes, t)
    case LocalBinding(_, _, _) => false
    case Select(receiver, member) => exists r :: HasZoneType(c, types, receiver, r) && IsMemberType(c, r, member, t)
    case Assign(x, newValue) =>
      t.UnitType? && x in types && exists v :: HasZoneType(c, types, newValue, v) && c.conforms(types[x], v)
    case AssignField(receiver, member, newValue) =>
      t.UnitType? && exists r, v ::
        HasZoneType(c, types, receiver, r) && HasZoneType(c, types, newValue, v) && MayStore(c, r, member, v)
    case If(resultType, condition, thenBranch, elseBranch) =>
      && IsCondition(c, types, condition)
      && exists a, b :: HasZoneType(c, types, thenBranch, a) && HasZoneType(c, types, elseBranch, b) &&
                        BranchesFit(c, resultType, a, b, t)
    case While(condition, body) =>
      t.UnitType? && IsCondition(c, types, condition) && exists b :: HasZoneType(c, types, body, b)
    case Unary(op, operand) => exists a :: HasZoneType(c, types, operand, a) && UnaryTyped(op, a, t)
    case Binary(op, left, right) =>
      exists a, b :: HasZoneType(c, types, left, a) && HasZoneType(c, types, right, b) &&
                     MayTake(op, a, b) && Gives(op, a, b, t)
    case Box(boxed, operand) =>
      t.ObjectType? && HasBox(boxed) && exists a :: HasZoneType(c, types, operand, a) && c.conforms(boxed, a)
    case Unbox(primitive, operand) => t == primitive && HasBox(primitive) && IsReferenceValue(c, types, operand)
    case IsInstanceOf(tested, operand) =>
      && t.BooleanType? && (HasBox(tested) || c.definitionOf(tested).Some?)
      && IsReferenceValue(c, types, operand)
    case AsInstanceOf(asType, operand) =>
      c.definitionOf(asType).Some? && t == c.read(c.definitionOf(asType).value) && IsReferenceValue(c, types, operand)
  }

  /** A class is constructed, however its name is written. */
  predicate Constructs(c: ZoneContext, className: Name, t: Type) {
    match c.definitionOf(c.read(className))
    case None => false
    case Some(d) => c.isClass(d) && t == c.read(d)
  }

  /** Selecting from a value without a definition is left to others to complain about. */
  predicate IsMemberType(c: ZoneContext, receiver: Type, member: Name, t: Type) {
    match c.definitionOf(receiver)
    case None => t.UnknownType?
    case Some(d) => c.memberOf(d, member).Some? && t == c.typeOf(c.memberOf(d, member).value)
  }

  predicate MayStore(c: ZoneContext, receiver: Type, member: Name, v: Type) {
    match c.definitionOf(receiver)
    case None => false
    case Some(d) =>
      var m := c.memberOf(d, member);
      m.Some? && !c.isFunction(m.value) && c.conforms(c.typeOf(m.value), v)
  }

  /** Every type with values that are no references has a box, and so do strings. */
  predicate HasBox(t: Type) {
    !t.NothingType? && (t.StringType? || !IsReference(t))
  }

  ghost predicate IsCondition(c: ZoneContext, types: LocalTypes, e: Expr)
    decreases e, 2
  {
    exists i :: HasZoneType(c, types, e, i) && StandsFor(i, BooleanType)
  }

  ghost predicate IsReferenceValue(c: ZoneContext, types: LocalTypes, e: Expr)
    decreases e, 2
  {
    exists a :: HasZoneType(c, types, e, a) && IsReference(a)
  }

  predicate BranchesFit(c: ZoneContext, resultType: Option<Type>, a: Type, b: Type, t: Type) {
    match resultType
    case Some(declared) => t == declared && c.conforms(t, a) && c.conforms(t, b)
    case None => Joins(a, b, t)
  }

  ghost predicate ArgumentsFit(c: ZoneContext, types: LocalTypes, e: Expr)
    requires e.New?
    decreases e, 0, 1
  {
    && |e.arguments| == |c.constructorFields(e.className)|
    && forall k {:trigger ArgumentHasType(c, types, e, k)} :: 0 <= k < |e.arguments| ==> ArgumentHasType(c, types, e, k)
  }

  ghost predicate ArgumentHasType(c: ZoneContext, types: LocalTypes, e: Expr, k: nat)
    requires e.New? && k < |e.arguments|
    decreases e, 0, 0
  {
    var fields := c.constructorFields(e.className);
    k < |fields| && exists a :: HasZoneType(c, types, e.arguments[k], a) && c.conforms(c.typeOf(fields[k]), a)
  }

  /** Operands are typed one after the other, each with the locals bound before it. */
  ghost predicate BlockHasTypes(c: ZoneContext, types: LocalTypes, e: Expr, ts: seq<Type>, scopes: seq<LocalTypes>,
                                t: Type)
    requires e.Block?
    decreases e, 0, 1
  {
    && |ts| == |e.operands| && |scopes| == |ts| + 1 && scopes[0] == types && t == LastType(ts)
    && forall k {:trigger ts[k]} :: 0 <= k < |ts| ==> OperandHasType(c, scopes[k], e, k, ts[k], scopes[k + 1])
  }

  ghost predicate OperandHasType(c: ZoneContext, types: LocalTypes, e: Expr, k: nat, t: Type, after: LocalTypes)
    requires e.Block? && k < |e.operands|
    decreases e, 0, 0
  {
    var o := e.operands[k];
    if o.LocalBinding? then
      t.UnitType? &&
      exists a :: HasZoneType(c, types, o.initializer, a) && IsBound(c, o.declared, a, types, o.name, after)
    else HasZoneType(c, types, o, t) && after == types
  }

  predicate IsBound(c: ZoneContext, declared: Option<Type>, a: Type, types: LocalTypes, x: Name, after: LocalTypes) {
    match declared
    case Some(t) => c.conforms(t, a) && after == types[x := t]
    case None => after == types[x := a]
  }

  lemma BranchesFitIff(c: ZoneContext, resultType: Option<Type>, a: Type, b: Type, t: Type)
    ensures BranchesFit(c, resultType, a, b, t) <==>
            BranchesOk(c, resultType, a, b) && t == Bodies.BranchType(resultType, a, b)
  {
  }

  // ---------------------------------------------------------------------------------------------
  // What is accepted has a type.

  lemma {:induction false} Accepted(c: ZoneContext, types: LocalTypes, e: Expr)
    requires Check(c, types, e).ok
    ensures HasZoneType(c, types, e, Check(c, types, e).found)
    decreases e, 1, 1
  {
    match e
    case Literal(_, _) =>
    case Local(_) =>
    case New(_, _) => NewAccepted(c, types, e);
    case Block(_) => BlockAccepted(c, types, e);
    case Select(receiver, _) => Accepted(c, types, receiver);
    case Assign(_, newValue) => Accepted(c, types, newValue);
    case AssignField(receiver, _, newValue) =>
      Accepted(c, types, receiver);
      Accepted(c, types, newValue);
    case If(_, _, _, _) => IfAccepted(c, types, e);
    case While(condition, body) =>
      Accepted(c, types, condition);
      Accepted(c, types, body);
    case Unary(op, operand) =>
      Accepted(c, types, operand);
      var a := Check(c, types, operand).found;
      TypingDecided.UnaryIff(op, a, Bodies.UnaryType(op, a));
    case Binary(_, _, _) => BinaryAccepted(c, types, e);
    case Box(_, operand) => Accepted(c, types, operand);
    case Unbox(_, operand) => Accepted(c, types, operand);
    case IsInstanceOf(_, operand) => Accepted(c, types, operand);
    case AsInstanceOf(_, operand) => Accepted(c, types, operand);
  }

  lemma {:induction false} NewAccepted(c: ZoneContext, types: LocalTypes, e: Expr)
    requires e.New? && Check(c, types, e).ok
    ensures HasZoneType(c, types, e, Check(c, types, e).found)
    decreases e, 1, 0
  {
    forall k | 0 <= k < |e.arguments| ensures ArgumentHasType(c, types, e, k) {
      ArgumentAccepted(c, types, e, 0, k);
    }
  }

  lemma {:induction false} BlockAccepted(c: ZoneContext, types: LocalTypes, e: Expr)
    requires e.Block? && Check(c, types, e).ok
    ensures HasZoneType(c, types, e, Check(c, types, e).found)
    decreases e, 1, 0
  {
    var ts, scopes := OperandsFrom(c, types, e, 0, UnitType);
    assert BlockHasTypes(c, types, e, ts, scopes, Check(c, types, e).found);
  }

  lemma {:induction false} IfAccepted(c: ZoneContext, types: LocalTypes, e: Expr)
    requires e.If? && Check(c, types, e).ok
    ensures HasZoneType(c, types, e, Check(c, types, e).found)
    decreases e, 1, 0
  {
    Accepted(c, types, e.condition);
    Accepted(c, types, e.thenBranch);
    Accepted(c, types, e.elseBranch);
    BranchesFitIff(c, e.resultType, Check(c, types, e.thenBranch).found, Check(c, types, e.elseBranch).found,
                   Check(c, types, e).found);
  }

  lemma {:induction false} BinaryAccepted(c: ZoneContext, types: LocalTypes, e: Expr)
    requires e.Binary? && Check(c, types, e).ok
    ensures HasZoneType(c, types, e, Check(c, types, e).found)
    decreases e, 1, 0
  {
    var l, r := Check(c, types, e.left).found, Check(c, types, e.right).found;
    Accepted(c, types, e.left);
    Accepted(c, types, e.right);
    MayTakeIff(e.binary, l, r);
    TypingDecided.GivesIff(e.binary, l, r, Bodies.BinaryType(e.binary, l, r));
  }

  lemma {:induction false} ArgumentAccepted(c: ZoneContext, types: LocalTypes, e: Expr, i: nat, k: nat)
    requires e.New? && i <= k < |e.arguments| && ArgumentsOk(c, types, e, i)
    ensures ArgumentHasType(c, types, e, k)
    decreases e, 0, k - i
  {
    if i == k {
      Accepted(c, types, e.arguments[k]);
    } else {
      ArgumentAccepted(c, types, e, i + 1, k);
    }
  }

  lemma {:induction false} OperandsFrom(c: ZoneContext, types: LocalTypes, e: Expr, k: nat, last: Type)
    returns (ts: seq<Type>, scopes: seq<LocalTypes>)
    requires e.Block? && k <= |e.operands| && CheckBlock(c, types, e, k, last).ok
    ensures |ts| == |e.operands| - k && |scopes| == |ts| + 1 && scopes[0] == types
    ensures CheckBlock(c, types, e, k, last).found == if ts == [] then last else LastType(ts)
    ensures forall i {:trigger ts[i]} :: 0 <= i < |ts| ==>
              OperandHasType(c, scopes[i], e, k + i, ts[i], scopes[i + 1])
    decreases e, 0, |e.operands| - k
  {
    if k == |e.operands| {
      ts, scopes := [], [types];
    } else {
      var t, next := OperandAccepted(c, types, e, k, last);
      var rest, after := OperandsFrom(c, next, e, k + 1, t);
      ts, scopes := [t] + rest, [types] + after;
    }
  }

  lemma {:induction false} OperandAccepted(c: ZoneContext, types: LocalTypes, e: Expr, k: nat, last: Type)
    returns (t: Type, next: LocalTypes)
    requires e.Block? && k < |e.operands| && CheckBlock(c, types, e, k, last).ok
    ensures OperandHasType(c, types, e, k, t, next)
    ensures CheckBlock(c, types, e, k, last) == CheckBlock(c, next, e, k + 1, t)
    decreases e, 0, 0
  {
    var o := e.operands[k];
    if o.LocalBinding? {
      Accepted(c, types, o.initializer);
      var a := Check(c, types, o.initializer).found;
      t, next := UnitType, types[o.name := BoundType(o, a)];
      assert IsBound(c, o.declared, a, types, o.name, next);
    } else {
      Accepted(c, types, o);
      t, next := Check(c, types, o).found, types;
    }
  }

  // ---------------------------------------------------------------------------------------------
  // What has a type is accepted.

  lemma {:induction false} Derived(c: ZoneContext, types: LocalTypes, e: Expr, t: Type)
    requires HasZoneType(c, types, e, t)
    ensures Check(c, types, e) == Checked(t, true)
    decreases e, 1, 1
  {
    match e
    case Literal(_, _) =>
    case Local(_) =>
    case New(_, _) => ArgumentsDerived(c, types, e, 0);
    case Block(_) =>
      var ts, scopes :| BlockHasTypes(c, types, e, ts, scopes, t);
      OperandsDerived(c, types, e, ts, scopes, t, 0, UnitType);
    case Select(receiver, member) =>
      var r :| HasZoneType(c, types, receiver, r) && IsMemberType(c, r, member, t);
      Derived(c, types, receiver, r);
    case Assign(x, newValue) =>
      var v :| HasZoneType(c, types, newValue, v) && c.conforms(types[x], v);
      Derived(c, types, newValue, v);
    case AssignField(_, _, _) => FieldDerived(c, types, e);
    case If(_, _, _, _) => IfDerived(c, types, e, t);
    case While(_, _) => WhileDerived(c, types, e);
    case Unary(op, operand) =>
      var a :| HasZoneType(c, types, operand, a) && UnaryTyped(op, a, t);
      Derived(c, types, operand, a);
      TypingDecided.UnaryIff(op, a, t);
    case Binary(_, _, _) => BinaryDerived(c, types, e, t);
    case Box(boxed, operand) =>
      var a :| HasZoneType(c, types, operand, a) && c.conforms(boxed, a);
      Derived(c, types, operand, a);
    case Unbox(_, operand) => ReferenceDerived(c, types, operand);
    case IsInstanceOf(_, operand) => ReferenceDerived(c, types, operand);
    case AsInstanceOf(_, operand) => ReferenceDerived(c, types, operand);
  }

  lemma {:induction false} ReferenceDerived(c: ZoneContext, types: LocalTypes, e: Expr)
    requires IsReferenceValue(c, types, e)
    ensures Check(c, types, e).ok && IsReference(Check(c, types, e).found)
    decreases e, 2
  {
    var a :| HasZoneType(c, types, e, a) && IsReference(a);
    Derived(c, types, e, a);
  }

  lemma {:induction false} ConditionDerived(c: ZoneContext, types: LocalTypes, e: Expr)
    requires IsCondition(c, types, e)
    ensures Check(c, types, e).ok && StandsFor(Check(c, types, e).found, BooleanType)
    decreases e, 2
  {
    var i :| HasZoneType(c, types, e, i) && StandsFor(i, BooleanType);
    Derived(c, types, e, i);
  }

  lemma {:induction false} FieldDerived(c: ZoneContext, types: LocalTypes, e: Expr)
    requires e.AssignField? && HasZoneType(c, types, e, UnitType)
    ensures Check(c, types, e) == Checked(UnitType, true)
    decreases e, 1, 0
  {
    var r, v :|
      HasZoneType(c, types, e.receiver, r) && HasZoneType(c, types, e.newValue, v) && MayStore(c, r, e.member, v);
    Derived(c, types, e.receiver, r);
    Derived(c, types, e.newValue, v);
  }

  lemma {:induction false} WhileDerived(c: ZoneContext, types: LocalTypes, e: Expr)
    requires e.While? && HasZoneType(c, types, e, UnitType)
    ensures Check(c, types, e) == Checked(UnitType, true)
    decreases e, 1, 0
  {
    ConditionDerived(c, types, e.condition);
    var b :| HasZoneType(c, types, e.body, b);
    Derived(c, types, e.body, b);
  }

  lemma {:induction false} IfDerived(c: ZoneContext, types: LocalTypes, e: Expr, t: Type)
    requires e.If? && HasZoneType(c, types, e, t)
    ensures Check(c, types, e) == Checked(t, true)
    decreases e, 1, 0
  {
    ConditionDerived(c, types, e.condition);
    var a, b :|
      HasZoneType(c, types, e.thenBranch, a) && HasZoneType(c, types, e.elseBranch, b) &&
      BranchesFit(c, e.resultType, a, b, t);
    Derived(c, types, e.thenBranch, a);
    Derived(c, types, e.elseBranch, b);
    BranchesFitIff(c, e.resultType, a, b, t);
  }

  lemma {:induction false} BinaryDerived(c: ZoneContext, types: LocalTypes, e: Expr, t: Type)
    requires e.Binary? && HasZoneType(c, types, e, t)
    ensures Check(c, types, e) == Checked(t, true)
    decreases e, 1, 0
  {
    var a, b :|
      HasZoneType(c, types, e.left, a) && HasZoneType(c, types, e.right, b) && MayTake(e.binary, a, b) &&
      Gives(e.binary, a, b, t);
    Derived(c, types, e.left, a);
    Derived(c, types, e.right, b);
    MayTakeIff(e.binary, a, b);
    TypingDecided.GivesIff(e.binary, a, b, t);
  }

  lemma {:induction false} ArgumentsDerived(c: ZoneContext, types: LocalTypes, e: Expr, k: nat)
    requires e.New? && k <= |e.arguments| && ArgumentsFit(c, types, e)
    ensures ArgumentsOk(c, types, e, k)
    decreases e, 0, |e.arguments| - k
  {
    if k == |e.arguments| {
    } else {
      assert ArgumentHasType(c, types, e, k);
      var a :| HasZoneType(c, types, e.arguments[k], a) &&
               c.conforms(c.typeOf(c.constructorFields(e.className)[k]), a);
      Derived(c, types, e.arguments[k], a);
      ArgumentsDerived(c, types, e, k + 1);
    }
  }

  lemma {:induction false} OperandsDerived(c: ZoneContext, types: LocalTypes, e: Expr, ts: seq<Type>,
                                           scopes: seq<LocalTypes>, t: Type, k: nat, last: Type)
    requires e.Block? && BlockHasTypes(c, types, e, ts, scopes, t) && k <= |ts| && (k == |ts| ==> last == t)
    ensures CheckBlock(c, scopes[k], e, k, last) == Checked(t, true)
    decreases e, 0, |ts| - k
  {
    if k == |ts| {
    } else {
      var o := e.operands[k];
      assert OperandHasType(c, scopes[k], e, k, ts[k], scopes[k + 1]);
      if o.LocalBinding? {
        var a :| HasZoneType(c, scopes[k], o.initializer, a) &&
                 IsBound(c, o.declared, a, scopes[k], o.name, scopes[k + 1]);
        Derived(c, scopes[k], o.initializer, a);
      } else {
        Derived(c, scopes[k], o, ts[k]);
      }
      OperandsDerived(c, types, e, ts, scopes, t, k + 1, ts[k]);
    }
  }

  /** A zone may have the values that the compiler keeps behind no pointer, or never end; references are the other
      values but symbols. */
  lemma ResultTypesAre(t: Type)
    ensures IsZoneResultType(t) <==> !Bodies.IsPointer(t) || t.NothingType?
    ensures IsReference(t) <==> Bodies.IsPointer(t) && !t.SymbolType? && !t.NothingType?
  {
  }

  ghost predicate IsTyped(c: ZoneContext, types: LocalTypes, e: Expr) {
    exists t :: HasZoneType(c, types, e, t)
  }

  /** Main result: the check adds no error exactly if the rules give the body a type, and reports the only one. */
  lemma CheckDecidesZoneTypes(c: ZoneContext, types: LocalTypes, e: Expr)
    ensures Check(c, types, e).ok <==> IsTyped(c, types, e)
    ensures forall t :: HasZoneType(c, types, e, t) ==> Check(c, types, e) == Checked(t, true)
  {
    if Check(c, types, e).ok {
      Accepted(c, types, e);
    }
    forall t | HasZoneType(c, types, e, t) ensures Check(c, types, e) == Checked(t, true) {
      Derived(c, types, e, t);
    }
    if IsTyped(c, types, e) {
      var t :| HasZoneType(c, types, e, t);
      Derived(c, types, e, t);
    }
  }
}
