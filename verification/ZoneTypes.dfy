/** The type check of zone bodies, and why the value of an accepted zone is no reference. */
module ZoneTypes {
  import opened Basics
  import opened Types
  import Bodies
  import opened ZoneBodies
  import opened ZoneSafety

  type LocalTypes = map<Name, Type>

  // ---------------------------------------------------------------------------------------------
  // The check.

  datatype Checked = Checked(found: Type, ok: bool)

  const BOXABLE: set<Type> :=
    {UnitType, BooleanType, ByteType, ShortType, IntType, LongType, FloatType, DoubleType, CharType, SymbolType,
     StringType}

  /** The types a zone's value may have. */
  predicate IsZoneResultType(t: Type) {
    t.NothingType? || t.UnitType? || t.BooleanType? || IsNumeric(t) || t.CharType?
  }

  function NamedType(c: ZoneContext, types: LocalTypes, x: Name): Type {
    if x in types then types[x] else c.globalType(x)
  }

  predicate BranchesOk(c: ZoneContext, resultType: Option<Type>, a: Type, b: Type) {
    match resultType
    case Some(t) => c.conforms(t, a) && c.conforms(t, b)
    case None => a == b || a.UnknownType? || b.UnknownType? || a.NothingType? || b.NothingType?
  }

  /** The reported type and whether no error was recorded, for bodies that bind locals directly in blocks. */
  function Check(c: ZoneContext, types: LocalTypes, e: Expr): Checked
    decreases e, 1, 0
  {
    match e
    case Literal(t, _) => Checked(t, true)
    case Local(x) => Checked(NamedType(c, types, x), true)
    case New(className, arguments) =>
      var d := c.definitionOf(c.read(className));
      if d.None? || !c.isClass(d.value) then Checked(UnknownType, false)
      else
        Checked(c.read(d.value), |arguments| == |c.constructorFields(className)| && ArgumentsOk(c, types, e, 0))
    case Block(_) => CheckBlock(c, types, e, 0, UnitType)
    case LocalBinding(_, _, _) => Checked(UnitType, false)
    case Select(receiver, member) =>
      var r := Check(c, types, receiver);
      var d := c.definitionOf(r.found);
      if d.None? then Checked(UnknownType, r.ok)
      else
        var m := c.memberOf(d.value, member);
        if m.None? then Checked(UnknownType, false) else Checked(c.typeOf(m.value), r.ok)
    case Assign(x, newValue) =>
      var v := Check(c, types, newValue);
      Checked(UnitType, x in types && v.ok && c.conforms(types[x], v.found))
    case AssignField(receiver, member, newValue) =>
      var r := Check(c, types, receiver);
      var v := Check(c, types, newValue);
      var m := LookUp(c, r.found, member);
      Checked(UnitType, r.ok && v.ok && m.Some? && !c.isFunction(m.value) && c.conforms(c.typeOf(m.value), v.found))
    case If(resultType, condition, thenBranch, elseBranch) =>
      var i := Check(c, types, condition);
      var a := Check(c, types, thenBranch);
      var b := Check(c, types, elseBranch);
      Checked(Bodies.BranchType(resultType, a.found, b.found),
              i.ok && Bodies.OrUnknown(i.found.BooleanType?, i.found) && a.ok && b.ok &&
              BranchesOk(c, resultType, a.found, b.found))
    case While(condition, body) =>
      var i := Check(c, types, condition);
      Checked(UnitType, i.ok && Bodies.OrUnknown(i.found.BooleanType?, i.found) && Check(c, types, body).ok)
    case Unary(op, operand) =>
      var o := Check(c, types, operand);
      Checked(Bodies.UnaryType(op, o.found), o.ok && Bodies.UnaryOk(op, o.found))
    case Binary(op, left, right) =>
      var l := Check(c, types, left);
      var r := Check(c, types, right);
      Checked(Bodies.BinaryType(op, l.found, r.found), l.ok && r.ok && Bodies.OperandsOk(op, l.found, r.found))
    case Box(boxed, operand) =>
      var o := Check(c, types, operand);
      Checked(ObjectType, boxed in BOXABLE && o.ok && c.conforms(boxed, o.found))
    case Unbox(primitive, operand) =>
      var o := Check(c, types, operand);
      Checked(primitive, primitive in BOXABLE && o.ok && IsReference(o.found))
    case IsInstanceOf(tested, operand) =>
      var o := Check(c, types, operand);
      Checked(BooleanType, (tested in BOXABLE || c.definitionOf(tested).Some?) && o.ok && IsReference(o.found))
    case AsInstanceOf(asType, operand) =>
      var o := Check(c, types, operand);
      var d := c.definitionOf(asType);
      if d.None? then Checked(UnknownType, false) else Checked(c.read(d.value), o.ok && IsReference(o.found))
  }

  predicate ArgumentsOk(c: ZoneContext, types: LocalTypes, e: Expr, k: nat)
    requires e.New? && k <= |e.arguments|
    decreases e, 0, |e.arguments| - k
  {
    k == |e.arguments| ||
    var a := Check(c, types, e.arguments[k]);
    var fields := c.constructorFields(e.className);
    a.ok && k < |fields| && c.conforms(c.typeOf(fields[k]), a.found) && ArgumentsOk(c, types, e, k + 1)
  }

  function CheckBlock(c: ZoneContext, types: LocalTypes, e: Expr, k: nat, last: Type): Checked
    requires e.Block? && k <= |e.operands|
    decreases e, 0, |e.operands| - k
  {
    if k == |e.operands| then Checked(last, true)
    else
      var o := e.operands[k];
      if o.LocalBinding? then
        var i := Check(c, types, o.initializer);
        var rest := CheckBlock(c, types[o.name := BoundType(o, i.found)], e, k + 1, UnitType);
        rest.(ok := rest.ok && i.ok && (o.declared.Some? ==> c.conforms(o.declared.value, i.found)))
      else
        var r := Check(c, types, o);
        var rest := CheckBlock(c, types, e, k + 1, r.found);
        rest.(ok := rest.ok && r.ok)
  }

  function BoundType(o: Expr, found: Type): Type
    requires o.LocalBinding?
  {
    if o.declared.Some? then o.declared.value else found
  }

  /** What the verifier asks of a zone: no type error, no escape, and a value that needs no arena. */
  predicate ZoneAccepted(c: ZoneContext, types: LocalTypes, e: Expr) {
    && Check(c, types, e).ok && CheckZone(c, Outside(types), e).ok && IsZoneResultType(Check(c, types, e).found)
  }

  // ---------------------------------------------------------------------------------------------
  // What is assumed: no type is left unknown, and definitions do not take the names of built-in types.

  ghost predicate TypesOk(c: ZoneContext) {
    && (forall t {:trigger c.definitionOf(t)} | c.definitionOf(t).Some? ::
          var d := c.definitionOf(t).value;
          && IsReference(t) && Known(t) && IsReference(c.read(d)) && Known(c.read(d))
          && c.definitionOf(c.read(d)) == Some(d))
    && (forall m {:trigger c.typeOf(m)} :: Known(c.typeOf(m)))
    && (forall t, u {:trigger c.conforms(t, u)} | c.conforms(t, u) ::
          TypesConform(t, u) || (IsReference(t) && IsReference(u)))
  }

  /** Declared types and result types are known. */
  predicate TypesKnown(e: Expr) {
    match e
    case Literal(_, _) => true
    case Local(_) => true
    case New(_, arguments) => forall a :: a in arguments ==> TypesKnown(a)
    case Block(operands) => forall o :: o in operands ==> TypesKnown(o)
    case LocalBinding(_, declared, initializer) => (declared.Some? ==> Known(declared.value)) && TypesKnown(initializer)
    case Select(receiver, _) => TypesKnown(receiver)
    case Assign(_, newValue) => TypesKnown(newValue)
    case AssignField(receiver, _, newValue) => TypesKnown(receiver) && TypesKnown(newValue)
    case If(resultType, condition, thenBranch, elseBranch) =>
      && (resultType.Some? ==> Known(resultType.value))
      && TypesKnown(condition) && TypesKnown(thenBranch) && TypesKnown(elseBranch)
    case While(condition, body) => TypesKnown(condition) && TypesKnown(body)
    case Unary(_, operand) => TypesKnown(operand)
    case Binary(_, left, right) => TypesKnown(left) && TypesKnown(right)
    case Box(_, operand) => TypesKnown(operand)
    case Unbox(_, operand) => TypesKnown(operand)
    case IsInstanceOf(_, operand) => TypesKnown(operand)
    case AsInstanceOf(_, operand) => TypesKnown(operand)
  }

  // ---------------------------------------------------------------------------------------------
  // The invariant. The check and the escape analysis each read a type off a value; for a reference the first is a
  // reference type, and the second names the same definition or none.

  predicate Fits(c: ZoneContext, found: Type, zoneType: Type, v: Value) {
    v.Ref? ==>
      && IsReference(found) && Known(found) && !zoneType.NothingType?
      && (c.definitionOf(zoneType).Some? ==> c.definitionOf(zoneType) == c.definitionOf(found))
  }

  ghost predicate LocalsFit(c: ZoneContext, types: LocalTypes, zoneTypes: LocalTypes, m: Machine) {
    forall x {:trigger m.locals[x]} | x in m.locals ::
      Fits(c, NamedType(c, types, x), NamedType(c, zoneTypes, x), m.locals[x])
  }

  ghost predicate FieldsFit(c: ZoneContext, m: Machine) {
    forall id, f {:trigger m.heap[id].fields[f]} | id in m.heap && f in m.heap[id].fields ::
      FitsField(c, f, m.heap[id].fields[f])
  }

  ghost predicate Typed(c: ZoneContext, types: LocalTypes, zoneTypes: LocalTypes, m: Machine) {
    LocalsFit(c, types, zoneTypes, m) && FieldsFit(c, m)
  }

  ghost predicate TypedRun(c: ZoneContext, types: LocalTypes, zoneTypes: LocalTypes, found: Type, zoneType: Type,
                           r: Run) {
    Typed(c, types, zoneTypes, r.machine) && (r.outcome.Ok? ==> Fits(c, found, zoneType, r.outcome.value))
  }

  lemma AllocateFits(c: ZoneContext, m: Machine, fields: map<Name, Value>)
    requires FieldsFit(c, m) && forall f :: f in fields ==> FitsField(c, f, fields[f])
    ensures FieldsFit(c, Allocate(m, fields).machine)
  {
    var n := Allocate(m, fields).machine;
    forall id, f | id in n.heap && f in n.heap[id].fields ensures FitsField(c, f, n.heap[id].fields[f]) {
      if id != m.next {
        assert FitsField(c, f, m.heap[id].fields[f]);
      }
    }
  }

  lemma StoreFits(c: ZoneContext, m: Machine, id: nat, f: Name, v: Value)
    requires FieldsFit(c, m) && id in m.heap && FitsField(c, f, v)
    ensures FieldsFit(c, StoreField(m, id, f, v))
  {
    var n := StoreField(m, id, f, v);
    forall i, g | i in n.heap && g in n.heap[i].fields ensures FitsField(c, g, n.heap[i].fields[g]) {
      if i != id || g != f {
        assert FitsField(c, g, m.heap[i].fields[g]);
      }
    }
  }

  /** A value fits a type that its own conforms to. */
  lemma ConformingFits(c: ZoneContext, t: Type, found: Type, zoneType: Type, v: Value)
    requires TypesOk(c) && Known(t) && c.conforms(t, found) && Fits(c, found, zoneType, v)
    ensures Fits(c, t, t, v)
  {
  }

  /** Binding a local, and leaving its scope. */
  lemma BindFits(c: ZoneContext, types: LocalTypes, zoneTypes: LocalTypes, o: Expr, m: Machine, v: Value)
    requires o.LocalBinding? && TypesOk(c) && TypesKnown(o) && Typed(c, types, zoneTypes, m)
    requires var found := Check(c, types, o.initializer).found;
             Fits(c, found, ZoneType(c, zoneTypes, o.initializer), v) &&
             (o.declared.Some? ==> c.conforms(o.declared.value, found))
    ensures var t := BoundType(o, Check(c, types, o.initializer).found);
            var z := BoundType(o, ZoneType(c, zoneTypes, o.initializer));
            Typed(c, types[o.name := t], zoneTypes[o.name := z], m.(locals := m.locals[o.name := v]))
  {
    var found, zoneType := Check(c, types, o.initializer).found, ZoneType(c, zoneTypes, o.initializer);
    var t, z := BoundType(o, found), BoundType(o, zoneType);
    if o.declared.Some? {
      ConformingFits(c, t, found, zoneType, v);
    }
    var n := m.(locals := m.locals[o.name := v]);
    forall y | y in n.locals
      ensures Fits(c, NamedType(c, types[o.name := t], y), NamedType(c, zoneTypes[o.name := z], y), n.locals[y])
    {
      if y != o.name {
        assert Fits(c, NamedType(c, types, y), NamedType(c, zoneTypes, y), m.locals[y]);
      }
    }
  }

  lemma LeaveFits(c: ZoneContext, types: LocalTypes, zoneTypes: LocalTypes, x: Name, t: Type, z: Type, before: Machine,
                  after: Machine)
    requires Typed(c, types, zoneTypes, before) && Typed(c, types[x := t], zoneTypes[x := z], after)
    ensures Typed(c, types, zoneTypes, Leave(x, before, after))
  {
    var n := Leave(x, before, after);
    forall y | y in n.locals ensures Fits(c, NamedType(c, types, y), NamedType(c, zoneTypes, y), n.locals[y]) {
      if y == x {
        assert Fits(c, NamedType(c, types, x), NamedType(c, zoneTypes, x), before.locals[x]);
      } else {
        assert Fits(c, NamedType(c, types[x := t], y), NamedType(c, zoneTypes[x := z], y), after.locals[y]);
      }
    }
  }

  // ---------------------------------------------------------------------------------------------
  // Accepted bodies keep the invariant.

  /** The locals from outside the zone have known types, which are those the analysis starts with. */
  ghost predicate Aligned(types: LocalTypes, s: ZoneState) {
    forall x {:trigger types[x]} {:trigger x in s.zoneLocals} | x !in s.zoneLocals ::
      (x in types <==> x in s.localTypes) && (x in types ==> s.localTypes[x] == types[x] && Known(types[x]))
  }

  ghost predicate Covered(c: ZoneContext, types: LocalTypes, s: ZoneState, definite: set<Name>, e: Expr) {
    TypesOk(c) && Aligned(types, s) && InFragment(c, s, definite, e) && TypesKnown(e) && Check(c, types, e).ok
  }

  ghost predicate Fitting(c: ZoneContext, w: World, types: LocalTypes, s: ZoneState, e: Expr, m: Machine) {
    TypedRun(c, types, s.localTypes, Check(c, types, e).found, ZoneType(c, s.localTypes, e), Eval(c, w, s, e, m))
  }

  /** Whatever an accepted body yields has the reported type as far as references go. */
  lemma {:induction false} WellTyped(c: ZoneContext, w: World, types: LocalTypes, s: ZoneState, definite: set<Name>,
                                     e: Expr, m: Machine)
    requires Covered(c, types, s, definite, e) && Typed(c, types, s.localTypes, m)
    ensures Fitting(c, w, types, s, e, m)
    decreases w.steps, e, 1, 1
  {
    match e
    case Literal(_, _) =>
    case Local(_) =>
    case New(_, _) => WellTypedNew(c, w, types, s, definite, e, 0, [], m);
    case Block(_) => WellTypedBlock(c, w, types, s, definite, e, 0, UnitType, UnitType, UNIT, m);
    case Select(_, _) => WellTypedSelect(c, w, types, s, definite, e, m);
    case Assign(_, _) => WellTypedAssign(c, w, types, s, definite, e, m);
    case AssignField(_, _, _) => WellTypedAssignField(c, w, types, s, definite, e, m);
    case If(_, _, _, _) => WellTypedIf(c, w, types, s, definite, e, m);
    case While(_, _) => WellTypedWhile(c, w, types, s, definite, e, m);
    case Binary(_, left, right) =>
      WellTyped(c, w, types, s, definite, left, m);
      WellTyped(c, w, types, s, definite, right, Eval(c, w, s, left, m).machine);
    case _ => WellTypedOperand(c, w, types, s, definite, e, m);
  }

  lemma {:induction false} WellTypedOperand(c: ZoneContext, w: World, types: LocalTypes, s: ZoneState,
                                            definite: set<Name>, e: Expr, m: Machine)
    requires e.Unary? || e.Box? || e.Unbox? || e.IsInstanceOf? || e.AsInstanceOf?
    requires Covered(c, types, s, definite, e) && Typed(c, types, s.localTypes, m)
    ensures Fitting(c, w, types, s, e, m)
    decreases w.steps, e, 1, 0
  {
    WellTyped(c, w, types, s, definite, e.operand, m);
    var v := Eval(c, w, s, e.operand, m);
    if e.Box? && v.outcome.Ok? {
      AllocateFits(c, v.machine, map[]);
    }
  }

  lemma {:induction false} WellTypedSelect(c: ZoneContext, w: World, types: LocalTypes, s: ZoneState,
                                           definite: set<Name>, e: Expr, m: Machine)
    requires e.Select? && Covered(c, types, s, definite, e) && Typed(c, types, s.localTypes, m)
    ensures Fitting(c, w, types, s, e, m)
    decreases w.steps, e, 1, 0
  {
    WellTyped(c, w, types, s, definite, e.receiver, m);
    var r := Eval(c, w, s, e.receiver, m);
    var f := Selected(c, s.localTypes, e.receiver, e.member);
    if r.outcome.Ok? && f.Some? && HasField(r.machine, r.outcome.value, f.value) {
      assert FitsField(c, f.value, r.machine.heap[r.outcome.value.id].fields[f.value]);
    }
  }

  lemma {:induction false} WellTypedAssign(c: ZoneContext, w: World, types: LocalTypes, s: ZoneState,
                                           definite: set<Name>, e: Expr, m: Machine)
    requires e.Assign? && Covered(c, types, s, definite, e) && Typed(c, types, s.localTypes, m)
    ensures Fitting(c, w, types, s, e, m)
    decreases w.steps, e, 1, 0
  {
    WellTyped(c, w, types, s, definite, e.newValue, m);
    StateKept(c, s, definite, e.newValue);
    var v := Eval(c, w, s, e.newValue, m);
    if v.outcome.Ok? {
      var t, found := types[e.target], Check(c, types, e.newValue).found;
      ConformingFits(c, t, found, ZoneType(c, s.localTypes, e.newValue), v.outcome.value);
      AssignFits(c, types, s.localTypes, e.target, v.machine, v.outcome.value);
    }
  }

  lemma AssignFits(c: ZoneContext, types: LocalTypes, zoneTypes: LocalTypes, x: Name, m: Machine, v: Value)
    requires Typed(c, types, zoneTypes, m) && Fits(c, NamedType(c, types, x), NamedType(c, zoneTypes, x), v)
    ensures Typed(c, types, zoneTypes, m.(locals := m.locals[x := v]))
  {
    var n := m.(locals := m.locals[x := v]);
    forall y | y in n.locals ensures Fits(c, NamedType(c, types, y), NamedType(c, zoneTypes, y), n.locals[y]) {
      if y != x {
        assert n.locals[y] == m.locals[y];
      }
    }
  }

  lemma {:induction false} WellTypedAssignField(c: ZoneContext, w: World, types: LocalTypes, s: ZoneState,
                                                definite: set<Name>, e: Expr, m: Machine)
    requires e.AssignField? && Covered(c, types, s, definite, e) && Typed(c, types, s.localTypes, m)
    ensures Fitting(c, w, types, s, e, m)
    decreases w.steps, e, 1, 0
  {
    WellTyped(c, w, types, s, definite, e.receiver, m);
    var r := Eval(c, w, s, e.receiver, m);
    WellTyped(c, w, types, s, definite, e.newValue, r.machine);
    var v := Eval(c, w, s, e.newValue, r.machine);
    var f := Selected(c, s.localTypes, e.receiver, e.member);
    if r.outcome.Ok? && v.outcome.Ok? && f.Some? &&
       HasField(v.machine, r.outcome.value, f.value) && FitsField(c, f.value, v.outcome.value) {
      StoreFits(c, v.machine, r.outcome.value.id, f.value, v.outcome.value);
    }
  }

  lemma {:induction false} WellTypedNew(c: ZoneContext, w: World, types: LocalTypes, s: ZoneState, definite: set<Name>,
                                        e: Expr, k: nat, values: seq<Value>, m: Machine)
    requires e.New? && k <= |e.arguments| && TypesOk(c) && Aligned(types, s)
    requires InFragment(c, s, definite, e) && TypesKnown(e)
    requires c.definitionOf(c.read(e.className)).Some? && ArgumentsOk(c, types, e, k)
    requires Typed(c, types, s.localTypes, m)
    ensures var d := c.definitionOf(c.read(e.className)).value;
            TypedRun(c, types, s.localTypes, c.read(d), c.read(e.className), EvalNew(c, w, s, e, k, values, m))
    decreases w.steps, e, 0, |e.arguments| - k
  {
    if k == |e.arguments| {
      var names := c.constructorFields(e.className);
      if FitFields(c, names, values) {
        AllocateFits(c, m, FieldsFrom(names, values));
      }
    } else {
      WellTyped(c, w, types, s, definite, e.arguments[k], m);
      var a := Eval(c, w, s, e.arguments[k], m);
      if a.outcome.Ok? {
        WellTypedNew(c, w, types, s, definite, e, k + 1, values + [a.outcome.value], a.machine);
      }
    }
  }

  /** The branch's value fits the type of the whole conditional. */
  lemma BranchFits(c: ZoneContext, resultType: Option<Type>, a: Type, b: Type, za: Type, zb: Type, v: Value)
    requires TypesOk(c) && BranchesOk(c, resultType, a, b) && (resultType.Some? ==> Known(resultType.value))
    requires Fits(c, a, za, v) || Fits(c, b, zb, v)
    ensures Fits(c, Bodies.BranchType(resultType, a, b), BranchZoneType(resultType, za, zb), v)
  {
  }

  lemma {:induction false} WellTypedIf(c: ZoneContext, w: World, types: LocalTypes, s: ZoneState, definite: set<Name>,
                                       e: Expr, m: Machine)
    requires e.If? && Covered(c, types, s, definite, e) && Typed(c, types, s.localTypes, m)
    ensures Fitting(c, w, types, s, e, m)
    decreases w.steps, e, 1, 0
  {
    WellTyped(c, w, types, s, definite, e.condition, m);
    var i := Eval(c, w, s, e.condition, m);
    var taken := i.outcome.Ok? && i.outcome.value.Data? && i.outcome.value.payload != 0;
    var branch := if taken then e.thenBranch else e.elseBranch;
    WellTyped(c, w, types, s, definite, branch, i.machine);
    var r := Eval(c, w, s, branch, i.machine);
    if r.outcome.Ok? {
      BranchFits(c, e.resultType, Check(c, types, e.thenBranch).found, Check(c, types, e.elseBranch).found,
                 ZoneType(c, s.localTypes, e.thenBranch), ZoneType(c, s.localTypes, e.elseBranch), r.outcome.value);
    }
  }

  lemma {:induction false} WellTypedWhile(c: ZoneContext, w: World, types: LocalTypes, s: ZoneState,
                                          definite: set<Name>, e: Expr, m: Machine)
    requires e.While? && Covered(c, types, s, definite, e) && Typed(c, types, s.localTypes, m)
    ensures Fitting(c, w, types, s, e, m)
    decreases w.steps, e, 1, 0
  {
    WellTyped(c, w, types, s, definite, e.condition, m);
    var i := Eval(c, w, s, e.condition, m);
    WellTyped(c, w, types, s, definite, e.body, i.machine);
    var b := Eval(c, w, s, e.body, i.machine);
    if b.outcome.Ok? && w.steps > 0 {
      WellTyped(c, w.(steps := w.steps - 1), types, s, definite, e, b.machine);
    }
  }

  lemma {:induction false} WellTypedBlock(c: ZoneContext, w: World, types: LocalTypes, s: ZoneState,
                                          definite: set<Name>, e: Expr, k: nat, last: Type, zoneLast: Type,
                                          lastValue: Value, m: Machine)
    requires e.Block? && k <= |e.operands| && TypesOk(c) && Aligned(types, s)
    requires OperandsInFragment(c, s, definite, e, k) && TypesKnown(e) && CheckBlock(c, types, e, k, last).ok
    requires Fits(c, last, zoneLast, lastValue) && Typed(c, types, s.localTypes, m)
    ensures TypedRun(c, types, s.localTypes, CheckBlock(c, types, e, k, last).found,
                     ZoneBlockType(c, s.localTypes, e, k, zoneLast), EvalBlock(c, w, s, e, k, lastValue, m))
    decreases w.steps, e, 0, |e.operands| - k, 1
  {
    if k == |e.operands| {
    } else {
      var o := e.operands[k];
      assert TypesKnown(o);
      if o.LocalBinding? {
        WellTypedBinding(c, w, types, s, definite, e, k, last, zoneLast, lastValue, m);
      } else {
        WellTypedStep(c, w, types, s, definite, e, k, last, zoneLast, lastValue, m);
      }
    }
  }

  lemma {:induction false} WellTypedStep(c: ZoneContext, w: World, types: LocalTypes, s: ZoneState,
                                         definite: set<Name>, e: Expr, k: nat, last: Type, zoneLast: Type,
                                         lastValue: Value, m: Machine)
    requires e.Block? && k < |e.operands| && !e.operands[k].LocalBinding? && TypesOk(c) && Aligned(types, s)
    requires OperandsInFragment(c, s, definite, e, k) && TypesKnown(e) && TypesKnown(e.operands[k])
    requires CheckBlock(c, types, e, k, last).ok && Typed(c, types, s.localTypes, m)
    ensures TypedRun(c, types, s.localTypes, CheckBlock(c, types, e, k, last).found,
                     ZoneBlockType(c, s.localTypes, e, k, zoneLast), EvalBlock(c, w, s, e, k, lastValue, m))
    decreases w.steps, e, 0, |e.operands| - k, 0
  {
    var o := e.operands[k];
    WellTyped(c, w, types, s, definite, o, m);
    StateKept(c, s, definite, o);
    var r := Eval(c, w, s, o, m);
    if r.outcome.Ok? {
      WellTypedBlock(c, w, types, s, definite, e, k + 1, Check(c, types, o).found, ZoneType(c, s.localTypes, o),
                     r.outcome.value, r.machine);
    }
  }

  lemma AlignedInside(c: ZoneContext, types: LocalTypes, s: ZoneState, definite: set<Name>, o: Expr)
    requires o.LocalBinding? && Aligned(types, s) && InFragment(c, s, definite, o.initializer)
    ensures var next := CheckZone(c, s, o).state;
            next.localTypes == s.localTypes[o.name := BoundType(o, ZoneType(c, s.localTypes, o.initializer))] &&
            Aligned(types[o.name := BoundType(o, Check(c, types, o.initializer).found)], next)
  {
    StateKept(c, s, definite, o.initializer);
  }

  lemma {:induction false} WellTypedBinding(c: ZoneContext, w: World, types: LocalTypes, s: ZoneState,
                                            definite: set<Name>, e: Expr, k: nat, last: Type, zoneLast: Type,
                                            lastValue: Value, m: Machine)
    requires e.Block? && k < |e.operands| && e.operands[k].LocalBinding? && TypesOk(c) && Aligned(types, s)
    requires OperandsInFragment(c, s, definite, e, k) && TypesKnown(e) && TypesKnown(e.operands[k])
    requires CheckBlock(c, types, e, k, last).ok && Typed(c, types, s.localTypes, m)
    ensures TypedRun(c, types, s.localTypes, CheckBlock(c, types, e, k, last).found,
                     ZoneBlockType(c, s.localTypes, e, k, zoneLast), EvalBlock(c, w, s, e, k, lastValue, m))
    decreases w.steps, e, 0, |e.operands| - k, 0
  {
    var o := e.operands[k];
    WellTyped(c, w, types, s, definite, o.initializer, m);
    AlignedInside(c, types, s, definite, o);
    var i := Eval(c, w, s, o.initializer, m);
    if i.outcome.Ok? {
      var t := BoundType(o, Check(c, types, o.initializer).found);
      BindFits(c, types, s.localTypes, o, i.machine, i.outcome.value);
      WellTypedBlock(c, w, types[o.name := t], CheckZone(c, s, o).state, Definite(definite, o), e, k + 1, UnitType,
                     UnitType, UNIT, i.machine.(locals := i.machine.locals[o.name := i.outcome.value]));
      BindingLeft(c, w, types, s, e, k, last, zoneLast, lastValue, m);
    }
  }

  /** What the rest of the block keeps inside the binding's scope holds again outside it. */
  lemma BindingLeft(c: ZoneContext, w: World, types: LocalTypes, s: ZoneState, e: Expr, k: nat, last: Type,
                    zoneLast: Type, lastValue: Value, m: Machine)
    requires e.Block? && k < |e.operands| && e.operands[k].LocalBinding?
    requires var o := e.operands[k];
             var i := Eval(c, w, s, o.initializer, m);
             var t := BoundType(o, Check(c, types, o.initializer).found);
             var z := BoundType(o, ZoneType(c, s.localTypes, o.initializer));
             var next := CheckZone(c, s, o).state;
             i.outcome.Ok? && Typed(c, types, s.localTypes, i.machine) &&
             next.localTypes == s.localTypes[o.name := z] &&
             TypedRun(c, types[o.name := t], next.localTypes,
                      CheckBlock(c, types[o.name := t], e, k + 1, UnitType).found,
                      ZoneBlockType(c, next.localTypes, e, k + 1, UnitType),
                      EvalBlock(c, w, next, e, k + 1, UNIT,
                                i.machine.(locals := i.machine.locals[o.name := i.outcome.value])))
    ensures TypedRun(c, types, s.localTypes, CheckBlock(c, types, e, k, last).found,
                     ZoneBlockType(c, s.localTypes, e, k, zoneLast), EvalBlock(c, w, s, e, k, lastValue, m))
  {
    var o := e.operands[k];
    var i := Eval(c, w, s, o.initializer, m);
    var start := i.machine.(locals := i.machine.locals[o.name := i.outcome.value]);
    LeaveFits(c, types, s.localTypes, o.name, BoundType(o, Check(c, types, o.initializer).found),
              BoundType(o, ZoneType(c, s.localTypes, o.initializer)), i.machine,
              EvalBlock(c, w, CheckZone(c, s, o).state, e, k + 1, UNIT, start).machine);
  }

  // ---------------------------------------------------------------------------------------------
  // The run's own tests of what a field may hold never fail in accepted bodies.

  lemma ConformingFitsField(c: ZoneContext, f: Name, found: Type, zoneType: Type, v: Value)
    requires TypesOk(c) && c.conforms(c.typeOf(f), found) && Fits(c, found, zoneType, v)
    ensures FitsField(c, f, v)
  {
  }

  /** A value fits the field it is stored in. */
  lemma StoredValueFits(c: ZoneContext, w: World, types: LocalTypes, s: ZoneState, definite: set<Name>, e: Expr,
                        m: Machine)
    requires e.AssignField? && Covered(c, types, s, definite, e) && Typed(c, types, s.localTypes, m)
    ensures var r := Eval(c, w, s, e.receiver, m);
            var v := Eval(c, w, s, e.newValue, r.machine);
            var f := Selected(c, s.localTypes, e.receiver, e.member);
            r.outcome.Ok? && v.outcome.Ok? && r.outcome.value.Ref? && f.Some? ==> FitsField(c, f.value, v.outcome.value)
  {
    WellTyped(c, w, types, s, definite, e.receiver, m);
    var r := Eval(c, w, s, e.receiver, m);
    WellTyped(c, w, types, s, definite, e.newValue, r.machine);
    var v := Eval(c, w, s, e.newValue, r.machine);
    var f := Selected(c, s.localTypes, e.receiver, e.member);
    if r.outcome.Ok? && v.outcome.Ok? && r.outcome.value.Ref? && f.Some? {
      ConformingFitsField(c, f.value, Check(c, types, e.newValue).found, ZoneType(c, s.localTypes, e.newValue),
                          v.outcome.value);
    }
  }

  /** An argument fits the field it initializes. */
  lemma ArgumentFits(c: ZoneContext, w: World, types: LocalTypes, s: ZoneState, definite: set<Name>, e: Expr, k: nat,
                     m: Machine)
    requires e.New? && k < |e.arguments| && TypesOk(c) && Aligned(types, s)
    requires InFragment(c, s, definite, e) && TypesKnown(e) && ArgumentsOk(c, types, e, k)
    requires Typed(c, types, s.localTypes, m)
    ensures var a := Eval(c, w, s, e.arguments[k], m);
            a.outcome.Ok? ==> FitsField(c, c.constructorFields(e.className)[k], a.outcome.value)
  {
    WellTyped(c, w, types, s, definite, e.arguments[k], m);
    var a := Eval(c, w, s, e.arguments[k], m);
    if a.outcome.Ok? {
      ConformingFitsField(c, c.constructorFields(e.className)[k], Check(c, types, e.arguments[k]).found,
                          ZoneType(c, s.localTypes, e.arguments[k]), a.outcome.value);
    }
  }

  // ---------------------------------------------------------------------------------------------
  // The end of the zone.

  /** Main result: after an accepted zone the arena can be reclaimed. No local, field or result refers into it, and no
      object outside it is lost. */
  lemma ZoneCanBeReclaimed(c: ZoneContext, w: World, types: LocalTypes, e: Expr, m: Machine)
    requires ZoneAccepted(c, types, e) && InFragment(c, Outside(types), {}, e)
    requires TypesOk(c) && TypesKnown(e) && forall x :: x in types ==> Known(types[x])
    requires HeapOk(c, m) && forall x :: x in m.locals ==> Valid(m, m.locals[x]) && !IsArena(m, m.locals[x])
    requires LocalsFit(c, types, types, m)
    ensures var r := Eval(c, w, Outside(types), e, m);
            var n := Reclaim(r.machine);
            NoDangling(n) && n.locals == r.machine.locals &&
            (forall id :: id in m.heap && !m.heap[id].inArena ==> id in n.heap && n.heap[id] == r.machine.heap[id]) &&
            (r.outcome.Ok? ==> r.outcome.value.Data?)
  {
    ArenaCanBeReclaimed(c, w, types, e, m);
    forall id, f | id in m.heap && f in m.heap[id].fields ensures FitsField(c, f, m.heap[id].fields[f]) {
      assert FieldsOk(c, m, m.heap[id].inArena, m.heap[id].fields);
    }
    WellTyped(c, w, types, Outside(types), {}, e, m);
  }
}
