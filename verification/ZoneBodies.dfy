/** Bodies of scoped zones: the escape analysis, and how they run on a heap with an arena. */
module ZoneBodies {
  import opened Basics
  import opened Types
  import Bodies

  datatype Expr =
    | Literal(literalType: Type, payload: int)
    | Local(name: Name)
    | New(className: Name, arguments: seq<Expr>)
    | Block(operands: seq<Expr>)
    | LocalBinding(name: Name, declared: Option<Type>, initializer: Expr)
    | Select(receiver: Expr, member: Name)
    | Assign(target: Name, newValue: Expr)
    | AssignField(receiver: Expr, member: Name, newValue: Expr)
    | If(resultType: Option<Type>, condition: Expr, thenBranch: Expr, elseBranch: Expr)
    | While(condition: Expr, body: Expr)
    | Unary(unary: Bodies.UnaryOperator, operand: Expr)
    | Binary(binary: Bodies.BinaryOperator, left: Expr, right: Expr)
    | Box(boxed: Type, operand: Expr)
    | Unbox(primitive: Type, operand: Expr)
    | IsInstanceOf(tested: Type, operand: Expr)
    | AsInstanceOf(asType: Type, operand: Expr)

  /** What a zone is checked against: how type texts read, the class, trait or module a type names, its members with
      their types, conformity, methods that may leak their receiver, and the fields a constructor sets. */
  datatype ZoneContext = ZoneContext(read: Name -> Type,
                             definitionOf: Type -> Option<Name>,
                             isClass: Name -> bool,
                             memberOf: (Name, Name) -> Option<Name>,
                             isFunction: Name -> bool,
                             typeOf: Name -> Type,
                             globalType: Name -> Type,
                             conforms: (Type, Type) -> bool,
                             escapingReceivers: set<Name>,
                             constructorFields: Name -> seq<Name>)

  function LookUp(c: ZoneContext, t: Type, member: Name): Option<Name> {
    var d := c.definitionOf(t);
    if d.Some? then c.memberOf(d.value, member) else None
  }

  // ---------------------------------------------------------------------------------------------
  // The analysis.

  datatype ZoneState = ZoneState(arenaReferences: map<Name, bool>, localTypes: map<Name, Type>, zoneLocals: set<Name>)

  /** The type the analysis reads off a value. */
  function ZoneType(c: ZoneContext, types: map<Name, Type>, e: Expr): Type
    decreases e, 1, 0
  {
    match e
    case Literal(t, _) => t
    case Local(x) => if x in types then types[x] else c.globalType(x)
    case New(className, _) => c.read(className)
    case Block(_) => ZoneBlockType(c, types, e, 0, UnitType)
    case LocalBinding(_, _, _) => UnitType
    case Select(receiver, member) =>
      var m := LookUp(c, ZoneType(c, types, receiver), member);
      if m.Some? then c.typeOf(m.value) else UnknownType
    case Assign(_, _) => UnitType
    case AssignField(_, _, _) => UnitType
    case If(resultType, _, thenBranch, elseBranch) =>
      BranchZoneType(resultType, ZoneType(c, types, thenBranch), ZoneType(c, types, elseBranch))
    case While(_, _) => UnitType
    case Unary(op, operand) => if op.Not? then BooleanType else ZoneType(c, types, operand)
    case Binary(op, left, right) =>
      if op.Comparison? || op.Logical? then BooleanType
      else if Bodies.Concatenates(op, ZoneType(c, types, left), ZoneType(c, types, right)) then StringType
      else ZoneType(c, types, left)
    case Box(_, _) => ObjectType
    case Unbox(t, _) => t
    case IsInstanceOf(_, _) => BooleanType
    case AsInstanceOf(t, _) => t
  }

  function BranchZoneType(resultType: Option<Type>, a: Type, b: Type): Type {
    if resultType.Some? then resultType.value
    else if a.NothingType? then b
    else if b.NothingType? || a == b then a
    else UnknownType
  }

  function ZoneBlockType(c: ZoneContext, types: map<Name, Type>, e: Expr, k: nat, last: Type): Type
    requires e.Block? && k <= |e.operands|
    decreases e, 0, |e.operands| - k
  {
    if k == |e.operands| then last
    else
      var o := e.operands[k];
      if o.LocalBinding? then
        var t := if o.declared.Some? then o.declared.value else ZoneType(c, types, o.initializer);
        ZoneBlockType(c, types[o.name := t], e, k + 1, UnitType)
      else ZoneBlockType(c, types, e, k + 1, ZoneType(c, types, o))
  }

  function Selected(c: ZoneContext, types: map<Name, Type>, receiver: Expr, member: Name): Option<Name> {
    LookUp(c, ZoneType(c, types, receiver), member)
  }

  predicate IsFlagged(s: ZoneState, x: Name) {
    x in s.arenaReferences && s.arenaReferences[x]
  }

  datatype Escape = Escape(flagged: bool, state: ZoneState, ok: bool)

  function Bind(c: ZoneContext, s: ZoneState, x: Name, declared: Option<Type>, initializer: Expr,
                flagged: bool): ZoneState {
    var t := if declared.Some? then declared.value else ZoneType(c, s.localTypes, initializer);
    ZoneState(s.arenaReferences[x := flagged], s.localTypes[x := t], s.zoneLocals + {x})
  }

  /** Whether the value may be an arena reference, the state afterwards, and whether no error was added. */
  function CheckZone(c: ZoneContext, s: ZoneState, e: Expr): Escape
    decreases e, 1, 0
  {
    match e
    case Literal(_, _) => Escape(false, s, true)
    case Local(x) => Escape(IsFlagged(s, x), s, true)
    case New(_, _) =>
      var a := CheckArguments(c, s, e, 0);
      Escape(true, a.state, a.ok)
    case Block(_) =>
      var b := CheckOperands(c, s, e, 0, false);
      Escape(b.flagged, s, b.ok)
    case LocalBinding(x, declared, initializer) =>
      var i := CheckZone(c, s, initializer);
      Escape(false, Bind(c, i.state, x, declared, initializer, i.flagged), i.ok)
    case Select(receiver, member) =>
      var r := CheckZone(c, s, receiver);
      var m := Selected(c, r.state.localTypes, receiver, member);
      Escape(r.flagged && (m.Some? ==> IsReference(c.typeOf(m.value))), r.state,
             r.ok && !(r.flagged && m.Some? && c.isFunction(m.value) && m.value in c.escapingReceivers))
    case Assign(x, newValue) =>
      var v := CheckZone(c, s, newValue);
      if x in v.state.zoneLocals then
        Escape(false, v.state.(arenaReferences := v.state.arenaReferences[x := v.flagged]), v.ok)
      else Escape(false, v.state, v.ok && !v.flagged)
    case AssignField(receiver, _, newValue) =>
      var v := CheckZone(c, s, newValue);
      var r := CheckZone(c, v.state, receiver);
      Escape(false, r.state, v.ok && r.ok && (v.flagged ==> r.flagged))
    case If(_, condition, thenBranch, elseBranch) =>
      var i := CheckZone(c, s, condition);
      var a := CheckZone(c, i.state, thenBranch);
      var b := CheckZone(c, a.state, elseBranch);
      Escape(i.flagged || a.flagged || b.flagged, b.state, i.ok && a.ok && b.ok)
    case While(condition, body) =>
      var i := CheckZone(c, s, condition);
      var b := CheckZone(c, i.state, body);
      Escape(false, b.state, i.ok && b.ok)
    case Unary(_, operand) => Unflagged(CheckZone(c, s, operand))
    case Binary(_, left, right) =>
      var l := CheckZone(c, s, left);
      var r := CheckZone(c, l.state, right);
      Escape(false, r.state, l.ok && r.ok)
    case Box(_, operand) => CheckZone(c, s, operand).(flagged := true)
    case Unbox(_, operand) => Unflagged(CheckZone(c, s, operand))
    case IsInstanceOf(_, operand) => Unflagged(CheckZone(c, s, operand))
    case AsInstanceOf(_, operand) => CheckZone(c, s, operand)
  }

  function Unflagged(x: Escape): Escape {
    x.(flagged := false)
  }

  function CheckArguments(c: ZoneContext, s: ZoneState, e: Expr, k: nat): Escape
    requires e.New? && k <= |e.arguments|
    decreases e, 0, |e.arguments| - k
  {
    if k == |e.arguments| then Escape(true, s, true)
    else
      var a := CheckZone(c, s, e.arguments[k]);
      var rest := CheckArguments(c, a.state, e, k + 1);
      rest.(ok := a.ok && rest.ok)
  }

  function CheckOperands(c: ZoneContext, s: ZoneState, e: Expr, k: nat, last: bool): Escape
    requires e.Block? && k <= |e.operands|
    decreases e, 0, |e.operands| - k
  {
    if k == |e.operands| then Escape(last, s, true)
    else
      var o := CheckZone(c, s, e.operands[k]);
      var rest := CheckOperands(c, o.state, e, k + 1, o.flagged);
      rest.(ok := o.ok && rest.ok)
  }

  // ---------------------------------------------------------------------------------------------
  // Running on a heap.

  datatype Value = Data(payload: int) | Ref(id: nat)

  datatype Object = Object(inArena: bool, fields: map<Name, Value>)

  /** Locals and globals by name, objects by reference, and a bound above all references given out. */
  datatype Machine = Machine(locals: map<Name, Value>, heap: map<nat, Object>, next: nat)

  datatype Outcome = Ok(value: Value) | Stuck | OutOfSteps

  datatype Run = Run(outcome: Outcome, machine: Machine)

  datatype World = World(compute: (Expr, seq<Value>) -> int, steps: nat)

  const UNIT := Data(0)

  /** What the type check guarantees: no reference is kept in a field of primitive type. */
  predicate FitsField(c: ZoneContext, f: Name, v: Value) {
    v.Data? || IsReference(c.typeOf(f))
  }

  predicate FitFields(c: ZoneContext, names: seq<Name>, values: seq<Value>) {
    |names| == |values| && forall i :: 0 <= i < |names| ==> FitsField(c, names[i], values[i])
  }

  function FieldsFrom(names: seq<Name>, values: seq<Value>): map<Name, Value>
    requires |names| == |values|
  {
    map i | 0 <= i < |names| && FirstAt(names, i) :: names[i] := values[i]
  }

  predicate FirstAt(names: seq<Name>, i: nat)
    requires i < |names|
  {
    forall j :: 0 <= j < i ==> names[j] != names[i]
  }

  function Allocate(m: Machine, fields: map<Name, Value>): Run {
    Run(Ok(Ref(m.next)), Machine(m.locals, m.heap[m.next := Object(true, fields)], m.next + 1))
  }

  function Leave(x: Name, before: Machine, after: Machine): Machine {
    after.(locals := if x in before.locals then after.locals[x := before.locals[x]] else after.locals - {x})
  }

  /** Inside the zone every object, boxes included, is allocated in the arena. */
  function Eval(c: ZoneContext, w: World, s: ZoneState, e: Expr, m: Machine): Run
    decreases w.steps, e, 1, 0
  {
    match e
    case Literal(_, payload) => Run(Ok(Data(payload)), m)
    case Local(x) => Run(if x in m.locals then Ok(m.locals[x]) else Stuck, m)
    case New(_, _) => EvalNew(c, w, s, e, 0, [], m)
    case Block(_) => EvalBlock(c, w, s, e, 0, UNIT, m)
    case LocalBinding(x, _, initializer) =>
      var i := Eval(c, w, s, initializer, m);
      if i.outcome.Ok? then Run(Ok(UNIT), i.machine.(locals := i.machine.locals[x := i.outcome.value])) else i
    case Select(receiver, member) =>
      var r := Eval(c, w, s, receiver, m);
      var f := Selected(c, s.localTypes, receiver, member);
      if !r.outcome.Ok? then r
      else if f.Some? && HasField(r.machine, r.outcome.value, f.value)
      then Run(Ok(r.machine.heap[r.outcome.value.id].fields[f.value]), r.machine)
      else Run(Stuck, r.machine)
    case Assign(x, newValue) =>
      var v := Eval(c, w, s, newValue, m);
      if !v.outcome.Ok? then v
      else if x in v.machine.locals then Run(Ok(UNIT), v.machine.(locals := v.machine.locals[x := v.outcome.value]))
      else Run(Stuck, v.machine)
    case AssignField(receiver, member, newValue) =>
      var r := Eval(c, w, s, receiver, m);
      if !r.outcome.Ok? then r
      else
        var v := Eval(c, w, s, newValue, r.machine);
        var f := Selected(c, s.localTypes, receiver, member);
        if !v.outcome.Ok? then v
        else if f.Some? && HasField(v.machine, r.outcome.value, f.value) && FitsField(c, f.value, v.outcome.value)
        then Run(Ok(UNIT), StoreField(v.machine, r.outcome.value.id, f.value, v.outcome.value))
        else Run(Stuck, v.machine)
    case If(_, condition, thenBranch, elseBranch) =>
      var i := Eval(c, w, s, condition, m);
      if !i.outcome.Ok? then i
      else if i.outcome.value.Ref? then Run(Stuck, i.machine)
      else if i.outcome.value.payload != 0 then Eval(c, w, s, thenBranch, i.machine)
      else Eval(c, w, s, elseBranch, i.machine)
    case While(condition, body) =>
      var i := Eval(c, w, s, condition, m);
      if !i.outcome.Ok? then i
      else if i.outcome.value.Ref? then Run(Stuck, i.machine)
      else if i.outcome.value.payload == 0 then Run(Ok(UNIT), i.machine)
      else
        var b := Eval(c, w, s, body, i.machine);
        if !b.outcome.Ok? then b
        else if w.steps == 0 then Run(OutOfSteps, b.machine)
        else Eval(c, w.(steps := w.steps - 1), s, e, b.machine)
    case Unary(_, operand) => EvalPrimitive(w, e, Eval(c, w, s, operand, m))
    case Binary(_, left, right) =>
      var l := Eval(c, w, s, left, m);
      if !l.outcome.Ok? then l
      else
        var r := Eval(c, w, s, right, l.machine);
        if r.outcome.Ok? then Run(Ok(Data(w.compute(e, [l.outcome.value, r.outcome.value]))), r.machine) else r
    case Box(_, operand) =>
      var v := Eval(c, w, s, operand, m);
      if v.outcome.Ok? then Allocate(v.machine, map[]) else v
    case Unbox(_, operand) => EvalPrimitive(w, e, Eval(c, w, s, operand, m))
    case IsInstanceOf(_, operand) => EvalPrimitive(w, e, Eval(c, w, s, operand, m))
    case AsInstanceOf(_, operand) => Eval(c, w, s, operand, m)
  }

  function EvalPrimitive(w: World, e: Expr, v: Run): Run {
    if v.outcome.Ok? then Run(Ok(Data(w.compute(e, [v.outcome.value]))), v.machine) else v
  }

  predicate HasField(m: Machine, v: Value, f: Name) {
    v.Ref? && v.id in m.heap && f in m.heap[v.id].fields
  }

  function StoreField(m: Machine, id: nat, f: Name, v: Value): Machine
    requires id in m.heap
  {
    m.(heap := m.heap[id := m.heap[id].(fields := m.heap[id].fields[f := v])])
  }

  function EvalNew(c: ZoneContext, w: World, s: ZoneState, e: Expr, k: nat, values: seq<Value>, m: Machine): Run
    requires e.New? && k <= |e.arguments|
    decreases w.steps, e, 0, |e.arguments| - k
  {
    if k == |e.arguments| then
      var names := c.constructorFields(e.className);
      if FitFields(c, names, values) then Allocate(m, FieldsFrom(names, values)) else Run(Stuck, m)
    else
      var a := Eval(c, w, s, e.arguments[k], m);
      if a.outcome.Ok? then EvalNew(c, w, s, e, k + 1, values + [a.outcome.value], a.machine) else a
  }

  function EvalBlock(c: ZoneContext, w: World, s: ZoneState, e: Expr, k: nat, last: Value, m: Machine): Run
    requires e.Block? && k <= |e.operands|
    decreases w.steps, e, 0, |e.operands| - k
  {
    if k == |e.operands| then Run(Ok(last), m)
    else
      var o := e.operands[k];
      var next := CheckZone(c, s, o).state;
      if o.LocalBinding? then
        var i := Eval(c, w, s, o.initializer, m);
        if !i.outcome.Ok? then i
        else
          var rest := EvalBlock(c, w, next, e, k + 1, UNIT,
                                i.machine.(locals := i.machine.locals[o.name := i.outcome.value]));
          Run(rest.outcome, Leave(o.name, i.machine, rest.machine))
      else
        var r := Eval(c, w, s, o, m);
        if r.outcome.Ok? then EvalBlock(c, w, next, e, k + 1, r.outcome.value, r.machine) else r
  }
}
