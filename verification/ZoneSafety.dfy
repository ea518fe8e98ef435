/** What the escape analysis guarantees, on the bodies where it does. */
module ZoneSafety {
  import opened Basics
  import opened ZoneBodies
  import Types

  // ---------------------------------------------------------------------------------------------
  // The bodies covered.

  /** Certainly an arena object: a construction, or a local bound to one. */
  predicate IsDefinite(definite: set<Name>, e: Expr) {
    e.New? || (e.Local? && e.name in definite)
  }

  function Definite(definite: set<Name>, o: Expr): set<Name>
    requires o.LocalBinding?
  {
    if IsDefinite(definite, o.initializer) then definite + {o.name} else definite - {o.name}
  }

  /** Locals are bound only directly in blocks and never reassigned; an arena reference is stored only in a certain
      arena object. */
  predicate InFragment(c: ZoneContext, s: ZoneState, definite: set<Name>, e: Expr)
    decreases e, 1, 0
  {
    match e
    case Literal(_, _) => true
    case Local(_) => true
    case New(_, arguments) => forall a :: a in arguments ==> InFragment(c, s, definite, a)
    case Block(_) => OperandsInFragment(c, s, definite, e, 0)
    case LocalBinding(_, _, _) => false
    case Select(receiver, _) => InFragment(c, s, definite, receiver)
    case Assign(x, newValue) => x !in s.zoneLocals && InFragment(c, s, definite, newValue)
    case AssignField(receiver, _, newValue) =>
      && InFragment(c, s, definite, receiver) && InFragment(c, s, definite, newValue)
      && (CheckZone(c, s, newValue).flagged ==> IsDefinite(definite, receiver) || !CheckZone(c, s, receiver).flagged)
    case If(_, condition, thenBranch, elseBranch) =>
      && InFragment(c, s, definite, condition) && InFragment(c, s, definite, thenBranch)
      && InFragment(c, s, definite, elseBranch)
    case While(condition, body) => InFragment(c, s, definite, condition) && InFragment(c, s, definite, body)
    case Unary(_, operand) => InFragment(c, s, definite, operand)
    case Binary(_, left, right) => InFragment(c, s, definite, left) && InFragment(c, s, definite, right)
    case Box(_, operand) => InFragment(c, s, definite, operand)
    case Unbox(_, operand) => InFragment(c, s, definite, operand)
    case IsInstanceOf(_, operand) => InFragment(c, s, definite, operand)
    case AsInstanceOf(_, operand) => InFragment(c, s, definite, operand)
  }

  predicate OperandsInFragment(c: ZoneContext, s: ZoneState, definite: set<Name>, e: Expr, k: nat)
    requires e.Block? && k <= |e.operands|
    decreases e, 0, |e.operands| - k
  {
    k == |e.operands| ||
    var o := e.operands[k];
    if o.LocalBinding? then
      InFragment(c, s, definite, o.initializer) &&
      OperandsInFragment(c, CheckZone(c, s, o).state, Definite(definite, o), e, k + 1)
    else InFragment(c, s, definite, o) && OperandsInFragment(c, s, definite, e, k + 1)
  }

  // ---------------------------------------------------------------------------------------------
  // The invariant.

  predicate Valid(m: Machine, v: Value) {
    v.Ref? ==> v.id in m.heap
  }

  predicate IsArena(m: Machine, v: Value) {
    v.Ref? && v.id in m.heap && m.heap[v.id].inArena
  }

  /** References lead to objects, fields fit their types, and no object outside the arena refers into it. */
  ghost predicate HeapOk(c: ZoneContext, m: Machine) {
    forall id {:trigger m.heap[id]} | id in m.heap ::
      id < m.next && FieldsOk(c, m, m.heap[id].inArena, m.heap[id].fields)
  }

  ghost predicate FieldsOk(c: ZoneContext, m: Machine, inArena: bool, fields: map<Name, Value>) {
    forall f {:trigger fields[f]} | f in fields ::
      FitsField(c, f, fields[f]) && Valid(m, fields[f]) && (!inArena ==> !IsArena(m, fields[f]))
  }

  /** A local that holds an arena reference is flagged, and the definite ones do hold one. */
  ghost predicate LocalsOk(s: ZoneState, definite: set<Name>, m: Machine) {
    && definite <= s.zoneLocals
    && s.arenaReferences.Keys <= s.zoneLocals
    && (forall x {:trigger m.locals[x]} | x in m.locals ::
          Valid(m, m.locals[x]) && (IsArena(m, m.locals[x]) ==> IsFlagged(s, x)))
    && (forall x {:trigger x in definite} | x in definite :: x in m.locals && IsArena(m, m.locals[x]))
  }

  ghost predicate Invariant(c: ZoneContext, s: ZoneState, definite: set<Name>, m: Machine) {
    HeapOk(c, m) && LocalsOk(s, definite, m)
  }

  /** Objects stay where they are. */
  ghost predicate Extends(m: Machine, n: Machine) {
    m.next <= n.next && forall id {:trigger n.heap[id]} {:trigger id in n.heap} | id in m.heap ::
      id in n.heap && n.heap[id].inArena == m.heap[id].inArena
  }

  predicate Tracked(m: Machine, flagged: bool, o: Outcome) {
    o.Ok? ==> Valid(m, o.value) && (IsArena(m, o.value) ==> flagged)
  }

  ghost predicate Sound(c: ZoneContext, s: ZoneState, definite: set<Name>, flagged: bool, m: Machine, r: Run) {
    Invariant(c, s, definite, r.machine) && Extends(m, r.machine) && Tracked(r.machine, flagged, r.outcome)
  }

  lemma ExtendsTransitive(a: Machine, b: Machine, d: Machine)
    requires Extends(a, b) && Extends(b, d)
    ensures Extends(a, d)
  {
    forall id | id in a.heap ensures id in d.heap && d.heap[id].inArena == a.heap[id].inArena {
      assert id in b.heap && b.heap[id].inArena == a.heap[id].inArena;
    }
  }

  lemma SoundAfter(c: ZoneContext, s: ZoneState, definite: set<Name>, flagged: bool, a: Machine, b: Machine, r: Run)
    requires Extends(a, b) && Sound(c, s, definite, flagged, b, r)
    ensures Sound(c, s, definite, flagged, a, r)
  {
    ExtendsTransitive(a, b, r.machine);
  }

  /** A new arena object whose fields are valid. */
  lemma AllocateSound(c: ZoneContext, s: ZoneState, definite: set<Name>, m: Machine, fields: map<Name, Value>)
    requires Invariant(c, s, definite, m)
    requires forall f :: f in fields ==> FitsField(c, f, fields[f]) && Valid(m, fields[f])
    ensures var r := Allocate(m, fields);
            Sound(c, s, definite, true, m, r) && IsArena(r.machine, r.outcome.value)
  {
    var r := Allocate(m, fields);
    forall v | Valid(m, v) ensures Valid(r.machine, v) && IsArena(r.machine, v) == IsArena(m, v) {
      if v.Ref? {
        assert m.heap[v.id] == m.heap[v.id];
      }
    }
    forall id | id in r.machine.heap ensures id < r.machine.next &&
           FieldsOk(c, r.machine, r.machine.heap[id].inArena, r.machine.heap[id].fields) {
      if id != m.next {
        assert FieldsOk(c, m, m.heap[id].inArena, m.heap[id].fields);
      }
    }
  }

  lemma StoreSound(c: ZoneContext, s: ZoneState, definite: set<Name>, m: Machine, id: nat, f: Name, v: Value)
    requires Invariant(c, s, definite, m) && id in m.heap && f in m.heap[id].fields
    requires FitsField(c, f, v) && Valid(m, v) && (IsArena(m, v) ==> m.heap[id].inArena)
    ensures Invariant(c, s, definite, StoreField(m, id, f, v)) && Extends(m, StoreField(m, id, f, v))
  {
    var n := StoreField(m, id, f, v);
    forall x ensures Valid(n, x) == Valid(m, x) && IsArena(n, x) == IsArena(m, x) {
    }
    forall i | i in n.heap ensures i < n.next && FieldsOk(c, n, n.heap[i].inArena, n.heap[i].fields) {
      assert FieldsOk(c, m, m.heap[i].inArena, m.heap[i].fields);
    }
  }

  /** Binding a local of the zone. */
  lemma BindSound(c: ZoneContext, s: ZoneState, definite: set<Name>, m: Machine, o: Expr, flagged: bool, v: Value)
    requires o.LocalBinding? && Invariant(c, s, definite, m) && Valid(m, v) && (IsArena(m, v) ==> flagged)
    requires IsDefinite(definite, o.initializer) ==> IsArena(m, v)
    ensures Invariant(c, Bind(c, s, o.name, o.declared, o.initializer, flagged), Definite(definite, o),
                      m.(locals := m.locals[o.name := v]))
  {
    var n := m.(locals := m.locals[o.name := v]);
    forall x ensures Valid(n, x) == Valid(m, x) && IsArena(n, x) == IsArena(m, x) {
    }
    forall i | i in n.heap ensures i < n.next && FieldsOk(c, n, n.heap[i].inArena, n.heap[i].fields) {
      assert FieldsOk(c, m, m.heap[i].inArena, m.heap[i].fields);
    }
  }

  /** Leaving its scope. */
  lemma LeaveSound(c: ZoneContext, s: ZoneState, definite: set<Name>, inner: ZoneState, innerDefinite: set<Name>,
                   x: Name, flagged: bool, before: Machine, start: Machine, r: Run)
    requires Invariant(c, s, definite, before) && Extends(before, start) &&
             Sound(c, inner, innerDefinite, flagged, start, r)
    requires definite - {x} <= innerDefinite
    requires forall y :: y != x ==> IsFlagged(inner, y) == IsFlagged(s, y)
    ensures Sound(c, s, definite, flagged, before, Run(r.outcome, Leave(x, before, r.machine)))
  {
    var n := Leave(x, before, r.machine);
    ExtendsTransitive(before, start, r.machine);
    forall v ensures Valid(n, v) == Valid(r.machine, v) && IsArena(n, v) == IsArena(r.machine, v) {
    }
    forall i | i in n.heap ensures i < n.next && FieldsOk(c, n, n.heap[i].inArena, n.heap[i].fields) {
      assert FieldsOk(c, r.machine, r.machine.heap[i].inArena, r.machine.heap[i].fields);
    }
    forall y | y in n.locals ensures Valid(n, n.locals[y]) && (IsArena(n, n.locals[y]) ==> IsFlagged(s, y)) {
      if y == x {
        assert Valid(before, before.locals[x]);
      } else {
        assert Valid(r.machine, r.machine.locals[y]);
      }
    }
    forall y | y in definite ensures y in n.locals && IsArena(n, n.locals[y]) {
      assert y in before.locals && IsArena(before, before.locals[y]);
      if y != x {
        assert y in innerDefinite;
      }
    }
  }

  // ---------------------------------------------------------------------------------------------
  // The analysis leaves its state as it found it outside blocks.

  lemma {:induction false} StateKept(c: ZoneContext, s: ZoneState, definite: set<Name>, e: Expr)
    requires InFragment(c, s, definite, e)
    ensures CheckZone(c, s, e).state == s
    decreases e, 1, 0
  {
    match e
    case Literal(_, _) =>
    case Local(_) =>
    case New(_, _) => ArgumentStateKept(c, s, definite, e, 0);
    case Block(_) =>
    case Select(receiver, _) => StateKept(c, s, definite, receiver);
    case Assign(_, newValue) => StateKept(c, s, definite, newValue);
    case AssignField(receiver, _, newValue) =>
      StateKept(c, s, definite, newValue);
      StateKept(c, s, definite, receiver);
    case If(_, condition, thenBranch, elseBranch) =>
      StateKept(c, s, definite, condition);
      StateKept(c, s, definite, thenBranch);
      StateKept(c, s, definite, elseBranch);
    case While(condition, body) =>
      StateKept(c, s, definite, condition);
      StateKept(c, s, definite, body);
    case Unary(_, operand) => StateKept(c, s, definite, operand);
    case Binary(_, left, right) =>
      StateKept(c, s, definite, left);
      StateKept(c, s, definite, right);
    case Box(_, operand) => StateKept(c, s, definite, operand);
    case Unbox(_, operand) => StateKept(c, s, definite, operand);
    case IsInstanceOf(_, operand) => StateKept(c, s, definite, operand);
    case AsInstanceOf(_, operand) => StateKept(c, s, definite, operand);
  }

  lemma {:induction false} ArgumentStateKept(c: ZoneContext, s: ZoneState, definite: set<Name>, e: Expr, k: nat)
    requires e.New? && k <= |e.arguments| && InFragment(c, s, definite, e)
    ensures CheckArguments(c, s, e, k).state == s
    decreases e, 0, |e.arguments| - k
  {
    if k == |e.arguments| {
    } else {
      StateKept(c, s, definite, e.arguments[k]);
      ArgumentStateKept(c, s, definite, e, k + 1);
    }
  }

  // ---------------------------------------------------------------------------------------------
  // Soundness.

  ghost predicate Contained(c: ZoneContext, w: World, s: ZoneState, definite: set<Name>, e: Expr, m: Machine) {
    Sound(c, s, definite, CheckZone(c, s, e).flagged, m, Eval(c, w, s, e, m))
  }

  /** Main result: an accepted body keeps arena references inside, and a value it does not flag is none. */
  lemma {:induction false} ZoneSound(c: ZoneContext, w: World, s: ZoneState, definite: set<Name>, e: Expr, m: Machine)
    requires InFragment(c, s, definite, e) && CheckZone(c, s, e).ok && Invariant(c, s, definite, m)
    ensures Contained(c, w, s, definite, e, m)
    decreases w.steps, e, 1, 1
  {
    match e
    case Literal(_, _) =>
    case Local(_) =>
    case New(_, _) => ContainedNew(c, w, s, definite, e, 0, [], m);
    case Block(_) => ContainedBlock(c, w, s, definite, e, 0, false, UNIT, m);
    case Select(_, _) => ContainedSelect(c, w, s, definite, e, m);
    case Assign(_, _) => ContainedAssign(c, w, s, definite, e, m);
    case AssignField(_, _, _) => ContainedAssignField(c, w, s, definite, e, m);
    case If(_, _, _, _) => ContainedIf(c, w, s, definite, e, m);
    case While(_, _) => ContainedWhile(c, w, s, definite, e, m);
    case Binary(_, left, right) =>
      StateKept(c, s, definite, left);
      ZoneSound(c, w, s, definite, left, m);
      var l := Eval(c, w, s, left, m).machine;
      ZoneSound(c, w, s, definite, right, l);
      SoundAfter(c, s, definite, CheckZone(c, s, right).flagged, m, l, Eval(c, w, s, right, l));
    case _ => ContainedOperand(c, w, s, definite, e, m);
  }

  lemma {:induction false} ContainedOperand(c: ZoneContext, w: World, s: ZoneState, definite: set<Name>, e: Expr,
                                            m: Machine)
    requires e.Unary? || e.Box? || e.Unbox? || e.IsInstanceOf? || e.AsInstanceOf?
    requires InFragment(c, s, definite, e) && CheckZone(c, s, e).ok && Invariant(c, s, definite, m)
    ensures Contained(c, w, s, definite, e, m)
    decreases w.steps, e, 1, 0
  {
    ZoneSound(c, w, s, definite, e.operand, m);
    var v := Eval(c, w, s, e.operand, m);
    if e.Box? && v.outcome.Ok? {
      AllocateSound(c, s, definite, v.machine, map[]);
      SoundAfter(c, s, definite, true, m, v.machine, Allocate(v.machine, map[]));
    }
  }

  lemma {:induction false} ContainedSelect(c: ZoneContext, w: World, s: ZoneState, definite: set<Name>, e: Expr,
                                           m: Machine)
    requires e.Select? && InFragment(c, s, definite, e) && CheckZone(c, s, e).ok && Invariant(c, s, definite, m)
    ensures Contained(c, w, s, definite, e, m)
    decreases w.steps, e, 1, 0
  {
    ZoneSound(c, w, s, definite, e.receiver, m);
    StateKept(c, s, definite, e.receiver);
    var r := Eval(c, w, s, e.receiver, m);
    var f := Selected(c, s.localTypes, e.receiver, e.member);
    if r.outcome.Ok? && f.Some? && HasField(r.machine, r.outcome.value, f.value) {
      var o := r.machine.heap[r.outcome.value.id];
      assert FieldsOk(c, r.machine, o.inArena, o.fields);
      assert FitsField(c, f.value, o.fields[f.value]);
    }
  }

  lemma {:induction false} ContainedAssign(c: ZoneContext, w: World, s: ZoneState, definite: set<Name>, e: Expr,
                                           m: Machine)
    requires e.Assign? && InFragment(c, s, definite, e) && CheckZone(c, s, e).ok && Invariant(c, s, definite, m)
    ensures Contained(c, w, s, definite, e, m)
    decreases w.steps, e, 1, 0
  {
    ZoneSound(c, w, s, definite, e.newValue, m);
    StateKept(c, s, definite, e.newValue);
    var v := Eval(c, w, s, e.newValue, m);
    if v.outcome.Ok? && e.target in v.machine.locals {
      AssignSound(c, s, definite, v.machine, e.target, v.outcome.value);
    }
  }

  lemma AssignSound(c: ZoneContext, s: ZoneState, definite: set<Name>, m: Machine, x: Name, v: Value)
    requires Invariant(c, s, definite, m) && x !in s.zoneLocals && x in m.locals && Valid(m, v) && !IsArena(m, v)
    ensures Invariant(c, s, definite, m.(locals := m.locals[x := v])) && Extends(m, m.(locals := m.locals[x := v]))
  {
    var n := m.(locals := m.locals[x := v]);
    forall u ensures Valid(n, u) == Valid(m, u) && IsArena(n, u) == IsArena(m, u) {
    }
    forall i | i in n.heap ensures i < n.next && FieldsOk(c, n, n.heap[i].inArena, n.heap[i].fields) {
      assert FieldsOk(c, m, m.heap[i].inArena, m.heap[i].fields);
    }
  }

  lemma {:induction false} ContainedAssignField(c: ZoneContext, w: World, s: ZoneState, definite: set<Name>, e: Expr,
                                                m: Machine)
    requires e.AssignField? && InFragment(c, s, definite, e) && CheckZone(c, s, e).ok && Invariant(c, s, definite, m)
    ensures Contained(c, w, s, definite, e, m)
    decreases w.steps, e, 1, 0
  {
    StateKept(c, s, definite, e.newValue);
    StateKept(c, s, definite, e.receiver);
    ZoneSound(c, w, s, definite, e.receiver, m);
    var r := Eval(c, w, s, e.receiver, m);
    ZoneSound(c, w, s, definite, e.newValue, r.machine);
    var v := Eval(c, w, s, e.newValue, r.machine);
    ExtendsTransitive(m, r.machine, v.machine);
    var f := Selected(c, s.localTypes, e.receiver, e.member);
    if r.outcome.Ok? && v.outcome.Ok? && f.Some? &&
       HasField(v.machine, r.outcome.value, f.value) && FitsField(c, f.value, v.outcome.value) {
      if IsDefinite(definite, e.receiver) {
        DefiniteValue(c, w, s, definite, e.receiver, m);
      }
      var id := r.outcome.value.id;
      StoreSound(c, s, definite, v.machine, id, f.value, v.outcome.value);
      ExtendsTransitive(m, v.machine, StoreField(v.machine, id, f.value, v.outcome.value));
    }
  }

  lemma DefiniteValue(c: ZoneContext, w: World, s: ZoneState, definite: set<Name>, e: Expr, m: Machine)
    requires IsDefinite(definite, e) && Invariant(c, s, definite, m)
    ensures var r := Eval(c, w, s, e, m); r.outcome.Ok? ==> IsArena(r.machine, r.outcome.value)
  {
    if e.New? {
      NewIsArena(c, w, s, e, 0, [], m);
    }
  }

  lemma {:induction false} NewIsArena(c: ZoneContext, w: World, s: ZoneState, e: Expr, k: nat, values: seq<Value>,
                                      m: Machine)
    requires e.New? && k <= |e.arguments|
    ensures var r := EvalNew(c, w, s, e, k, values, m); r.outcome.Ok? ==> IsArena(r.machine, r.outcome.value)
    decreases |e.arguments| - k
  {
    if k == |e.arguments| {
    } else {
      var a := Eval(c, w, s, e.arguments[k], m);
      if a.outcome.Ok? {
        NewIsArena(c, w, s, e, k + 1, values + [a.outcome.value], a.machine);
      }
    }
  }

  lemma {:induction false} ContainedNew(c: ZoneContext, w: World, s: ZoneState, definite: set<Name>, e: Expr, k: nat,
                                        values: seq<Value>, m: Machine)
    requires e.New? && k <= |e.arguments| && InFragment(c, s, definite, e) && CheckArguments(c, s, e, k).ok
    requires Invariant(c, s, definite, m) && forall i :: 0 <= i < |values| ==> Valid(m, values[i])
    ensures Sound(c, s, definite, true, m, EvalNew(c, w, s, e, k, values, m))
    decreases w.steps, e, 0, |e.arguments| - k
  {
    if k == |e.arguments| {
      var names := c.constructorFields(e.className);
      if FitFields(c, names, values) {
        AllocateSound(c, s, definite, m, FieldsFrom(names, values));
      }
    } else {
      var argument := e.arguments[k];
      StateKept(c, s, definite, argument);
      ZoneSound(c, w, s, definite, argument, m);
      var a := Eval(c, w, s, argument, m);
      if a.outcome.Ok? {
        forall i | 0 <= i < |values| ensures Valid(a.machine, values[i]) {
          assert Valid(m, values[i]);
        }
        ContainedNew(c, w, s, definite, e, k + 1, values + [a.outcome.value], a.machine);
        SoundAfter(c, s, definite, true, m, a.machine,
                   EvalNew(c, w, s, e, k + 1, values + [a.outcome.value], a.machine));
      }
    }
  }

  lemma {:induction false} ContainedIf(c: ZoneContext, w: World, s: ZoneState, definite: set<Name>, e: Expr, m: Machine)
    requires e.If? && InFragment(c, s, definite, e) && CheckZone(c, s, e).ok && Invariant(c, s, definite, m)
    ensures Contained(c, w, s, definite, e, m)
    decreases w.steps, e, 1, 0
  {
    StateKept(c, s, definite, e.condition);
    StateKept(c, s, definite, e.thenBranch);
    ZoneSound(c, w, s, definite, e.condition, m);
    var i := Eval(c, w, s, e.condition, m);
    var taken := i.outcome.Ok? && i.outcome.value.Data? && i.outcome.value.payload != 0;
    var branch := if taken then e.thenBranch else e.elseBranch;
    ZoneSound(c, w, s, definite, branch, i.machine);
    SoundAfter(c, s, definite, CheckZone(c, s, branch).flagged, m, i.machine, Eval(c, w, s, branch, i.machine));
  }

  lemma {:induction false} ContainedWhile(c: ZoneContext, w: World, s: ZoneState, definite: set<Name>, e: Expr,
                                          m: Machine)
    requires e.While? && InFragment(c, s, definite, e) && CheckZone(c, s, e).ok && Invariant(c, s, definite, m)
    ensures Contained(c, w, s, definite, e, m)
    decreases w.steps, e, 1, 0
  {
    StateKept(c, s, definite, e.condition);
    ZoneSound(c, w, s, definite, e.condition, m);
    var i := Eval(c, w, s, e.condition, m);
    ZoneSound(c, w, s, definite, e.body, i.machine);
    var b := Eval(c, w, s, e.body, i.machine);
    ExtendsTransitive(m, i.machine, b.machine);
    if b.outcome.Ok? && w.steps > 0 {
      var rest := w.(steps := w.steps - 1);
      ZoneSound(c, rest, s, definite, e, b.machine);
      SoundAfter(c, s, definite, false, m, b.machine, Eval(c, rest, s, e, b.machine));
    }
  }

  lemma {:induction false} ContainedBlock(c: ZoneContext, w: World, s: ZoneState, definite: set<Name>, e: Expr, k: nat,
                                          last: bool, lastValue: Value, m: Machine)
    requires e.Block? && k <= |e.operands| && OperandsInFragment(c, s, definite, e, k) &&
             CheckOperands(c, s, e, k, last).ok
    requires Invariant(c, s, definite, m) && Tracked(m, last, Ok(lastValue))
    ensures Sound(c, s, definite, CheckOperands(c, s, e, k, last).flagged, m, EvalBlock(c, w, s, e, k, lastValue, m))
    decreases w.steps, e, 0, |e.operands| - k
  {
    if k == |e.operands| {
    } else {
      var o := e.operands[k];
      var checked := CheckZone(c, s, o);
      if o.LocalBinding? {
        StateKept(c, s, definite, o.initializer);
        ZoneSound(c, w, s, definite, o.initializer, m);
        var flagged := CheckZone(c, s, o.initializer).flagged;
        var i := Eval(c, w, s, o.initializer, m);
        if i.outcome.Ok? {
          if IsDefinite(definite, o.initializer) {
            DefiniteValue(c, w, s, definite, o.initializer, m);
          }
          BindSound(c, s, definite, i.machine, o, flagged, i.outcome.value);
          var start := i.machine.(locals := i.machine.locals[o.name := i.outcome.value]);
          ContainedBlock(c, w, checked.state, Definite(definite, o), e, k + 1, false, UNIT, start);
          var rest := EvalBlock(c, w, checked.state, e, k + 1, UNIT, start);
          var result := CheckOperands(c, s, e, k, last).flagged;
          LeaveSound(c, s, definite, checked.state, Definite(definite, o), o.name, result, i.machine, start, rest);
          SoundAfter(c, s, definite, result, m, i.machine, Run(rest.outcome, Leave(o.name, i.machine, rest.machine)));
        }
      } else {
        StateKept(c, s, definite, o);
        ZoneSound(c, w, s, definite, o, m);
        var r := Eval(c, w, s, o, m);
        if r.outcome.Ok? {
          ContainedBlock(c, w, s, definite, e, k + 1, checked.flagged, r.outcome.value, r.machine);
          SoundAfter(c, s, definite, CheckOperands(c, s, e, k, last).flagged, m, r.machine,
                     EvalBlock(c, w, s, e, k + 1, r.outcome.value, r.machine));
        }
      }
    }
  }

  // ---------------------------------------------------------------------------------------------
  // The end of the zone.

  /** The arena's objects are gone. */
  function Reclaim(m: Machine): Machine {
    m.(heap := map id | id in m.heap && !m.heap[id].inArena :: m.heap[id])
  }

  ghost predicate NoDangling(m: Machine) {
    && (forall x :: x in m.locals ==> Valid(m, m.locals[x]))
    && (forall id, f :: id in m.heap && f in m.heap[id].fields ==> Valid(m, m.heap[id].fields[f]))
  }

  /** The state a zone is entered with: no local of its own yet. */
  function Outside(types: map<Name, Types.Type>): ZoneState {
    ZoneState(map[], types, {})
  }

  /** After an accepted body the arena can be reclaimed: nothing left refers into it, nothing else is lost. */
  lemma ArenaCanBeReclaimed(c: ZoneContext, w: World, types: map<Name, Types.Type>, e: Expr, m: Machine)
    requires InFragment(c, Outside(types), {}, e) && CheckZone(c, Outside(types), e).ok
    requires HeapOk(c, m) && forall x :: x in m.locals ==> Valid(m, m.locals[x]) && !IsArena(m, m.locals[x])
    ensures var r := Eval(c, w, Outside(types), e, m);
            var n := Reclaim(r.machine);
            NoDangling(n) && n.locals == r.machine.locals &&
            (forall id :: id in m.heap && !m.heap[id].inArena ==> id in n.heap && n.heap[id] == r.machine.heap[id]) &&
            (r.outcome.Ok? && !CheckZone(c, Outside(types), e).flagged ==> Valid(n, r.outcome.value))
  {
    ZoneSound(c, w, Outside(types), {}, e, m);
    var r := Eval(c, w, Outside(types), e, m);
    var n := Reclaim(r.machine);
    forall x | x in n.locals ensures Valid(n, n.locals[x]) {
      assert Valid(r.machine, r.machine.locals[x]);
    }
    forall id, f | id in n.heap && f in n.heap[id].fields ensures Valid(n, n.heap[id].fields[f]) {
      assert FieldsOk(c, r.machine, r.machine.heap[id].inArena, r.machine.heap[id].fields);
    }
  }
}
