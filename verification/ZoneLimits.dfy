/** Bodies outside the conditions that are accepted although an arena reference gets out, and one that is rejected
    although none does. */
module ZoneLimits {
  import opened Basics
  import opened Types
  import Bodies
  import opened ZoneBodies
  import opened ZoneSafety
  import opened ZoneTypes
  import opened ZonePrecision

  const CELL := ClassType("Cell")

  /** One class Cell with a field Cell.next and no constructor fields. */
  ghost predicate IsOneClass(c: ZoneContext) {
    && c.read("Cell") == CELL && c.definitionOf(CELL) == Some("Cell") && c.isClass("Cell")
    && c.memberOf("Cell", "next") == Some("Cell.next") && !c.isFunction("Cell.next") && c.typeOf("Cell.next") == CELL
    && c.constructorFields("Cell") == []
    && forall t, u {:trigger c.conforms(t, u)} :: c.conforms(t, u) == TypesConform(t, u)
  }

  function OneClass(): ZoneContext {
    ZoneContext(name => ClassType(name), t => if t == CELL then Some("Cell") else None, _ => true,
                (_, _) => Some("Cell.next"), _ => false, _ => CELL, _ => UnknownType,
                (expected, actual) => TypesConform(expected, actual), {}, _ => [])
  }

  lemma OneClassIsOrdinary()
    ensures IsOneClass(OneClass()) && TypesOk(OneClass())
  {
    var c := OneClass();
    assert forall t :: c.definitionOf(t).Some? ==> t == CELL && c.definitionOf(t) == Some("Cell");
  }

  /** An object outside the arena, held by the local `outer`, and a counter. */
  function Before(): Machine {
    Machine(map["outer" := Ref(0), "n" := Data(0)], map[0 := Object(false, map["Cell.next" := Data(0)])], 1)
  }

  function BeforeTypes(): LocalTypes {
    map["outer" := CELL, "n" := IntType]
  }

  function Start(): ZoneState {
    Outside(BeforeTypes())
  }

  const MAKE: Expr := New("Cell", [])

  lemma MakeAccepted(c: ZoneContext, types: LocalTypes, s: ZoneState)
    requires IsOneClass(c)
    ensures Check(c, types, MAKE) == Checked(CELL, true) && CheckZone(c, s, MAKE) == Escape(true, s, true)
  {
    assert CheckArguments(c, s, MAKE, 0) == Escape(true, s, true);
    assert ArgumentsOk(c, types, MAKE, 0);
  }

  lemma MakeRun(c: ZoneContext, w: World, s: ZoneState, m: Machine)
    requires IsOneClass(c)
    ensures Eval(c, w, s, MAKE, m) == Allocate(m, map[])
  {
    assert FieldsFrom([], []) == map[];
    assert EvalNew(c, w, s, MAKE, 0, [], m) == Allocate(m, map[]);
  }

  /** Without the test of the result type the zone's own value would dangle. */
  lemma ReferenceResultDangles(c: ZoneContext, w: World)
    requires IsOneClass(c)
    ensures InFragment(c, Start(), {}, MAKE) && TypesKnown(MAKE)
    ensures Check(c, BeforeTypes(), MAKE).ok && CheckZone(c, Start(), MAKE).ok
    ensures !IsZoneResultType(Check(c, BeforeTypes(), MAKE).found)
    ensures var r := Eval(c, w, Start(), MAKE, Before()); r.outcome.Ok? && !Valid(Reclaim(r.machine), r.outcome.value)
  {
    MakeAccepted(c, BeforeTypes(), Start());
    MakeRun(c, w, Start(), Before());
  }

  /** A local of unknown type takes a reference, and gives it to a local of primitive type. */
  lemma UnknownTypeEscapes(c: ZoneContext, w: World)
    requires IsOneClass(c)
    ensures var e := Block([LocalBinding("u", Some(UnknownType), MAKE), LocalBinding("k", Some(IntType), Local("u")),
                            Local("k")]);
            var r := Eval(c, w, Start(), e, Before());
            ZoneAccepted(c, BeforeTypes(), e) && InFragment(c, Start(), {}, e) && r.outcome.Ok? &&
            !Valid(Reclaim(r.machine), r.outcome.value)
  {
    var first, second := LocalBinding("u", Some(UnknownType), MAKE), LocalBinding("k", Some(IntType), Local("u"));
    var e := Block([first, second, Local("k")]);
    UnknownTypeAccepted(c, first, second, e);
    UnknownTypeContained(c, first, second, e);
    UnknownTypeRun(c, w, first, second, e);
  }

  lemma UnknownTypeAccepted(c: ZoneContext, first: Expr, second: Expr, e: Expr)
    requires first == LocalBinding("u", Some(UnknownType), MAKE) && e == Block([first, second, Local("k")])
    requires second == LocalBinding("k", Some(IntType), Local("u")) && IsOneClass(c)
    ensures Check(c, BeforeTypes(), e) == Checked(IntType, true)
  {
    var t0 := BeforeTypes();
    var t1 := t0["u" := UnknownType];
    var t2 := t1["k" := IntType];
    MakeAccepted(c, t0, Start());
    assert Check(c, t1, Local("u")) == Checked(UnknownType, true);
    assert Check(c, t2, Local("k")) == Checked(IntType, true);
    assert CheckBlock(c, t2, e, 3, IntType) == Checked(IntType, true);
    assert CheckBlock(c, t2, e, 2, UnitType) == Checked(IntType, true);
    assert CheckBlock(c, t1, e, 1, UnitType) == Checked(IntType, true);
  }

  lemma UnknownTypeContained(c: ZoneContext, first: Expr, second: Expr, e: Expr)
    requires first == LocalBinding("u", Some(UnknownType), MAKE) && e == Block([first, second, Local("k")])
    requires second == LocalBinding("k", Some(IntType), Local("u")) && IsOneClass(c)
    ensures CheckZone(c, Start(), e).ok && InFragment(c, Start(), {}, e)
  {
    var s1 := CheckZone(c, Start(), first).state;
    var s2 := CheckZone(c, s1, second).state;
    MakeAccepted(c, BeforeTypes(), Start());
    assert CheckOperands(c, s2, e, 3, true).ok;
    assert CheckOperands(c, s2, e, 2, false).ok;
    assert CheckOperands(c, s1, e, 1, false).ok;
    assert Definite({}, first) == {"u"} && Definite({"u"}, second) == {"u"} + {"k"};
    assert OperandsInFragment(c, s2, {"u"} + {"k"}, e, 3);
    assert OperandsInFragment(c, s2, {"u"} + {"k"}, e, 2);
    assert OperandsInFragment(c, s1, {"u"}, e, 1);
  }

  lemma UnknownTypeRun(c: ZoneContext, w: World, first: Expr, second: Expr, e: Expr)
    requires first == LocalBinding("u", Some(UnknownType), MAKE) && e == Block([first, second, Local("k")])
    requires second == LocalBinding("k", Some(IntType), Local("u")) && IsOneClass(c)
    ensures var r := Eval(c, w, Start(), e, Before());
            r.outcome == Ok(Ref(1)) && 1 in r.machine.heap && r.machine.heap[1].inArena
  {
    var s1 := CheckZone(c, Start(), first).state;
    var s2 := CheckZone(c, s1, second).state;
    MakeRun(c, w, Start(), Before());
    var a := Allocate(Before(), map[]).machine;
    var m1 := a.(locals := a.locals["u" := Ref(1)]);
    var m2 := m1.(locals := m1.locals["k" := Ref(1)]);
    assert Eval(c, w, s1, Local("u"), m1) == Run(Ok(Ref(1)), m1);
    assert Eval(c, w, s2, Local("k"), m2) == Run(Ok(Ref(1)), m2);
    assert EvalBlock(c, w, CheckZone(c, s2, Local("k")).state, e, 3, Ref(1), m2) == Run(Ok(Ref(1)), m2);
    assert EvalBlock(c, w, s2, e, 2, UNIT, m2) == Run(Ok(Ref(1)), m2);
    assert EvalBlock(c, w, s1, e, 1, UNIT, m1) == Run(Ok(Ref(1)), Leave("k", m1, m2));
  }

  /** A receiver that may be an arena object hides a store into an object that is none. */
  lemma MayArenaReceiverEscapes(c: ZoneContext, w: World)
    requires IsOneClass(c)
    ensures var receiver := If(None, Literal(BooleanType, 0), MAKE, Local("outer"));
            var e := AssignField(receiver, "next", MAKE);
            var r := Eval(c, w, Start(), e, Before());
            ZoneAccepted(c, BeforeTypes(), e) && r.outcome.Ok? && !NoDangling(Reclaim(r.machine))
  {
    var s, m, types := Start(), Before(), BeforeTypes();
    var receiver := If(None, Literal(BooleanType, 0), MAKE, Local("outer"));
    var e := AssignField(receiver, "next", MAKE);
    MakeAccepted(c, types, s);
    assert CheckZone(c, s, receiver) == Escape(true, s, true);
    assert Check(c, types, receiver) == Checked(CELL, true);
    assert Eval(c, w, s, Literal(BooleanType, 0), m) == Run(Ok(Data(0)), m);
    assert Eval(c, w, s, receiver, m) == Run(Ok(Ref(0)), m);
    var a := Allocate(m, map[]);
    MakeRun(c, w, s, m);
    assert Selected(c, s.localTypes, receiver, "next") == Some("Cell.next");
    var n := StoreField(a.machine, 0, "Cell.next", Ref(1));
    assert Eval(c, w, s, e, m) == Run(Ok(UNIT), n);
    assert 0 in Reclaim(n).heap && "Cell.next" in Reclaim(n).heap[0].fields;
    assert !Valid(Reclaim(n), Reclaim(n).heap[0].fields["Cell.next"]);
  }

  // ---------------------------------------------------------------------------------------------
  // while (n < 2) { outer = x; x = new Cell; n = n + 1 }

  const LESS: Expr := Binary(Bodies.Comparison("<"), Local("n"), Literal(IntType, 2))
  const NEXT: Expr := Binary(Bodies.Plus, Local("n"), Literal(IntType, 1))
  const TURN: Expr := Block([Assign("outer", Local("x")), Assign("x", MAKE), Assign("n", NEXT)])
  const LOOP: Expr := While(LESS, TURN)
  const BINDING: Expr := LocalBinding("x", Some(CELL), Literal(NullType, 0))

  /** Comparison and addition are right on the counter. */
  ghost predicate Counts(w: World) {
    forall i: int {:trigger Data(i)} ::
      w.compute(LESS, [Data(i), Data(2)]) == (if i < 2 then 1 else 0) && w.compute(NEXT, [Data(i), Data(1)]) == i + 1
  }

  function Computed(e: Expr, values: seq<Value>): int {
    if |values| != 2 || values[0].Ref? || values[1].Ref? then 0
    else if e == NEXT then values[0].payload + values[1].payload
    else if values[0].payload < values[1].payload then 1 else 0
  }

  function Calculator(steps: nat): World {
    World((e, values) => Computed(e, values), steps)
  }

  lemma CalculatorCounts(steps: nat)
    ensures Counts(Calculator(steps))
  {
  }

  /** One pass over a loop body misses that a local of the zone is reassigned before the next round. */
  lemma ReassignedLocalEscapes(c: ZoneContext, w: World)
    requires IsOneClass(c) && Counts(w) && w.steps >= 2
    ensures var e := Block([BINDING, LOOP]);
            var r := Eval(c, w, Start(), e, Before());
            ZoneAccepted(c, BeforeTypes(), e) && r.outcome.Ok? && !NoDangling(Reclaim(r.machine))
  {
    LoopAccepted(c);
    LoopTyped(c);
    BlockRun(c, w);
    var n := Reclaim(Eval(c, w, Start(), Block([BINDING, LOOP]), Before()).machine);
    assert "outer" in n.locals && !Valid(n, n.locals["outer"]);
  }

  lemma BlockRun(c: ZoneContext, w: World)
    requires IsOneClass(c) && Counts(w) && w.steps >= 2
    ensures var r := Eval(c, w, Start(), Block([BINDING, LOOP]), Before());
            r.outcome.Ok? && "outer" in r.machine.locals && IsArena(r.machine, r.machine.locals["outer"])
  {
    var s, m := Start(), Before();
    var e := Block([BINDING, LOOP]);
    var s1 := CheckZone(c, s, BINDING).state;
    var m1 := m.(locals := m.locals["x" := Data(0)]);
    LoopRun(c, w, s1, m1);
    var r1 := Eval(c, w, s1, LOOP, m1);
    assert EvalBlock(c, w, s1, e, 1, UNIT, m1) == r1;
    assert EvalBlock(c, w, s, e, 0, UNIT, m) == Run(r1.outcome, Leave("x", m, r1.machine));
  }

  lemma LoopAccepted(c: ZoneContext)
    requires IsOneClass(c)
    ensures CheckZone(c, Start(), Block([BINDING, LOOP])).ok
  {
    var s := CheckZone(c, Start(), BINDING).state;
    var e := Block([BINDING, LOOP]);
    MakeAccepted(c, BeforeTypes(), s);
    assert CheckZone(c, s, LESS) == Escape(false, s, true);
    assert CheckZone(c, s, TURN.operands[0]) == Escape(false, s, true);
    var s1 := CheckZone(c, s, TURN.operands[1]).state;
    assert CheckZone(c, s, TURN.operands[1]).ok;
    assert CheckZone(c, s1, NEXT) == Escape(false, s1, true);
    assert CheckZone(c, s1, TURN.operands[2]) == Escape(false, s1, true);
    assert CheckOperands(c, s1, TURN, 3, false).ok;
    assert CheckOperands(c, s1, TURN, 2, false).ok;
    assert CheckOperands(c, s, TURN, 1, false).ok;
    assert CheckOperands(c, s, TURN, 0, false).ok;
    assert CheckZone(c, s, LOOP).ok;
    assert CheckOperands(c, s, e, 2, false).ok;
    assert CheckOperands(c, s, e, 1, false).ok;
    assert CheckOperands(c, Start(), e, 0, false).ok;
  }

  lemma LoopTyped(c: ZoneContext)
    requires IsOneClass(c)
    ensures Check(c, BeforeTypes(), Block([BINDING, LOOP])) == Checked(UnitType, true)
  {
    var types := BeforeTypes()["x" := CELL];
    var e := Block([BINDING, LOOP]);
    MakeAccepted(c, types, Start());
    assert Check(c, types, LESS) == Checked(BooleanType, true);
    assert Check(c, types, NEXT) == Checked(IntType, true);
    assert Check(c, types, TURN.operands[0]) == Checked(UnitType, true);
    assert Check(c, types, TURN.operands[1]) == Checked(UnitType, true);
    assert Check(c, types, TURN.operands[2]) == Checked(UnitType, true);
    assert CheckBlock(c, types, TURN, 3, UnitType) == Checked(UnitType, true);
    assert CheckBlock(c, types, TURN, 2, UnitType) == Checked(UnitType, true);
    assert CheckBlock(c, types, TURN, 1, UnitType) == Checked(UnitType, true);
    assert Check(c, types, TURN) == Checked(UnitType, true);
    assert Check(c, types, LOOP) == Checked(UnitType, true);
    assert CheckBlock(c, types, e, 2, UnitType) == Checked(UnitType, true);
    assert CheckBlock(c, types, e, 1, UnitType) == Checked(UnitType, true);
    assert Check(c, BeforeTypes(), BINDING.initializer) == Checked(NullType, true);
    assert CheckBlock(c, BeforeTypes(), e, 0, UnitType) == Checked(UnitType, true);
  }

  /** The second round stores what the first one allocated; then the loop ends. */
  lemma LoopRun(c: ZoneContext, w: World, s: ZoneState, m: Machine)
    requires IsOneClass(c) && Counts(w) && w.steps >= 2
    requires "x" in m.locals && "outer" in m.locals && "n" in m.locals && m.locals["n"] == Data(0)
    ensures var r := Eval(c, w, s, LOOP, m);
            r.outcome.Ok? && "outer" in r.machine.locals && IsArena(r.machine, r.machine.locals["outer"])
  {
    LoopTurn(c, w, s, m, 0);
    var m1 := Eval(c, w, s, TURN, m).machine;
    LastTurn(c, w.(steps := w.steps - 1), s, m1);
  }

  lemma LastTurn(c: ZoneContext, w: World, s: ZoneState, m: Machine)
    requires IsOneClass(c) && Counts(w) && w.steps >= 1
    requires "x" in m.locals && "outer" in m.locals && "n" in m.locals && m.locals["n"] == Data(1)
    requires IsArena(m, m.locals["x"])
    ensures var r := Eval(c, w, s, LOOP, m);
            r.outcome.Ok? && "outer" in r.machine.locals && IsArena(r.machine, r.machine.locals["outer"])
  {
    var rest := w.(steps := w.steps - 1);
    LoopTurn(c, w, s, m, 1);
    var m2 := Eval(c, w, s, TURN, m).machine;
    ConditionRun(c, rest, s, m2, 2);
    assert Eval(c, rest, s, LOOP, m2) == Run(Ok(UNIT), m2);
  }

  lemma ConditionRun(c: ZoneContext, w: World, s: ZoneState, m: Machine, i: int)
    requires Counts(w) && "n" in m.locals && m.locals["n"] == Data(i)
    ensures Eval(c, w, s, LESS, m) == Run(Ok(Data(if i < 2 then 1 else 0)), m)
  {
    assert Eval(c, w, s, Local("n"), m) == Run(Ok(Data(i)), m);
    assert Eval(c, w, s, Literal(IntType, 2), m) == Run(Ok(Data(2)), m);
  }

  lemma StepRun(c: ZoneContext, w: World, s: ZoneState, m: Machine, i: int)
    requires Counts(w) && "n" in m.locals && m.locals["n"] == Data(i)
    ensures Eval(c, w, s, Assign("n", NEXT), m) == Run(Ok(UNIT), m.(locals := m.locals["n" := Data(i + 1)]))
  {
    assert Eval(c, w, s, Local("n"), m) == Run(Ok(Data(i)), m);
    assert Eval(c, w, s, Literal(IntType, 1), m) == Run(Ok(Data(1)), m);
    assert Eval(c, w, s, NEXT, m) == Run(Ok(Data(i + 1)), m);
  }

  lemma LoopTurn(c: ZoneContext, w: World, s: ZoneState, m: Machine, i: int)
    requires IsOneClass(c) && Counts(w) && i < 2 && w.steps > 0
    requires "x" in m.locals && "outer" in m.locals && "n" in m.locals && m.locals["n"] == Data(i)
    ensures var r := Eval(c, w, s, TURN, m);
            r.outcome.Ok? && r.machine.heap == m.heap[m.next := Object(true, map[])] &&
            r.machine.locals == m.locals["outer" := m.locals["x"]]["x" := Ref(m.next)]["n" := Data(i + 1)] &&
            Eval(c, w, s, LOOP, m) == Eval(c, w.(steps := w.steps - 1), s, LOOP, r.machine)
  {
    ConditionRun(c, w, s, m, i);
    var s1 := CheckZone(c, s, TURN.operands[0]).state;
    var s2 := CheckZone(c, s1, TURN.operands[1]).state;
    var s3 := CheckZone(c, s2, TURN.operands[2]).state;
    var m1 := m.(locals := m.locals["outer" := m.locals["x"]]);
    assert Eval(c, w, s, TURN.operands[0], m) == Run(Ok(UNIT), m1);
    MakeRun(c, w, s1, m1);
    var a := Allocate(m1, map[]).machine;
    var m2 := a.(locals := a.locals["x" := Ref(m.next)]);
    assert Eval(c, w, s1, TURN.operands[1], m1) == Run(Ok(UNIT), m2);
    StepRun(c, w, s2, m2, i);
    var m3 := m2.(locals := m2.locals["n" := Data(i + 1)]);
    assert EvalBlock(c, w, s3, TURN, 3, UNIT, m3) == Run(Ok(UNIT), m3);
    assert EvalBlock(c, w, s2, TURN, 2, UNIT, m2) == Run(Ok(UNIT), m3);
    assert EvalBlock(c, w, s1, TURN, 1, UNIT, m1) == Run(Ok(UNIT), m3);
  }

  // ---------------------------------------------------------------------------------------------
  // A rejected body.

  /** One class p.C with a field of type Int, also called C. */
  ghost predicate IsTwiceNamed(c: ZoneContext) {
    && c.read("C") == ClassType("C") && c.read("p.C") == ClassType("p.C") && c.isClass("p.C")
    && c.definitionOf(ClassType("C")) == c.definitionOf(ClassType("p.C")) == Some("p.C")
    && c.definitionOf(UnknownType).None? && c.constructorFields("C") == c.constructorFields("p.C") == []
    && c.memberOf("p.C", "count") == Some("p.C.count") && !c.isFunction("p.C.count") && c.typeOf("p.C.count") == IntType
    && forall t, u {:trigger c.conforms(t, u)} :: c.conforms(t, u) == TypesConform(t, u)
  }

  function TwiceNamed(): ZoneContext {
    ZoneContext(name => ClassType(name),
                t => if t == ClassType("C") || t == ClassType("p.C") then Some("p.C") else None, _ => true,
                (_, _) => Some("p.C.count"), _ => false, _ => IntType, _ => UnknownType,
                (expected, actual) => TypesConform(expected, actual), {}, _ => [])
  }

  lemma TwiceNamedIsOrdinary()
    ensures IsTwiceNamed(TwiceNamed()) && TypesOk(TwiceNamed())
  {
    var c := TwiceNamed();
    assert forall t :: c.definitionOf(t).Some? ==> (t == ClassType("C") || t == ClassType("p.C")) &&
                                                   c.definitionOf(t) == Some("p.C");
  }

  const EITHER: Expr := If(None, Literal(BooleanType, 1), New("C", []), New("p.C", []))
  const COUNT: Expr := Select(EITHER, "count")

  lemma CountAccepted(c: ZoneContext, types: LocalTypes)
    requires IsTwiceNamed(c)
    ensures Check(c, types, EITHER) == Checked(ClassType("p.C"), true)
    ensures Check(c, types, COUNT) == Checked(IntType, true)
  {
    assert ArgumentsOk(c, types, EITHER.thenBranch, 0) && ArgumentsOk(c, types, EITHER.elseBranch, 0);
  }

  /** Between a class and its short name the analysis loses the member, and takes the number read for a reference. */
  lemma ShortNameIsRejected(c: ZoneContext)
    requires IsTwiceNamed(c)
    ensures var e := Assign("n", COUNT);
            Check(c, BeforeTypes(), e).ok && InFragment(c, Start(), {}, e) && TypesKnown(e) &&
            StoresInside(c, BeforeTypes(), {}, e) && !CheckZone(c, Start(), e).ok
  {
    var types, s := BeforeTypes(), Start();
    CountAccepted(c, types);
    assert CheckArguments(c, s, EITHER.thenBranch, 0) == Escape(true, s, true);
    assert CheckArguments(c, s, EITHER.elseBranch, 0) == Escape(true, s, true);
    assert CheckZone(c, s, EITHER) == Escape(true, s, true);
    assert ZoneType(c, s.localTypes, EITHER) == UnknownType;
    assert CheckZone(c, s, COUNT).flagged;
  }
}
