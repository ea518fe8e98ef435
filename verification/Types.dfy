/** Value types of NIR bodies and when one conforms to another. */
module Types {
  import opened Basics
  import opened QualifiedNames

  /** A type name, with the names the verifier compares against set apart. */
  datatype Type =
    | UnitType | BooleanType | ByteType | ShortType | IntType | LongType | FloatType | DoubleType
    | CharType | SymbolType | NothingType | NullType | UnknownType | ObjectType | StringType
    | ClassType(name: Name)

  const BUILT_IN: seq<(Type, Name)> :=
    [(UnitType, "Unit"), (BooleanType, "Boolean"), (ByteType, "Byte"), (ShortType, "Short"), (IntType, "Int"),
     (LongType, "Long"), (FloatType, "Float"), (DoubleType, "Double"), (CharType, "Char"), (SymbolType, "Symbol"),
     (NothingType, "Nothing"), (NullType, "Null"), (UnknownType, "Unknown"), (ObjectType, "Object"),
     (StringType, "String")]

  function SpelledIn(table: seq<(Type, Name)>, t: Type): Name {
    if table == [] then "" else if table[0].0 == t then table[0].1 else SpelledIn(table[1..], t)
  }

  function NamedIn(table: seq<(Type, Name)>, name: Name): Type {
    if table == [] then ClassType(name) else if table[0].1 == name then table[0].0 else NamedIn(table[1..], name)
  }

  function Spelling(t: Type): Name {
    if t.ClassType? then t.name else SpelledIn(BUILT_IN, t)
  }

  function TypeNamed(name: Name): Type {
    NamedIn(BUILT_IN, name)
  }

  /** How types are written and read; the proofs only use that class types are written as their names. */
  datatype Names = Names(spell: Type -> Name, read: Name -> Type)

  const NIR_NAMES: Names := Names((t: Type) => Spelling(t), (name: Name) => TypeNamed(name))

  ghost predicate NamesClasses(names: Names) {
    && (forall name {:trigger ClassType(name)} :: names.spell(ClassType(name)) == name)
    && (forall name {:trigger names.read(name)} | |name| > 7 :: names.read(name) == ClassType(name))
    && (forall name {:trigger names.read(name)} | names.read(name).ClassType? :: names.read(name) == ClassType(name))
  }

  lemma BuiltInNamesAreShort()
    ensures forall i :: 0 <= i < |BUILT_IN| ==> |BUILT_IN[i].1| <= 7
  {
  }

  lemma BuiltInTypesAreNoClasses()
    ensures forall i :: 0 <= i < |BUILT_IN| ==> !BUILT_IN[i].0.ClassType?
  {
  }

  lemma NirNamesClasses()
    ensures NamesClasses(NIR_NAMES)
  {
    BuiltInNamesAreShort();
    BuiltInTypesAreNoClasses();
    forall name: Name | |name| > 7 ensures NIR_NAMES.read(name) == ClassType(name) {
      NotBuiltIn(BUILT_IN, name);
    }
    forall name: Name | NIR_NAMES.read(name).ClassType? ensures NIR_NAMES.read(name) == ClassType(name) {
      ReadAsClass(BUILT_IN, name);
    }
  }

  lemma {:induction false} NotBuiltIn(table: seq<(Type, Name)>, name: Name)
    requires |name| > 7 && forall i :: 0 <= i < |table| ==> |table[i].1| <= 7
    ensures NamedIn(table, name) == ClassType(name)
    decreases |table|
  {
    if table == [] {
    } else {
      NotBuiltIn(table[1..], name);
    }
  }

  lemma {:induction false} ReadAsClass(table: seq<(Type, Name)>, name: Name)
    requires forall i :: 0 <= i < |table| ==> !table[i].0.ClassType?
    ensures NamedIn(table, name).ClassType? ==> NamedIn(table, name) == ClassType(name)
    decreases |table|
  {
    if table == [] {
    } else {
      ReadAsClass(table[1..], name);
    }
  }

  predicate IsNumeric(t: Type) {
    t.ByteType? || t.ShortType? || t.IntType? || t.LongType? || t.FloatType? || t.DoubleType?
  }

  predicate IsIntegral(t: Type) {
    t.ByteType? || t.ShortType? || t.IntType? || t.LongType?
  }

  predicate IsReference(t: Type) {
    !(t.UnitType? || t.BooleanType? || IsNumeric(t) || t.CharType? || t.SymbolType? || t.NothingType?)
  }

  /** Conformity that needs no class hierarchy. */
  predicate TypesConform(expected: Type, actual: Type) {
    || expected.UnknownType? || actual.UnknownType?
    || expected == actual
    || actual.NothingType?
    || (expected.ObjectType? && IsReference(actual))
    || (expected.ShortType? && actual.ByteType?)
    || (expected.IntType? && (actual.ByteType? || actual.ShortType?))
    || (expected.LongType? && (actual.ByteType? || actual.ShortType? || actual.IntType?))
    || (expected.FloatType? && (actual.ByteType? || actual.ShortType? || actual.IntType? || actual.LongType?))
    || (expected.DoubleType? &&
        (actual.ByteType? || actual.ShortType? || actual.IntType? || actual.LongType? || actual.FloatType?))
    || (actual.NullType? && IsReference(expected))
  }

  const THROWABLE: Type := ClassType(JAVA_LANG_THROWABLE)
  const JAVA_LANG_OBJECT_TYPE: Type := ClassType(JAVA_LANG_OBJECT)

  /** What name resolution finds: a class, a trait or neither, its own name as a type, and the type of a mention of
      it. */
  datatype Resolution = Resolution(isClass: bool, isTrait: bool, own: Type, mentioned: Type)

  /** What a body is checked against. `below` is the search along parent edges. */
  datatype Context = Context(below: (Type, Type) -> bool,
                             resolve: Name -> Option<Resolution>,
                             spell: Type -> Name,
                             constructorTypes: Type -> seq<Type>)

  predicate Conforms(c: Context, expected: Type, actual: Type) {
    TypesConform(expected, actual) || (IsReference(expected) && IsReference(actual) && c.below(actual, expected))
  }

  // ---------------------------------------------------------------------------------------------
  // Conformity is a preorder on known types exactly when no class tampers with Object and Null.

  ghost predicate BelowIsPreorder(c: Context) {
    && (forall a {:trigger c.below(a, a)} :: c.below(a, a))
    && (forall x, y, z {:trigger c.below(x, y), c.below(y, z)} :: c.below(x, y) && c.below(y, z) ==> c.below(x, z))
  }

  /** No reference type but Null is below Null, and Object is below no other reference type. */
  ghost predicate ReservedNamesKept(c: Context) {
    && (forall a {:trigger c.below(a, NullType)} ::
          IsReference(a) && !a.UnknownType? && c.below(a, NullType) ==> a.NullType?)
    && (forall b {:trigger c.below(ObjectType, b)} ::
          IsReference(b) && !b.UnknownType? && c.below(ObjectType, b) ==> b.ObjectType?)
  }

  ghost predicate ConformityIsTransitive(c: Context) {
    forall x, y, z {:trigger Conforms(c, x, y), Conforms(c, y, z)} ::
      Known(x) && Known(y) && Known(z) && Conforms(c, x, y) && Conforms(c, y, z) ==> Conforms(c, x, z)
  }

  predicate Known(t: Type) {
    !t.UnknownType?
  }

  lemma ConformsTransitive(c: Context, x: Type, y: Type, z: Type)
    requires BelowIsPreorder(c) && ReservedNamesKept(c)
    requires Known(x) && Known(y) && Known(z) && Conforms(c, x, y) && Conforms(c, y, z)
    ensures Conforms(c, x, z)
  {
    if !TypesConform(x, y) && !TypesConform(y, z) {
      assert c.below(y, x) && c.below(z, y);
    }
  }
}
