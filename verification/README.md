# A verified model of the compiler's core algorithms

This project models, in Dafny 4.11, the parts of a bootstrap Scala 3 compiler whose correctness is a
statement about whole hierarchies, whole programs or all inputs, and proves those statements.
`dafny verify dfyconfig.toml` checks all of it.

## What is modelled

* **Parent linearization** (`Merge`, `MergeOrder`, `ParentGraph`, `Linearization`, `Linearizer`). The merge of
  name sequences, the cache-free recursion as the specification, and the method with its cache, its set of types
  on the stack and its two flags. The merge is shown to succeed exactly on the inputs that have a common order and
  then to give the only order in which the first free head always goes first, the cycle flag to be exact on every
  finite map, and the result to be an order of the type's ancestors. The order is C3 over reversed parents; it is
  not the linearization of section 5.1.2 of the Scala Language Specification.
* **Subtype search and receiver escapes** (`Subtyping`, `EscapingMethods`, `Closure`).
* **Linking** (`LinkerReferences`, `LinkerReasons`, `Linker`, `LinkerDispatch`, `LinkerLimits`). What a definition
  refers to, the reasons for which something is kept, the worklist that keeps the least set closed under them, the
  safety of dynamic dispatch on what is kept, and a program outside its condition.
* **Trait values** (`TraitValues`, `TraitInitialization`, `EffectiveValues`, `ConstructorOrder`,
  `ConstructorRuns`). Which class of a superclass chain stores each initialized trait value, which of them gets
  the accessor of its name, and in what order constructors assign them and run the items of their classes.
* **Operator expressions** (`Precedence`, `PrecedenceRoundTrip`, `PrecedenceMinimality`, `WrittenForms`,
  `ScalaOperators`, `OperatorParser`). The parser as functions on token positions, the texts each tree may be
  written as, a printer that parsing inverts and whose parentheses are the fewest possible, and the parser object
  that refines the functions. These results hold for any table of precedences; the object uses the compiler's own,
  whose levels `ScalaOperators` lists.
* **Match lowering** (`MatchLanguage`, `MatchLowering`, `MatchCorrectness`, `MatchForm`, `MatchDesugarer`). A
  language with `match` run case by case, the lowering to nested conditionals on a fresh local, which numbers
  unnamed handlers from the same counter, and the proof that both have the same result, the same effects in the
  same order and the same source locals. `World` stands for everything a program can do: operators answer as they
  like depending on the whole effect history, the type relation is arbitrary, and any locals may outlive their
  block.
* **The body verifier** (`Types`, `Bodies`, `TypingRules`, `TypingDecided`, `TypingFunctions`,
  `CompiledOperators`, `TypePreservation`, `FunctionBodies`, `HandlerOrder`, `TypeContexts`, `TypeLimits`,
  `BodyVerifier`). `Check` is what `verifyValue` reports; it accepts exactly what the typing rules, which know
  neither errors nor an order of checking, give a type. `Eval` runs a body on a store of tagged values, and
  preservation relates the two for every accepted body: values have the reported type, the store keeps its types,
  and immutable locals keep their values. Mentioning a global may give a value, throw or not end. A run that
  neither gives a value nor throws is a loop or a global that does not end, or a binary operator whose operand
  types the code generator refuses, which `OperatorsCompiled` excludes. `TypeLimits` has bodies and programs at
  which preservation or transitivity fails without its conditions. `BodyVerifier` is the object that saves and
  restores its fields.
* **Zones** (`ZoneBodies`, `EscapeRules`, `ZoneRules`, `ZoneSafety`, `ZonePrecision`, `ZoneReading`, `ZoneTypes`,
  `ZoneContexts`, `ZoneLimits`, `ZoneVerifier`). The escape analysis and the rules that it decides, a heap whose
  objects lie inside or outside the arena, the type check with the test of a zone's result type, the proof that
  after an accepted zone neither a local, nor a field, nor the zone's own value refers into the arena, the zones
  that are certainly accepted, the programs that meet the assumptions, and accepted bodies outside the conditions
  after which one reference does.
* **Source text** (`Utf8`, `ContentHash`, `Sources`, `SourceLines`), **tokens** (`Tokens`, `Lexer`,
  `LexerComments`, `LexerLaws`, `LexerCoverage`, `LexerUnique`, `LexerDriver`) and the **bump allocator**
  (`Arena`). `LexerLaws` says what a list of tokens has to be for it to be the reading of a text; a text has
  exactly one reading, which the lexer computes, and every reading covers its text.

Where the code updates fields in place the model is a class with those fields; where it loops, a method
with that loop. Most such methods are proved equal to a function, and the properties are proved about the
function; the lexer's methods state what they promise directly.

## What the proofs turned up

* Conformity of types is transitive on known types exactly when no class lies below `Null` and `Object`
  lies below nothing (`TypeContexts.TransitiveIffReservedNamesKept`). `OrdinaryNamesSuffice` gives a check of the
  definitions that implies what preservation needs.
* The verifier accepts operators that the code generator refuses: arithmetic on any equal operand types, such as
  a product of two Booleans (`BooleanProductIsUnsupported`), every comparison, such as an order between references
  or an equality of an Int and a Long (`ComparisonIsUnsupported`), and bitwise operators and shifts on bytes
  (`ByteBitsAreUnsupported`). `OperateYields` says exactly which accepted operators compute, and
  `CompiledBodiesCompute` lifts the condition to bodies.
* A handler may name its class in short, or catch `java.lang.Object` where `Throwable` is not below it; its
  binding then holds an exception that has another type (`ShortCaughtNameIsUnsound`, `CatchingObjectIsUnsound`).
  `CatchOkIff` gives the exact condition for every kind of handler.
* A definition that takes a built-in name can make numbers throwable (`ThrownNumberIsUnsound`) or give Nothing an
  instance (`NothingClassIsUnsound`); `OrdinaryNames` excludes both.
* A local bound directly in a branch stays in the verifier's scope (`LocalBoundInBranchIsUnsound`), so
  preservation is about bodies that bind locals only directly in blocks.
* The escape analysis accepts a store through a receiver that may be, but is not, an arena object, and a
  loop that reassigns a zone local before its next round; and a local of unknown type hands a reference to
  one of primitive type, past the test of the result type (`ZoneLimits`). A program with ordinary names meets the
  assumptions on types exactly when no definition is reached by the name of a primitive type
  (`ZoneTypesIffUnshadowed`).
* An overload that overrides nothing is dropped by the linker, and lookup by member name still selects it
  (`OverloadIsDropped`).
* A source local named like one that the lowering makes is captured (`ReservedNameIsCaptured`); locals with other
  names are not. The names made are `$match` and `$catch` followed by a number that the lowering takes.
* Constructors assign the values of one trait in the reverse order of their declarations
  (`OwnAssignmentsReversed`): the one declared last is assigned first.
* A zone that reads a primitive field of an object whose class is named in full in one branch and in short in the
  other is rejected (`ShortNameIsRejected`); with names written in full, primitive data may leave a zone
  (`CleanZoneAccepted`).
* A handler is out of order exactly if one before it takes every exception or whatever it could take itself
  (`ShadowsIff`), so every accepted handler that names a class is the first to take some exception. One that names a
  trait may take none (`TraitHandlerNeverRuns`).
* A block comment that nothing closes may leave the last character of the text to be read as a token
  (`CommentEndIs`).
* At one precedence level the associativity of the first operator decides (`MixedAssociativity`).

## Model

| member | source | states |
|---|---|---|
| Merge.MergeSucceedsIff | nir/src/Nir.cpp:379-419 | The greedy merge succeeds exactly when no name is empty and some duplicate-free sequence contains every input as a subsequence: it never gets stuck when an order exists. |
| Merge.MergedSound | nir/src/Nir.cpp:379-419 | A successful merge is duplicate-free, has exactly the inputs' names and contains each input as a subsequence. |
| Merge.MergedComplete | nir/src/Nir.cpp:379-419 | Inputs with a common order are always merged. |
| Merge.SomeHeadIsFree | nir/src/Nir.cpp:390-404 | While inputs have a common order, some head lies in no tail. |
| MergeOrder.MergedTakesFirst | nir/src/Nir.cpp:390-404 | Wherever a merged order is cut, the name behind the cut heads some input once the names before are left out, waits behind the head of none, and the heads of all inputs before that one do wait. |
| MergeOrder.FirstIsUnique | nir/src/Nir.cpp:390-404 | At most one name can be taken after given ones, so the order is determined. |
| MergeOrder.ParentsTakenFirst | nir/src/Nir.cpp:421-460 | The linearized parents are the merge in this order of the parents' linearizations, last parent first, and of the reversed parents; they are empty when these have no common order. |
| Linearization.LinearizationOrder | nir/src/Nir.cpp:421-460 | On an acyclic, consistent hierarchy the linearization starts with the type, lists it and its ancestors exactly once, and puts every type before all of its own ancestors. |
| Linearization.LinearizationContainsParents | nir/src/Nir.cpp:434-444 | The linearization contains the reversed direct parents and each parent's own linearization as subsequences. |
| Linearization.LinearizedUnfold | nir/src/Nir.cpp:468-480 | The names of a type are the type followed by the merge of its parents' linearizations. |
| Linearization.StackIrrelevant | nir/src/Nir.cpp:426-429 | On acyclic parts the set of types on the stack never influences the result. |
| Linearizer.Linearizer.constructor | nir/src/Nir.cpp:371-378 | A fresh linearizer has an empty cache, an empty stack and clean flags. |
| Linearizer.Linearizer.Merge | nir/src/Nir.cpp:379-419 | The loop that erases heads computes the merge, always takes the first free head, and clears the consistency flag exactly when it fails. |
| Linearizer.Linearizer.FindCandidate | nir/src/Nir.cpp:390-404 | The scan finds the first head that lies in no tail: it is free and no head before it is, or no head is free. |
| Linearizer.Linearizer.Linearize | nir/src/Nir.cpp:421-448 | The recursion ends on every finite map; while no cycle is found, cache and result agree with the cache-free recursion. |
| Linearizer.Linearizer.LinearizeEach | nir/src/Nir.cpp:434-441 | The parents are linearized in reversed order into the merge inputs. |
| Linearizer.CheckedLinearizedParentNames | nir/src/Nir.cpp:371-460 | The cycle flag is set exactly when a cycle is reachable from the direct parents; without one the names are the cache-free ones and the consistency flag is exact; the names are distinct and lie above the parents in any case. |
| Linearizer.ComputeLinearizedTypeNames | nir/src/Nir.cpp:468-480 | On every finite map, cyclic or not, the names are the type followed by distinct names at or above it; on an acyclic type they are its linearization. |
| Linearizer.BackEdgeIsCycle | nir/src/Nir.cpp:426-429 | A type met again while on the stack lies on a cycle reachable from the roots. |
| Linearizer.CacheExtension | nir/src/Nir.cpp:442-447 | Caching a type whose parents are cached keeps every entry correct and the flags truthful. |
| Subtyping.IsSubtypeOf | nir/src/Verifier.cpp:1169-1197 | The worklist search decides reachability along parent edges that do not leave the empty name or java.lang.Object. |
| Subtyping.SubtypeIffLinearized | nir/src/Verifier.cpp:785-806 | On an acyclic, consistent hierarchy with a parentless root the search and the linearization list the same supertypes. |
| Subtyping.SubtypeTransitive | tools/linker/src/Linker.cpp:330-359 | The search relation is transitive. |
| EscapingMethods.ComputeEscapingReceiverMethods | nir/src/Verifier.cpp:686-742 | The fixpoint is the least set that holds the direct escapers and is closed under overriding and calling, whatever order the passes use; membership is reachability of a direct escaper. |
| EscapingMethods.SpreadToOverridden | nir/src/Verifier.cpp:723-728 | One pass adds only methods that escape, and adds nothing only when no method has an escaping override left out. |
| EscapingMethods.SpreadToCallers | nir/src/Verifier.cpp:729-740 | One pass adds only methods that escape, and adds nothing only when no caller is left out. |
| EscapingMethods.DependsOnEscaping | nir/src/Verifier.cpp:733-739 | Whether one of the callees escapes or has an escaping override. |
| EscapingMethods.DispatchStaysOutside | nir/src/Verifier.cpp:702-742 | If a method is not in the computed set, no method of a class below that may run in its place, or at a call it makes on its receiver, is in the set either. |
| EscapingMethods.MayRunIffOverrides | nir/src/Verifier.cpp:702-718 | On an acyclic, consistent hierarchy the search in the linearization finds exactly the methods of the same name in classes below. |
| EscapingMethods.EscapersAreLeast | nir/src/Verifier.cpp:686-742 | On a well-formed hierarchy the computed set is the least one that holds the direct escapers and every method that, when it is selected, may run one of the set or selects one on its receiver. |
| Closure.ClosedReachedIsLeast | nir/src/Verifier.cpp:720-742 | A closed set of reached elements is the least closed set. |
| LinkerReferences.OverridingIsTransitive | tools/linker/src/Linker.cpp:380-431 | An override of an override is an override, so one round of expansion per reference is enough. |
| LinkerReferences.ReferencesAreGlobals | tools/linker/src/Linker.cpp:1034-1190 | Every collected reference is a known global. |
| LinkerReasons.ResolvesIff | tools/linker/src/Linker.cpp:269-328 | A written name resolves to the first definition that is called so, or is a member of that name of the owner or of the module. |
| LinkerReasons.RefersIff | tools/linker/src/Linker.cpp:1034-1190 | What a definition refers to, stated case by case: a type its parents, their methods and its fields; a member its type, the failures it may raise, the instance of its module, and what its body mentions, where a construction needs class, fields and initializer. |
| LinkerReasons.OverridesIff | tools/linker/src/Linker.cpp:380-431 | When one method overrides another. |
| LinkerReasons.ConstructedKeepsInitializer | tools/linker/src/Linker.cpp:528-538 | If a kept function constructs a class whose initializer is defined, the class and the initializer are kept. |
| LinkerReasons.MemberKeepsModule | tools/linker/src/Linker.cpp:1034-1058 | A kept function of a module keeps the module and its initializer. |
| Linker.CollectVirtualOverrideReferences | tools/linker/src/Linker.cpp:407-431 | The scan adds exactly the methods that override the reference. |
| Linker.CollectClassFieldReferences | tools/linker/src/Linker.cpp:494-526 | The walk adds exactly the fields of the class and of everything above it, on cyclic hierarchies too. |
| Linker.CollectDefinitionReferences | tools/linker/src/Linker.cpp:1034-1190 | The collected names and the unresolved ones are exactly those the definition mentions, for a body given as the list of its mentions; `RefersIff` says which these are. |
| Linker.Link | tools/linker/src/Linker.cpp:1193-1290 | The reachable set is the least one that holds the entry points and is closed under every reason of `Needs`, overrides included; the errors are exactly the missing entry point or the unresolved references of reachable definitions. |
| Linker.LinksIff | tools/linker/src/Linker.cpp:1248-1283 | What one handled name enqueues is exactly what it needs. |
| Linker.KeptIff | tools/linker/src/Linker.cpp:1193-1290 | A set is closed for the worklist exactly if it keeps the entry points and every need of what it keeps. |
| Linker.UnresolvedIff | tools/linker/src/Linker.cpp:1034-1190 | A reference is unresolved exactly if it stands in a scanned body and nothing is called that. |
| Linker.RootsAre | tools/linker/src/Linker.cpp:1193-1243 | An entry point is the runtime's, or every function called main when the program has none. |
| Linker.EnqueuedAreGlobals | tools/linker/src/Linker.cpp:1248-1283 | Only known globals are enqueued, so the unresolved-global branch cannot run. |
| Linker.LinkStateAdvances | tools/linker/src/Linker.cpp:1244-1283 | Handling one name keeps everything linked handled or waiting, in whatever order names are taken. |
| LinkerDispatch.DispatchSafety | tools/linker/src/Linker.cpp:407-492 | For a reachable receiver class and a virtual method referenced from reachable code, lookup along the linearization finds a member and that member is reachable, if same-named members match. |
| LinkerDispatch.InheritedMethodKept | tools/linker/src/Linker.cpp:1039-1058 | A reachable class keeps the methods of all its proper ancestors. |
| LinkerDispatch.InheritedFieldKept | tools/linker/src/Linker.cpp:494-526 | A reachable class keeps all fields it inherits. |
| LinkerDispatch.OwnMethodKept | tools/linker/src/Linker.cpp:407-431 | The class's own matching override of a referenced method is kept. |
| LinkerLimits.OverloadIsDropped | tools/linker/src/Linker.cpp:380-431 | In a program whose subclass overloads a referenced method without overriding it, all other conditions of dispatch safety hold, and the member that lookup selects is not reachable. |
| QualifiedNames.QualifyRoundTrip | tools/linker/src/Linker.cpp:269-283 | Owner and member of a qualified name are the parts it was built from. |
| QualifiedNames.QualifiedFromParts | tools/linker/src/Linker.cpp:269-283 | A name with an owner and a member is their qualification. |
| TraitValues.MaterializedTraitValuesForClass | nscplugin/src/NirEmitter.cpp:1902-1963 | The loops over the linearized owners compute the selection: names taken by earlier types and values the superclass already stores are left out. |
| TraitInitialization.MaterializedIff | nscplugin/src/NirEmitter.cpp:1902-1963 | A class materializes exactly the initialized values of the traits above it that its superclass does not reach. |
| TraitInitialization.MaterializedInOneClass | nscplugin/src/NirEmitter.cpp:1902-1963 | Every initialized value of every trait above a class is materialized in exactly one class of its superclass chain. |
| EffectiveValues.EffectiveValueIsSelected | nscplugin/src/NirEmitter.cpp:1902-1963 | A stored value is the effective one of its name exactly if the class does not declare the name, no type before its trait provides it, and no member before it in the trait has it. |
| EffectiveValues.DeclaredIsProvided | nscplugin/src/NirEmitter.cpp:1912-1925 | A type provides every name it declares. |
| TraitInitialization.ClassesAboveSuperclass | nir/src/Verifier.cpp:290-304 | Under the kind rules every class above a class lies at or above its superclass. |
| ConstructorOrder.AppendMaterializedTraitInitializerItems | nscplugin/src/NirEmitter.cpp:5025-5065 | The backward loop appends the assignments of the materialized values, supertraits first. |
| ConstructorOrder.AppendParentInitialization | nscplugin/src/NirEmitter.cpp:5067-5109 | The superclass's arguments, its own parent's steps and its trait values come first, in this order. |
| ConstructorOrder.ConstructorBodyFor | nscplugin/src/NirEmitter.cpp:5112-5125 | The emitted constructor consists of the parent's steps, the own trait values and the return. |
| ConstructorOrder.ConstructorAssignsTraitValues | nscplugin/src/NirEmitter.cpp:5025-5125 | The constructor assigns every initialized value of every trait above the class exactly once, and all values of a supertrait before any value of a trait that extends it. |
| ConstructorOrder.OwnAssignmentsOrder | nscplugin/src/NirEmitter.cpp:5025-5065 | A class's own assignments are free of duplicates and ordered supertraits first. |
| ConstructorRuns.ConstructorRunsInOrder | nscplugin/src/NirEmitter.cpp:5025-5125 | A constructor sets the superclass arguments first, nearest class first; then every class of the chain runs its items, a superclass before its subclasses, each behind exactly the trait values that it inherits. |
| ConstructorRuns.OwnAssignmentsReversed | nscplugin/src/NirEmitter.cpp:5025-5065 | A class's own assignments follow the linearization backwards, and the declarations of each trait backwards as well. |
| PrecedenceRoundTrip.ParseInvertsPrint | frontend/src/Parser.cpp:1320-1378 | Printing any tree with parentheses where precedence and associativity require them, then parsing, gives the tree back. |
| PrecedenceMinimality.PrintIsMinimal | frontend/src/Parser.cpp:1320-1378 | No text that is parsed as a tree has fewer parentheses than the printed form of the tree. |
| PrecedenceMinimality.EveryPairIsNeeded | frontend/src/Parser.cpp:1320-1378 | Without any one of the printed pairs the text is no longer parsed as the tree. |
| PrecedenceRoundTrip.ParseIffPrints | frontend/src/Parser.cpp:1320-1378 | On text without parentheses the parser returns a tree exactly when that tree prints to the whole text: no token is lost. |
| PrecedenceRoundTrip.OperatorStringsHaveOneTree | frontend/src/Parser.cpp:1341-1364 | Every operator string has exactly one tree that meets the constraints, and it is parsed. |
| PrecedenceRoundTrip.MixedAssociativity | frontend/src/Parser.cpp:1350-1354 | At one level the first operator's associativity decides how three operands group. |
| WrittenForms.ParsesIffWritten | frontend/src/Parser.cpp:1320-1378 | For every table, the parser reads a whole text as a tree exactly when the text is a written form of it, with whatever redundant parentheses and separators inside of parentheses; assignments included. |
| ScalaOperators.LevelsOrder | frontend/src/Parser.cpp:2568-2594 | The compiler's table orders operators as the six levels listed, from logical or to products; an operator that is not listed stands on the fourth. |
| ScalaOperators.TwoOperatorsGroup | frontend/src/Parser.cpp:1341-1364 | Of two operators the one on the higher level binds tighter, on either side; on one level the first decides, to the right if it ends with a colon. |
| ScalaOperators.PrefixOperatorsAre | frontend/src/Parser.cpp:1366-1378 | Exactly `!`, `+` and `-` may stand before an operand. |
| OperatorParser.Parser.ParseAssignmentExpression | frontend/src/Parser.cpp:1320-1339 | The method that advances the position reads what the function reads there, or stops with an error where it has none. |
| OperatorParser.Parser.ParseBinaryExpression | frontend/src/Parser.cpp:1341-1364 | The climbing loop reads what the function reads. |
| OperatorParser.Parser.ParseUnaryExpression | frontend/src/Parser.cpp:1366-1378 | Prefix operators, then a primary expression without a call or selection behind it. |
| OperatorParser.Parser.ParsePrimaryExpression | frontend/src/Parser.cpp:1589-1597 | An operand, or an expression in parentheses with separators skipped. |
| MatchCorrectness.LoweringKeepsMeaning | frontend/src/Parser.cpp:2395-2565 | If the source uses none of the names that its lowering makes, the lowered tree has the outcome, the effects in order and the source locals of first-match evaluation: selector once, alternatives left to right, guard only after its pattern and with its binding. |
| MatchCorrectness.Simulation | frontend/src/Parser.cpp:2395-2565 | The same for every part of a tree, in environments that agree on all names but those. |
| MatchCorrectness.PatternTestRun | frontend/src/Parser.cpp:2449-2518 | The generated tests try the alternatives left to right and stop at the first that fits. |
| MatchCorrectness.ConditionRun | frontend/src/Parser.cpp:2445-2528 | The generated condition runs the tests and then, only when they succeed, the guard with the binding. |
| MatchCorrectness.BindRun | frontend/src/Parser.cpp:2396-2432 | The generated block runs its body with the variable bound to the selector; the cast cannot fail there. |
| MatchCorrectness.SyntheticNameInjective | frontend/src/Parser.cpp:2395-2395 | Two counter values never give the same name. |
| MatchCorrectness.CatchNameInjective | frontend/src/Parser.cpp:1923-1924 | Nor do two counter values give unnamed handlers the same name. |
| MatchCorrectness.FreshNamesDeclaredAtMostOnce | frontend/src/Parser.cpp:2395-2395 | A name that the lowering makes with a counter value and that the source does not use is declared at most once in the lowered tree, and only if the value lies within the counter's interval. |
| MatchForm.LoweredIsCore | frontend/src/Parser.cpp:2395-2565 | A lowered tree holds no match and no handler without a name. |
| MatchForm.CoreIsKept | frontend/src/Parser.cpp:2395-2565 | A tree without them is left as it is. |
| MatchForm.NumbersTaken | frontend/src/Parser.cpp:2395-2395 | Every match and every unnamed handler takes exactly one number. |
| MatchForm.SelectorNumber | frontend/src/Parser.cpp:2395-2395 | A match's selector takes its number behind everything inside of the match. |
| MatchForm.HandlerNumber | frontend/src/Parser.cpp:1918-1928 | An unnamed handler takes its number behind what it guards and before its own body. |
| MatchCorrectness.ReservedNameIsCaptured | frontend/src/Parser.cpp:2395-2395 | A source local with a fresh local's name is captured, so the name condition is needed. |
| MatchDesugarer.Parser.LowerMatch | frontend/src/Parser.cpp:2395-2565 | The reverse loop over the cases builds the nested conditionals, and the counter advances by one. |
| MatchDesugarer.Parser.Condition | frontend/src/Parser.cpp:2445-2528 | The loops over alternatives build the case condition. |
| MatchDesugarer.Parser.LowerTree | frontend/src/Parser.cpp:2124-2565 | Lowering a whole tree numbers the fresh locals, of matches and of handlers without a name, in parsing order. |
| MatchDesugarer.Parser.LowerTry | frontend/src/Parser.cpp:1918-1928 | A handler without a name takes the next number before its body is read. |
| Types.ConformsTransitive | nir/src/Verifier.cpp:206-239 | Conformity of known types is transitive when the reserved names are kept. |
| TypeContexts.TransitiveIffReservedNamesKept | nir/src/Verifier.cpp:1225-1233 | Conformity is transitive on known types exactly when no reference type but Null is below Null and Object is below no other. |
| Types.NirNamesClasses | nir/src/Verifier.cpp:206-239 | The compiler's spelling of types satisfies what the proofs assume of it. |
| TypePreservation.Preservation | nir/src/Verifier.cpp:1695-2492 | If no error is recorded, every run of a body of the fragment yields a value of the reported type, throws a throwable, does not end in a loop or in a global, or stops at a binary operator that has no code, the last only if the body has such an operator; the store stays typed and immutable locals unchanged across blocks, handlers and shadowing. |
| TypePreservation.CompiledBodiesCompute | nir/src/Verifier.cpp:1695-2492 | An accepted body of the fragment whose operators all have code yields a value of the reported type or throws a throwable, unless a loop or a global does not end. |
| TypingDecided.CheckDecidesTyping | nir/src/Verifier.cpp:1695-2492 | No error is recorded exactly if the typing rules give the body a type; the rules give at most one type and one scope behind it, and these are reported. |
| TypingFunctions.FunctionDecidesTyping | nir/src/Verifier.cpp:1073-1133 | A function body is accepted exactly if its parameters come first and agree with the declared types, new names are bound to typed values, and a typed terminator stands at the end and nowhere else. |
| TypingRules.MayTakeIff | nir/src/Verifier.cpp:2123-2208 | Operands are accepted exactly if known types that the unknown ones stand for are in the operator's table. |
| TypingRules.AdmitsIff | nir/src/Verifier.cpp:206-239 | A type conforms exactly if it is equal, Nothing, or unknown on either side; a number of lower or equal rank; or a reference that is null, below the expected type, or expected to be any object. |
| TypingRules.BranchesIff | nir/src/Verifier.cpp:2299-2353 | Branches are accepted, and which type they have together. |
| TypePreservation.FoundKnown | nir/src/Verifier.cpp:1695-2492 | An accepted body of the fragment is reported with a known type. |
| TypePreservation.ScopeKept | nir/src/Verifier.cpp:1809-1851 | Outside blocks a value leaves the verifier's scope as it was. |
| TypePreservation.OperateYields | nir/src/Verifier.cpp:2123-2208 | For all values of the operand types an accepted binary operator gives a value of the reported type if the code generator has code for these types, and otherwise has no result. |
| TypePreservation.ArithmeticYields | nir/src/Verifier.cpp:2190-2208 | Accepted arithmetic can be computed exactly when its operand type is numeric or Char, and then has the widened type. |
| TypePreservation.ComparisonYields | tools/codegen/src/LlvmCodegen.cpp:9570-9593 | Operand types whose comparison has code only have values that can be compared: two numbers, two Booleans, two characters or two pointers. |
| TypePreservation.OperateUnaryYields | nir/src/Verifier.cpp:2090-2121 | Accepted unary operators give values of the reported type. |
| TypePreservation.CatchOkIff | nir/src/Verifier.cpp:2370-2407 | Every exception that an accepted handler takes is a value of the type it names exactly if that type is Object; or java.lang.Object and Throwable is below it; or a reference to which the named class conforms; or a reference to which every exception type below the named trait does. |
| TypePreservation.CaughtValue | nir/src/Verifier.cpp:2370-2407 | Under that condition the exception a handler takes has the type of its binding. |
| HandlerOrder.ShadowsIff | nir/src/Verifier.cpp:1220-1223 | A handler is shadowed by an earlier one exactly if that one takes every exception, or every value that it takes when it runs. |
| HandlerOrder.ClassShadowsIff | nir/src/Verifier.cpp:1220-1223 | For a handler that names a class: exactly if the earlier one takes every exception that it takes. |
| HandlerOrder.TraitHandlerNeverRuns | nir/src/Verifier.cpp:1220-1223 | For one that names a trait that is not enough: a handler of a trait that only one exception has is in order behind a handler of that exception. |
| HandlerOrder.HandlersOkIff | nir/src/Verifier.cpp:2436-2475 | Handlers that are accepted one by one are accepted together exactly if none is shadowed. |
| HandlerOrder.HandlerCanRun | nir/src/Verifier.cpp:2436-2475 | Every handler of an accepted try that names a class is the first to take some exception. |
| HandlerOrder.OrdinaryNamesKeepObjectsOnTop | nir/src/Verifier.cpp:1169-1197 | Programs with ordinary names meet what these results assume. |
| TypePreservation.PlainWorldOk | nir/src/Verifier.cpp:1969-1983 | Globals that give a value of their type, or throw where it is Nothing, meet what preservation assumes of them. |
| TypeContexts.OrdinaryNamesSuffice | nir/src/Verifier.cpp:1225-1233 | Programs whose classes avoid the built-in names and do not extend Null have what preservation assumes of names. |
| TypeContexts.AssumptionsAreMet | nir/src/Verifier.cpp:1225-1233 | In each such program, whatever the types of its globals, there are globals and a store that meet all of it. |
| TypeLimits.NullTraitIsNotTransitive | nir/src/Verifier.cpp:1225-1233 | With a trait called Null and a class that extends it, conformity is not transitive. |
| TypeLimits.ObjectClassIsNotTransitive | nir/src/Verifier.cpp:1225-1233 | With a class called Object that extends a trait, conformity is not transitive. |
| TypeLimits.NirConformityIsNotTransitive | nir/src/Verifier.cpp:1225-1233 | Conformity is not transitive in these two programs when types are spelled as the compiler spells them. |
| TypeLimits.BooleanProductIsUnsupported | tools/codegen/src/LlvmCodegen.cpp:9690-9697 | A product of two Booleans is accepted at type Boolean and has no code. |
| TypeLimits.ComparisonIsUnsupported | nir/src/Verifier.cpp:2171-2174 | An order between unit and null, an order between objects and an equality of an Int and a Long are accepted and have no code. |
| TypeLimits.ByteBitsAreUnsupported | tools/codegen/src/LlvmCodegen.cpp:9484-9534 | So are a bitwise and of two bytes and the shift of a byte. |
| TypeLimits.ShortCaughtNameIsUnsound | nir/src/Verifier.cpp:2370-2407 | A handler that names its class in short is accepted and yields an exception that is no value of the reported type. |
| TypeLimits.CatchingObjectIsUnsound | nir/src/Verifier.cpp:2370-2407 | A handler of java.lang.Object does the same in a program whose Throwable is not below it. |
| TypeLimits.ThrownNumberIsUnsound | nir/src/Verifier.cpp:1784-1797 | If an object called Int extends Throwable, a number can be thrown, and caught as Object it is no value of that type. |
| TypeLimits.NothingLiteralIsUnsound | nir/src/Verifier.cpp:1699-1700 | A literal of type Nothing is accepted and yields a value where the type has none. |
| TypeLimits.NothingClassIsUnsound | nir/src/Verifier.cpp:1737-1764 | An instance of a class called Nothing does too. |
| TypeLimits.UnknownTypeIsUnsound | nir/src/Verifier.cpp:1829-1851 | A local declared with the unknown type takes a Boolean, and its negation as a number is accepted and cannot run. |
| TypeLimits.LocalBoundInBranchIsUnsound | nir/src/Verifier.cpp:1829-1851 | A binding in a branch is accepted although a later mention can find nothing. |
| FunctionBodies.FunctionYields | nir/src/Verifier.cpp:1073-1133 | Called with arguments of its parameter types, an accepted function returns a value of its result type or throws a throwable, unless a loop or a global does not end, an operator somewhere in it has no code, or it reaches a last instruction that is declared unreachable; one of result type Nothing never returns. |
| FunctionBodies.CallYields | nir/src/Verifier.cpp:1073-1133 | The same from any instruction on, for typed locals and the operators from there on. |
| BodyVerifier.BodyVerifier.VerifyValue | nir/src/Verifier.cpp:1695-1969 | For the kinds of values in `Bodies.Expr`, the walk computes the checking function that decides the typing rules: reported type, scope left behind, and whether an error was added. |
| BodyVerifier.BodyVerifier.VerifyBlock | nir/src/Verifier.cpp:1809-1828 | Fields are restored after a block; duplicate locals are errors. |
| BodyVerifier.BodyVerifier.VerifyNew | nir/src/Verifier.cpp:1737-1764 | A construction of a known class with conforming arguments. |
| BodyVerifier.BodyVerifier.VerifyAssign | nir/src/Verifier.cpp:2217-2239 | Assignments to locals need a mutable local and a conforming value. |
| BodyVerifier.BodyVerifier.VerifyIf | nir/src/Verifier.cpp:2299-2353 | The branches conform to the declared result, or agree. |
| BodyVerifier.BodyVerifier.VerifyTry | nir/src/Verifier.cpp:2419-2492 | Body, handlers and finalizer, which the tree holds in this order, are checked in it, with a handler or a finalizer present, by the checking function that decides the typing rules. |
| BodyVerifier.BodyVerifier.VerifyHandlers | nir/src/Verifier.cpp:2436-2475 | Handlers after a catch-all or shadowed by an earlier one are errors; `HandlersOkIff` says which these are. |
| BodyVerifier.BodyVerifier.VerifyCatch | nir/src/Verifier.cpp:2370-2407 | A handler is checked with its binding in a scope that is dropped afterwards. |
| BodyVerifier.BodyVerifier.TypesConformTo | nir/src/Verifier.cpp:1225-1233 | Decides conformity. |
| BodyVerifier.BodyVerifier.ValidCatchType | nir/src/Verifier.cpp:1208-1218 | Decides which types may be caught. |
| BodyVerifier.BodyVerifier.VerifyBody | nir/src/Verifier.cpp:1073-1133 | No error is recorded exactly for an accepted function body, which is one that the rules type. |
| BodyVerifier.FindSubtype | nir/src/Verifier.cpp:1169-1197 | The search on spelled types decides the subtype relation. |
| ZoneSafety.ZoneSound | nir/src/Verifier.cpp:1485-1693 | If no error is added, no local outside the zone and no field of an object outside the arena holds an arena reference afterwards, and an unflagged value is never one. |
| ZoneSafety.ArenaCanBeReclaimed | nir/src/Verifier.cpp:1485-1693 | After a body that the analysis accepts the arena can be dropped: no remaining local or field dangles, no object outside it is lost, and an unflagged value survives. |
| EscapeRules.AnalysisDecidesFlows | nir/src/Verifier.cpp:1485-1693 | No error is added exactly if the rules on where arena references flow say that nothing escapes; they determine the flag and the state behind the value, and these are computed. |
| ZonePrecision.FlaggedIsReference | nir/src/Verifier.cpp:1543-1543 | In a type-checked body of the fragment, whatever the analysis flags has a reported type that is a reference type. |
| ZonePrecision.PrimitiveStoresAccepted | nir/src/Verifier.cpp:1485-1693 | A body whose stores outside the zone are all of primitive type, and which selects no method that may leak its receiver, adds no error. |
| ZoneReading.ZoneTypeAgrees | nir/src/Verifier.cpp:1357-1470 | With types written in full, the type that the analysis reads off a checked value is the reported one, but for widths of numbers, so both find the same member in every selection. |
| ZoneReading.CleanZoneAccepted | nir/src/Verifier.cpp:1852-1870 | With types written in full, a type-checked zone that only lets primitive data out is accepted. |
| ZoneTypes.ZoneCanBeReclaimed | nir/src/Verifier.cpp:1852-1870 | After an accepted zone the arena can be dropped: no remaining local or field dangles, no object outside it is lost, and the zone's own value is no reference. |
| ZoneTypes.WellTyped | nir/src/Verifier.cpp:1695-1969 | What an accepted body yields, and what locals and fields hold, is a reference only where the reported type is one; the type the analysis reads names the same definition or none. |
| ZoneRules.ResultTypesAre | nir/src/Verifier.cpp:1852-1870 | The types a zone's value may have are those of the values kept behind no pointer, and Nothing. |
| ZoneRules.CheckDecidesZoneTypes | nir/src/Verifier.cpp:1695-1969 | The check of a zone's body adds no error exactly if the typing rules give it a type, and reports the only one. |
| ZoneTypes.StoredValueFits | nir/src/Verifier.cpp:2241-2263 | In an accepted body the value assigned to a field fits the field that the analysis finds. |
| ZoneTypes.ArgumentFits | nir/src/Verifier.cpp:1751-1763 | In an accepted construction an argument fits the field it initializes. |
| ZoneContexts.ZoneTypesIffUnshadowed | nir/src/Verifier.cpp:1344-1356 | A program with ordinary names meets what zones assume of its types exactly when the name of no primitive type resolves to a class, trait or object. |
| ZoneVerifier.VerifyZoneScoped | nir/src/Verifier.cpp:1852-1870 | A zone is accepted exactly if its body has no type error, the walk adds no error, and the type needs no arena; `CheckDecidesZoneTypes` and `AnalysisDecidesFlows` say which zones these are. |
| ZoneSafety.StateKept | nir/src/Verifier.cpp:1502-1514 | Outside blocks the analysis leaves its state as it was. |
| ZoneSafety.DefiniteValue | nir/src/Verifier.cpp:1497-1501 | A construction, or a local bound to one, is an arena object at run time. |
| ZoneLimits.ReferenceResultDangles | nir/src/Verifier.cpp:1864-1868 | Without the test of the result type a construction would be accepted, and its value dangles. |
| ZoneLimits.UnknownTypeEscapes | nir/src/Verifier.cpp:1829-1851 | A local declared with the unknown type hands an arena reference to one of primitive type, and the zone that yields it is accepted. |
| ZoneLimits.MayArenaReceiverEscapes | nir/src/Verifier.cpp:1613-1619 | A receiver that may be an arena object hides a store into one that is not. |
| ZoneLimits.ReassignedLocalEscapes | nir/src/Verifier.cpp:1677-1683 | One pass over a loop misses a zone local reassigned before the next round: an accepted loop that ends after two rounds leaves a dangling local. |
| ZoneLimits.ShortNameIsRejected | nir/src/Verifier.cpp:1344-1356 | A number read from an object whose class is named in short in one branch and in full in the other is taken for a reference, and its store outside the zone rejected. |
| ZoneVerifier.ZoneEscapeState.VerifyZoneEscapeValue | nir/src/Verifier.cpp:1485-1693 | For the kinds of values in `ZoneBodies.Expr`, the walk that updates the state computes the analysis function that decides the flow rules. |
| ZoneVerifier.ZoneEscapeState.VerifyBlock | nir/src/Verifier.cpp:1502-1514 | State is restored after a block. |
| Utf8.ValidateUtf8 | support/src/SourceManager.cpp:176-245 | The loop reports exactly the error offsets of the recognizer. |
| Utf8.AcceptedIffEncoded | support/src/SourceManager.cpp:198-235 | At any offset a sequence is accepted exactly when the encoding of a Unicode scalar value stands there, which is then unique. |
| Utf8.NoErrorsIffEncoded | support/src/SourceManager.cpp:176-245 | No error is reported exactly for concatenated encodings of scalar values as in sections 3 and 4 of RFC 3629. |
| Utf8.EncodeAllInjective | support/src/SourceManager.cpp:176-245 | Different scalar sequences have different encodings. |
| Utf8.TextPartition | support/src/SourceManager.cpp:176-245 | Every text falls into accepted sequences and single rejected bytes where no encoding stands. |
| Utf8.ErrorsAreRejected | support/src/SourceManager.cpp:230-245 | The reported errors are exactly the rejected bytes of such a partition. |
| Utf8.PartitionUnique | support/src/SourceManager.cpp:176-245 | There is only one such partition. |
| ContentHash.HashContents | support/src/SourceManager.cpp:247-257 | The loop computes the 64-bit hash. |
| ContentHash.KnownHashes | support/src/SourceManager.cpp:247-257 | The hashes of no bytes and of one letter are those of 64-bit FNV-1a. |
| ContentHash.OneByteChangesHash | support/src/SourceManager.cpp:247-257 | Changing exactly one byte always changes the hash. |
| ContentHash.StepBijective | support/src/SourceManager.cpp:252-255 | A step is a bijection of the state for a fixed byte, with the inverse given. |
| ContentHash.StepInjectiveInByte | support/src/SourceManager.cpp:252-255 | A step is injective in the byte. |
| Sources.Prepare | support/src/SourceManager.cpp:132-162 | Mark, newlines, line offsets, errors and hash of a prepared source; `PreparedLines` and `PreparedMarks` say what they are in terms of the raw text. |
| Sources.NormalizeNewlines | support/src/SourceManager.cpp:144-156 | Every carriage return, alone or with the line feed behind it, becomes one line feed; `NormalizedAtBreak` says so for every break. |
| Sources.NormalizedIdempotent | support/src/SourceManager.cpp:144-156 | Normalizing again changes nothing. |
| SourceLines.NormalizedAtBreak | support/src/SourceManager.cpp:144-156 | Normalizing a line, a break and a rest gives the line, one line feed and the normalized rest; breaks are a line feed, a carriage return with a line feed behind it, and a carriage return without one. |
| SourceLines.PreparedLines | support/src/SourceManager.cpp:132-174 | Behind the mark, the lines of the prepared text are the lines of the raw text cut at these breaks, in number and contents. |
| SourceLines.CutExists | support/src/SourceManager.cpp:144-156 | Every text can be cut so. |
| SourceLines.PreparedMarks | support/src/SourceManager.cpp:132-162 | A byte order mark is dropped and remembered, whether a carriage return was replaced is exact, and the hash is that of the prepared text. |
| SourceLines.BeyondTheText | support/src/SourceManager.cpp:54-83 | Offsets behind the text have the position of its end, and lines that do not exist are empty. |
| Sources.BuildLineOffsets | support/src/SourceManager.cpp:164-174 | The offsets are those of the line starts. |
| Sources.LineOffsetsAre | support/src/SourceManager.cpp:164-174 | The offsets are exactly the line starts, in order and each once. |
| Sources.LineColumnRoundTrip | support/src/SourceManager.cpp:54-69 | Line and column lead back to the offset, and no line feed lies between the line's start and it. |
| Sources.LinesAreTheText | support/src/SourceManager.cpp:72-83 | Joining the lines gives the text, and no line contains a line feed. |
| Sources.SourceManager.AddVirtualFile | support/src/SourceManager.cpp:112-130 | The prepared file is appended under the next identifier. |
| Tokens.CoveringRebuilds | frontend/src/Lexer.cpp:25-203 | Spans without gaps rebuild the text. |
| Tokens.PushedOk | frontend/src/Lexer.cpp:820-829 | Pushing a token inserts a separator exactly between neighbours that a line break separates. |
| Lexer.LexIdentifier | frontend/src/Lexer.cpp:228-237 | The longest run of identifier characters, a keyword or an identifier. |
| Lexer.LexNumber | frontend/src/Lexer.cpp:269-363 | A number is a longest run of digits, hexadecimal or not, a fraction if a digit follows the point, an exponent, a type suffix and the identifier characters behind it; it is floating exactly if it has a fraction, an exponent or such a suffix. |
| Lexer.LexCharOrSymbol | frontend/src/Lexer.cpp:733-799 | Where a character literal or a symbol ends, and which of the two it is. |
| Lexer.LexOperator | frontend/src/Lexer.cpp:801-818 | An operator goes on exactly to the first character that is none, the `=` of an arrow, or the colon of a type bound. |
| Lexer.LexString | frontend/src/Lexer.cpp:365-426 | A string literal ends where `StringEnd` says or, in triple quotes, behind the first three quotes in a row. |
| Lexer.StringEndsFirst | frontend/src/Lexer.cpp:390-420 | That is at the first quote or line break that no odd run of backslashes escapes, or at the end of the text. |
| Lexer.LexTrivia | frontend/src/Lexer.cpp:54-105 | White space, line comments and block comments advance exactly to their ends, and know whether they contain a line break. |
| Lexer.NestedCommentEnd | frontend/src/Lexer.cpp:84-95 | A comment nested in another is passed over as a whole. |
| Lexer.CommentEndsClosed | frontend/src/Lexer.cpp:84-95 | A block comment ends behind a closing mark, unless the text ends first. |
| LexerComments.CommentEndIs | frontend/src/Lexer.cpp:84-95 | A comment ends behind the mark that closes it, where what stands between is characters and whole comments; one that nothing closes goes up to the last character, or to the end if a mark stands there. |
| Lexer.LexToken | frontend/src/Lexer.cpp:107-199 | Every token advances, spans what it consumed, ends where a token that starts with its first character must end, and has the kind its characters give it. |
| LexerDriver.LexInterpolatedString | frontend/src/Lexer.cpp:428-546 | The tokens are the opening of the string, then its pieces, names and holes, each of which ends where it must, up to the closing quotes or the cut; the mutual recursion ends. |
| LexerDriver.LexInterpolationExpression | frontend/src/Lexer.cpp:548-731 | The tokens of a hole are a reading of the text up to the brace that closes it, at which exactly one brace is open, or up to the end. |
| LexerDriver.Lex | frontend/src/Lexer.cpp:25-203 | The tokens are a reading of the whole text: trivia, tokens and interpolated strings one behind the other, each ending where it must and pushed with its trivia. Their spans are ordered, disjoint and inside the text, separators are exact, and without a hole the slices rebuild the text. |
| LexerLaws.PieceEndsFirst | frontend/src/Lexer.cpp:428-546 | Plain text of an interpolated string ends at the first place that is not escaped where the string, a name or a hole starts or ends. |
| LexerUnique.ReadingIsUnique | frontend/src/Lexer.cpp:25-203 | A text has only one reading, so every token that lexing gives is determined. |
| LexerCoverage.ReadingCovers | frontend/src/Lexer.cpp:25-203 | Every reading of a text covers it in order, with exact separators; without a hole it rebuilds the text. |
| Arena.Arena.Allocate | support/src/Arena.cpp:12-30 | Every request is served with an aligned range inside a block and apart from all earlier ones; the failure after the second attempt cannot happen. |
| Arena.Arena.Serve | support/src/Arena.cpp:34-46 | The last block serves a request exactly when it fits, changes by what it gives out, and no other block changes. |
| Arena.TryAllocateInBlock | support/src/Arena.cpp:34-46 | A served range is aligned, behind everything given out before and inside the block. |
| Arena.TryAllocateIff | support/src/Arena.cpp:34-46 | A block serves a request exactly if some aligned address behind what is given out leaves room for it, and gives out the least such address. |
| Arena.NewBlockServes | support/src/Arena.cpp:24-27 | A block made for a request can always serve it, wherever it is placed. |
| Arena.ServeOk | support/src/Arena.cpp:34-46 | Serving keeps all ranges given out pairwise disjoint. |

## Left out

- The text form of signatures and metadata: definitions carry their parents, parameter and result types already taken apart.
- Command line, files, diagnostics wording, source spans and debug scopes; errors are flags, sets of tags or offsets.
- The lexer's own diagnostics, such as unknown escapes; the tokens do not depend on them.
- Typechecker, optimizer, code generation but for the operand types of operators, build driver and native runtime.
- Runtime failure tables of the linker: a body is a list of mentions of four kinds, among them the failure classes that count only when defined.
- Linker references are those the code collects; receivers it does not descend into are not mentions.
- LinkerDispatch.DispatchSafety: assumes that a class's own same-named method matches the referenced signature, because the linker drops overrides that do not; `LinkerLimits` has a program at which it fails.
- Calls, selections and tuples in the operator parser: after an operand the model reports an error where these would begin, and error recovery is not modelled.
- Values with a malformed number of operands, arrays, zones inside type-checked bodies, calls and field selection are outside `Bodies`; unknown types are outside preservation. A value's `resolved` mark is dropped: selections and calls stop early on it, but no error of the kinds modelled depends on it.
- BodyVerifier.BodyVerifier.VerifyValue: only the kinds of values in `Bodies.Expr`; selections, calls, boxes and casts are not checked there, and a zone's body is checked by `ZoneTypes.Check` on values.
- BodyVerifier.BodyVerifier.VerifyNew: arrays are not constructed.
- BodyVerifier.BodyVerifier.VerifyAssign: fields and setters are no targets.
- BodyVerifier.BodyVerifier.VerifyTry: handlers or finalizers out of order cannot be written in the tree.
- Linker.CollectDefinitionReferences: the walk over the values of a body is not modelled, only the list of what it mentions.
- HandlerOrder.ShadowsIff: for handlers that name a class or trait in full, or everything, with nothing above Object.
- OperatorParser.Parser.ParseAssignmentExpression: stops at an error; the parser's recovery after it is not modelled.
- OperatorParser.Parser.ParseUnaryExpression: calls, selections and other forms behind an operand are errors in the model.
- TypePreservation.Preservation: a body of the fragment binds locals only directly in blocks, has no unknown type and no literal of type Nothing, and its handlers meet `CatchOk`; `TypeLimits` shows what happens otherwise.
- TypePreservation.OperateYields: of code generation only the operand types that each binary operator has code for are modelled; how operands and results are lowered is not.
- MatchDesugarer.Parser.LowerTree: a `summonFrom` case takes a number from the same counter and is not modelled, and a try has a single handler, for everything.
- ZoneTypes.ZoneCanBeReclaimed: holds on the fragment of `ZoneSafety`, with known types and no definition reached by the name of a primitive type.
- ZoneVerifier.VerifyZoneScoped: its type check leaves out errors the result does not rest on, mutability and duplicate locals; assignments through setters are outside it.
- ZonePrecision.PrimitiveStoresAccepted: on the fragment of `ZoneSafety`, with known types; a value that the analysis cannot name the type of may be flagged without need, as `ShortNameIsRejected` shows.
- ZoneSafety.ZoneSound: calls, throws, handlers and nested zones are not tracked by the analysis in the same way and not modelled. String values are data, not objects. A selection whose receiver's type the analysis cannot name has no value in the model.
- ZoneVerifier.ZoneEscapeState.VerifyZoneEscapeValue: calls, handlers, throws and nested zones are not modelled.
- Sharing between values in place: matches, bodies and heaps are values, while parser, verifier, linearizer, analysis state, source manager and arena are objects.
- Arena addresses do not wrap: placement of blocks by the system is a parameter, and rounding up by a mask is division, as it is for powers of two.
