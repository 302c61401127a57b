# Verified model of the Raksha compiler and taint analysis

Raksha checks that programs respect information-flow policies. This project
models its four stateful cores and proves what they are for.

- **Authorization logic.** A program of `says`, `canSay` and `canActAs`
  assertions is made range restricted by inserting universe relations, and is
  then lowered to Datalog. `AuthLogic` and `Datalog` give both languages a
  meaning as least models of ground inference steps (`Inference`). `Universe`
  and `LoweringPass` are the two passes as the code writes them, with their
  counters and tables. `TypeUses` says which types constants get, `UniverseCorrect`
  what inserting universes does to the meaning of a program and
  `UniverseConservative` when it changes nothing; `LoweringCorrect` and `Compiler`
  show that the compiled rules mean what the program means. `Declarations`, `DeclarationUses`,
  `DeclarationCover` and `CompilerDeclarations` settle when the emitted
  declarations fit the emitted rules.
- **Taint analysis.** `IfcTags` is the tag lattice, `TaintRules` the rule
  interpreter, `IrModule` the module and its value/operation graph, `Transfer`,
  `FixpointBudget` and `Fixpoint` the worklist iteration with an arbitrary pop
  order, `PolicyChecker` the verdict. `FlowPaths` relates the verdict to finite
  flows of a tag. `Worklist` is the generic iterator over any graph.
- **SQL front end.** `SqlOps`, `SqlDecode`, `RulesBuilder` and `SqlRules` decode
  an arena of expressions into a module and policy rules into a rule table.
  `SqlMeaning` says what the operations do to tags, and `SqlLabels` and
  `SqlVerdict` give arenas a meaning of their own that the analysis computes.
  `Ordered` and `OrderedFlows` show what follows for modules that can be evaluated
  in order, and `SqlCheck` puts decoding and checking together. `OrderDependence`
  and `PolicyOrder` settle for which policies the order of the worklist decides
  the verdict.
- **Small cores.** `IrToProto`, `ProtoToIr` and `ProtoRoundTrip` write a module
  with cyclic references as a protocol buffer and read it back; `RefCounts` is
  intrusive reference counting; `AccessPaths` enumerates the leaf paths of a type.

A failing CHECK is modelled by the result `CheckFailed` or `false`, and each
contract says exactly when it happens. Hash maps and sets are mathematical maps
and sets that loops visit in an arbitrary order. Operations, blocks, objects
and handles are known by an identity.

Where the code and its comments disagree, the model follows the code.

- The header of the fixpoint iterator promises a least fixpoint. The code
  returns one when the transformers are monotone; the transformer of a decoded
  policy rule is monotone unless it adds confidentiality under a precondition
  (`TaintRules.TransformIsMonotoneIff`). Exactly when a policy has such a rule
  that can be used, the order in which the worklist is popped can decide the
  verdict on some query (`PolicyOrder.VerdictsAgreeIff`). A compliant verdict is
  right nevertheless (`OrderedFlows.CompliantRunIsRight`); only a rejection may
  be due to the order.
- The comments on delegated declarations describe one declaration for each
  depth of each relation. The code indexes the vector shared by all relations
  and has no declaration of canActAs to start from. The declarations are right
  for every visiting order exactly under the condition of
  `DeclarationCover.DeclarationsAreRightIff`; `DeclarationCover.MisdeclaredPrograms`
  holds two programs that are lowered to wrong declarations.
- Inserting universes is meant to restrict each variable to the constants of
  its type. It does (`UniverseCorrect.UniverseInsertionIsExact`), and thereby
  changes the meaning of every program with a fact about a variable argument
  (`UniverseConservative.UnguardedVariablesAreRestricted`). A custom type called
  `Number` or `Principal` shares the universe of the built-in type
  (`UniverseCorrect.DistinctUniversesIff`), which is then declared twice
  (`CompilerDeclarations.InsertionDeclaresOnceIff`).
- Reading back a module is not faithful for operations with several results,
  because their number is not written (`ProtoRoundTrip.SingleResultsAreNeeded`),
  and a block with results cannot be read back at all, because its outputs are
  not written (`ProtoRoundTrip.EncodingIsReadableIff`).

The supported fragment of the authorization logic is stated by
`LoweringCorrect.InFragment` (positive, attribute relations used only as
attributes, no name that the pass could invent) and `UniverseCorrect.IsPlain`
(constant speakers, no relation named like a universe). Programs whose head
variables all occur in conditions, at the same type, are singled out by
`UniverseConservative.AllSuitable`; for them the types make no difference.

## Model

| member | source | states |
|---|---|---|
| `Names.FreshNameIsVariable` | src/ir/auth_logic/is_name_constant.cc:25-34 | an invented name is never read as a quoted or numeric constant |
| `Names.DecimalIsConstantIff` | src/ir/auth_logic/is_name_constant.cc:25-34 | a decimal number is a constant if and only if it is within the bounds of 32-bit integers |
| `LoweringPass.LoweringToDatalogPass.FreshVar` | src/ir/auth_logic/lowering_ast_datalog.h:141-144 | hands out the next numbered name, and aborts exactly when the counter is at its 64-bit maximum |
| `LoweringPass.LoweringToDatalogPass.UpdateCanSayDepth` | src/ir/auth_logic/lowering_ast_datalog.cc:70-76 | the entry of the relation becomes the maximum of the old and the new depth, others stay |
| `LoweringPass.LoweringToDatalogPass.BaseFactToDlir` | src/ir/auth_logic/lowering_ast_datalog.cc:78-170 | the predicate of a base fact, and for attributes and canActAs one rule that passes it on to an actor, with the next fresh variable |
| `LoweringPass.LoweringToDatalogPass.FactToDlir` | src/ir/auth_logic/lowering_ast_datalog.cc:172-211 | the nested predicate, one delegation rule for each level with consecutive fresh variables, and the recorded depth; aborts exactly when the counter would overflow |
| `LoweringPass.LoweringToDatalogPass.GenerateDlirAssertions` | src/ir/auth_logic/lowering_ast_datalog.cc:213-233 | conditions are translated first, then the head; the main rule comes last |
| `LoweringPass.LoweringToDatalogPass.SaysAssertionsToDlir` | src/ir/auth_logic/lowering_ast_datalog.cc:251-269 | grouped assertions unroll to the rules of all spoken assertions, with one running counter and depth table |
| `LoweringPass.LoweringToDatalogPass.QueriesToDlir` | src/ir/auth_logic/lowering_ast_datalog.cc:271-280 | one rule per query on its dummy argument; generated rules are dropped but counter and depths advance |
| `LoweringPass.LoweringToDatalogPass.GetCanSayDeclarations` | src/ir/auth_logic/lowering_ast_datalog.cc:305-368 | for the order in which the depth table is visited, the declarations that the shared-vector lookup yields |
| `LoweringPass.LoweringToDatalogPass.ProgToDlir` | src/ir/auth_logic/lowering_ast_datalog.cc:449-472 | the whole lowered program for some visiting order, one output per query and no others, or an abort exactly when more variables are needed than the counter can number |
| `LoweringPass.Lower` | src/ir/auth_logic/lowering_ast_datalog.h:132-134 | the same for the public entry point, starting from an empty state |
| `Lowering.DemandIsNumberOfRules` | src/ir/auth_logic/lowering_ast_datalog.cc:78-211 | a fact invents one variable for each delegatee and one for acting, each for a rule of its own |
| `Lowering.SpelledPredicates` | src/ir/auth_logic/lowering_ast_datalog.cc:35-52 | the name and the argument order of a delegated predicate, letter by letter |
| `Lowering.SpelledAttributes` | src/ir/auth_logic/lowering_ast_datalog.cc:54-68 | the same for attributes, canActAs and the dummy |
| `Encoding.GroundSaid` | src/ir/auth_logic/lowering_ast_datalog.cc:35-68 | instantiating the translated predicate of a spoken fact is encoding the instantiated belief |
| `Encoding.EncodeIsInjective` | src/ir/auth_logic/lowering_ast_datalog.cc:35-68 | no two beliefs of the fragment, at whatever nesting, are encoded by the same atom |
| `LoweringCorrect.SpokenRuleHasOrigin` | src/ir/auth_logic/lowering_ast_datalog.cc:172-269 | every rule generated for assertions is the main, an acting or a delegation rule of one spoken assertion |
| `LoweringCorrect.Root` | src/ir/auth_logic/lowering_ast_datalog.cc:172-233 | every derivable belief atom rests on an instance of the head of an asserted fact, which is why rules specialised to assertions suffice |
| `LoweringCorrect.ClosedUnderDelegation` | src/ir/auth_logic/lowering_ast_datalog.cc:176-206 | the lowered model is closed under the universal can-say rule at every nesting depth |
| `LoweringCorrect.ActAsIsTransitive` | src/ir/auth_logic/lowering_ast_datalog.cc:109-138 | canActAs is transitive for each speaker in the lowered model |
| `LoweringCorrect.ClosedUnderActing` | src/ir/auth_logic/lowering_ast_datalog.cc:78-138 | every attribute and canActAs fact passes to every actor, along chains of any length |
| `LoweringCorrect.BeliefsAreLowered` | src/ir/auth_logic/lowering_ast_datalog.cc:172-269 | completeness: whatever follows in the logic is derivable from the lowered rules |
| `LoweringCorrect.LoweredAtomsMean` | src/ir/auth_logic/lowering_ast_datalog.cc:172-280 | soundness: every atom of the lowered model encodes a belief, a query answer, or is the dummy |
| `LoweringCorrect.LoweringPreservesMeaning` | src/ir/auth_logic/lowering_ast_datalog.cc:172-280 | a belief of the fragment follows from the assertions and the universal rules if and only if its atom is in the least model of the lowered rules |
| `LoweringCorrect.DerivationsCorrespond` | src/ir/auth_logic/lowering_ast_datalog.cc:172-280 | a belief has a finite derivation in the logic if and only if its atom has a finite derivation from the lowered rules |
| `LoweringCorrect.QueriesPreserveMeaning` | src/ir/auth_logic/lowering_ast_datalog.cc:271-280 | a query relation is non-empty if and only if some query of that name has a derivable instance |
| `Declarations.ShallowWorkIsExact` | src/ir/auth_logic/lowering_ast_datalog.cc:322-366 | if only the first visited relation is delegated more than once, the declarations are exactly the needed forms |
| `Declarations.DeclarationsCoverIff` | src/ir/auth_logic/lowering_ast_datalog.cc:322-366 | every needed form is declared if and only if only the first visited relation is delegated more than once |
| `Declarations.SecondRelationIsMisdeclared` | src/ir/auth_logic/lowering_ast_datalog.cc:357-364 | a relation delegated once before one delegated twice: the former gets a second form, the latter misses one |
| `DeclarationUses.SpokenUsesAreRecorded` | src/ir/auth_logic/lowering_ast_datalog.cc:207-209 | every predicate in a rule generated for an assertion is a form within the recorded depth |
| `DeclarationUses.QueryUsesAreRecorded` | src/ir/auth_logic/lowering_ast_datalog.cc:271-280 | the same for the predicate of a query |
| `DeclarationCover.FormIsDeclaredAs` | src/ir/auth_logic/lowering_ast_datalog.cc:389-472 | under the condition on the visiting order, each recorded form of a declared relation has exactly one declaration in the lowered program, with speaker, delegatees and the arguments of the relation at their types |
| `DeclarationCover.DelegatedActingIsUndeclared` | src/ir/auth_logic/lowering_ast_datalog.cc:322-366 | a delegated canActAs has no declaration, in any visiting order |
| `DeclarationCover.TwoDelegatedAreUnsafe` | src/ir/auth_logic/lowering_ast_datalog.cc:322-366 | two delegated relations, one of them more than once: in some visiting order the emitted declarations are wrong |
| `DeclarationCover.OrderIsRightIff` | src/ir/auth_logic/lowering_ast_datalog.cc:305-472 | for one visiting order, exactly when every recorded form, canActAs, every query and the dummy have one declaration with the right arguments and types |
| `DeclarationCover.DeclarationsAreRightIff` | src/ir/auth_logic/lowering_ast_datalog.cc:305-472 | the emitted declarations are right in every visiting order if and only if no relation is delegated more than once or only one is delegated, canActAs is not delegated, and query names are free |
| `DeclarationCover.UsesAreDeclaredOnce` | src/ir/auth_logic/lowering_ast_datalog.cc:213-472 | declarations cover uses: where they are right, every predicate of every lowered rule, queries and dummy included, has exactly one declaration, with its arity |
| `DeclarationCover.MisdeclaredPrograms` | src/ir/auth_logic/lowering_ast_datalog.cc:322-366 | two concrete programs whose declarations are wrong, one in some visiting order and one, which delegates canActAs, in all |
| `CompilerDeclarations.InsertionDeclaresOnceIff` | src/ir/auth_logic/universe_relation_insertion.cc:108-120 | after insertion relations are declared once each if and only if they were before, no two types share a universe, and no relation is named like one |
| `CompilerDeclarations.InsertionIsWellUsed` | src/ir/auth_logic/universe_relation_insertion.cc:157-243 | the inserted conditions and facts use the universe relations as they are declared |
| `CompilerDeclarations.CompiledDeclarationsAreRightIff` | src/ir/auth_logic/lowering_ast_datalog.cc:449-472 | both passes together: the emitted declarations are right in every visiting order if and only if the condition on delegation and query names holds for the user's program |
| `CompilerDeclarations.CompiledUsesAreDeclaredOnce` | src/ir/auth_logic/lowering_ast_datalog.cc:449-472 | both passes together: every predicate of every compiled rule has exactly one declaration, with its arity |
| `Universe.DeclarationEnvironment` | src/ir/auth_logic/declaration_environment.cc:35-61 | maps every relation to its declaration; fails exactly when a name is declared twice |
| `Universe.TypeEnvironmentVisitor.Type` | src/ir/auth_logic/type_environment.cc:52-69 | types a constant, ignores a variable, and aborts exactly when the constant has another type |
| `Universe.TypeEnvironmentVisitor.VisitPredicate` | src/ir/auth_logic/type_environment.cc:84-108 | types arguments by the declaration, or as numbers under a comparison operator |
| `Universe.TypeEnvironmentVisitor.VisitProgram` | src/ir/auth_logic/type_environment.cc:112-117 | the table after the typing events of the whole program, or an abort exactly if one of them fails |
| `Universe.RunTypesExactly` | src/ir/auth_logic/type_environment.cc:52-108 | a run that does not abort gives every constant that occurs its one type and types nothing else |
| `TypeUses.TypesAreUses` | src/ir/auth_logic/type_environment.cc:71-117 | a constant has a type if and only if some speaker, delegatee, principal, argument or comparison of an assertion or a query uses it at that type |
| `TypeUses.TypingPassesIff` | src/ir/auth_logic/type_environment.cc:52-117 | typing aborts if and only if a relation is used that is not declared like that, or a constant is used at two types |
| `TypeUses.InsertionStaysTyped` | src/ir/auth_logic/universe_relation_insertion.cc:247-273 | the transformed program type checks and gives the same constants the same types |
| `Universe.GetUniverseConditions` | src/ir/auth_logic/universe_relation_insertion.cc:206-240 | one membership condition for every variable of a head, at its declared type; aborts exactly when the relation or a declared argument is missing |
| `Universe.AddUniverseConditions` | src/ir/auth_logic/universe_relation_insertion.cc:169-198 | every assertion keeps its head and gets the conditions before its own body |
| `Universe.GetUniverseDefiningFacts` | src/ir/auth_logic/universe_relation_insertion.cc:62-81 | exactly the facts by which each constant principal puts each typed constant into its universe |
| `Universe.GetUniverseDeclarations` | src/ir/auth_logic/universe_relation_insertion.cc:108-120 | one declaration for each declared or built-in type, each once and no others |
| `Universe.InsertUniverseRelations` | src/ir/auth_logic/universe_relation_insertion.cc:247-273 | the transformed program, and exactly when the pass aborts |
| `UniverseCorrect.UniverseIsPopulated` | src/ir/auth_logic/universe_relation_insertion.cc:62-81 | every constant principal believes every typed constant to be in its universe |
| `UniverseCorrect.DistinctUniversesIff` | src/ir/auth_logic/universe_relation_insertion.cc:32-44 | types have universes of their own if and only if no custom type is called Number or Principal |
| `UniverseCorrect.MembersHaveTheType` | src/ir/auth_logic/universe_relation_insertion.cc:62-81 | unless two types share a universe, its members are exactly the constants of the type |
| `UniverseCorrect.NothingTypedIsLost` | src/ir/auth_logic/universe_relation_insertion.cc:247-273 | whatever follows from instances that send head variables to constants of their types still follows |
| `UniverseCorrect.UniverseInsertionIsExact` | src/ir/auth_logic/universe_relation_insertion.cc:247-273 | over the original relations exactly those beliefs follow, also for programs with head variables that no condition mentions |
| `UniverseCorrect.UniverseInsertionIsTyping` | src/ir/auth_logic/universe_relation_insertion.cc:247-273 | then the beliefs are exactly those that follow when head variables range over the constants that the program uses at their types |
| `UniverseConservative.BeliefsAreTyped` | src/ir/auth_logic/universe_relation_insertion.cc:157-243 | every derivable belief of a range-restricted, consistently typed program has typed constants at every argument |
| `UniverseConservative.UniverseInsertionIsConservative` | src/ir/auth_logic/universe_relation_insertion.cc:247-273 | so for such a program exactly the same beliefs are derivable before and after |
| `UniverseConservative.UnguardedVariablesAreRestricted` | src/ir/auth_logic/universe_relation_insertion.cc:122-145 | a program with an unconditional fact about a variable argument loses a belief |
| `Compiler.CompiledRulesAreRangeRestricted` | src/ir/auth_logic/universe_relation_insertion.cc:157-243 | insertion followed by lowering yields only positive rules all of whose head variables occur in positive body atoms |
| `Compiler.InsertionStaysInFragment` | src/ir/auth_logic/universe_relation_insertion.cc:247-273 | a program of the fragment for which lowering is correct stays in it, whether its variables are guarded or not |
| `Compiler.CompilerPreservesMeaning` | src/ir/auth_logic/lowering_ast_datalog.cc:449-472 | both passes together: the atom of a belief of the user's program is in the model of the compiled rules if and only if the belief follows with head variables ranging over the constants of their types |
| `Compiler.CompilerAnswersQueries` | src/ir/auth_logic/lowering_ast_datalog.cc:271-280 | both passes together: a query relation is non-empty if and only if the user's query holds in that sense |
| `Compiler.CompilerPreservesBeliefs` | src/ir/auth_logic/lowering_ast_datalog.cc:449-472 | for range-restricted programs the compiled rules mean what the program means without types |
| `Compiler.CompilerPreservesQueries` | src/ir/auth_logic/lowering_ast_datalog.cc:271-280 | and so do the answers to its queries |
| `Compiler.LoweredOutputsAnswerQueries` | src/ir/auth_logic/lowering_ast_datalog.cc:458-471 | of the lowered program exactly the relations of queries that hold are output and have a tuple |
| `Compiler.CompilerOutputsAnswerQueries` | src/ir/auth_logic/lowering_ast_datalog.cc:458-471 | both passes together: exactly the relations of the user's queries that hold are output and have a tuple |
| `IfcTags.JoinIsLeastUpperBound` | src/analysis/taint/abstract_ifc_tags.cc:40-57 | join is the least upper bound, commutative and associative |
| `IfcTags.JoinTags` | src/analysis/taint/abstract_ifc_tags.cc:40-57 | the loop that intersects integrity computes the join |
| `TaintRules.InterpretMergeIntegrityTags` | src/analysis/taint/abstract_semantics.cc:47-112 | the fold with its first-time flag merges from left to right, bottom in gives bottom out, and it aborts exactly when an index that is reached has no input |
| `TaintRules.ApplyOperationTransformer` | src/analysis/taint/abstract_semantics.cc:162-189 | each output gets its rules folded over the default state, in whatever order outputs are visited; aborts exactly when an output is missing or a rule that is reached lacks its input |
| `TaintRules.TransformerInBounds` | src/analysis/taint/abstract_semantics.cc:119-189 | a table whose indices are in bounds never aborts, and its result is what the rules mean |
| `TaintRules.MonotoneIffRestricted` | src/analysis/taint/abstract_semantics.cc:115-160 | as a step on arbitrary inputs and accumulated states, a rule is monotone if and only if it has no premises, removes secrecy or adds integrity |
| `TaintRules.TransformerIsMonotone` | src/analysis/taint/abstract_semantics.cc:47-189 | with such rules the whole fold over a rule sequence is monotone in the input states |
| `TaintRules.TransformIsMonotoneIff` | src/analysis/taint/abstract_semantics.cc:115-189 | the transformer of an output that copies its first input and then modifies a tag is monotone if and only if it does not add secrecy under premises |
| `TaintRules.UnreachedInputsGiveBottom` | src/analysis/taint/abstract_semantics.cc:24-189 | an operation none of whose inputs is reached produces bottom, whatever its rules |
| `TaintRules.ReachedInputsGiveState` | src/analysis/taint/abstract_semantics.cc:24-189 | an operation all of whose inputs are reached never produces bottom, whatever its rules |
| `TaintRules.OutputStaysWithin` | src/analysis/taint/abstract_semantics.cc:24-189 | no tag appears that neither an input has nor a rule names |
| `IrModule.AdjacencyListComputingVisitor.PreVisit` | src/analysis/common/module_graph.cc:37-65 | visiting one more operation adds exactly its node, inputs, outputs and indexed edges |
| `IrModule.ComputeAdjacencyList` | src/analysis/common/module_graph.cc:29-34 | the graph has exactly the values and operations of the module as nodes and exactly their uses and results as edges |
| `IrModule.GetUses` | src/analysis/common/module_graph.h:77-80 | exactly the operations that use the value; the lookup and the check on edge targets cannot fail |
| `IrModule.GetResults` | src/analysis/common/module_graph.h:83-86 | exactly the indexed results of the operation |
| `Transfer.NextIsSound` | src/analysis/common/module_fixpoint_iterator.h:86-124 | whatever is popped, processing keeps the invariant that operations off the worklist are settled, for all rule tables |
| `Transfer.NextIsTight` | src/analysis/common/module_fixpoint_iterator.h:86-124 | with monotone rules, states stay below what their operations produce and below every solution |
| `Transfer.ExitIsPostSolution` | src/analysis/common/module_fixpoint_iterator.h:86-124 | at exit every operation's output is below the state of its result, also for operations never enqueued |
| `Transfer.ExitCoversReachable` | src/analysis/common/module_fixpoint_iterator.h:49-124 | exactly the values reachable from entry values and input-less operations have a state |
| `Transfer.ExitIsLeastSolution` | src/analysis/common/module_fixpoint_iterator.h:38-126 | with monotone rules the result at exit is the least solution of the transfer equations |
| `Fixpoint.PushResults` | src/analysis/common/module_fixpoint_iterator.h:105-123 | results are joined in any order, and exactly the users of new or grown values are enqueued |
| `Fixpoint.Initialize` | src/analysis/common/module_fixpoint_iterator.h:49-76 | the initial states and worklist do not depend on the order in which nodes are visited |
| `Fixpoint.ComputeFixpoint` | src/analysis/common/module_fixpoint_iterator.h:40-126 | a complete run; least solution under monotone rules; at most twice the number of named tags plus two writes per result, and the resulting bound on pops |
| `Fixpoint.AllRunsAgree` | src/analysis/common/module_fixpoint_iterator.h:86-125 | with monotone rules all complete runs, whatever is popped when, return the same map |
| `FixpointBudget.TransferStaysWithin` | src/analysis/common/module_fixpoint_iterator.h:86-124 | no state leaves the finite set of tags named by the rules |
| `OrderDependence.PopOrderDecidesVerdict` | src/analysis/taint/abstract_semantics.cc:124-126 | for every query of a column, a literal and a transform that adds a secret under premises about the literal, two complete runs end in opposite verdicts |
| `PolicyOrder.ConditionalSecrecyDisagrees` | src/frontends/sql/decode_sql_policy_rules.cc:54-160 | for every usable policy rule that adds confidentiality under preconditions there are a query, a decoded table and two complete runs with different verdicts |
| `PolicyOrder.VerdictsAgreeIff` | src/analysis/common/module_fixpoint_iterator.h:38-126 | the verdict on every query is the same for all complete runs if and only if no usable rule of the policy adds confidentiality under a precondition |
| `FlowPaths.FlowIsExact` | src/analysis/taint/abstract_semantics.cc:115-189 | a tag is in the output of a rule sequence if and only if a rule added it or one of the inputs it draws from has it |
| `FlowPaths.SecrecyIsFlow` | src/analysis/taint/abstract_semantics.cc:115-189 | in the least solution a value has a tag if and only if a finite flow leads there from an operation that adds it |
| `PolicyChecker.IsModulePolicyCompliant` | src/backends/policy_engine/abstract_interpretation/abstract_interpretation_policy_checker.cc:17-36 | the verdict on the result of a run, and an abort exactly if an input of an egress operation is bottom |
| `PolicyChecker.VerdictIsFlow` | src/backends/policy_engine/abstract_interpretation/abstract_interpretation_policy_checker.cc:17-36 | on a least solution, compliant if and only if no tag flows to an input of an egress operation; one direction needs no least solution, see `OrderedFlows.CompliantMeansNoFlow` |
| `Ordered.OrderedReachesAll` | src/analysis/common/module_fixpoint_iterator.h:86-125 | in a module that can be evaluated in order every value has a state other than bottom, for all rule tables |
| `Ordered.OrderedNeverAborts` | src/analysis/taint/abstract_ifc_tags.cc:106-109 | so the check on asking for secrecy never fires |
| `Ordered.InOrderIsSolution` | src/analysis/common/module_fixpoint_iterator.h:86-125 | one pass over the operations solves the transfer equations |
| `Ordered.SolutionIsUnique` | src/analysis/common/module_fixpoint_iterator.h:86-125 | and these have no other solution, for all rule tables |
| `Ordered.WorklistIsInOrderPass` | src/analysis/common/module_fixpoint_iterator.h:86-125 | with monotone rules every complete run of the worklist ends in the result of that pass |
| `OrderedFlows.CompliantMeansNoFlow` | src/backends/policy_engine/abstract_interpretation/abstract_interpretation_policy_checker.cc:17-36 | for all rule tables, a compliant verdict on a module that can be evaluated in order rules out every flow to an egress operation |
| `OrderedFlows.InOrderSecrecyIsFlow` | src/analysis/taint/abstract_semantics.cc:115-189 | for all rule tables, a value has a tag in the pass in order if and only if the tag flows there |
| `OrderedFlows.RunCoversInOrder` | src/analysis/common/module_fixpoint_iterator.h:86-125 | if only tag modifications have premises, every complete run ends in the integrity of the pass in order and at least its secrecy |
| `OrderedFlows.CompliantRunIsRight` | src/backends/policy_engine/abstract_interpretation/abstract_interpretation_policy_checker.cc:17-36 | so a compliant verdict of any run means that nothing flows to an egress operation in order either |
| `SqlOps.MergeRoundTrip` | src/frontends/sql/ops/merge_op.cc:33-79 | a created merge gives back its direct and control inputs, and exactly when creation fails |
| `SqlOps.CreateTagTransform` | src/frontends/sql/ops/tag_transform_op.cc:29-52 | inputs and index attributes of the created operation; fails exactly when a name repeats or clashes with the rule name |
| `SqlOps.GetPreconditionInputIndices` | src/frontends/sql/ops/tag_transform_op.cc:88-107 | the index of every precondition; fails exactly on an attribute that is no index of a further input |
| `SqlOps.TransformRoundTrip` | src/frontends/sql/ops/tag_transform_op.cc:29-116 | a created transform gives back its rule name and the value of every precondition |
| `SqlDecode.DecoderContext.RegisterValue` | src/frontends/sql/decoder_context.h:59-64 | adds a value, and fails exactly when the id is taken |
| `SqlDecode.DecoderContext.GetValue` | src/frontends/sql/decoder_context.h:68-78 | the registered value, and fails exactly for 0 and unknown ids |
| `SqlDecode.DecoderContext.MakeTagTransformOperation` | src/frontends/sql/decoder_context.cc:43-54 | appends one transform whose preconditions list the map in some order |
| `SqlDecode.DecoderContext.DecodeExpression` | src/frontends/sql/decode.cc:33-110 | the value that computes the expression, and fails exactly for missing fields and references that are not earlier |
| `SqlDecode.DecoderContext.DecodeExpressionArena` | src/frontends/sql/decode.cc:113-126 | every id is bound to a value that computes its expression, one operation per expression that is not a column, a storage for every column, and the last expression is output; fails exactly if there is none or one cannot be decoded |
| `SqlDecode.DecodedModuleIsOrdered` | src/frontends/sql/decode.cc:113-126 | a decoded module is acyclic: operations only use results of earlier ones |
| `RulesBuilder.InferenceRulesBuilder.AddSeedTags` | src/analysis/taint/inference_rules_builder.h:34-41 | numbers the seed tags in order; fails exactly on a duplicate |
| `RulesBuilder.InferenceRulesBuilder.GetOrCreateTagId` | src/analysis/taint/inference_rules_builder.h:70-77 | names and ids stay inverse tables and earlier ids do not change |
| `SqlRules.ActionNamesDoNotCollide` | src/frontends/sql/decode_sql_policy_rules.cc:107-115 | rule name, underscore and counter can be read back, even from rule names with underscores and digits |
| `SqlRules.NextActionIsNew` | src/frontends/sql/decode_sql_policy_rules.cc:107-115 | so the check on duplicate action rules cannot fail |
| `SqlRules.PolicyHasRules` | src/frontends/sql/decode_sql_policy_rules.cc:93-99 | without repeated names, each policy rule is found under its own name |
| `SqlRules.AddInferenceRuleForTagTransform` | src/frontends/sql/decode_sql_policy_rules.cc:54-85 | copies the transformed input, then modifies the tag under one premise per precondition; fails exactly on an unknown action or argument |
| `SqlRules.DecodeSqlPolicyRules` | src/frontends/sql/decode_sql_policy_rules.cc:89-160 | each transform's target has exactly the rules its policy rule prescribes and no other operation has any; inverse tag tables; and exactly when decoding fails |
| `SqlRules.DecodedRulesAreInBounds` | src/frontends/sql/decode_sql_policy_rules.cc:38-85 | no decoded rule refers to an input or output that its operation lacks, so the interpreter's index checks cannot fail |
| `SqlRules.DecodedTableIsConditional` | src/frontends/sql/decode_sql_policy_rules.cc:54-85 | only tag modifications of a decoded table have premises |
| `SqlRules.DecodedTableIsMonotoneIff` | src/frontends/sql/decode_sql_policy_rules.cc:54-85 | the transformers of a decoded table are monotone if and only if no rule in use adds confidentiality under a precondition |
| `SqlMeaning.UntargetedResult` | src/analysis/taint/abstract_semantics.cc:24-42 | in every solution, an operation without rules unites the secrecy of its inputs and drops all integrity |
| `SqlMeaning.MergeResult` | src/analysis/taint/abstract_semantics.cc:47-112 | in every solution, a merge with a special transform has the integrity of some, or of every, direct input, and none without direct inputs; its secrecy is that of all inputs |
| `SqlMeaning.TransformResult` | src/frontends/sql/decode_sql_policy_rules.cc:25-85 | in every solution, a transform does to the tags of its first input what the action of its policy rule says if every precondition's input has the required tag, and nothing otherwise |
| `SqlLabels.LabelsAreTags` | src/frontends/sql/decode.cc:33-126 | the tags computed for an expression are exactly the labels that the arena gives it, defined on expressions and policy rules alone |
| `SqlVerdict.VerdictIsLabels` | src/backends/policy_engine/abstract_interpretation/abstract_interpretation_policy_checker.cc:17-36 | a solution is compliant if and only if by its labels the arena leaks nothing to an egress |
| `SqlVerdict.PolicyFitsIff` | src/frontends/sql/decode_sql_policy_rules.cc:89-160 | the rules can be decoded for a module if and only if every transform of the arena has its rule, with its arguments, and no merge is refined twice |
| `SqlVerdict.ConditionalSecrecyIff` | src/frontends/sql/decode_sql_policy_rules.cc:54-85 | a rule in use adds confidentiality under a precondition if and only if the arena has such a transform |
| `SqlLabels.LiteralShape` | src/frontends/sql/ops/literal_op.cc:29-38 | the operation of a literal holds its text |
| `SqlLabels.TransformShapeOf` | src/frontends/sql/decode.cc:72-85 | the operation of a transform has the rule name and, under each argument name, the value of its id |
| `SqlCheck.CheckArena` | src/backends/policy_engine/abstract_interpretation/abstract_interpretation_policy_checker.cc:8-36 | in terms of the query and the policy alone: exactly when an answer is given; a compliant answer always means that the query leaks nothing, and without conditional confidentiality the answer is exactly that; also, all values are reached and what the verdict says about flows and the in-order pass |
| `IrToProto.IRToProto.GetID` | src/ir/ir_to_proto.h:71-79 | ids are consecutive, positive, injective over blocks and operations together, and stable |
| `IrToProto.IRToProto.ModuleToProto` | src/ir/ir_to_proto.cc:28-84 | the encoding of operations and block results under one injective assignment of ids, although ids are allocated on the way; fails exactly on a stored value |
| `IrToProto.OperandsAreWritten` | src/ir/ir_to_proto.cc:28-108 | operations, operands and results of blocks are written in their order, with the ids of what they refer to and their indices |
| `IrToProto.AttributesAreWritten` | src/ir/ir_to_proto.cc:55-125 | every attribute is written unchanged in the payload of its kind |
| `ProtoToIr.ProtoToIR.PreVisit` | src/ir/proto_to_ir.cc:29-81 | constructs an object for every id at an arbitrary address; fails exactly on unregistered operators and missing values, of operations or of block results |
| `ProtoToIr.ProtoToIR.ToIR` | src/ir/proto_to_ir.cc:172-265 | fills every object with contents that refer to the constructed objects; fails exactly on unresolved ids, missing payloads and block results, for which no output has been read |
| `ProtoToIr.ProtoToIR.PostVisit` | src/ir/proto_to_ir.cc:101-129 | moves every operation into its block and builds every block; fails exactly on repeated ids |
| `ProtoToIr.Convert` | src/ir/proto_to_ir.h:52-87 | the decoded module, exactly when conversion fails, block results included, and that the final ownership checks cannot fail |
| `ProtoRoundTrip.EncodingIsReadableIff` | src/ir/proto_to_ir.h:52-87 | an encoding can be read if and only if no block has a result, every operand belongs to the module and its operators are registered |
| `ProtoRoundTrip.DecodingIsIsomorphic` | src/ir/proto_to_ir.h:52-87 | reading an encoding gives an isomorphic module, also with forward and cyclic references |
| `ProtoRoundTrip.SingleResultsAreNeeded` | src/ir/proto_to_ir.cc:46-51 | with any other number of results the modules are not isomorphic |
| `ProtoRoundTrip.RoundTrip` | src/ir/ir_to_proto.h:30-47 | writing and reading back, for modules with and without block results: exactly when it succeeds, and isomorphic if and only if all operations have one result |
| `Worklist.FollowIsSound` | src/analysis/common/worklist_fixpoint_iterator.h:62-82 | following one edge keeps the invariant, also for loops back to the node itself |
| `Worklist.ExitIsFixpoint` | src/analysis/common/worklist_fixpoint_iterator.h:48-85 | at exit exactly the reachable nodes have a state and every edge's flow is below its target's state |
| `Worklist.ComputeFixpoint` | src/analysis/common/worklist_fixpoint_iterator.h:38-86 | the same for every run over states that grow finitely often, and the least such map if the transformers are monotone |
| `RefCounts.PointerProgram.FetchSub` | src/common/utils/ref_counter.h:41-46 | subtracts and returns the old value; fails exactly when the count would become negative |
| `RefCounts.PointerProgram.Release` | src/common/utils/ref_counted.h:56-61 | the object goes away exactly when the old count was one |
| `RefCounts.PointerProgram.Create` | src/common/utils/intrusive_ptr.h:32-37 | a new object with one handle; counts stay exact |
| `RefCounts.PointerProgram.CopyConstruct` | src/common/utils/intrusive_ptr.h:38-38 | a further handle to the same object; counts stay exact |
| `RefCounts.PointerProgram.MoveConstruct` | src/common/utils/intrusive_ptr.h:40-42 | the new handle takes over and the old one is null, without touching counts |
| `RefCounts.PointerProgram.Destroy` | src/common/utils/intrusive_ptr.h:48-48 | the count check cannot fail, and the object is deleted exactly if this was its last handle |
| `RefCounts.PointerProgram.CopyAssign` | src/common/utils/intrusive_ptr.h:50-55 | copy and swap: the target points to the source's object, also for self-assignment; counts stay exact |
| `RefCounts.PointerProgram.MoveAssign` | src/common/utils/intrusive_ptr.h:50-71 | the source becomes null unless it is the target itself; counts stay exact |
| `RefCounts.Perform` | src/common/utils/intrusive_ptr.h:36-71 | what every kind of step does to the handles, case by case; a step that is not allowed does nothing |
| `RefCounts.Run` | src/common/utils/intrusive_ptr.h:36-84 | after every run two handles point to the same object if and only if the steps made them share it, an object is deleted if and only if no handle shares it any more, and otherwise its count is the number of its handles; without handles all objects are deleted, once |
| `RefCounts.SwapKeepsCount` | src/common/utils/intrusive_ptr.h:67-71 | swapping two handles changes no object's number of handles |
| `RefCounts.ReleaseIsValid` | src/common/utils/ref_counted.h:56-61 | releasing a handle finds a live object with a positive count, and removes it exactly with the last handle |
| `AccessPaths.WithParentAddsFirst` | src/ir/access_path_selectors.h:53-56 | pushing a parent onto the reversed selectors puts it first in the path |
| `AccessPaths.ReversedIsInjective` | src/ir/access_path_selectors.h:58-62 | different stored paths stand for different paths, so comparing stored paths is right |
| `AccessPaths.Intersect` | src/ir/access_path_selectors_set.h:49-66 | exactly the common elements, in the order of the second vector and without new duplicates |
| `AccessPaths.OneMoreField` | src/ir/types/schema.cc:39-50 | appending the paths of one more field adds exactly its paths and no duplicate |
| `AccessPaths.GetAccessPathSelectorsSet` | src/ir/types/schema.cc:32-53 | exactly the root-to-leaf paths, one per leaf, without duplicates, in any field order |
| `AccessPaths.ElementsCount` | src/ir/access_path_selectors_set.h:85-98 | so turning the vector into a set loses no entry |

## Left out

- Negated predicates and numeric comparisons have no meaning in the model: lowering prefixes comparisons like ordinary predicates, so there is no source meaning to preserve.
- Parsing and text emission, Souffle runs and the policy checkers built on them are not modelled.
- Storages hold no values in the model, and SQL columns are known by their path; types of storages, blocks and declarations of blocks are left out.
- Nested modules, inputs and outputs of blocks and SSA names are not part of the module model, so the conversion to and from protocol buffers is without them; the JSON wrapper is left out as well.
- `LoweringCorrect.LoweringPreservesMeaning`: is about the positive fragment in which user relations do not look like generated ones and no name looks like an invented variable; outside it two beliefs can share an atom.
- `UniverseCorrect.UniverseInsertionIsExact`: assumes constant speakers, as the parser guarantees, and a program that does not itself speak about universe relations, whose beliefs the pass does change.
- `DeclarationCover.DeclarationsAreRightIff`: assumes that relations are declared once and are not called canActAs or canSay_, because repeated declarations stay repeated and the other names clash with generated ones.
- `CompilerDeclarations.CompiledDeclarationsAreRightIff`: needs universe names that are free, which `CompilerDeclarations.InsertionDeclaresOnceIff` shows to be necessary.
- `Universe.GetUniverseConditions`: an argument beyond the declared ones is an abort, where the code reads past the end of a vector.
- `Fixpoint.ComputeFixpoint`: takes rule tables whose indices are in bounds; `TaintRules.TransformerInBounds` shows that these never abort, and `SqlRules.DecodedRulesAreInBounds` that decoded tables are of this kind.
- `PolicyOrder.VerdictsAgreeIff`: excludes rules with more preconditions than a 64-bit attribute can number.
- `SqlRules.DecodeSqlPolicyRules`: takes modules whose operations the `Create` functions could have made; attributes that cannot be read would abort.
- `Worklist.ComputeFixpoint`: needs a bound on how often a state can grow, without which the code need not terminate; `Worklist.ExitIsFixpoint` needs none.
- `RefCounts.Run`: objects hold no handles themselves, so deleting one does not cascade; counts do not wrap around.
- Ids, rule counters and tag numbers are unbounded; only the fresh-variable counter has its 64-bit limit. Floats in attributes are opaque.
- Iterator adapters, visitors, command-line drivers and file access are plumbing without properties of their own.
