# Models of the OpenWrt build configuration tools

Dafny models, with proofs, of the parts of the OpenWrt repository that decide
what gets built and how files are identified: the Kconfig engine in
`scripts/config` and the hash tool `scripts/mkhash.c`. `dafny verify
dfyconfig.toml` checks everything.

* **The expression rewriter.** Dependencies are trees over the values n < m < y
  with AND as minimum, OR as maximum and NOT as 2 - x (`Tristates`, `Exprs`).
  `Transform`, `Equality`, `Joins` and `Dups` hold the rewriting passes, `Matches`
  when two expressions are found equal, `Spines` the slots of a tree. What they
  must keep is the value under every *well-formed* assignment: bool symbols are
  never m, comparing a symbol with n, m or y agrees with its value, and two
  different constants never compare equal to one tristate symbol.
  `expr_eliminate_dups1` runs on paths ("slots") into one tree that it changes.
* **The dependency checker.** `Symbols` describes the finished symbol table,
  `Checker` the two-coloured depth-first search with its stack, `Cycles` what a
  report means.
* **The evaluator.** `Valuation` is the plain recursive definition of all values,
  `Evaluator` the lazy evaluator with its flags and cells. `EvalState` says when a
  cache is good in the middle of an evaluation, `EvalContracts` what each part has
  to achieve (relations between the state before and after, used as contracts),
  `Meaning` joins this with MODULES and modules_val and with setting user values,
  `Choices` is about choice groups, `ValueLaws` says what the values are in terms
  of prompts, users, selects, implies and defaults, `Configuring` puts rewriting,
  check and evaluation together, and `Witnesses` holds small configurations that
  show why the conditions below are needed.
* **The menu finaliser.** `MenuTrees` relates list/next/parent links to forests,
  `MenuDeps` and `MenuSelects` follow the conditions and what symbols collect from
  the menu (`MenuLaws` and `MenuReverse` read both off the properties), `MenuChoices`
  the choice values, and `MenuShapes` describes by recursion which nodes end up
  below which. `Menu` is menu_finalize, `MenuWalk` the walk of conf_write and the
  theorem for the whole menu.
* **Around it.** `Printing` (expr_print against the expression grammar), `Macros`
  (the macro language), `Escape` (string values in .config).
* **Hashing.** `Fips180` and `Rfc1321` are the standards' definitions, `FipsExample`
  and `Rfc1321Example` a published digest of each, step by step, `Sha256` and `Md5`
  the streaming code over `Bytes`.

Environment variables, shell output, the number that strtoul reads, file name and
line, and the outcome of comparing two typed texts are parameters. malloc is left
out, error exits are values.

Conditions that the results need:

* *NoFeedback.* A choice member may depend on its choice, or on symbols below the
  choice, but not on a symbol that itself depends on the choice. Without this there
  may be no assignment that satisfies all definitions, although the dependencies
  have no cycle (`Witnesses.FeedbackHasNoSolution`). On choice-free configurations
  the condition holds by itself.
* *BoolClosed.* MODULES depends on bool symbols outside of choices only.
* *Firm.* A choice at y forgets the user's value when a visible member has none of
  its own. A choice that is not optional and acts as a bool keeps its value all the
  same, because it is selected by its visibility (`Meaning.ForcedFirm`). An optional
  choice falls to n at the next evaluation, and a tristate one with modules to m,
  optional or not, unless something else selects it; they may take an accepted value
  of another symbol with them (`Witnesses.LosesAcceptedValue`,
  `Witnesses.LosesToForcedChoice`).
* The comment above expr_trans_compare promises "A != n" for every expression; the
  code gives the rounded expression of `TransCompareIsRounded`, which differs for a
  negated symbol at m.

## Model

| member | source | states |
|---|---|---|
| Exprs.EvalLocal | openwrt_rel20260713/scripts/config/expr.c:1030-1102 | the value of an expression depends only on the values and pairwise comparisons of the symbols in it |
| Exprs.ComparesNumbers | openwrt_rel20260713/scripts/config/expr.c:1069-1102 | where two symbols compare as numbers do, =, !=, <, <=, > and >= are y exactly when they hold of the numbers |
| Transform.Transform | openwrt_rel20260713/scripts/config/expr.c:694-849 | re-entering after De Morgan and double negation terminates: the weight that charges a negation for its whole operand never grows |
| Transform.TransformPreserves | openwrt_rel20260713/scripts/config/expr.c:694-849 | the rewritten expression has the same tristate value under every consistent assignment |
| Transform.TransformNormalises | openwrt_rel20260713/scripts/config/expr.c:694-849 | in the result NOT sits only on non-constant symbols, and no bool symbol is compared for equality with n, m or y |
| Transform.NormalIsFixed | openwrt_rel20260713/scripts/config/expr.c:694-849 | an expression of that form is left alone |
| Transform.TransformIdempotent | openwrt_rel20260713/scripts/config/expr.c:694-849 | transforming twice is transforming once, and an expression is unchanged exactly when it already has the normal form |
| Transform.EliminateYnPreserves | openwrt_rel20260713/scripts/config/expr.c:316-397 | removing y and n operands keeps the value |
| Transform.EliminateYnExact | openwrt_rel20260713/scripts/config/expr.c:316-397 | no operand of AND or OR is y or n afterwards; the tree shrinks strictly if there was one and is unchanged otherwise |
| Transform.TransBoolKeepsNonNo | openwrt_rel20260713/scripts/config/expr.c:402-426 | on negation normal form the result is at most the input and n exactly when the input is n |
| Transform.TransBoolExact | openwrt_rel20260713/scripts/config/expr.c:402-426 | no test "!= n" of a tristate symbol is left, and without one nothing changes |
| Transform.TransBoolNeedsNegationNormal | openwrt_rel20260713/scripts/config/expr.c:402-426 | without negation normal form it is not: a negated comparison of a tristate symbol at m is a counterexample |
| Transform.TransCompareIsRounded | openwrt_rel20260713/scripts/config/expr.c:922-985 | the != n form has the value of the expression with bare symbols rounded from m to y; the = n form is its exact complement |
| Transform.TransCompareIsNonNo | openwrt_rel20260713/scripts/config/expr.c:922-985 | so it means "not n" when no bare symbol below a negation is m |
| Transform.TransCompareOfNegatedMod | openwrt_rel20260713/scripts/config/expr.c:908-985 | and it does not for the negation of a symbol that is m, against the comment above the function |
| Transform.RewriteMMeaning | openwrt_rel20260713/scripts/config/menu.c:79-106 | the rewritten expression has the value of the original with m read as m && MODULES |
| Equality.StripEqualCommon | openwrt_rel20260713/scripts/config/expr.c:150-219 | what __expr_eliminate_eq removes is one common operand c of both sides: each side equals c op its residual |
| Equality.EliminateEqCommon | openwrt_rel20260713/scripts/config/expr.c:221-248 | the same for expr_eliminate_eq, across its two strippings and the following y/n elimination |
| Equality.EliminateEqStripsCommonPart | openwrt_rel20260713/scripts/config/expr.c:221-248 | there is one operator and one common part for all assignments at once |
| Equality.ExprEqSound | openwrt_rel20260713/scripts/config/expr.c:252-303 | expressions found equal have equal values everywhere; the mutual recursion with the stripping terminates |
| Equality.ExprEqImpliesEquivalent | openwrt_rel20260713/scripts/config/expr.c:252-303 | the same with null expressions |
| Equality.SupersetTestSound | openwrt_rel20260713/scripts/config/menu.c:459-468 | if stripping leaves y of the second expression, the first is at most the second everywhere |
| Matches.EqualToItself | openwrt_rel20260713/scripts/config/expr.c:150-303 | every expression is found equal to itself, whatever it contains |
| Matches.StripEqualOperands | openwrt_rel20260713/scripts/config/expr.c:150-219 | stripping removes from each chain the operands of the other, one occurrence for one, so no operand of one chain is left in the other; deciding constants stay |
| Matches.EqualChains | openwrt_rel20260713/scripts/config/expr.c:252-303 | two AND or OR chains of symbols, comparisons and their negations are found equal exactly when both are decided by a constant, or neither is and they have the same operands, in any order and grouping |
| Matches.EqualSwapped | openwrt_rel20260713/scripts/config/expr.c:252-303 | in particular a op b and b op a are |
| Matches.SupersetTestExact | openwrt_rel20260713/scripts/config/menu.c:459-468 | on conjunctions of such operands y is left of the second exactly when the first has all of its operands |
| Joins.JoinSound | openwrt_rel20260713/scripts/config/expr.c:431-594 | a join has the value of its two operands joined by the operator, for every branch of expr_join_or and expr_join_and |
| Joins.JoinNeverGrows | openwrt_rel20260713/scripts/config/expr.c:431-594 | a join is smaller than its operands and their operator together |
| Joins.JoinSame | openwrt_rel20260713/scripts/config/expr.c:436-437 | two operands that are the same join to it |
| Joins.TwoOfThree | openwrt_rel20260713/scripts/config/expr.c:431-594 | two tests of a tristate symbol against two of y, m, n join to the test against the third, under OR for = and under AND for != |
| Joins.SymbolAndTest | openwrt_rel20260713/scripts/config/expr.c:490-594 | a symbol joins with a test of itself against y, n or m under AND, in either order |
| Joins.ExcludedMiddle | openwrt_rel20260713/scripts/config/expr.c:431-488 | a bool symbol and its negation join to y under OR |
| Joins.JoinEqualUnequalExact | openwrt_rel20260713/scripts/config/expr.c:540-566 | the join of s='b' and s!='c' is right exactly when s does not equal both constants at once or they are the same constant |
| Joins.JoinNeedsDistinctConstants | openwrt_rel20260713/scripts/config/expr.c:540-566 | an assignment in which two constants compare equal to one symbol breaks it |
| Dups.JoinLeaves | openwrt_rel20260713/scripts/config/expr.c:631-658 | writing the unit into one slot and the join into the other keeps the value and the spine, does not grow the tree and leaves a constant operand |
| Dups.Eliminator.EliminateDups1 | openwrt_rel20260713/scripts/config/expr.c:596-659 | in place on two slots of one tree, which may coincide or lie above each other: value and spine kept, tree never larger, trans_count unchanged only if nothing was left to join |
| Dups.Eliminator.EliminateDups | openwrt_rel20260713/scripts/config/expr.c:664-686 | the fixed point loop terminates; the result is equivalent and no larger, nothing in it can be joined any more, no AND or OR in it has the same operand twice, negation normal form is kept, trans_count is restored |
| Symbols.DepGraph.RankedIsAcyclic | openwrt_rel20260713/scripts/config/symbol.c:1064-1145 | a ranked dependency graph has no cycle |
| Cycles.RefsAreDependencies | openwrt_rel20260713/scripts/config/symbol.c:1099-1145 | a symbol refers to exactly what its dir_dep, rev_dep and implied mention, the conditions of its properties other than choice, select and imply, and its default values unless it is a choice |
| Cycles.RankedOrCyclic | openwrt_rel20260713/scripts/config/symbol.c:1064-1216 | a finite graph is ranked or has a cycle |
| Cycles.UnrankedHasCycle | openwrt_rel20260713/scripts/config/symbol.c:1147-1182 | without a ranking that keeps feedback out of choices there is a cycle of such dependencies, steps from a member to its choice, and steps from a choice to what its members depend on |
| Cycles.RankedHasNoCycle | openwrt_rel20260713/scripts/config/symbol.c:1064-1145 | and with a ranking none of dependencies and steps from a member to its choice |
| Checker.Setting.PlacesRank | openwrt_rel20260713/scripts/config/symbol.c:1064-1216 | when everything is searched without a report, the finishing order ranks every symbol above all it depends on |
| Checker.DepChecker.FindOnStack | openwrt_rel20260713/scripts/config/symbol.c:975-1000 | the symbol that closed a cycle is always on the dependency stack, so the "unexpected recursive dependency error" is never printed |
| Checker.DepChecker.CheckExpr | openwrt_rel20260713/scripts/config/symbol.c:1064-1096 | the search of one expression |
| Checker.DepChecker.CheckSymDeps | openwrt_rel20260713/scripts/config/symbol.c:1099-1145 | the search of the dependencies, prompts and defaults of one symbol |
| Checker.DepChecker.CheckChoiceDeps | openwrt_rel20260713/scripts/config/symbol.c:1147-1182 | the search of a choice and its members, with their flags set and cleared |
| Checker.DepChecker.CheckDeps | openwrt_rel20260713/scripts/config/symbol.c:1184-1216 | one search: flags and stack restored, everything searched is finished, and what is reported is on the stack |
| Checker.CheckDependencies | openwrt_rel20260713/scripts/config/parser.tab.c:1964-1970 | with recursive_is_error clear nothing is ever reported; with it set, no report means that the dependency relation is ranked and has no cycle, and a report means that there is a cycle of dependencies, read off the properties, in which a choice may also stand for its members; a ranked graph without feedback into choices is never reported |
| Valuation.World.StepLocal | openwrt_rel20260713/scripts/config/symbol.c:302-444 | the plain definition of a value reads only values of lower rank |
| Valuation.SolutionUnique | openwrt_rel20260713/scripts/config/symbol.c:302-444 | on a ranked configuration at most one assignment satisfies all definitions |
| Valuation.SolutionExists | openwrt_rel20260713/scripts/config/symbol.c:302-444 | and one does |
| Evaluator.SymTable.CalcExpr | openwrt_rel20260713/scripts/config/expr.c:1030-1102 | evaluating an expression through the cache gives its value in the solution and leaves its symbols up to date |
| Evaluator.SymTable.CalcVisibility | openwrt_rel20260713/scripts/config/symbol.c:175-236 | visibility and the three dependencies are what the definition says; nothing else at or above this symbol moves |
| Evaluator.SymTable.CalcDefault | openwrt_rel20260713/scripts/config/symbol.c:83-93 | finds the first default whose condition is not n |
| Evaluator.SymTable.CalcLogical | openwrt_rel20260713/scripts/config/symbol.c:349-401 | the value of a bool or tristate symbol from choice, user, defaults, imply and select |
| Evaluator.SymTable.CalcString | openwrt_rel20260713/scripts/config/symbol.c:402-420 | the value of a string, int or hex symbol |
| Evaluator.SymTable.CalcChoice | openwrt_rel20260713/scripts/config/symbol.c:244-300 | the members are viewed, the choice forgets the user value exactly when a visible member has none of its own, and the pick is right |
| Evaluator.SymTable.SetAllChoiceValues | openwrt_rel20260713/scripts/config/confdata.c:1270-1288 | members without a user value are set to n, all other user values stay, and the choice is to be calculated again |
| Evaluator.SymTable.CalcNow | openwrt_rel20260713/scripts/config/symbol.c:323-443 | the part after the pending choice: the symbol, and MODULES with modules_val, come out right; a symbol without a type gets its name and nothing else happens |
| Evaluator.SymTable.CalcValue | openwrt_rel20260713/scripts/config/symbol.c:302-444 | terminates on every graph, cyclic or not (pending choices, then symbols not up to date, then the expression); on a good cache the symbol comes out with its value and the cache stays good |
| Evaluator.SymTable.ClearAllValid | openwrt_rel20260713/scripts/config/symbol.c:446-455 | after clearing and evaluating MODULES the cache agrees with the meaning of the configuration |
| Evaluator.SymTable.EvaluateAll | openwrt_rel20260713/scripts/config/symbol.c:302-455 | whatever the order of the calls, each gives the value of the plain definition, and all are up to date at the end |
| Evaluator.SymTable.EvaluateTwice | openwrt_rel20260713/scripts/config/symbol.c:277-286 | evaluating everything, clearing and evaluating everything again gives the same values exactly when every choice that forgets the user value is made y by its reverse dependency |
| Evaluator.SymTable.TristateWithinRange | openwrt_rel20260713/scripts/config/symbol.c:457-474 | accepts exactly the values in range for the visibility and reverse dependency that should hold |
| Evaluator.SymTable.SetTristateValue | openwrt_rel20260713/scripts/config/symbol.c:476-510 | for every symbol that MODULES does not depend on, choices and their members included: a refused value changes nothing; after an accepted new value the cache is right for the world that the flags then describe, and the value comes out exactly when no select forces the symbol against its own dependencies (and a choice at y finds a member), provided that the choices below that have forgotten the user value are kept at y by their reverse dependency; after y for a member every member that its choice sees has a user value, and if the choice was y it has one too and does not forget it; storing the value a symbol already has leaves the cache right exactly when that value does not exceed both visibility and selects |
| Evaluator.SymTable.StoreUser | openwrt_rel20260713/scripts/config/symbol.c:483-505 | what is stored: the value and its flag, and for a member set to y the pick of its choice and a user value for the choice and its visible members |
| Meaning.StoredExactly | openwrt_rel20260713/scripts/config/symbol.c:483-505 | flag by flag: the symbol, and for a member set to y its choice and the members whose visibility is not n, get a user value, nothing else does; only the value of the symbol and the pick of that choice change |
| Meaning.MemberCells | openwrt_rel20260713/scripts/config/symbol.c:271-286 | the cell of every member of an evaluated choice at y shows its visibility below the choice, also when the member itself has not been evaluated |
| Meaning.PickedStays | openwrt_rel20260713/scripts/config/symbol.c:491-503 | so a choice at y does not forget the user value after one of its members is set to y |
| Meaning.MembersKept | openwrt_rel20260713/scripts/config/symbol.c:491-507 | and it and its visible members still have one after everything has been evaluated |
| Meaning.EvaluatedAgain | openwrt_rel20260713/scripts/config/symbol.c:277-286 | the next evaluation gives the same values exactly when every choice that has forgotten is held at y by its reverse dependency |
| Meaning.RefusedValue | openwrt_rel20260713/scripts/config/symbol.c:457-474 | a refused value would not have come out, except the one to which selects hold a symbol that is no more visible than selected |
| Meaning.ModulesFirst | openwrt_rel20260713/scripts/config/symbol.c:434-437 | if MODULES depends on plain bool symbols only, every ranking can be changed to put these first |
| Meaning.StepAnyModules | openwrt_rel20260713/scripts/config/symbol.c:42-53 | the value of a plain bool symbol over symbols that are not m does not depend on modules_val |
| Meaning.MeaningExists | openwrt_rel20260713/scripts/config/symbol.c:302-455 | there is an assignment that satisfies all definitions with modules_val the value of MODULES |
| Meaning.MeaningUnique | openwrt_rel20260713/scripts/config/symbol.c:302-455 | and only one |
| Meaning.StaysUpToDate | openwrt_rel20260713/scripts/config/symbol.c:302-444 | evaluating any symbol keeps every up-to-date value right |
| Meaning.UsersKept | openwrt_rel20260713/scripts/config/symbol.c:277-286 | in an up-to-date cache every user value is still there but those of the evaluated choices at y that have a visible member without one |
| Meaning.NothingForgotten | openwrt_rel20260713/scripts/config/symbol.c:277-286 | without choices no user value is ever lost |
| Meaning.StepForgot | openwrt_rel20260713/scripts/config/symbol.c:277-286 | a choice that has forgotten the user value stays y when evaluated again exactly when its reverse dependency alone makes it y |
| Meaning.ForcedChoice | openwrt_rel20260713/scripts/config/menu.c:587-591 | a choice selected by its visibility up to m is y by its reverse dependency exactly if it acts as a bool or is selected to y besides |
| Meaning.ForcedFirm | openwrt_rel20260713/scripts/config/menu.c:587-591 | so when all choices that have forgotten are of that kind and act as bools, no lower value moves |
| Meaning.TristateDrops | openwrt_rel20260713/scripts/config/menu.c:587-591 | while a tristate choice with modules, selected to m only, goes from y to m |
| Meaning.LowerStays | openwrt_rel20260713/scripts/config/symbol.c:476-510 | after setting a value everything of lower rank keeps its value exactly when all choices that have forgotten theirs are of that kind |
| Meaning.AcceptedValue | openwrt_rel20260713/scripts/config/symbol.c:357-390 | the accepted value is the value after re-evaluation if and only if not both the direct dependency is n and a reverse dependency is not; a member set to y below a choice at y becomes y |
| Meaning.BoundedMember | openwrt_rel20260713/scripts/config/menu.c:317-325 | a member whose conditions are bounded by its choice can only be set to y when the choice is y |
| Meaning.OwnValue | openwrt_rel20260713/scripts/config/symbol.c:476-510 | storing the current value keeps the cache right exactly when re-evaluation would give that value: a default may exceed the visibility |
| Choices.PickIsVisible | openwrt_rel20260713/scripts/config/symbol.c:244-300 | a choice finds a member exactly when one is visible, and finds a visible one |
| Choices.ChoiceStaysYes | openwrt_rel20260713/scripts/config/symbol.c:423-425 | a choice that would be y stays y exactly when a member is visible from it |
| Choices.BoolMember | openwrt_rel20260713/scripts/config/symbol.c:353-355 | a bool member without defaults is y exactly when it is visible and picked |
| Choices.ExactlyOneMember | openwrt_rel20260713/scripts/config/symbol.c:244-300 | a bool choice at y has exactly one member at y: the visible user pick, else the first applicable visible default, else the first visible member |
| ValueLaws.VisibleIsLargest | openwrt_rel20260713/scripts/config/symbol.c:180-205 | outside of choices the visibility is the largest of the prompt conditions, with m read as y unless the symbol is tristate and there are modules |
| ValueLaws.MemberVisibleAtYes | openwrt_rel20260713/scripts/config/symbol.c:186-199 | a tristate member of a choice at y is visible only by a condition that is y |
| ValueLaws.SelectLimits | openwrt_rel20260713/scripts/config/symbol.c:383-387 | a reverse dependency is a lower limit, unless the direct dependency is n: then the symbol is n |
| ValueLaws.ImplyLimits | openwrt_rel20260713/scripts/config/symbol.c:376-387 | an imply is a lower limit up to the direct dependency for symbols that the user has not set |
| ValueLaws.UserValueHolds | openwrt_rel20260713/scripts/config/symbol.c:357-366 | a visible symbol that nothing selects has the value of the user, up to its visibility |
| ValueLaws.DefaultHolds | openwrt_rel20260713/scripts/config/symbol.c:369-375 | a symbol that nobody sets, selects or implies has its first default whose condition is not n, up to that condition, or is n |
| ValueLaws.ChoiceUnset | openwrt_rel20260713/scripts/config/symbol.c:357-387 | a choice that nobody sets or selects is n, whatever its defaults |
| ValueLaws.TextHolds | openwrt_rel20260713/scripts/config/symbol.c:392-408 | a visible string, int or hex symbol has the text of the user, else that of the symbol of its first default that applies |
| ValueLaws.UserPick | openwrt_rel20260713/scripts/config/symbol.c:288-291 | a choice at y picks the member of the user while it is visible |
| ValueLaws.DefaultPick | openwrt_rel20260713/scripts/config/symbol.c:244-257 | else the first visible member that an applicable default offers |
| ValueLaws.FirstPick | openwrt_rel20260713/scripts/config/symbol.c:259-265 | else its first visible member |
| ValueLaws.ForgetsExactly | openwrt_rel20260713/scripts/config/symbol.c:271-286 | a choice at y forgets the user value exactly when a visible member has none |
| Configuring.SolutionConsistent | openwrt_rel20260713/scripts/config/expr.c:1066-1102 | the values of a solution are a consistent assignment: the rewriter may assume what it assumes |
| Configuring.RewritingKeepsMeaning | openwrt_rel20260713/scripts/config/menu.c:335-338 | rewriting a condition with expr_transform does not change its value in the configuration |
| Configuring.CheckThenEvaluate | openwrt_rel20260713/scripts/config/parser.tab.c:1964-1971 | without choices, or without feedback into them: the check reports nothing exactly when the dependencies are ranked, and then there is exactly one meaning, and every evaluation in any order gives its values |
| Symbols.DepGraph.AugmentedRanks | openwrt_rel20260713/scripts/config/symbol.c:1147-1182 | a ranking without feedback into choices is a ranking of the graph in which a choice also refers to what its members refer to |
| Witnesses.LosesAcceptedValue | openwrt_rel20260713/scripts/config/symbol.c:277-286 | a run in which setting a symbol is accepted and the symbol is n afterwards, because an optional choice below it had forgotten the user value |
| Witnesses.LosesToForcedChoice | openwrt_rel20260713/scripts/config/menu.c:587-591 | the same for a tristate choice that is not optional: the accepted y comes out as m |
| Witnesses.FeedbackRanked | openwrt_rel20260713/scripts/config/symbol.c:1147-1182 | dependencies without a cycle may still feed back into a choice |
| Witnesses.FeedbackHasNoSolution | openwrt_rel20260713/scripts/config/symbol.c:244-300 | and then no assignment at all satisfies the definitions |
| MenuTrees.FlatPreorder | openwrt_rel20260713/scripts/config/menu.c:554-563 | flattening keeps the depth-first order |
| MenuTrees.FlatPrompted | openwrt_rel20260713/scripts/config/menu.c:554-563 | and leaves no node with children but without a prompt |
| MenuTrees.ReparentStep | openwrt_rel20260713/scripts/config/menu.c:555-559 | one turn of the loop that gives the children a new parent |
| MenuTrees.SpliceStep | openwrt_rel20260713/scripts/config/menu.c:560-562 | the three assignments put the children of a node behind it |
| MenuTrees.TakeEnd | openwrt_rel20260713/scripts/config/menu.c:477-481 | the three assignments that turn the taken siblings into the list of the node |
| MenuDeps.WantedIsValue | openwrt_rel20260713/scripts/config/menu.c:329-347 | the condition of a node has the value of the minimum of its own and all its ancestors' declared conditions |
| MenuDeps.TopsThenBelow | openwrt_rel20260713/scripts/config/menu.c:330-411 | propagating to all children and then finalising them one by one reaches every node below |
| MenuLaws.ChildCondition | openwrt_rel20260713/scripts/config/menu.c:317-347 | the condition of a node is the minimum of its own, with m read as m && MODULES, and that of the node above it, where a choice stands for its symbol |
| MenuLaws.PropertyCondition | openwrt_rel20260713/scripts/config/menu.c:358-372 | the condition of a property is the minimum of its own and that of its node; for symbols that are not tristate it is at most that and n in the same cases |
| MenuSelects.AddPropVal | openwrt_rel20260713/scripts/config/menu.c:386-400 | a select or imply raises the reverse dependency by the minimum of the selecting symbol and the condition |
| MenuSelects.ChildrenAdded | openwrt_rel20260713/scripts/config/menu.c:386-411 | what all nodes below a node contribute is added, each once |
| MenuSelects.OwnAdded | openwrt_rel20260713/scripts/config/menu.c:483-591 | and what the node itself adds for its own symbol: its condition to dir_dep if it has no children, and visibility && m to rev_dep of a choice that is not optional |
| MenuSelects.ForcedAtLeast | openwrt_rel20260713/scripts/config/menu.c:587-591 | the reverse dependency of a choice that is not optional is at least its visibility, up to m |
| MenuReverse.AllCounted | openwrt_rel20260713/scripts/config/menu.c:386-592 | read off the properties: rev_dep of a symbol is missing when no property selects it and no choice forces it, and else is the largest of the selecting symbols with their conditions; implied the same with the implies, dir_dep with the conditions of the childless nodes |
| MenuReverse.SelectedBelow | openwrt_rel20260713/scripts/config/menu.c:391-394 | each select is at most the reverse dependency of its target, each forced choice at most its own |
| MenuReverse.SelectedReached | openwrt_rel20260713/scripts/config/menu.c:391-394 | and one of them, or what was there before, reaches it |
| MenuReverse.ImpliedBelow | openwrt_rel20260713/scripts/config/menu.c:395-399 | each imply is at most implied of its target |
| MenuReverse.ImpliedReached | openwrt_rel20260713/scripts/config/menu.c:395-399 | and one of them, or what was there before, reaches it |
| MenuChoices.LimitValue | openwrt_rel20260713/scripts/config/menu.c:502-517 | a condition limited by "choice = y" is n unless the choice is y, and as before otherwise |
| MenuChoices.LimitedChild | openwrt_rel20260713/scripts/config/menu.c:485-524 | a child of a choice in the finished menu is limited exactly if the choice is tristate and it is not |
| MenuChoices.UnlimitedElsewhere | openwrt_rel20260713/scripts/config/menu.c:485-524 | any other node is not |
| MenuChoices.MembersInOrder | openwrt_rel20260713/scripts/config/menu.c:518-524 | the values of a choice are the symbols of its children in the finished menu, in its order |
| MenuChoices.ValuesPartition | openwrt_rel20260713/scripts/config/menu.c:485-524 | every choice value is a value of exactly one choice, and only once |
| MenuChoices.ConditionsBounded | openwrt_rel20260713/scripts/config/menu.c:317-372 | the property conditions of a declared child of a choice are at most the choice, and n unless it is y when they are limited |
| MenuShapes.ShapedOrder | openwrt_rel20260713/scripts/config/menu.c:406-564 | the recursive description of the finished menu implies the depth-first order, and that children without a prompt have none |
| MenuShapes.GrownMore | openwrt_rel20260713/scripts/config/menu.c:406-411 | one more tree, with the siblings it took, extends what has grown |
| Menu.Conjoin | openwrt_rel20260713/scripts/config/menu.c:335-338 | the result means inherited && own with m read as m && MODULES, and is in negation normal form |
| Menu.TransBoolInherits | openwrt_rel20260713/scripts/config/menu.c:366-371 | for symbols that are not tristate the prompt condition stays n exactly when it was |
| MenuShapes.DependsNeedsSymbol | openwrt_rel20260713/scripts/config/expr.c:879-906 | an expression that depends on a symbol is n whenever the symbol is |
| MenuShapes.DependsIsOperand | openwrt_rel20260713/scripts/config/expr.c:879-906 | an expression depends on a symbol exactly when an operand of its conjunction is the symbol, or the test that it is y, is m, or is not n |
| MenuShapes.ContainsIsMember | openwrt_rel20260713/scripts/config/expr.c:851-877 | the test finds exactly the symbols that occur |
| Menu.JoinsSubmenu | openwrt_rel20260713/scripts/config/menu.c:443-469 | a sibling joins only if its condition mentions the symbol and depends on it or, simplified and stripped, leaves nothing of the condition of the symbol, and is then never weaker; it is refused only if it does not mention the symbol, or does not depend on it and something is left |
| Menu.MenuTree.Propagate | openwrt_rel20260713/scripts/config/menu.c:334-384 | one child inherits: its condition, all its properties, and its selects and implies |
| Menu.MenuTree.Reparent | openwrt_rel20260713/scripts/config/menu.c:555-559 | only parent links change, and the last child is found |
| Menu.MenuTree.Flatten | openwrt_rel20260713/scripts/config/menu.c:485-564 | the children are the flattened ones, order kept, parents consistent, no child without prompt keeps children; the children of a choice are made its values in order; nothing else touched |
| Menu.MenuTree.ChooseOne | openwrt_rel20260713/scripts/config/menu.c:486-525 | one child: in a choice a symbol that is not a choice value becomes one, and is limited to the choice being y when the choice is tristate and it is not |
| Menu.MenuTree.FinalizeKids | openwrt_rel20260713/scripts/config/menu.c:406-411 | the children are finalised in order while they take siblings from the same list |
| Menu.MenuTree.TakeSiblings | openwrt_rel20260713/scripts/config/menu.c:435-481 | the taken siblings are the first ones, in order, each finalised, and each belongs to the symbol; the first that is left behind is refused |
| Menu.MenuTree.Finalize | openwrt_rel20260713/scripts/config/menu.c:285-592 | depth-first order kept, each node finalised once and in that order, parent links consistent, the resulting shape as described by recursion, conditions inherited, selects, direct dependencies and the reverse dependency of non-optional choices recorded, choice values collected; only the node, its descendants and the taken siblings are touched |
| MenuWalk.Advance | openwrt_rel20260713/scripts/config/confdata.c:992-1001 | the next node is the next sibling of the closest node on the way up that has one |
| MenuWalk.Walk | openwrt_rel20260713/scripts/config/confdata.c:958-1003 | the link-chasing walk ends and visits every node once, in depth-first order |
| MenuWalk.FinalizeAndWalk | openwrt_rel20260713/scripts/config/menu.c:285-592 | for the whole menu: finalised and visited once each in the declared order, in the described shape; every condition is the minimum over its ancestors, and n below a tristate choice that is not y for values that are not tristate; rev_dep of a symbol is the largest of its selects and, for a choice, of its forced visibility, implied the largest of its implies, dir_dep the largest of the conditions of its childless nodes, and each is missing when there is none |
| Bytes.ZeroCountSmallest | openwrt_rel20260713/scripts/mkhash.c:571-588 | the number of zero bytes is the smallest that leaves room for the length |
| Fips180.WordRoundTrip | openwrt_rel20260713/scripts/mkhash.c:98-133 | decoding the four bytes of a word gives the word |
| Fips180.ConstantsAreCubeRoots | openwrt_rel20260713/scripts/mkhash.c:462-479 | the round constants are the first 32 bits of the fractional parts of the cube roots of the first 64 primes |
| FipsExample.DigestOfAbc | openwrt_rel20260713/scripts/mkhash.c:450-562 | the definition gives "abc" the digest published with FIPS 180, through all words of the schedule and all 64 rounds |
| Sha256.ChAgrees | openwrt_rel20260713/scripts/mkhash.c:450 | the Ch macro is the Ch function of FIPS 180-4 |
| Sha256.MajAgrees | openwrt_rel20260713/scripts/mkhash.c:451 | the Maj macro is the Maj function of FIPS 180-4 |
| Sha256.DecodeAgrees | openwrt_rel20260713/scripts/mkhash.c:118-133 | be16dec and be32dec read big-endian words |
| Sha256.RoundAgrees | openwrt_rel20260713/scripts/mkhash.c:489-493 | the two updated cells of the round macro are the new a and e of a round of section 6.2.2 |
| Sha256.ViewTurned | openwrt_rel20260713/scripts/mkhash.c:495-501 | with rotating indices the other six variables move on without being written |
| Sha256.Context.Rnd | openwrt_rel20260713/scripts/mkhash.c:495-501 | one RNDr is one round on the variables read through the rotation |
| Sha256.Context.Msch | openwrt_rel20260713/scripts/mkhash.c:503-505 | one MSCH is the next word of the message schedule |
| Sha256.Context.Transform | openwrt_rel20260713/scripts/mkhash.c:458-562 | the block function, with the schedule computed sixteen words at a time, is the compression of section 6.2.2 |
| Sha256.Context.PadMessage | openwrt_rel20260713/scripts/mkhash.c:571-599 | the state absorbs the message padded as in section 5.1.1 |
| Sha256.Context.Update | openwrt_rel20260713/scripts/mkhash.c:620-657 | state, buffer and counter stand for the concatenation of all input so far |
| Sha256.Context.Final | openwrt_rel20260713/scripts/mkhash.c:663-675 | the digest of all input; the context is cleared |
| Sha256.HashChunks | openwrt_rel20260713/scripts/mkhash.c:601-675 | any sequence of updates gives the FIPS 180-4 digest of the concatenation |
| Rfc1321.WordRoundTrip | openwrt_rel20260713/scripts/mkhash.c:173-184 | words are stored with the low-order byte first |
| Rfc1321Example.DigestOfAbc | openwrt_rel20260713/scripts/mkhash.c:195-299 | the definition gives "abc" the digest of appendix A.5 of RFC 1321, through all 64 operations |
| Md5.CodeF | openwrt_rel20260713/scripts/mkhash.c:151 | the optimised F is the F of section 3.4 of RFC 1321 |
| Md5.CodeG | openwrt_rel20260713/scripts/mkhash.c:152 | the optimised G is the G of section 3.4 of RFC 1321 |
| Md5.Apply | openwrt_rel20260713/scripts/mkhash.c:160-163 | STEP is one operation of RFC 1321 |
| Md5.FourSteps | openwrt_rel20260713/scripts/mkhash.c:212-286 | four operations write the four registers once and put them back into their roles |
| Md5.Round1 | openwrt_rel20260713/scripts/mkhash.c:211-227 | the sixteen steps of round 1 |
| Md5.Round2 | openwrt_rel20260713/scripts/mkhash.c:229-245 | the sixteen steps of round 2 |
| Md5.Round3 | openwrt_rel20260713/scripts/mkhash.c:247-263 | the sixteen steps of round 3 |
| Md5.Round4 | openwrt_rel20260713/scripts/mkhash.c:265-281 | the sixteen steps of round 4 |
| Md5.CountersAdd | openwrt_rel20260713/scripts/mkhash.c:318-326 | hi * 2^29 + lo is the byte count modulo 2^61 after every call |
| Md5.LengthBytes | openwrt_rel20260713/scripts/mkhash.c:373-381 | the eight length bytes are the bit count modulo 2^64 |
| Md5.Context.Hash | openwrt_rel20260713/scripts/mkhash.c:318-351 | registers, buffer and counters stand for the concatenation of all input so far |
| Md5.Context.End | openwrt_rel20260713/scripts/mkhash.c:353-402 | the digest of all input; the context is cleared |
| Md5.HashChunks | openwrt_rel20260713/scripts/mkhash.c:306-402 | any chunking gives the RFC 1321 digest of the concatenation |
| Printing.PrintThenParse | openwrt_rel20260713/scripts/config/expr.c:1104-1228 | parsing what was printed gives the expression with its AND and OR chains leaning to the left |
| Printing.LeftAssocOperands | openwrt_rel20260713/scripts/config/parser.tab.c:1665-1707 | reassociation keeps the operands of every chain in their order |
| Printing.LeftAssocValue | openwrt_rel20260713/scripts/config/parser.tab.c:1700-1707 | and the value under every assignment |
| Printing.PrintedValue | openwrt_rel20260713/scripts/config/expr.c:1138-1143 | so a printed condition reads back with the same value, the null condition too |
| Printing.TokensPrinted | openwrt_rel20260713/scripts/config/expr.c:1104-1228 | each AND prints one && and each OR one ||, and there are parentheses only around an OR below an AND and a chain below a NOT |
| Printing.AndBeforeOr | openwrt_rel20260713/scripts/config/parser.y:86-87 | AND binds tighter than OR |
| Printing.NotBeforeBoth | openwrt_rel20260713/scripts/config/parser.y:86-90 | and NOT tighter than both |
| Macros.ClauseBalanced | openwrt_rel20260713/scripts/config/preprocess.c:470-490 | the clause of a reference has balanced parentheses in every prefix |
| Macros.JoinTokens | openwrt_rel20260713/scripts/config/preprocess.c:369-402 | the parts of a clause joined by commas give the clause back |
| Macros.TokensJoined | openwrt_rel20260713/scripts/config/preprocess.c:369-402 | parts without commas and parentheses, joined by commas, are found again |
| Macros.TokensInside | openwrt_rel20260713/scripts/config/preprocess.c:369-402 | commas between parentheses do not split |
| Macros.BumpSpends | openwrt_rel20260713/scripts/config/preprocess.c:251-277 | an expansion spends one of the sum over the variables of 1001 - exp_count |
| Macros.NoReferences | openwrt_rel20260713/scripts/config/preprocess.c:498-540 | a text without references expands to itself |
| Macros.PlainFront | openwrt_rel20260713/scripts/config/preprocess.c:498-540 | a front part without references passes through |
| Macros.SelfReference | openwrt_rel20260713/scripts/config/preprocess.c:258-262 | a variable under expansion cannot be referred to without arguments |
| Macros.Positional | openwrt_rel20260713/scripts/config/preprocess.c:346-365 | a reference to the number k is the k-th argument, counted from 1 |
| Macros.CallGivesArgument | openwrt_rel20260713/scripts/config/preprocess.c:251-440 | a call of a recursive variable whose value is a reference to the number k gives the k-th argument of the call |
| Macros.Expander.SplitClause | openwrt_rel20260713/scripts/config/preprocess.c:365-410 | the nesting counter never goes below zero; the tokens are the parts between top-level commas, refused beyond sixteen |
| Macros.Expander.ExpandDollar | openwrt_rel20260713/scripts/config/preprocess.c:456-491 | finds the closing parenthesis and evaluates the clause, or reports that it is missing |
| Macros.Expander.EvalClause | openwrt_rel20260713/scripts/config/preprocess.c:346-440 | an argument, or the name and arguments expanded and applied |
| Macros.Expander.VariableExpand | openwrt_rel20260713/scripts/config/preprocess.c:251-277 | the count goes up for the expansion only |
| Macros.Expander.EnvExpand | openwrt_rel20260713/scripts/config/preprocess.c:64-88 | remembered environment variables answer as getenv did |
| Macros.Expander.ExpandString | openwrt_rel20260713/scripts/config/preprocess.c:498-555 | expansion always ends, with the text or error that the definition by contexts gives, and on success leaves every exp_count as it was |
| Escape.EscapedSize | openwrt_rel20260713/scripts/config/confdata.c:656-668 | the size of the first pass |
| Escape.QuotedLength | openwrt_rel20260713/scripts/config/confdata.c:656-668 | each quote and backslash costs one more character, and nothing else does |
| Escape.EscapeStringValue | openwrt_rel20260713/scripts/config/confdata.c:649-689 | the second pass never writes beyond the buffer and fills it exactly |
| Escape.QuotedUnescapes | openwrt_rel20260713/scripts/config/confdata.c:649-689 | reading what was written gives the string back, whatever follows |
| Escape.UnescapeInPlace | openwrt_rel20260713/scripts/config/confdata.c:253-270 | the in-place loop yields the text up to the closing quote, a backslash standing for the next character, or fails |
| Escape.RoundTrip | openwrt_rel20260713/scripts/config/confdata.c:253-275 | every string without NUL survives being written and read |

## Left out

- Node identity of the rewriting passes other than expr_eliminate_dups: expr_transform, expr_eliminate_yn, expr_eliminate_eq and expr_trans_bool are models on values; which nodes they reuse or free is not modelled.
- E_LIST and E_RANGE expressions, and expr_trans_compare with a symbol other than n (menu_finalize only passes n).
- Evaluator.SymTable.CalcValue: range clamping (sym_validate_range) and the flags SYMBOL_WRITE and SYMBOL_CHANGED are not modelled, because no value depends on them except through ranges of int and hex symbols; a state with pending choices (SYMBOL_NEED_SET_CHOICE_VALUES) is covered by termination only: what is read of a pending choice right after its evaluation was calculated before its values were set.
- Evaluator.SymTable.SetTristateValue: symbols that MODULES depends on; and for a member set to y nothing is predicted when its choice is not y, which needs a member that is not bounded by its choice (Meaning.BoundedMember).
- Valuation.World.StepLocal: symbols are never redefined during evaluation; the defaults of a choice and the user's pick are members, and every member has a prompt whose condition mentions the choice, as menu_finalize and the parser arrange.
- Checker.CheckDependencies: the text of the error messages, and P_RANGE expressions, which the source does not search either.
- Menu.MenuTree.Finalize: inferring types inside a choice and all warnings are not modelled; types are those after inference, and which choices get theirs late is given.
- Configuring.CheckThenEvaluate: the configuration is not built from the finished menu; what the menu provides for it is stated piecewise (MenuChoices.ValuesPartition, MenuChoices.ConditionsBounded, MenuSelects.ForcedAtLeast).
- MenuChoices.LimitedChild: stated for symbols that are declared at one place and for choices that have a prompt, as they must; for others the collected groups of FinalizeAndWalk say which place comes first.
- MenuWalk.Walk: what is printed at each node, and the end-of-menu comments.
- Menu visibility (menu_is_visible), `visible if`, and the front ends.
- Printing.PrintThenParse: tokens carry the symbol; a constant is printed without its quotes and a nameless choice as "<choice>", so their text alone would not read back as the same symbol. The LALR tables and the lexer are replaced by the precedence grammar.
- Macros.Expander.ExpandString: variable_add, expand_one_token and the trimming of shell output.
- Escape.RoundTrip: int, hex, bool and tristate values of .config lines, and the unescaped auto.conf.
- Sha256.HashChunks: for inputs of 2^64 bits or more, which FIPS 180-4 does not define, the length block holds the length modulo 2^64 as in the code.
- Md5.Round1: the uses of STEP are written in groups of four; the big-endian variant of SET is not modelled.
- File and socket input of mkhash, hex output, and all other scripts of the repository.
