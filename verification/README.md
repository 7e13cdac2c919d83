# A verified model of the Kconfig engine, the patch tool and two kernel shims

This project models the parts of the repository whose correctness is not visible from
reading one function, and proves what they promise.

**The Kconfig engine (`backport/kconf`).** Symbols take the values n < m < y; `&&` is the
minimum, `||` the maximum, `!x` is 2 - x (`Exprs.dfy`). A comparison is that of the numbers
or strings its symbols spell (`Comparisons.dfy`).

- *Optimiser.* The equality test by elimination (`Equality.dfy`), the joining of operands
  (`Joins.dfy`), duplicate removal (`Leaves.dfy`, `Dedup.dfy`), negation normal form, the
  bool and comparison rewrites (`Transform.dfy`), and the pipeline that menus run
  (`Pipeline.dfy`). Each rewriter keeps the value at every valuation the evaluator can
  produce. Duplicate removal also exists as it is written, on one tree updated through two
  slots that may be nested or equal (`Slots.dfy`, `DedupInPlace.dfy`), and the rewriters
  that overwrite nodes through pointers exist on linked nodes (`ExprNodes.dfy`). Which trees
  the equality test takes for equal is said without it (`EqualTrees.dfy`), and so is what
  duplicate removal takes away and what it leaves (`Redundancy.dfy`).
- *Evaluator.* The equations of a symbol table (`SymTable.dfy`), that an acyclic table has
  exactly one solution (`Solutions.dfy`), what solutions satisfy (`Consequences.dfy`), what
  each value in them is by the symbol's own properties (`SolutionFacts.dfy`), and the
  memoised evaluator, which computes that solution in whatever order it is asked
  (`EvalState.dfy`, `Evaluator.dfy`). `DepCheck.dfy` is the two-colour search for cycles.
- *Menus.* What `menu_finalize` makes of the tree, as a function with its laws
  (`MenuTree.dfy`), what the finalised expressions mean in terms of what was written
  (`MenuMeaning.dfy`), what they come to in the evaluator (`MenuTable.dfy`), which
  siblings move into an automatic submenu (`Submenus.dfy`), and the pointer program that does
  it in place (`MenuFinalize.dfy`).
- *Configuration file.* The quoting printer and the in-place reader (`Escape.dfy`), files as
  lines (`TextLines.dfy`), the meaning of a line and of a file (`Conf.dfy`), what a line stores
  by what it spells and how the members' lines decide a choice (`ConfFacts.dfy`), the reader
  on its line buffer (`ConfReader.dfy`), and the walk without a stack that writes the file (`ConfWriter.dfy`).

The bridge between the halves: the optimiser is sound on the valuations `Produced`
describes (constants have their value, a bool is never m, strings follow the values), and
these are exactly the valuations that solutions give (`Consequences.SolutionProduced`,
`Consequences.ProducedArises`).

**Patches (`lib/patch.py`, `lib/splitpatch.py`).** The flag-driven parser of unified diffs
and the printer it inverts (`PatchTypes.dfy`, `PatchParse.dfy`), the forms in which patches
are written and how they are read (`PatchForms.dfy`), what becomes of damaged ones
(`PatchErrors.dfy`), applying hunks to a stream and recognising a patched file
(`PatchApply.dfy`, `PatchPlaces.dfy`), and the line ends of the output (`PatchEnds.dfy`). Ranges follow the unified format of
IEEE Std 1003.1-2017, Shell & Utilities, `diff`, section "Diff -u or -U Output Format".

**Kernel shims (`backport/compat`).** The scatter-gather copy (`ScatterGather.dfy`) and the
`wait_woken` handshake (`WaitWoken.dfy`).

## Findings

Where a promise does not hold of the code as written, the model keeps the code, a lemma
gives an input, and another says exactly when the promise holds.

- Two constants may be the same tristate under two names (`'0'` and `n`), which breaks the
  rule `a='b' && a!='c' -> a='b'`: input `Joins.JoinNumeralCounterexample` and, for the whole
  function, `Dedup.EliminateDupsNumeralCounterexample`; condition `Joins.JoinConstsExact`.
- Changing the operator negates a comparison exactly for symbols that can be ordered: input
  `Transform.NegatedCmpCounterexample`, condition `Transform.NegatedCmpExact`.
- `FOO!=n -> FOO` and the comparison rewrite, below a negation, are right exactly where the
  negated operand is not m: inputs `Transform.TransBoolCounterexample` and
  `Transform.TransCompareCounterexample`, conditions `Transform.TransBoolNotExact` and
  `Transform.TransCompareNotExact`.
- A choice member that is not visible can still be y by its own default: input
  `Consequences.ChoiceNotExclusive`; exactly one member is y under the condition of
  `Consequences.ChoiceExclusive`.
- Evaluating a choice drops its user mark when a visible member was never set, and a setting
  accepted before that can be lost: input `Consequences.AcceptedSettingLost`. For the marks
  that evaluation left, `Consequences.SettingOutcome` gives the value after a setting exactly,
  and `Consequences.AcceptedSettingHonoured` says when an accepted one is kept.
- A bool member of a tristate choice that is m can be set to y, is accepted, and stays n, if
  a second location shows it: input `Consequences.MemberSettingLost`. The choice takes the
  member up exactly under the condition of `Consequences.MemberOutcome`; a choice that is y
  always does.
- The cycle search does not follow implies, so it can be silent where evaluation depends on
  the order: input `DepCheck.ImplyLoopUndetected`. `DepCheck.EvaluationOrderExact` says for
  which tables evaluation is ordered; a search that also followed direct dependencies and
  implies would be enough (`DepCheck.SilentCheckOneSolution`).
- A menu titled like an unset symbol is read back from its comment as a setting: input
  `Conf.TitleReadAsSetting`, condition `Conf.CommentIgnored`.
- `patch_stream` puts a hunk without source lines (a diff without context that only adds)
  one line too early: input `PatchApply.InsertedTooEarly`, condition
  `PatchApply.StreamedReplaces`.
- `expr_eq` promises that two expressions are equal if every operand of one equals some
  operand of the other; the code also counts them: input `EqualTrees.RepeatedNotEqual`,
  condition `EqualTrees.EqualExactly`.

The code and its comments differ in one more place that matters here: the comment above
`expr_trans_bool` speaks of a bool `FOO`, the code tests for a tristate. The model follows
the code.

## Model

| member | source | states |
|---|---|---|
| Exprs.EqualityByMeaning | backport/kconf/expr.c:991-1104 | comparing a bool or tristate with an untyped constant, through number parsing and string comparison, tests whether its value is the letter or number the constant spells |
| Exprs.EqualityWithTri | backport/kconf/expr.c:1026-1104 | comparison with y, m or n tests exactly that value |
| Comparisons.NumbersCompared | backport/kconf/expr.c:991-1104 | decimal and hexadecimal numerals are compared as numbers: each of the six operators gives y exactly when the numbers stand in its relation |
| Comparisons.TristatesCompared | backport/kconf/expr.c:1026-1104 | bools and tristates are compared by their values, for all six operators |
| Comparisons.StringsCompared | backport/kconf/expr.c:1048-1104 | two string symbols are compared by the first place where they differ |
| Comparisons.WordsCompared | backport/kconf/expr.c:1048-1104 | so are two symbols of which one has a string that is no number |
| Equality.EliminateYnSound | backport/kconf/expr.c:308-389 | dropping y and n operands keeps the value at every produced valuation |
| Equality.EliminateYnSize | backport/kconf/expr.c:308-389 | it shrinks the tree exactly when a y or n operand stands under a conjunction or disjunction, changes nothing otherwise, and leaves none |
| Equality.EliminateEq1Factors | backport/kconf/expr.c:149-189 | one elimination phase splits both trees into a common factor and the reduced trees |
| Equality.EliminateEqReflects | backport/kconf/expr.c:220-240 | whatever order holds between the reduced trees at a valuation held between the originals, across the conjunction phase, the disjunction phase and their combination |
| Equality.ExprEqSound | backport/kconf/expr.c:251-295 | trees found equal have equal values at every produced valuation; the mutual recursion terminates |
| EqualTrees.EqualExactly | backport/kconf/expr.c:251-295 | on trees without y and n operands the test is an equivalence that takes atoms for equal only to themselves, and two levels exactly if every operand occurs as often in the one as in the other |
| EqualTrees.PermutedEqual | backport/kconf/expr.c:251-295 | the same operands in any order and grouping make equal levels |
| EqualTrees.SwappedEqual | backport/kconf/expr.c:251-295 | swapping the operands of a conjunction or disjunction gives an equal tree |
| EqualTrees.RepeatedNotEqual | backport/kconf/expr.c:242-247 | A && A && B and A && B && B are not found equal, though every operand of either equals one of the other |
| Equality.ReducedToYesImplies | backport/kconf/menu.c:472-483 | if elimination leaves y on the right, the left expression implies the right one |
| Joins.JoinOrSound | backport/kconf/expr.c:423-485 | joining two operands of a disjunction keeps their maximum |
| Joins.JoinAndSound | backport/kconf/expr.c:487-579 | joining two operands of a conjunction keeps their minimum, for constants limited to y, m and n |
| Joins.JoinSound | backport/kconf/expr.c:423-579 | both joins keep the value of the two operands taken together |
| Joins.JoinShape | backport/kconf/expr.c:423-579 | a join returns its first operand or an atom, and never introduces another constant |
| Joins.JoinConstsExact | backport/kconf/expr.c:531-545 | the rule for one equality and one inequality keeps the value at all valuations if and only if the two constants do not mean the same tristate |
| Joins.JoinNumeralCounterexample | backport/kconf/expr.c:531-545 | A='0' && A!='n' is n where A is n, its joined form is y |
| Redundancy.JoinedExactly | backport/kconf/expr.c:423-579 | two operands are joined if and only if they are equal or are one of the listed pairs of conditions on a symbol that one condition replaces |
| Dedup.PassSound | backport/kconf/expr.c:588-643 | a pass that compares a tree's operands against the same tree while replacing them keeps the value |
| Dedup.PassMarks | backport/kconf/expr.c:588-643 | a pass that joined something leaves a y or n operand under a conjunction or disjunction |
| Dedup.PassQuiet | backport/kconf/expr.c:588-643 | a pass that joined nothing changed nothing, and no two operands of any level could be joined in either order; which could be is said by Redundancy.JoinedExactly |
| Dedup.EliminateDupsSound | backport/kconf/expr.c:656-678 | duplicate removal keeps the value of every clean expression at every produced valuation |
| Dedup.EliminateDupsSettles | backport/kconf/expr.c:656-678 | it terminates in a fixpoint: nothing can be joined at any level (see Redundancy.EliminateDupsTidies), another run changes nothing, and the tree did not grow |
| Dedup.EliminateDupsNumeralCounterexample | backport/kconf/expr.c:656-678 | with a numeral constant the reduced form of A='0' && A!='n' differs in value |
| Redundancy.EliminateDupsTidies | backport/kconf/expr.c:656-678 | at no level of the result reached through conjunctions and disjunctions is an operand superfluous |
| Redundancy.EliminateDupsExactly | backport/kconf/expr.c:656-678 | it changes a tree if and only if something in it is superfluous |
| Redundancy.NoTwins | backport/kconf/expr.c:656-678 | no level of the result holds the same atom or negated atom twice, or two conditions on a symbol that one replaces, in either order |
| Pipeline.PropagatedTidy | backport/kconf/menu.c:347-352 | a dependency propagated to a child holds nothing superfluous, whatever the child repeats of it |
| DedupInPlace.ExprStore.EliminateDups1 | backport/kconf/expr.c:588-643 | comparing the operands below two slots of one level, nested or equal, rewrites the tree in place into what the index form says, and counts the joins |
| DedupInPlace.ExprStore.Simplify | backport/kconf/expr.c:588-643 | a level compared with itself through one pointer passed twice becomes the result of a pass |
| DedupInPlace.ExprStore.EliminateDups | backport/kconf/expr.c:656-678 | the loop ends with the reduced tree, in which Redundancy.NoTwins holds at every level, and restores the saved count |
| Transform.RewriteIsNnf | backport/kconf/expr.c:686-841 | the transformer, which runs again on its own De Morgan output, terminates and computes negation normal form, defined as one structural walk |
| Transform.RewriteNormalIdempotent | backport/kconf/expr.c:686-841 | its result negates only symbols other than y, m, n, compares no bool for =/!= with them, and is a fixpoint |
| Transform.RewriteSound | backport/kconf/expr.c:686-841 | it keeps the value at every produced valuation at which ordered comparisons can be decided |
| Transform.NegatedCmpExact | backport/kconf/expr.c:761-785 | changing the operator negates a comparison if and only if it is = or != or the symbols can be ordered |
| Transform.NegatedCmpCounterexample | backport/kconf/expr.c:761-785 | for a symbol of a type that cannot be ordered, !(V<V) is y and its rewritten form V>=V is n |
| Transform.TransBoolSound | backport/kconf/expr.c:394-418 | FOO!=n becomes FOO without changing the value rounded from m to y, where negations stand on symbols only |
| Transform.TransBoolSettles | backport/kconf/expr.c:394-418 | it leaves no tristate compared with n by !=, and changes an expression only if it has one |
| Transform.TransBoolNotExact | backport/kconf/expr.c:394-418 | below a negation that holds if and only if FOO is not m |
| Transform.TransBoolCounterexample | backport/kconf/expr.c:394-418 | for a tristate A that is m, !(A!=n) is n and the rewritten !A rounds to y |
| Transform.RewriteMMeaning | backport/kconf/menu.c:81-104 | the constant m reads as n without modules, and as before with them |
| Transform.TransCompareSound | backport/kconf/expr.c:914-977 | the inserted comparisons with n or y decide whether the expression has that value |
| Transform.TransCompareNotExact | backport/kconf/expr.c:945-946 | below a negation that holds if and only if the negated operand is not m |
| Transform.TransCompareCounterexample | backport/kconf/expr.c:945-946 | for a tristate A that is m, !A is not n, and the inserted comparison A=n says that it is |
| ExprNodes.EliminateYnAt | backport/kconf/expr.c:308-389 | on linked nodes, in place: the tree becomes the one without y and n operands, using only its own nodes |
| ExprNodes.TransBoolAt | backport/kconf/expr.c:394-418 | on linked nodes, in place: the tree becomes the one the bool rewrite gives |
| ExprNodes.TransformAt | backport/kconf/expr.c:686-841 | on linked nodes: reusing, relinking and allocating nodes, the tree becomes the one the transformer gives, with all its nodes different |
| ExprNodes.RewriteMAt | backport/kconf/menu.c:81-104 | on linked nodes: the constant m becomes m && MODULES everywhere |
| Pipeline.PropagateSound | backport/kconf/menu.c:347-352 | a propagated dependency has the value of the parent's and the own dependency taken together, and is fit to be propagated again |
| Pipeline.PropagateBoolSound | backport/kconf/menu.c:392-398 | for a symbol that is not a tristate the simplified condition rounds to the same value as the unsimplified conjunction |
| Pipeline.VisibilitySound | backport/kconf/menu.c:392-398 | the maximum over a list of prompts below one simplified dependency rounds to that of the unsimplified conjunctions |
| Pipeline.SupersetImplies | backport/kconf/menu.c:448-483 | where the superset test succeeds, the dependency being not n implies the base being not n |
| Pipeline.DependsOnSound | backport/kconf/expr.c:871-898 | an expression with an absolute dependency on a symbol is n wherever the symbol is n |
| Solutions.SolutionUnique | backport/kconf/symbol.c:357-498 | on an acyclic table two solutions of the visibility, select, imply, default and user equations agree |
| Solutions.ExactlyOneSolution | backport/kconf/symbol.c:357-498 | there is exactly one solution |
| Consequences.SolutionProduced | backport/kconf/symbol.c:442-444 | every solution is a valuation on which the optimiser is sound |
| Consequences.ProducedArises | backport/kconf/symbol.c:442-444 | every such valuation is the solution of some acyclic table |
| SolutionFacts.ValueByParts | backport/kconf/symbol.c:405-445 | the value of every symbol but choices and fully visible members: the user value cut by visibility, else the default of least index that applies or what implies it, at least what selects it, rounded for bools |
| SolutionFacts.ValueByDefault | backport/kconf/symbol.c:424-432 | without user value, selects and implies it is the minimum of the first applicable default and its condition, and n without one |
| SolutionFacts.SelectsBound | backport/kconf/symbol.c:437-440 | no value is below what selects the symbol |
| SolutionFacts.ChoiceValue | backport/kconf/symbol.c:405-445 | the value of a choice, by its visibility, user value and selects, and that it is y only with a member |
| SolutionFacts.PickByIndex | backport/kconf/symbol.c:278-302 | the member of a choice that is y: the user's if visible, else that of the default of least index that applies and names a visible one, else the visible member of least index |
| SolutionFacts.MemberFollows | backport/kconf/symbol.c:408-412 | a fully visible member is y if its choice picked it, else n |
| SolutionFacts.MarkByMembers | backport/kconf/symbol.c:304-334 | a choice that is y keeps its user mark exactly if every visible member has one |
| SolutionFacts.MemberSettingKeepsMark | backport/kconf/symbol.c:543-559 | setting a member marks all visible members, so the choice keeps its mark at the next evaluation |
| Consequences.ChoiceExclusive | backport/kconf/symbol.c:278-334 | for a choice that is y the picked member is visible and y; exactly one member is y if and only if no invisible member is y by its own default |
| Consequences.ChoiceExclusiveWithoutDefaults | backport/kconf/symbol.c:408-469 | without member defaults, the picked member is y and every other one n |
| Consequences.ChoiceNotExclusive | backport/kconf/symbol.c:408-445 | a choice that is y with two members that are y, one of them invisible with a default |
| Consequences.SettingOutcome | backport/kconf/symbol.c:532-566 | for any symbol, choice or member, the value in the new solution, exactly, from the solution before |
| Consequences.MemberOutcome | backport/kconf/symbol.c:547-559 | after a member is set to y its choice picks it if and only if the choice is y and the member visible then; the member is y exactly in that case, or by its own default while invisible |
| Consequences.AcceptedSettingHonoured | backport/kconf/symbol.c:511-566 | a value within range, once set, is the value in the new solution: for every symbol and member, if for a member set to y its choice is y, and for a choice set to y a member is visible then |
| Consequences.SettingKeptExact | backport/kconf/symbol.c:511-530 | the range guard against the effect of the setting, both ways: for a visible symbol above its selects it accepts exactly what would be kept, but for y of a symbol visible as m and implied y; of a member visible as y it accepts y only; elsewhere it refuses all, and exactly the old value or that of the selects is kept |
| Consequences.AcceptedSettingLost | backport/kconf/symbol.c:304-322 | a table where a setting accepted after evaluation dropped the mark of a choice does not hold afterwards; the marks are those evaluation leaves |
| Consequences.MemberSettingLost | backport/kconf/symbol.c:527-559 | a bool member of a tristate choice that is m: setting it to y is accepted, and it stays n |
| Evaluator.Evaluator.CalcExpr | backport/kconf/expr.c:1026-1104 | evaluating an expression evaluates the symbols it needs and returns its value in the solution; Comparisons says what its comparisons decide |
| Evaluator.Evaluator.CalcVisibility | backport/kconf/symbol.c:209-270 | stores the visibility, direct, reverse and implied dependency of the solution, whatever was cached before |
| Evaluator.Evaluator.CalcDefault | backport/kconf/symbol.c:115-125 | computes the first default whose condition is not n, cut by it; SolutionFacts.ValueByDefault gives it by index |
| Evaluator.Evaluator.CalcMembers | backport/kconf/symbol.c:310-322 | the visibilities of all members, and whether every visible one has a user value |
| Evaluator.Evaluator.CalcChoiceDefault | backport/kconf/symbol.c:278-302 | computes the first applicable default that names a visible member; SolutionFacts.PickByIndex gives it by index |
| Evaluator.Evaluator.CalcChoice | backport/kconf/symbol.c:304-334 | the member the solution picks, which SolutionFacts.PickByIndex gives by index; the choice keeps its user mark exactly if every visible member has a user value |
| Evaluator.Evaluator.CalcNew | backport/kconf/symbol.c:397-445 | the new value by user value, default, implies, selects and the bool rule, which SolutionFacts.ValueByParts gives by index, never exposing the provisional one |
| Evaluator.Evaluator.CalcValue | backport/kconf/symbol.c:357-498 | the symbol, and all it reads, are valid and hold the values of the solution, which SolutionFacts spells out; nothing under evaluation is disturbed |
| Evaluator.Evaluator.EvaluateAll | backport/kconf/symbol.c:500-509 | after clearing, evaluating any symbols in any order gives each the value of every solution, and leaves a state from which the next round may start |
| Evaluator.Evaluator.SetTristateValue | backport/kconf/symbol.c:532-566 | returns true exactly for the old value or one in range, and changes nothing otherwise; says exactly what the setting leads to for the marks that were left, members included, and that an accepted value is kept if no mark was lost and, for a member set to y, its choice is y |
| Evaluator.Evaluator.SetAndEvaluate | backport/kconf/symbol.c:500-566 | evaluate, set, evaluate again, from any state between calculations: the cache then holds the solution for the new settings; its value for the symbol, members included, follows exactly from the solution for the marks that were left, and is the accepted value if no mark was lost and it can be taken up |
| Evaluator.Evaluator.Rounds | backport/kconf/symbol.c:500-566 | so does any number of rounds, each starting where the last one ended |
| Evaluator.Configure | backport/kconf/symbol.c:500-566 | so do rounds on a new evaluator, for any well-formed and ordered table, members without a prompt included |
| DepCheck.Checker.CheckExprDeps | backport/kconf/symbol.c:1206-1238 | a silent search of an expression has fully searched its symbols |
| DepCheck.Checker.CheckSymDeps | backport/kconf/symbol.c:1241-1273 | a silent search of a symbol has searched reverse dependencies, conditions and defaults |
| DepCheck.Checker.CheckDeps | backport/kconf/symbol.c:1312-1344 | marks a symbol as being checked, then as checked, and reports only with a report made |
| DepCheck.Checker.CheckAll | backport/kconf/symbol.c:1312-1344 | every report names a symbol on a real cycle; there is no report if and only if no symbol is on a cycle, if and only if the relation can be ranked |
| DepCheck.ExploredExactly | backport/kconf/symbol.c:1241-1273 | what the search follows from a symbol: the selects, the condition of every property but selects and choice links, and the value of defaults |
| DepCheck.RankedIfNoCycle | backport/kconf/symbol.c:1206-1273 | a finite relation can be ranked if and only if it has no cycle |
| DepCheck.RankedExactly | backport/kconf/symbol.c:209-261 | an order fits evaluation if and only if everything the evaluator reads and computes ranks below its reader |
| DepCheck.EvaluationOrderExact | backport/kconf/symbol.c:357-498 | such an order exists if and only if all that is read has an entry and the relation of what is read has no cycle |
| DepCheck.SilentCheckOneSolution | backport/kconf/symbol.c:1206-1273 | a silent check that also follows direct dependencies and implies makes evaluation well defined: exactly one solution |
| DepCheck.NoCycleOneSolution | backport/kconf/symbol.c:357-498 | so does the absence of cycles in what evaluation reads |
| DepCheck.ImplyLoopUndetected | backport/kconf/symbol.c:261-263 | two symbols that imply each other: a silent check, a cycle in what evaluation reads, two solutions |
| MenuTree.FinKeepsOrder | backport/kconf/menu.c:423-494 | the nodes finalised with a node are it and all that hangs below it afterwards, once each and in preorder; the preorder of everything is unchanged |
| MenuTree.FinSettles | backport/kconf/menu.c:342-424 | however nodes move, each ends with the expressions it inherits along the parsed tree |
| MenuTree.FinFlat | backport/kconf/menu.c:567-576 | below a finalised node no list is left under a node without a prompt text |
| MenuTree.AbsorbTakesExactly | backport/kconf/menu.c:453-494 | a submenu takes in the siblings that pass the test, which Submenus.NextMoves and NextStays bound on both sides, and stops at the first that does not |
| MenuTree.BelongsSound | backport/kconf/menu.c:453-483 | where a sibling that moved is visible, the symbol it moved below is set or its prompt is visible |
| Submenus.DemandsExactly | backport/kconf/expr.c:871-898 | the test for an absolute dependency finds exactly the conjunctions with s, s='y', s='m' or s!='n' as an operand |
| Submenus.SupersetOfNone | backport/kconf/menu.c:472-483 | the superset test holds for a symbol whose prompt has no condition |
| Submenus.SupersetByOperands | backport/kconf/menu.c:472-483 | it holds if all operands of the prompt's condition stand in the sibling's conjunction |
| Submenus.NextMoves | backport/kconf/menu.c:453-494 | the next sibling becomes the first child of a symbol if its condition demands the symbol, or names it and is a superset by one of these rules |
| Submenus.NextStays | backport/kconf/menu.c:453-458 | a sibling whose condition does not name the symbol ends the submenu before it starts |
| Submenus.StopsWhereItMust | backport/kconf/menu.c:453-494 | the sibling at which a submenu ends satisfies none of these rules |
| Submenus.AbsorbedName | backport/kconf/menu.c:453-494 | every sibling that moved names the symbol in its condition |
| Submenus.AlternativeMoves | backport/kconf/menu.c:462-483 | a sibling that depends on (s or q) and r moves below s when the prompt of s depends on r |
| MenuTree.FlattenParents | backport/kconf/menu.c:567-576 | each node ends below the nearest node around it that has a text, no further up |
| MenuTree.FinalizeTree | backport/kconf/menu.c:296-577 | all of these for a whole tree |
| MenuMeaning.FinalizeMeans | backport/kconf/menu.c:296-577 | in the finalised tree each node's dependency has the minimum of what was written for the node and for all that encloses it, and its prompt condition that minimum with its own condition, wherever the node moved |
| MenuMeaning.VisibilityAsWritten | backport/kconf/symbol.c:221-235 | end to end: the visibility computed from the finalised prompts of a symbol, over all its locations, is the one computed from what was written |
| MenuTable.VisibleIsShown | backport/kconf/symbol.c:209-235 | the visibility of a symbol whose table entry has the finalised prompts, in any order, is the largest of them as written; for members with the rules for m under a choice that is y, and for bool members of a tristate choice |
| MenuTable.SolutionVisibleAsWritten | backport/kconf/menu.c:342-398 | from the menu text to the evaluator: so it is in every solution of the table, valued by that solution |
| MenuFinalize.InheritChildren | backport/kconf/menu.c:342-400 | the loop rewrites dependency and prompt condition of every child, and no link |
| MenuFinalize.Adopt | backport/kconf/menu.c:568-572 | every child of a flattened node gets the new parent, and the last one is found |
| MenuFinalize.Splice | backport/kconf/menu.c:567-576 | the children of a node without a text follow it in its own chain |
| MenuFinalize.FlattenChildren | backport/kconf/menu.c:498-577 | the loop leaves the flattened chain, linked under the parent |
| MenuFinalize.AbsorbSiblings | backport/kconf/menu.c:453-494 | the loop and the three assignments after it leave the siblings taken (see Submenus.NextMoves and StopsWhereItMust) as the list of the symbol, the others as its successors |
| MenuFinalize.Finalize | backport/kconf/menu.c:296-577 | menu_finalize relinks nodes in place into what the function says (its laws are in MenuTree, MenuMeaning and Submenus), every node of a list having that list's owner as parent |
| MenuFinalize.FinalizeRoot | backport/kconf/menu.c:296-577 | from the root: same nodes, same preorder, each finalised once, expressions inherited along the parsed tree, no list below a node without text |
| Escape.UnquoteUndoesQuoting | backport/kconf/symbol.c:962-1003 | unquoting undoes quoting, whatever follows the closing quote |
| Escape.EscapedSize | backport/kconf/symbol.c:969-980 | the first loop computes exactly the size of the quoted string with its terminator |
| Escape.EscapeValue | backport/kconf/symbol.c:962-1003 | the buffer of that size is filled exactly by the quoted string and its terminator |
| Escape.UnquoteInPlace | backport/kconf/confdata.c:161-175 | moving characters down inside the line buffer leaves the unquoted string, fails exactly without a closing quote, and touches nothing else |
| ConfFacts.UnquoteExactly | backport/kconf/confdata.c:161-175 | the string read is the one spelled before a closing quote, a backslash standing before any character and before each quote and backslash; None if and only if none is spelled |
| ConfFacts.BodySpells | backport/kconf/symbol.c:962-1003 | what is printed is the shortest spelling |
| ConfFacts.IntExactly | backport/kconf/symbol.c:598-610 | an integer is accepted if and only if it is a number's shortest numeral with or without a minus sign |
| ConfFacts.HexExactly | backport/kconf/symbol.c:611-619 | a hexadecimal number with or without 0x or 0X |
| ConfFacts.TristateLine | backport/kconf/confdata.c:130-150 | what a line stores for a bool or tristate, by its first character, and when it is refused |
| ConfFacts.NumberLine | backport/kconf/confdata.c:176-188 | an int or hex symbol stores the text if and only if it is a number of its type |
| ConfFacts.StringLine | backport/kconf/confdata.c:158-188 | a string symbol stores what the text spells in quotes, and else keeps its value |
| ConfFacts.UnsetLine | backport/kconf/confdata.c:316-347 | the comment of an unset symbol stores n for bools and tristates, nothing for other types |
| ConfFacts.UnsetIsNo | backport/kconf/confdata.c:313-374 | both ways to write n for a bool or tristate are read alike |
| ConfFacts.PrintedLine | backport/kconf/confdata.c:487-508 | the line printed for each type: n as a comment, a string as a spelling of it in quotes, everything else as it is |
| ConfFacts.PrintedTitle | backport/kconf/confdata.c:790-800 | a title is printed as a comment between two empty ones, after an empty line |
| Conf.LineRoundTrip | backport/kconf/confdata.c:487-508 | reading the line printed for a bool, tristate, int, hex or string symbol stores the value it was printed with |
| Conf.CommentIgnored | backport/kconf/confdata.c:316-347 | a comment changes nothing whatever is stored, if and only if it does not look like an unset symbol |
| TextLines.LinesOfConcat | backport/kconf/confdata.c:217-249 | a file put together from lines, of which only the last may lack its newline, is read as those lines |
| Conf.TitleReadAsSetting | backport/kconf/confdata.c:316-347 | the menu title CONFIG_A is not set, written as a comment, sets the bool A to n when it is read |
| Conf.FileRoundTrip | backport/kconf/confdata.c:294-403 | reading a written file stores exactly the values written, as user values, and gives no other symbol one |
| Conf.ChoiceRead | backport/kconf/confdata.c:382-401 | reading a written file back picks for a choice the member that was y in it, whatever the order of the lines |
| ConfFacts.ChoiceVoted | backport/kconf/confdata.c:382-401 | whatever the members' lines hold and in any order: the choice gets the largest value, the last member at y, and loses its user mark exactly if an m comes after a y |
| ConfReader.Offer | backport/kconf/confdata.c:126-194 | conf_set_sym_val on the line buffer stores or refuses what the specification says, for every type |
| ConfReader.ChompAt | backport/kconf/confdata.c:353-358 | the value ends before the newline and a carriage return |
| ConfReader.Reader.SetSym | backport/kconf/confdata.c:382-401 | the choice of a member learns of the member's value |
| ConfReader.Reader.ReadComment | backport/kconf/confdata.c:316-347 | a line that begins with # has the effect the specification gives it |
| ConfReader.Reader.ReadSetting | backport/kconf/confdata.c:348-374 | so has a line that begins with CONFIG_ |
| ConfReader.Reader.Read | backport/kconf/confdata.c:313-402 | one pass of the loop is one step of the specification |
| ConfReader.ReadSimple | backport/kconf/confdata.c:294-403 | resetting and reading all lines gives the state of the specification |
| ConfWriter.Next | backport/kconf/confdata.c:810-822 | the step down, aside or up reaches the next node in preorder, and fewer nodes remain |
| ConfWriter.ConfWrite | backport/kconf/confdata.c:790-823 | the walk without a stack terminates and visits every node below the root once, in preorder, printing as specified |
| ConfWriter.EmitExactly | backport/kconf/confdata.c:790-808 | the settings printed are those of the flagged symbols in the menu, all of them |
| ConfWriter.EmitDistinct | backport/kconf/confdata.c:802-808 | each is printed once, though several nodes may stand for a symbol |
| ConfWriter.EmitInOrder | backport/kconf/confdata.c:790-808 | the output of the node at each index: a title if it has no symbol and is visible, a setting if its symbol is flagged and stands at no earlier node, else nothing |
| ConfWriter.ConfRoundTrip | backport/kconf/confdata.c:741-824 | writing a configuration through the menu and reading it back stores exactly the values written |
| PatchParse.Parse | lib/patch.py:303-566 | the main loop, with the header loop inside it, computes what the line machine says; PatchForms.FormsParsed gives that for patches as they are written |
| PatchParse.AcceptedComplete | lib/patch.py:359-424 | whatever is parsed, a hunk stored as valid has the line counts of its header and has them first at its last line |
| PatchParse.HeadPrinted | lib/patch.py:511-545 | the printed range line is parsed back into the same ranges |
| PatchForms.HeadTextRead | lib/patch.py:511-545 | the four ways to write a range line are read alike: a count left out is 1, and the text after the second @@ is the description |
| PatchForms.NameRead | lib/patch.py:438-505 | the file name is found between blanks and before a tab and a date |
| PatchForms.FormsParsed | lib/patch.py:303-566 | patches with header lines, dates, any form of range line, descriptions, empty context lines and trailing lines are parsed without error into valid hunks with what was written |
| PatchForms.NoErrorAllComplete | lib/patch.py:303-566 | whatever is parsed, if no error is counted then every hunk is valid and has the counts of its header |
| PatchForms.PrintedForm | lib/splitpatch.py:10-19 | a file is printed in the plainest of these forms: bare names, both counts, no description |
| PatchErrors.DamageContained | lib/patch.py:358-434 | a hunk that ends too early, before the next range line or before lines that do not belong to it: one error, the patch refused as a whole, the hunk kept as invalid, and every other hunk of every file read |
| PatchErrors.CutShort | lib/patch.py:547-566 | a file that ends within a hunk: one error, and that hunk is not kept |
| PatchErrors.NothingFound | lib/patch.py:547-566 | text without a patch is refused, and is an error unless empty |
| PatchParse.PrintFile | lib/splitpatch.py:10-19 | the nested loops print the names, then each hunk's range line and text |
| PatchParse.ParseUndoesPrint | lib/splitpatch.py:10-19 | parsing what is printed for files of complete hunks gives no error and the same files, ranges and text |
| PatchParse.ParseUndoesWrite | lib/splitpatch.py:10-19 | the same from the text that is written, split into lines again, the last of which may lack its newline |
| PatchApply.PatchStream | lib/patch.py:939-996 | the generator, with its line-end statistics, yields what the specification says for any input |
| PatchApply.StreamedReplaces | lib/patch.py:939-996 | for hunks that match a newline-ended source, the output is the source with the ranges replaced if and only if hunks that only add lines add in place |
| PatchApply.AnchoredInPlace | lib/patch.py:970-990 | hunks with a source line each always do |
| PatchApply.InsertedTooEarly | lib/patch.py:970-976 | a hunk of range -1,0 inserts before line 1, not after it |
| PatchEnds.FitExactly | lib/patch.py:986-993 | a line is written with the one kind of end seen so far, and as it stands if none or several were seen |
| PatchEnds.EndsFollowSource | lib/patch.py:939-996 | a source with one kind of line end keeps it through a patch that starts after its first line |
| PatchEnds.BodyCounts | lib/patch.py:977-993 | every hunk line but an added one takes a source line, a backslash line included; every line but removed ones and backslash lines is written |
| PatchApply.MatchFileHunks | lib/patch.py:899-936 | a file is taken for patched exactly when each hunk's kept and added lines stand where its target number says, line ends aside |
| PatchPlaces.RecognisedExactly | lib/patch.py:899-936 | by line numbers: a file is taken for patched if and only if each kept or added line of each hunk stands at the target number plus the kept and added lines before it |
| PatchApply.RecognisedAfter | lib/patch.py:899-936 | a file made by the hunks is recognised |
| PatchApply.SwapUndoes | lib/patch.py:939-996 | the swapped hunks match the result and lead back to the source |
| PatchApply.PatchLaws | lib/patch.py:899-996 | all three for hunks of at least one source and one target line with consistent numbers |
| ScatterGather.MappingIter.constructor | backport/compat/compat-3.9.c:136-145 | a started iterator stands at the first byte of the entries counted |
| ScatterGather.MappingIter.PageNext | backport/compat/compat-3.9.c:82-99 | the next page with data of the entry, or of a later one, without moving in the flat string |
| ScatterGather.MappingIter.GetNextPage | backport/compat/backport-3.11.c:14-33 | the iterator keeps its place, and fails only at the end of the flat string |
| ScatterGather.MappingIter.Stop | backport/compat/compat-3.9.c:201-226 | stopping moves the place by the bytes consumed |
| ScatterGather.MappingIter.Next | backport/compat/compat-3.9.c:164-184 | what is mapped is the entry's memory at that place, up to the end of the page or of the entry |
| ScatterGather.MappingIter.Skip | backport/compat/backport-3.11.c:54-71 | skipping moves the place by exactly the count, and fails exactly past the end |
| ScatterGather.PieceOfFlat | backport/compat/backport-3.11.c:104-117 | a piece of an entry is a piece of the concatenation of all entries |
| ScatterGather.WritePiece | backport/compat/backport-3.11.c:104-117 | writing a piece of an entry writes that piece of the flat string, if entries do not overlap |
| ScatterGather.CopyBuffer | backport/compat/backport-3.11.c:86-123 | the copy moves exactly the flat bytes from skip on, into or out of the buffer, and changes nothing else |
| ScatterGather.TransferCount | backport/compat/backport-3.11.c:83-123 | it moves min(buflen, max(0, total - skip)) bytes |
| ScatterGather.CopyInOut | backport/compat/backport-3.11.c:86-123 | a copy in and a copy out at the same place return the same bytes |
| WaitWoken.InvKept | backport/compat/backport-3.19.c:25-44 | every step of the waiter or of a waker keeps the invariant of the handshake |
| WaitWoken.NoLostWakeup | backport/compat/backport-3.19.c:46-83 | in no interleaving is the waiter asleep with the condition true and no waker at work |
| WaitWoken.WaiterLeaves | backport/compat/backport-3.19.c:46-67 | once the condition holds and no waker is at work, five steps of its own let the waiter leave, in every interleaving |
| WaitWoken.Sleeps | backport/compat/backport-3.19.c:46-67 | from any state with the condition false the waiter, left alone, is asleep after nine steps of its own at most, and stays so |
| WaitWoken.LeavesOnlyWhenSet | backport/compat/backport-3.19.c:25-44 | in every interleaving the waiter has left only if the condition was set |

## Left out

- Dedup.EliminateDupsSound: stated for comparison constants of symbols limited to y, m and n (`Clean`); `JoinConstsExact` shows that other constants can break it and when.
- Transform.RewriteSound: stated for valuations at which ordered comparisons can be decided; `NegatedCmpExact` shows that this is needed.
- Exprs.EqualityByMeaning: number parsing follows strtoll and strtoull with their overflow results; the locale is the C locale.
- Solutions.ExactlyOneSolution: the value of MODULES is a parameter that does not change while symbols are evaluated, as after its first evaluation.
- Solutions.SolutionUnique: tables hold bools and tristates, link choices and members both ways, and name the choice in the conditions of a member's prompts (unless simplification left n), as `menu_finalize` does.
- Evaluator.Evaluator.CalcValue: int, hex and string symbols keep a given value; their evaluation, range clamping and the string the range code builds are not modelled.
- Evaluator.Evaluator.CalcValue: the flags SYMBOL_WRITE and SYMBOL_CHANGED, SYMBOL_NEED_SET_CHOICE_VALUES, warnings about unmet dependencies and environment symbols are not modelled.
- DepCheck.Checker.CheckAll: stated for tables without choices; the branches that report a recursion through a choice, and the text of reports, are not modelled.
- MenuFinalize.Finalize: the types given to choices and their members, the marking of choice values with the dependency it adds, the reverse and implied dependencies that selects and non-optional choices accumulate, and conditions other than that of the node's prompt are not modelled.
- MenuMeaning.FinalizeMeans: stated for expressions that the optimiser keeps the value of (clean constants, comparisons that can be decided) and trees in which only menus, 'if's and choices have children, as the grammar builds them.
- MenuTable.SolutionVisibleAsWritten: the links between choices and members, and the nodes at which the condition on a tristate choice was added, are given with the table.
- Equality.EliminateEqReflects: `expr_eliminate_eq` and `expr_eq` are modelled on values; they run on copies, so the update in place and the count they restore cannot be seen.
- DedupInPlace.ExprStore.EliminateDups1: the tree is one value updated through paths; a path stands for a pointer to an operand.
- ExprNodes.TransformAt: freeing nodes and sharing nodes between expressions are not modelled; the printed notes about tests for m are left out.
- ConfReader.Reader.ReadComment: for a last line that is a single # without newline the source reads what an earlier line left in the buffer; the model passes over it.
- ConfReader.ReadSimple: names y, m and n, which the source finds among its constants, are passed over; opening files, default files, the change counter and warnings are left out.
- Conf.LineRoundTrip: names contain no space, equals sign, newline or NUL; string values contain no newline or NUL.
- ConfWriter.ConfWrite: which menus are visible, their titles and the values of symbols are parameters; the file heading, the backup file and renaming are left out. `conf_write_defconfig` uses the same walk with a further filter.
- PatchParse.Parse: file name types, their normalisation after parsing, detection of the patch type, the total header text and log messages are left out; digits and spaces are those of ASCII.
- PatchParse.ParseUndoesPrint: descriptions after a range line and headers are not printed by splitpatch and come back empty.
- PatchApply.PatchLaws: the pre-check of `apply()`, backups and file copying are left out; hunks are assumed to match.
- PatchApply.PatchLaws: stated for newline-ended lines without backslash lines, as mixed line ends are converted on the way.
- ScatterGather.CopyBuffer: entry offsets are below the page size; what a copy into the list makes of the flat string is stated for entries that do not overlap; sizes do not overflow; memory of an entry is contiguous over its pages; mapping flags and cache flushing are left out.
- WaitWoken.NoLostWakeup: steps are sequentially consistent, which the barriers A, B and C of the source are there for; a timeout is an early wake-up at any time; scheduling itself is not part of this model.
- User interface, the Kconfig grammar, header shims, netlink policies, `div64_u64_rem`, random configurations and the git and build scripts are left out.
