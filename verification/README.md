# Kconfig engine and mkhash: a verified model

The OpenWrt SDK configures itself with the Kconfig engine in `scripts/config` and names its downloads
with the hashing tool `scripts/mkhash.c`. This project models both in Dafny and proves what they are
relied on for.

- **Expressions** (`expr.c`). Dependencies are expressions over a three-valued logic n < m < y. The
  engine rewrites them all the time: constants are dropped, operands joined and cancelled, negations
  pushed down. `Tristate`, `Numbers`, `Exprs` define expressions and their value; `ExprReduce`,
  `ExprJoin`, `ExprPaths`, `ExprDups`, `ExprTransform` define each rewriting and prove that no
  calculation can tell the difference, `ExprSyms` that none brings in a symbol; `ExprEquality` proves
  what `expr_eq` decides; `ExprCells`, `ExprInPlace`, `ExprDupsInPlace`, `ExprTransformInPlace` run the
  same rewritings on linked nodes that are overwritten in place and tie each to its function;
  `ExprPrint` covers printing and parsing, `ExprText` the characters printed and the lexer that reads
  them.
- **Symbols** (`symbol.c`). `Symbols` gives every symbol its value by one recursion over an acyclic
  graph, `SymbolTables` is the memoising evaluator with user writes and invalidation, `Reload` what
  calculating again from calculated values gives, `DepCheck` the depth-first search that guarantees the
  acyclicity, `Choice` the bool choice groups.
- **Menus** (`menu.c`). `MenuTree`, `MenuDeps`, `MenuFinalize` model the tree of linked nodes, its
  dependency expressions, and the restructuring of `menu_finalize`, which also collects the direct,
  reverse and weak reverse dependencies of symbols; `MenuSuperset` shows where the submenu test goes wrong. `BuiltSymbols` and
  `Configuration` join the three parts above.
- **Files** (`confdata.c`). `MenuWalk` is the walk of `conf_write` without a stack, `ConfStrings` and
  `ConfFile` write and read the lines, `SaveAndLoad` puts them together, comments for menus included,
  and goes on to the values calculated after loading.
- **Macros** (`preprocess.c`). `Preprocess` is the macro expander.
- **Hashes** (`mkhash.c`). `Blocks`, `Sha256`, `Md5` model the streaming hashes against FIPS 180-4 and
  RFC 1321.

Code that changes state is imperative here too: the evaluator, the dependency search, the choice
group, the menu tree, the expander, the file reader and the hash contexts are classes, and every method
is proved against a function or property that is then reasoned about by itself.

## Premises

A calculation is *valid* (`Exprs.ValidEnv`) when y, m and n keep their values, no bool is m, and no
tristate is m while modules are off; `Symbols.SpecEnvIsValid` shows that the evaluator only produces
such calculations. `modules_sym` does not change during a calculation. Constants that a tristate is
compared with must not be numbers where operands are joined (`PlainConsts`); that this is needed, and
exactly when, is proved.

## Findings

Places where the code does something else than its comments or its callers expect, each with a proof:

- `scripts/config/expr.c:540-545`: joining `A="y"` with `A!="2"` keeps only the first, though 2 compares
  equal to y (`ExprJoin.ConstRuleFailsOnNumbers`, exact condition in `ExprJoin.ConstRuleExact`).
- `scripts/config/expr.c:243-248`: `expr_eq` counts how often an operand occurs, which the comment above
  it does not say (`ExprEquality.MultiplicityCounts`), and sees y and n only in the lists compared, not
  inside their operands (`ExprEquality.DeeperConstants`).
- `scripts/config/expr.c:413-420`: `expr_trans_bool` below NOT changes the answer
  (`ExprTransform.TransBoolUnderNot`).
- `scripts/config/expr.c:953-954`: `expr_trans_compare` against y or n decides by a two-valued reading of
  the expression, in which `!A` is the opposite of `A` even where A is m. It is right exactly where that
  reading agrees with the value (`ExprTransform.TransCompareExact`). Because it may not, an entry with
  dependencies `!A && (S || Q)` joins the submenu of an S whose prompt depends on `A=n`, and is visible
  while A is m and neither S nor its prompt is (`scripts/config/menu.c:479-488`,
  `MenuSuperset.SupersetFails`).
- `scripts/config/expr.c:1148-1153`: constants print without their quotes. Character by character, what is
  printed is read back as the same expression exactly when no quoted constant other than y, m and n
  occurs, whatever its text (`ExprText.PrintIsLossless`). The value can change with it
  (`ExprText.QuotesAreLost`), or the text not be readable at all, as `A=""`
  (`ExprText.EmptyConstantIsNotRead`).
- `scripts/config/symbol.c:474-481`: writing to a symbol the value it has does not invalidate anything,
  and can still change what the next calculation gives (`Configuration.EqualWriteCanMoveValue`; exact
  condition in `SymbolTables.EqualWrite`). For the same reason saving, loading and calculating keeps all
  values exactly when no saved symbol stands above its prompt (`SaveAndLoad.SaveLoadCalculate`).
- `scripts/config/symbol.c:379-382`: a range-accepted write sticks exactly when the symbol's direct
  dependency holds or nothing selects it (`SymbolTables.WriteSticks`); a configuration where one is lost
  is in `Configuration.AcceptedWriteIsLost`.
- `scripts/config/menu.c:503-504`: a place without dependencies does not count for the direct dependency
  of a symbol that has others, because `expr_alloc_or` takes an absent expression for nothing instead of
  y. A symbol is visible without its direct dependency exactly when this forgets a visible prompt
  (`MenuDeps.VisibleWithoutDirectDep`; it occurs in `MenuDeps.UnconditionalPlaceIsForgotten`).
- `scripts/config/confdata.c:593-614`: a string with a newline is written so that it is not read back at
  all (`ConfFile.StringSurvives`).
- `scripts/config/confdata.c:878-881`: the text of a menu is printed as a comment, and a comment may read
  as the line of a symbol. A saved file is read back as it was written exactly when every such line is
  followed by another about the symbol, or says what the symbol's own line says
  (`SaveAndLoad.SaveAndLoad`); a menu `CONFIG_A is not set` behind an A that is y loads A as n
  (`SaveAndLoad.TitleUnsetsSymbol`).

## Model

| member | source | states |
|---|---|---|
| Exprs.ValReadsOnlySyms | scripts/config/expr.c:1030-1102 | the value of an expression depends only on the values of the symbols that occur in it and on whether modules are enabled |
| Exprs.CompareToConst | scripts/config/expr.c:998-1102 | a bool or tristate symbol equals a constant exactly when its value is one the constant stands for: y, m, n by name, a number by rank, anything else never |
| ExprReduce.EliminateYnKeepsValue | scripts/config/expr.c:316-397 | dropping constant operands keeps the value under every valid calculation |
| ExprReduce.EliminateYnLeavesNoConstant | scripts/config/expr.c:305-397 | afterwards no operand of a connective is y or n at any depth, and a tree already in that form is left alone |
| ExprReduce.EliminateYnShrinks | scripts/config/expr.c:316-397 | the tree never grows, and loses an operand whenever it had a constant one |
| ExprReduce.CancelEqualFactors | scripts/config/expr.c:150-190 | cancelling splits one and the same factor off both values, whatever pairs were found equal |
| ExprReduce.ExprEqSound | scripts/config/expr.c:252-303 | expressions found equal have equal values under every valid calculation |
| ExprReduce.ExprEqPtrSound | scripts/config/expr.c:262-263 | the same where an absent expression stands for y |
| ExprReduce.EliminateEqSuperset | scripts/config/expr.c:221-241 | when elimination leaves the second expression as y, the first value is at most the second |
| ExprEquality.CancelIsDifference | scripts/config/expr.c:150-190 | as multisets of operands up to order and grouping, y and n aside, cancelling leaves on each side the difference from the other, and keeps the deciding constant where there is one |
| ExprEquality.EqIsCanonical | scripts/config/expr.c:243-303 | on trees without constant operands the answer is yes if and only if the trees differ only in order and grouping of operands, counted with multiplicity |
| ExprEquality.EqWithConstants | scripts/config/expr.c:243-303 | with y and n in the lists compared, the answer is yes if and only if both hold the constant that decides them, or neither does and the other operands are the same |
| ExprEquality.DeeperConstants | scripts/config/expr.c:243-303 | constants inside an operand are seen or not depending on what the operand comes down to: x&&y next to z equals x next to z for a symbol x, and not for its negation |
| ExprEquality.MultiplicityCounts | scripts/config/expr.c:243-251 | every operand of A&&A&&B equals one of A&&B&&B and the other way round, as the comment asks, and the two are not equal |
| ExprJoin.JoinSound | scripts/config/expr.c:431-587 | every joining of two operands of AND or OR has the value of the two together, given unambiguous constants |
| ExprJoin.ConstRuleExact | scripts/config/expr.c:540-553 | the rule for two different constants is right under every calculation if and only if no value the tristate can have, with or without modules, equals both |
| ExprJoin.ConstRuleFailsOnNumbers | scripts/config/expr.c:540-553 | with y and "2" the rule gives y where the operands give n |
| ExprDups.Dups1KeepsValue | scripts/config/expr.c:596-651 | a pass over a tree paired with itself keeps the value of the tree, from any two cursor positions |
| ExprDups.Dups1LeavesConstant | scripts/config/expr.c:596-686 | a pass that counts a change leaves a constant operand behind, and no pass removes one; this is why the outer loop ends |
| ExprDups.EliminateDupsKeepsValue | scripts/config/expr.c:664-686 | the whole optimisation keeps the value under every valid calculation, and keeps the two tree forms later steps need |
| ExprDups.QuietPass | scripts/config/expr.c:664-683 | a pass that counts nothing changed nothing and has held every operand against every other |
| ExprDups.EliminateDupsSettles | scripts/config/expr.c:664-686 | in the result no two operands of any operand list can be joined any more |
| ExprInPlace.EliminateYnInPlace | scripts/config/expr.c:316-397 | overwriting nodes bottom up leaves exactly the tree of EliminateYn, in the same slot and in nodes of the old tree |
| ExprInPlace.Rewriter.CancelEqualInPlace | scripts/config/expr.c:150-190 | on two disjoint trees the nodes end up holding the two results of CancelEqual |
| ExprInPlace.Rewriter.EliminateEqInPlace | scripts/config/expr.c:221-241 | the same for expr_eliminate_eq, including the second cancellation and the dropping of constants |
| ExprInPlace.Rewriter.ExprEqInPlace | scripts/config/expr.c:252-303 | the answer is that of ExprEq; both trees and trans_count are as before |
| ExprDupsInPlace.Dups1InPlace | scripts/config/expr.c:596-651 | with both cursors in one tree, slots overwritten under the other cursor, the nodes hold the result of Dups1, every slot of the spine is still the same slot, and trans_count grew by its count |
| ExprDupsInPlace.OperandCells | scripts/config/expr.c:612-616 | the pointer comparison of the two cursors tells exactly whether they stand on the same operand, and different operands share no node |
| ExprDupsInPlace.EliminateDupsInPlace | scripts/config/expr.c:664-686 | the loop of passes leaves the tree of EliminateDups and restores trans_count |
| ExprTransformInPlace.TransformInPlace | scripts/config/expr.c:694-849 | node by node, with De Morgan's rule reusing the connective's node, the nodes end up holding the tree of Transform |
| ExprTransformInPlace.TransBoolInPlace | scripts/config/expr.c:402-426 | the same for expr_trans_bool, without new nodes |
| ExprTransform.TransformKeepsValue | scripts/config/expr.c:694-849 | pushing negations and rewriting comparisons of bool symbols keeps the value under every valid calculation |
| ExprTransform.TransformNormalises | scripts/config/expr.c:694-849 | afterwards NOT stands only above symbols other than y, m, n and no bool symbol is compared for equality with y, m or n; a tree in that form is left alone |
| ExprTransform.TransBoolKeepsNo | scripts/config/expr.c:402-426 | unless the rule applies below a NOT while modules are on, a value may fall to m but never to or from n |
| ExprTransform.TransBoolKeepsValue | scripts/config/expr.c:402-426 | where the rule does not apply, or modules are off, the value is the same |
| ExprTransform.TransBoolUnderNot | scripts/config/expr.c:402-426 | for a negated comparison n is kept under every calculation if and only if the rule does not apply or modules are off |
| ExprTransform.TransCompareReads | scripts/config/expr.c:922-985 | comparing any tree of bool and tristate symbols with y or n gives y or n, according to the two-valued reading in which AND, OR and NOT are classical |
| ExprTransform.TransCompareExact | scripts/config/expr.c:922-985 | so the comparison is right under a calculation if and only if the reading agrees with the value there |
| ExprTransform.TransCompareCorrect | scripts/config/expr.c:922-985 | in particular wherever nothing below a NOT is m |
| ExprTransform.TransCompareUnderNot | scripts/config/expr.c:908-985 | in particular for a negated symbol if and only if the symbol is not m |
| ExprPrint.PrintParseRoundTrip | scripts/config/expr.c:1104-1228 | parsing the strings handed to the callback, printed with as few parentheses as the printer writes, by the grammar's precedence consumes them and gives the tree up to association of AND and OR if and only if every name is found again; the value is kept where names find symbols of equal value |
| ExprPrint.RereadIsLeftAssoc | scripts/config/parser.y:445-456 | what is read is the left-associated tree if and only if every name finds its symbol |
| ExprText.LexPrinted | scripts/config/lexer.l:89-172 | printed tokens do not run together: the text of any list of them as expr_print spaces it is cut into the same list |
| ExprText.LexCost | scripts/config/lexer.l:89-203 | a text has at least the quotes within its quoted tokens and one more for each, so no text can print as itself with its quotes gone |
| ExprText.PrintIsLossless | scripts/config/expr.c:1104-1228 | as characters through the lexer and the parser, with the lookup of the symbol table, what is printed is read back exactly if and only if no quoted constant but y, m and n occurs, whatever its text; the value survives if these texts are words and no defined symbol has such a name |
| ExprText.QuotesAreLost | scripts/config/expr.c:1148-1153 | the constant "X" is n, and what its text is read back as is y in some calculation when a bool X is defined |
| ExprText.EmptyConstantIsNotRead | scripts/config/expr.c:1148-1153 | A="" prints as A=, which is no expression |
| Symbols.SpecIsFixpoint | scripts/config/symbol.c:299-440 | the recursive specification satisfies the equation of sym_calc_value at every symbol |
| Symbols.SpecIsUnique | scripts/config/symbol.c:299-440 | nothing else does, so the order of calculation cannot matter |
| Symbols.SpecEnvIsValid | scripts/config/symbol.c:392-440 | no bool is ever m, no tristate is m without modules, constants keep their values |
| Symbols.SpecIgnoresHigherUsers | scripts/config/symbol.c:299-440 | a user value influences only symbols that depend on its symbol |
| SymbolTables.SymbolTable.CalcExpr | scripts/config/expr.c:1030-1102 | evaluation over the half-filled cache gives the specified value and leaves unfinished calculations alone |
| SymbolTables.SymbolTable.CalcValue | scripts/config/symbol.c:299-440 | though VALID is set before the work is done, the cached state afterwards is the specified one, and all caches of lower rank stay right |
| SymbolTables.SymbolTable.CalcVisibility | scripts/config/symbol.c:172-233 | visibility, direct, reverse and weak dependency are stored in stages and each is the specified one |
| SymbolTables.SymbolTable.Calculate | scripts/config/symbol.c:299-440 | from any reachable state, a calculation yields the specified value and every VALID symbol's cache equals the specification |
| SymbolTables.SymbolTable.CalculateAll | scripts/config/confdata.c:530-553 | calculating all symbols in any order gives every one its specified value |
| SymbolTables.SymbolTable.SetTristateValue | scripts/config/symbol.c:474-508 | accepted if and only if equal or within range; a refused write changes nothing; a changing write leaves all caches right; an equal one exactly if recalculation gives the value again |
| SymbolTables.SymbolTable.SetAndRead | scripts/config/symbol.c:442-508 | an accepted write is read back after recalculation if and only if the dependencies hold or nothing selects the symbol |
| SymbolTables.WriteMovesOnlyValue | scripts/config/symbol.c:354-440 | a user write moves neither visibility nor any dependency of its own symbol |
| SymbolTables.WriteSticks | scripts/config/symbol.c:453-508 | a write within range is kept if and only if dir_dep is not n or rev_dep is n |
| SymbolTables.EqualWrite | scripts/config/symbol.c:474-508 | a write of the cached value leaves right caches right if and only if recalculation gives that value |
| SymbolTables.UnmovedSymbolMovesNothing | scripts/config/symbol.c:474-508 | if a write leaves its symbol's state as it was, it leaves every symbol's state as it was |
| DepCheck.CycleExcludesRank | scripts/config/symbol.c:1225-1257 | a graph with a cycle has no rank |
| DepCheck.DescendsIsRanked | scripts/config/symbol.c:1140-1186 | the checked edges cover everything an evaluation reads, so acyclic means that evaluation is well founded |
| DepCheck.DepChecker.CheckSymDeps | scripts/config/symbol.c:1140-1186 | a symbol is returned only if the graph has a cycle; with recursive_is_error none is returned only when all dependencies are finished and ranked; the stack is as before |
| DepCheck.DepChecker.CheckDeps | scripts/config/symbol.c:1225-1257 | the same for a symbol in any state of the search: in progress means a cycle, checked means finished, new means searched; in-progress marks are as before the call |
| DepCheck.DepChecker.CheckAll | scripts/config/parser.tab.c:2268-2272 | with recursive_is_error the loop over all symbols counts no error if and only if the checked edges have no cycle, if and only if a rank exists; without it, it never counts one |
| Choice.SelectionIsVisible | scripts/config/symbol.c:241-297 | what a choice selects is a visible member, and there is none only if no member is visible |
| Choice.ChoiceGroup.CalcChoice | scripts/config/symbol.c:267-297 | members' visibilities are computed, the user flag is kept only if every visible member was decided, and the pick, a default, or the first visible member is selected in this order |
| Choice.OwnValueIsComputed | scripts/config/symbol.c:350-393 | the choice's own value is what the evaluator computes for a bool with its prompts and dependencies |
| Choice.ChoiceGroup.CalcGroup | scripts/config/symbol.c:241-440 | from the values of all other symbols: the mode is y if and only if the choice's own value is and some member is visible under it; then exactly one member is y, it is visible, and it is the user's pick if that is visible; otherwise none is |
| Choice.ChoiceGroup.PickAndRead | scripts/config/symbol.c:474-508 | picking a visible member and recalculating selects it and deselects all others, whatever happens to symbols the group does not depend on |
| Choice.PickLeavesDeps | scripts/config/symbol.c:474-508 | symbols of lower rank keep their values when a choice or its members are written to |
| BuiltSymbols.BuiltMembersAreBelow | scripts/config/menu.c:337-343 | members with the prompts that menu_finalize leaves are invisible where the choice is n |
| MenuDeps.PropagateMeaning | scripts/config/menu.c:350-359 | a node's dependency, simplified, has the value of its parent's and its own together |
| MenuDeps.PropertyMeaning | scripts/config/menu.c:375-405 | a property's condition is n exactly when the node's dependency or the written condition is, and for a tristate has their exact value |
| MenuDeps.NodeDepMeaning | scripts/config/menu.c:350-431 | at any depth a node depends on the conjunction of everything written on the way down |
| MenuDeps.PromptsMeaning | scripts/config/menu.c:375-405 | a symbol is visible if and only if at some place everything written on the way down and the condition of a prompt hold |
| MenuDeps.DirectDepMeaning | scripts/config/menu.c:503-503 | the collected direct dependency is n if and only if some place has dependencies and those of no such place hold; places without any count for nothing |
| MenuDeps.ReverseDepMeaning | scripts/config/menu.c:411-419 | a collected reverse or weak reverse dependency holds if and only if some selecting symbol is on where everything written for the select holds |
| MenuDeps.VisibleWithoutDirectDep | scripts/config/menu.c:399-405 | a symbol is visible while its direct dependency is n if and only if an unconditional place with a prompt that holds was forgotten beside conditional places none of which holds |
| MenuDeps.VisibleNeedsDirectDep | scripts/config/menu.c:399-405 | in particular a visible prompt implies the collected direct dependency when all places are unconditional or no unconditional one has a prompt |
| MenuDeps.UnconditionalPlaceIsForgotten | scripts/config/menu.c:503-504 | the case occurs: a concrete symbol is visible while its direct dependency is n |
| MenuDeps.AgainstNoMeaning | scripts/config/menu.c:455-487 | what the test compares are the two-valued readings of the two conditions, after any simplification |
| MenuDeps.SupersetMeaning | scripts/config/menu.c:479-488 | an entry that passes the superset test is never visible by its two-valued reading while the symbol's prompt is not visible |
| MenuDeps.JoinsSubmenuMeaning | scripts/config/menu.c:462-488 | an entry that joins a submenu needs the symbol, or at least all that the symbol's prompt needs, unless it holds where its reading does not |
| MenuSuperset.SupersetFails | scripts/config/menu.c:479-488 | with such a NOT it fails: an entry joins a submenu and is visible where neither the symbol nor its prompt is |
| MenuDeps.DependsOnSymbolMeaning | scripts/config/expr.c:879-906 | an expression that depends on a symbol is n whenever the symbol is n |
| MenuTree.ProperIsDistinct | scripts/config/menu.c:305-503 | whether a node occurs twice can be read off the preorder list alone, however the nodes are grouped |
| MenuFinalize.FlattenAt | scripts/config/menu.c:574-583 | the children of an entry without prompt become its next siblings, in order and with their new parent |
| MenuFinalize.AbsorbLoop | scripts/config/menu.c:460-495 | consecutive siblings that pass the test are finalised and renamed to the new parent, the rest is untouched |
| MenuFinalize.TakeOver | scripts/config/menu.c:497-501 | relinking turns the run of siblings behind a node into its children |
| MenuFinalize.FinalizeKids | scripts/config/menu.c:430-431 | the loop finalises every child although each call may swallow siblings behind it |
| MenuFinalize.Finalize | scripts/config/menu.c:305-583 | preorder unchanged, all next, list and parent links consistent, every node of the subtree and of the swallowed siblings visited once with the expressions propagated to it, and each of its symbol places, selects and implies collected once |
| MenuFinalize.FinalizeRoot | scripts/config/parser.tab.c:2267-2267 | for any tree and any outcome of the tests: same preorder list, no node twice, links consistent, every node finalised exactly once and carrying the expressions propagated along the tree as written, every symbol place, select and imply collected exactly once |
| MenuFinalize.CollectedDeps | scripts/config/menu.c:411-503 | what is collected for a symbol, one entry after the other, is the direct dependency over its own places and the reverse and weak reverse dependency over those that select and imply it |
| MenuFinalize.InheritedMeaning | scripts/config/menu.c:350-431 | in the finished tree every node, at any depth, depends on exactly what was written on the way down to it, beginning with the choice where it is in one |
| BuiltSymbols.FinalizedIsBuilt | scripts/config/menu.c:305-503 | after menu_finalize, a symbol with the collected dependencies and the prompts of its nodes has exactly the conditions of the places where it was written, selected and implied, however the tree was regrouped |
| BuiltSymbols.VisibleBuiltSymbol | scripts/config/symbol.c:172-233 | a symbol built by menu_finalize is visible without its direct dependency if and only if a visible prompt at an unconditional place was forgotten |
| BuiltSymbols.SelectedBuiltSymbol | scripts/config/symbol.c:215-223 | its reverse dependency holds if and only if some symbol that is on selects it where everything written for the select holds |
| Configuration.BuiltSymbolKeepsWrite | scripts/config/symbol.c:453-508 | for such a symbol a write within range sticks if and only if not both a prompt was forgotten and some place selects the symbol, all in terms of what was written |
| Configuration.AcceptedWriteIsLost | scripts/config/symbol.c:379-508 | a tristate with a forgotten prompt that another symbol selects at m accepts y and is n at the next calculation |
| ExprSyms.OptimisedSyms | scripts/config/expr.c:664-849 | transforming and optimising brings in no symbol but y, m and n |
| Configuration.OptimiseKeepsRank | scripts/config/menu.c:350-421 | the optimised configuration has an evaluation order whenever the original has one |
| Configuration.OptimiseIsTransparent | scripts/config/menu.c:350-421 | transforming and optimising every expression of a configuration changes no symbol's visibility, dependencies or value, for any user values |
| Configuration.EqualWriteCanMoveValue | scripts/config/symbol.c:474-508 | a concrete symbol that is y becomes m by writing y to it |
| MenuWalk.LinesOnce | scripts/config/confdata.c:871-893 | each symbol is written at most once, and exactly those that some node calls for |
| MenuWalk.ConfWriter.Write | scripts/config/confdata.c:871-919 | the walk without a stack passes every node below the root once, in preorder and properly nested, writes each symbol's line at its first node, stops, and clears all marks |
| ConfStrings.EscapeRoundTrip | scripts/config/symbol.c:850-891 | reading an escaped string gives it back and stops at the closing quote, and reads nothing without one |
| ConfStrings.EscapeStringValue | scripts/config/symbol.c:850-891 | the two passes agree: the second fills exactly the space the first counted |
| ConfStrings.UnescapeInPlace | scripts/config/confdata.c:259-277 | shifting the text over each backslash leaves the unescaped string in the buffer, or reports a missing quote |
| ConfFile.ValueRoundTrip | scripts/config/confdata.c:234-293 | reading the text of any valid value gives the value |
| ConfFile.LineRoundTrip | scripts/config/confdata.c:593-614 | a written line sets its symbol to the value it had and touches no other |
| ConfFile.FileRoundTrip | scripts/config/confdata.c:422-489 | a file of symbol lines and any other lines is read to exactly what its lines say, one after the other, whatever was set before |
| ConfFile.SaidExactly | scripts/config/confdata.c:422-489 | with distinct names every symbol has its own value back and no other symbol has one, if and only if every other line that says something about a symbol is overruled by a later one or repeats the symbol's own |
| ConfFile.LastDecides | scripts/config/confdata.c:422-489 | the last line about a symbol decides its value, and without one nothing changes |
| ConfFile.StringSurvives | scripts/config/confdata.c:422-489 | a string is read back if and only if it has no newline; with one, its symbol has no value afterwards |
| ConfFile.SetSymVal | scripts/config/confdata.c:234-293 | the value or rejection for each type, with the string case done in the buffer |
| ConfFile.GetLine | scripts/config/confdata.c:316-348 | reading characters up to a newline peels off the first line of what is left |
| ConfFile.Reader.ReadSimple | scripts/config/confdata.c:375-489 | the loop over the lines leaves exactly what ReadFile says |
| SaveAndLoad.SaveAndLoad | scripts/config/confdata.c:827-919 | whatever the menu tree's shape and the texts of its menus, after saving by the walk, with the opening comment and all headings and blank lines, and loading, every saved symbol has its value back and nothing else has one if and only if all lines printed for menus are harmless |
| SaveAndLoad.SaveLoadCalculate | scripts/config/confdata.c:827-919 | when all other lines are harmless, loading the file and calculating again gives every symbol the value it had if and only if no saved symbol was y by default under a prompt that only allows m |
| SaveAndLoad.PrintedEntries | scripts/config/confdata.c:871-919 | the symbol lines among all that is printed are one for each symbol of the walk, in order |
| SaveAndLoad.TitleCanUnset | scripts/config/confdata.c:878-881 | the heading of a menu with the text of an unset symbol's line says that the symbol is n |
| SaveAndLoad.TitleUnsetsSymbol | scripts/config/confdata.c:871-919 | a configuration with a bool A that is y, followed by a menu of such a text, is saved to a file that loads A as n |
| SaveAndLoad.HeadingText | scripts/config/confdata.c:878-907 | line by line, what is printed for a menu is its heading and its ending, nothing lost where the text has newlines |
| Reload.ReloadKeepsValues | scripts/config/confdata.c:513-548 | taking calculated values as user values and calculating again changes no value if and only if no symbol that got one stands above its prompt |
| Preprocess.CountersOnlyFail | scripts/config/preprocess.c:251-277 | counters only turn expansions into errors of their own: apart from these, a text has the same outcome, success or error, where the variables have been entered less often |
| Preprocess.SelfReferenceFails | scripts/config/preprocess.c:251-277 | a variable or function whose value refers to itself with any arguments, behind any text whose references are closed, never expands, it always ends in an error |
| Preprocess.ExpansionConcatenates | scripts/config/preprocess.c:495-537 | the expansion of a text with closed references followed by another text is one expansion followed by the other |
| Preprocess.SimpleDefinition | scripts/config/preprocess.c:279-322 | after := a name stands for the expansion its text had then, whatever changes later |
| Preprocess.RecursiveDefinition | scripts/config/preprocess.c:279-322 | after = a name stands for what its text expands to at the time of use, success or error, but for errors of counters where the text comes back to the name |
| Preprocess.Split | scripts/config/preprocess.c:366-399 | one pass cuts a clause at the commas outside parentheses, or fails when there are too many |
| Preprocess.FindClose | scripts/config/preprocess.c:469-481 | counting finds the parenthesis that closes the reference |
| Preprocess.Preprocessor.ExpandString | scripts/config/preprocess.c:495-537 | always ends, gives the specified expansion or error, and on success restores every counter |
| Preprocess.Preprocessor.EvalClause | scripts/config/preprocess.c:346-439 | an argument, else name and arguments expanded in order and looked up as variable, built-in, environment, in this order |
| Preprocess.Preprocessor.VariableExpand | scripts/config/preprocess.c:251-277 | the counter is one higher exactly while the value is expanded |
| Preprocess.Preprocessor.Add | scripts/config/preprocess.c:279-322 | the table after a definition, append or redefinition is the specified one |
| Blocks.OnlyFold | scripts/mkhash.c:620-659 | a function that goes on block by block with the compression function is the fold over the whole message |
| Blocks.LittlePaddingIsInjective | scripts/mkhash.c:348-380 | two messages whose length fits the field are padded alike only if equal |
| Blocks.BigPaddingIsInjective | scripts/mkhash.c:572-606 | the same for the big-endian length field |
| Sha256.T1Agrees | scripts/mkhash.c:472-500 | the round macro's sum with rewritten Ch and shifts is T1 of FIPS 180-4 section 6.2.2 |
| Sha256.Turned | scripts/mkhash.c:495-500 | writing d and h where the rotated indices point is one shift of all registers |
| Sha256.Transform | scripts/mkhash.c:450-563 | rotating indices, unrolled rounds and interleaved schedule give the compression of section 6.2.2 for every state and block |
| Sha256.Context.Update | scripts/mkhash.c:628-659 | bytes of any number are taken: state, buffer and bit count again describe the whole message so far |
| Sha256.Context.Pad | scripts/mkhash.c:572-606 | the state becomes the hash of the message padded as in section 5.1.1 |
| Sha256.Context.Final | scripts/mkhash.c:665-675 | the digest is the standard's for all bytes taken, and the context is cleared |
| Sha256.HashChunks | scripts/mkhash.c:715-728 | for every way of cutting a file into chunks the digest is the standard's for its contents |
| Md5.MacroIsAuxiliary | scripts/mkhash.c:144-149 | the rewritten F, G, H, H2, I are the auxiliary functions of RFC 1321 section 3.4 |
| Md5.IndexSteps | scripts/mkhash.c:216-284 | the words of a block are taken in steps of 1, 5, 3 and 7 |
| Md5.Block64 | scripts/mkhash.c:209-291 | the 64 written-out operations are the compression of section 3.4 |
| Md5.LengthCarries | scripts/mkhash.c:316-319 | with the carry told by lo getting smaller, hi * 2^29 + lo stays the number of bytes modulo 2^61 |
| Md5.LengthField | scripts/mkhash.c:366-374 | the two words written are the length in bits modulo 2^64 |
| Md5.Context.Hash | scripts/mkhash.c:310-345 | bytes of any number are taken: registers, buffer and length again describe the whole message so far |
| Md5.Context.End | scripts/mkhash.c:347-396 | the digest is the RFC's for all bytes taken, and the context is cleared |
| Md5.HashChunks | scripts/mkhash.c:700-713 | for every way of cutting a file into chunks the digest is the RFC's for its contents |

## Left out

- ExprTransform.TransBoolKeepsNo: for whole trees a sufficient condition; TransBoolUnderNot gives the exact one for a negated comparison.
- ExprTransform.TransCompareCorrect: for y and n; comparing a connective with m is left as it is by the code and is not called.
- ConfFile.FileRoundTrip: file contents are character sequences without NUL; the values of unset or invalid int and hex symbols are not restored by the code and are not valid values here.
- Symbols.SpecIsFixpoint: range limits of int and hex symbols (sym_validate_range), choices, and modules_sym changing during a calculation.
- DepCheck.DepChecker.CheckAll: dependencies through choice groups, and the wording of the report.
- Choice.ChoiceGroup.CalcGroup: tristate choices; members have no defaults, selects or weak dependencies of their own.
- MenuFinalize.Finalize: type inheritance and member flags of choices, and the reverse dependency of choices themselves; a node has a dependency, at most one prompt, selects and implies, and no other properties.
- ExprCells.Cell: a slot and the node it points to are one object, so a tree that shares nodes, and memory release, are not captured.
- Preprocess.Split: a clause with exactly sixteen top-level commas overruns the argument array in the source; here it is the same failure as more commas.
- Preprocess.Preprocessor.Add: a := definition whose text refers to its own name reads a value already released in the source; here that is the failure NoValue.
- Preprocess.Preprocessor.EvalClause: environment, command output, file name and line are parameters; the list of environment variables read, and the printing of info and warning-if, are not kept.
- SaveAndLoad.SaveAndLoad: symbols of choices; visibility and text of menus are parameters.
- Numbers: strtoll and strtoull are modelled for the texts the engine passes, without locales.
- ExprText.Lex: macros in quoted text or words, which the lexer would expand, end the reading; the parser's tables are modelled by recursive descent from the expression rules.
- conf_write_defconfig, reading auto.conf, the header and auto.conf writers, random and all-yes configurations, regular expression search, all user interfaces.
- File, process and terminal access, memory release, warning texts.
- The other tools in the repository: scripts in Python and shell, px5g, flashing tools.
