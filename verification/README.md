# A verified model of the Kconfig engine

Buildroot's configuration system decides the value of every configuration symbol in two programs:
the C engine under `support/kconfig` and the Python library `support/scripts/kconfiglib.py`. This
project models the logic of both in Dafny and proves what their callers rely on. `dafny verify
dfyconfig.toml` checks everything.

## What is modelled

**Expressions** (`support/kconfig/expr.c`). Dependencies are trees over three values n < m < y with
AND as minimum, OR as maximum and NOT as 2 - x. `Expressions` gives them a value under *typed
assignments*: a boolean symbol is never m, and the string of a boolean or tristate symbol is the name
of its value. Every rewrite of the file is modelled with its branches.

- `ExprCompare`, `ExprTransform`, `ExprJoin`: what each rewrite computes, as functions on trees, and
  the proofs that it keeps the value.
- `ExprThorough`: what comparing, cancelling and extracting do not leave undone.
- `ExprNodes`: the procedures on `struct expr` nodes that overwrite, reuse and allocate nodes in
  place, each proved to leave the tree its function gives, for trees whose nodes have one owner.
- `ExprSpine`, `ExprDups`: `expr_eliminate_dups`, which moves two aliased cursors over one tree and
  rewrites it at both. A cursor is a path into the tree that an object holds.

**Values** (`support/kconfig/symbol.c`). `Calculation` defines the value of every symbol by recursion
over acyclic dependencies. `SymbolTable` is the calculation as it runs: flags, stored values,
`modules_val`, choice selection, memoised recursion. `CalculationLaws` states the equations that the
calculated values solve, and that nothing else does. `UserValues` has the consequences for choices and
user values, `UserMarks` what happens to the marks of user values, `Cycles` the search for recursive
dependencies.

**Menus** (`support/kconfig/menu.c`). `MenuDependencies` has the conditions of entries and the test
for automatic submenus, `Menus` the tree of `next`, `parent` and `list` links: the relinking by
`menu_finalize` and the walk that the writers of configurations do.

**Configuration files** (`support/kconfig/confdata.c`). `Escape` has string escaping, character by
character and in place. `ConfigLines` and `ConfigFile` write a minimal configuration from a calculated
table and read it into a fresh one; `Defconfig` shows that no value is lost.

**Kconfiglib** (`support/scripts/kconfiglib.py`). `ExprParser` has the recursive descent parser and
the printer for expressions. `KconfigValues` evaluates a configuration without caches, `KconfigChanges`
shows what a change can reach, `KconfigCache` is the cached evaluation with its invalidation, and
`KconfigLaws` has the equations that its answers solve.

## Where the code does not do what one would expect

Each of these comes with a condition that says when it does not happen, except for the loop in
`zconf.y`, and where the condition fails with an input or a run on which it does.

- `expr_eliminate_dups` is not value preserving: where `x && !x` is folded to n an m becomes n. What
  holds is the information order: y and n stay, only m may be sharpened, so without m it is exact.
- `expr_trans_compare` swaps = and != below NOT, which is right exactly when the operand is not m.
  The submenu test inherits this: there is an entry that passes it and can still be on while the
  prompt above is off.
- `expr_trans_bool` is invisible to readers that take m for y only because NOT stands over symbols.
- `sym_calc_choice` takes the user mark from a choice that has a visible member without one, such as a
  new member, but leaves the choice on. The next accepted value then recalculates everything without
  the mark: the choice can go off, and with it the symbol that was set. Recalculating repeats the table
  if and only if every choice that is on still has its mark or is selected; a value takes effect if this
  is so for the other choices, and in any case exactly if it can be had in the table calculated anew.
- A choice that is set to y stays n although y was accepted, exactly if none of its members would be
  visible while it is on. `sym_tristate_within_range` does not look at the members.
- The loop in `support/kconfig/zconf.y` that counts recursive dependencies always counts none, since
  a cycle is closed at a symbol on the stack and that symbol swallows the result. What is *reported* is
  always a cycle. A cycle can be missed: a choice value that is shown by a symbol that reads the choice
  is not noticed when the choice is checked first. This cannot happen where only its own values read a
  choice; otherwise the order in which the symbols were finished tells whether it did.
- A minimal configuration leaves out what the user said about a symbol that is selected at least as
  strongly as it is visible. So a string that something selects (the parser only warns about that)
  loses its text, and with modules an m on a tristate that is selected as m and y by default is lost.
  All values come back if and only if nothing is lost in this way. What it saves is needed, except for a
  tristate choice value that the choice would select anyway.
- The C unescaping and the two replacements of Kconfiglib differ on a backslash before an ordinary
  character. They agree on a text in quotes if and only if the text is the escaped form of something.
- Kconfiglib's `unset_user_value` does not treat MODULES as `set_user_value` does, so it can leave
  wrong cached values; it does not if there are modules as before, and otherwise only those of symbols
  whose evaluation may meet an m, and of their dependents, can be wrong.
- Kconfiglib never invalidates the visibility of a choice without members nor that of a special symbol.
  It stays right if the prompts read nothing that a change reaches; if they are shown by one boolean
  symbol, exactly as long as that keeps its value.

## Model

| member | source | states |
|---|---|---|
| Expressions.DependsImpliesOn | support/kconfig/expr.c:793-824 | a tree that expr_depends_symbol says depends on a symbol is n whenever the symbol is n |
| Expressions.EvalReadsContained | support/kconfig/expr.c:773-791 | the value depends only on symbols that expr_contains_symbol finds |
| ExprCompare.EliminateYnKeepsValue | support/kconfig/expr.c:231-312 | dropping y and n from AND and OR keeps the value under every assignment |
| ExprCompare.EliminateYnIsThorough | support/kconfig/expr.c:231-312 | afterwards no AND or OR outside NOT has y or n as an operand, and a tree changes exactly if it had one and then loses a node |
| ExprCompare.EliminateYnKeepsShape | support/kconfig/expr.c:231-312 | NOT stays over plain symbols |
| ExprCompare.EliminateEqInSplits | support/kconfig/expr.c:130-162 | there is a common value that, joined with what is left of each tree, gives back both original values |
| ExprCompare.ExprEqSound | support/kconfig/expr.c:189-229 | trees found equal have the same value under every assignment, although the comparison cancels leaves in copies |
| ExprCompare.EliminateEqBackwards | support/kconfig/expr.c:164-184 | min(old first, new second) never exceeds the old second tree, and so in the other direction |
| ExprCompare.CancelledBaseIsImplied | support/kconfig/menu.c:332-341 | if cancelling leaves y of the base condition, the dependency is at most the base under every assignment |
| ExprCompare.ExtractEqRecombines | support/kconfig/expr.c:849-875 | what is taken out, joined with what remains of a tree, has the value the tree had, for both trees and on top of terms taken out before |
| ExprCompare.ExtractEqTopRecombines | support/kconfig/expr.c:826-847 | the same for expr_extract_eq_and and expr_extract_eq_or after dropping constants |
| ExprThorough.ExprEqReflexive | support/kconfig/expr.c:189-229 | every tree is equal to itself, although AND and OR are compared by cancelling in copies |
| ExprThorough.EliminateEqInLeavesNothing | support/kconfig/expr.c:130-162 | cancelling only replaces operands by the neutral constant, and in the end no operand of one tree but y and n is equal to one of the other |
| ExprThorough.OperandCancels | support/kconfig/expr.c:164-184 | a term that is an operand of the other tree cancels away, whichever of the two comes first |
| ExprThorough.ExtractEqLeavesNothing | support/kconfig/expr.c:849-875 | the same for extracting |
| ExprThorough.NothingIsLeft | support/kconfig/expr.c:577-585 | of symbols combined by one operator whose negations are all operands of the other, extracting leaves nothing |
| ExprThorough.TransBoolLeavesNoTest | support/kconfig/expr.c:317-341 | the result has no FOO!=n for a tristate FOO anywhere, and the tree stays as it is if and only if it had none |
| ExprThorough.DependsOnOperand | support/kconfig/expr.c:793-824 | a tree depends on a symbol if and only if an operand that AND combines is the symbol or one of s=y, s=m, s!=n |
| ExprThorough.ContainsIsOccurs | support/kconfig/expr.c:773-791 | a tree contains a symbol if and only if another one in its place changes the tree |
| ExprTransform.TransformKeepsValue | support/kconfig/expr.c:636-771 | expr_transform keeps the value under every assignment; it terminates although De Morgan steps grow the tree |
| ExprTransform.TransformNormalizes | support/kconfig/expr.c:636-771 | the result has NOT only over symbols other than y, m, n and compares no boolean with these |
| ExprTransform.TransformFixesExactlyNormal | support/kconfig/expr.c:636-771 | a tree is left unchanged if and only if it has this normal form |
| ExprTransform.TransformIdempotent | support/kconfig/expr.c:636-771 | transforming twice is transforming once |
| ExprTransform.TransBoolInvisible | support/kconfig/expr.c:317-341 | with NOT over symbols, the value with m promoted to y does not change when FOO!=n becomes FOO |
| ExprTransform.TransBoolVisibleUnderNot | support/kconfig/expr.c:317-341 | below NOT the rewrite is invisible exactly when the symbol is not m |
| ExprTransform.TransBoolKeepsNormal | support/kconfig/expr.c:317-341 | the normal form survives |
| ExprTransform.TransCompareDecides | support/kconfig/expr.c:877-936 | over symbols with a truth value and no m below NOT, the result is y exactly when the tree equals (differs from) the constant, otherwise n |
| ExprTransform.TransCompareUnderNot | support/kconfig/expr.c:908-909 | for a negated symbol the comparison is right exactly when the symbol is not m |
| ExprTransform.TransCompareDefinite | support/kconfig/expr.c:877-936 | the result is never m |
| ExprJoin.JoinOrKeepsValue | support/kconfig/expr.c:346-408 | joining two operands of OR into one tree keeps the value of the OR |
| ExprJoin.JoinAndKeepsValue | support/kconfig/expr.c:410-502 | joining two operands of AND into one tree keeps the value of the AND |
| ExprJoin.JoinKeepsShape | support/kconfig/expr.c:346-502 | a joined tree is no larger than the first operand, no node of the same operator, and keeps the normal form and NOT over symbols |
| ExprJoin.TermsJoinExactly | support/kconfig/expr.c:346-502 | two terms are joined if and only if they are the same, or about one symbol and in the table of the comments: s with s=y, s!=n or s!=m; comparisons of one tristate with constants; a boolean and its negation under OR |
| ExprDups.OpposesDecides | support/kconfig/expr.c:577-585 | a symbol and its negation decide AND and OR except where the symbol is m |
| ExprDups.OpposeChangesOnlyMod | support/kconfig/expr.c:577-596 | replacing them by the constant changes the value exactly where the symbol is m and the rest leaves it visible |
| ExprDups.Rewriter.EliminateDups1 | support/kconfig/expr.c:504-554 | below the cursors values stay, each counted change makes an AND or OR node reducible, no change means no two operands can be joined |
| ExprDups.Rewriter.EliminateDups2 | support/kconfig/expr.c:556-610 | below the cursors y and n stay, each counted change makes a node reducible, no change means no symbol meets its negation |
| ExprDups.Rewriter.EliminateDups | support/kconfig/expr.c:612-634 | y and n never change, and without m no value does; the loop ends because each round that counts a change loses a node; in the end no combination, at any level, holds an operand twice, two terms that fold into one, or an operand made of symbols whose negations are all operands too; a tree stays as it is exactly if nothing could be joined or opposed; if all that can happen is that an operand is opposed, one constant remains |
| ExprDups.DefiniteValue | support/kconfig/expr.c:938-977 | a tree without m has no value m under an assignment without m |
| ExprDups.EitherOpposesNeither | support/kconfig/expr.c:577-585 | the step that does it: a or b is found to be opposed by the negations of both |
| ExprDups.SharpeningHappens | support/kconfig/expr.c:612-634 | a run of expr_eliminate_dups turns a tree that is m into n |
| ExprNodes.EliminateYn | support/kconfig/expr.c:231-312 | in place: the node it was called with holds the cleaned tree, built from nodes of the old one |
| ExprNodes.TransBool | support/kconfig/expr.c:317-341 | in place: the same nodes hold the rewritten tree |
| ExprNodes.Transform | support/kconfig/expr.c:636-771 | in place: the returned node holds the transformed tree; other nodes than the old ones are new |
| ExprNodes.Copy | support/kconfig/expr.c:51-85 | an equal tree of new nodes |
| ExprNodes.EliminateEqIn | support/kconfig/expr.c:130-162 | both pointers hold the trees after cancelling, which still share no nodes; trans_count does not fall |
| ExprNodes.EliminateEq | support/kconfig/expr.c:164-184 | the same with both operators tried and constants dropped |
| ExprNodes.ExprEq | support/kconfig/expr.c:189-229 | decides by cancelling in copies: the trees stay, and trans_count is restored |
| MenuDependencies.SimplifyOpt | support/kconfig/expr.c:612-634 | expr_eliminate_dups on a condition that may be null |
| MenuDependencies.Conjoin | support/kconfig/menu.c:294-298 | the new condition has the value of outer && own wherever that is y or n |
| MenuDependencies.PropertyCondition | support/kconfig/menu.c:303-310 | the same for a property; for a symbol that is not tristate a reader that takes m for y sees no difference |
| MenuDependencies.OnTest | support/kconfig/menu.c:323-324 | the compared condition is y exactly when the condition is not n, without m below NOT |
| MenuDependencies.SubmenuTest | support/kconfig/menu.c:328-341 | an entry whose condition is about the symbol has to go below it if an operand of AND needs the symbol, if the prompt has no condition, or if the settled questions cancel to y; it only goes if it is n when the symbol is or, without m below NOT, n when the prompt is |
| MenuDependencies.ImplicationNeedsDefinite | support/kconfig/menu.c:328-341 | a run of the test that takes an entry below a symbol although it can be on while the prompt is off, with an m below NOT |
| Menus.Menu.Inherit | support/kconfig/menu.c:294-318 | condition, prompt and properties of an entry each come from what they were and what is above |
| Menus.Narrow | support/kconfig/menu.c:303-310 | where base && own is definite, a reader of the symbol's type finds this value in the new condition |
| Menus.InheritAll | support/kconfig/menu.c:294-318 | all entries of a list get their new conditions, nothing below them changes |
| Menus.Finalize | support/kconfig/menu.c:262-424 | the preorder of entries stays, links stay consistent, no entry below has entries without a prompt text, all settled conditions are derived along the original nesting; of the entries after a symbol those taken below it imply the symbol or its prompt, and the next one left behind is none that had to go there |
| Menus.Absorb | support/kconfig/menu.c:325-352 | every entry taken below a symbol is about it and implies the symbol or the condition of its prompt; the first one left is none that had to go there, so with an unconditional prompt it is not about the symbol |
| Menus.Dissolve | support/kconfig/menu.c:395-404 | the entries below an entry are spliced in after it with the new parent |
| Menus.Flatten | support/kconfig/menu.c:354-404 | the preorder stays and afterwards only entries with a prompt text have entries below them |
| Menus.SwitchedOff | support/kconfig/menu.c:294-318 | where an entry passes on n, the conditions of everything written below it are n (as long as the choices there are n) |
| Menus.SamePreorder | support/kconfig/menu.c:262-424 | trees with the same preorder have the same entries, and if one has each entry once so has the other |
| Menus.LinkedIsDistinct | support/kconfig/expr.h:159-173 | links that are complete below an entry lead to no entry twice and not back to the entry |
| Menus.Walk | support/kconfig/confdata.c:781-814 | the iterative walk ends and visits every entry below the root exactly once, in preorder, for every linked tree |
| Menus.Onward | support/kconfig/confdata.c:803-813 | the step to the next entry or up loses no entry |
| Calculation.MemberVisibilitySettles | support/kconfig/symbol.c:260-290 | while a choice is y its members are as visible as when it selected one |
| Calculation.CalcIsTyped | support/kconfig/symbol.c:292-428 | booleans are never m, without modules nothing is, and only booleans and tristates have a tristate value |
| UserValues.TrisIsEval | support/kconfig/expr.c:938-977 | evaluating in a calculated table is evaluating under a typed assignment, so the rewrites are sound for configurations |
| UserValues.CalcUnaffected | support/kconfig/symbol.c:292-428 | changing the input of a symbol reaches nothing of lower rank; nor does taking the user mark from a choice that is selected anyway |
| UserValues.MemberValue | support/kconfig/symbol.c:330-374 | a fully visible choice value is y exactly if selected, any other follows the user up to its visibility |
| UserValues.ChoiceExclusive | support/kconfig/symbol.c:330-403 | a choice value never exceeds its choice and is y exactly if the choice is y, selects it and it is fully visible |
| UserValues.AtMostOneMember | support/kconfig/symbol.c:330-403 | two choice values of one choice that are y are the same |
| UserValues.NothingToSelect | support/kconfig/symbol.c:234-290 | a choice selects nothing if and only if none of its members would be visible while it is on |
| UserValues.AcceptedValueTakesEffect | support/kconfig/symbol.c:462-515 | a value within range is what the symbol, a choice included, has after recalculation, if and only if it is not y for a choice none of whose members would be visible |
| UserValues.PickedMemberTakesEffect | support/kconfig/symbol.c:496-511 | setting a choice value to y makes it y and every other one not y, whether or not its choice has lost its user mark |
| UserValues.SetUserRecords | support/kconfig/symbol.c:481-515 | what setting a value stores, symbol by symbol: the value, for a choice value set to y its choice picks it, and marks for the symbol, that choice and all its visible values |
| UserValues.SetUserTakesEffect | support/kconfig/symbol.c:481-515 | an accepted value takes effect, for choice values and choices as well, if no other choice depends on a user mark that it has lost; the only exception is y for a choice none of whose members would be visible |
| CalculationLaws.CalcSolves | support/kconfig/symbol.c:188-428 | the calculated values solve equations over the values of the other symbols: visibility is the strongest prompt condition; a symbol is the user's value as far as it is visible, or else its first active default and its condition, or what selects give if that is more; texts likewise; a choice that is on selects what the user picked, what a default names, or the first that is shown; and what is written |
| CalculationLaws.SolutionIsCalc | support/kconfig/symbol.c:188-428 | on an acyclic table nothing else solves these equations |
| CalculationLaws.RangeIsFreedom | support/kconfig/symbol.c:462-479 | a value may be set if and only if the user can give the symbol this value and also another one; fully visible choice values are picked instead |
| CalculationLaws.ChoiceRangeIsFreedom | support/kconfig/symbol.c:462-479 | the same for a choice before it looks for something to select |
| UserMarks.WithoutMark | support/kconfig/symbol.c:266-276 | a choice that loses its user mark is afterwards what it is selected to be |
| UserMarks.RecalculationRepeats | support/kconfig/symbol.c:260-290 | calculating again from the marks that are left gives every symbol the same outcome if and only if no choice was on only because of a mark that it has lost |
| UserMarks.SetTakesEffectExactly | support/kconfig/symbol.c:481-515 | a value that is set takes effect if and only if the symbol, a choice included, can take it in the table calculated anew from the stored input |
| UserMarks.AcceptedWithoutEffect | support/kconfig/symbol.c:273-276 | a table with a new choice value in which an accepted value does not take effect |
| UserMarks.ChoiceStaysOff | support/kconfig/symbol.c:260-290 | a table with a choice that accepts y and stays n because its member is hidden |
| SymbolTable.Table.CalcValue | support/kconfig/symbol.c:292-428 | ends on every table because each call makes another symbol valid; valid symbols keep their values; on an acyclic table everything it makes valid is right, and the values are even when MODULES gets another value |
| SymbolTable.Table.ExprValue | support/kconfig/expr.c:938-977 | the value of an expression by the definition, with all its symbols calculated |
| SymbolTable.Table.CalcVisibility | support/kconfig/symbol.c:188-226 | visibility, direct and reverse dependency as the definition has them; all they read has been calculated |
| SymbolTable.Table.FindDefault | support/kconfig/symbol.c:115-125 | the first default whose condition is not n |
| SymbolTable.Table.StringValue | support/kconfig/symbol.c:748-770 | the text of a calculated symbol |
| SymbolTable.Table.ChoiceDefault | support/kconfig/symbol.c:234-258 | the member a choice selects by default |
| SymbolTable.Table.CalcChoice | support/kconfig/symbol.c:260-290 | the user's pick if visible, otherwise the default; n without one; the choice keeps its user mark exactly if all visible members have one |
| SymbolTable.Table.MarkMembers | support/kconfig/symbol.c:412-423 | the visible members of a choice that is y are marked for writing |
| SymbolTable.Table.CalcAll | support/kconfig/symbol.c:292-428 | whatever the order, every calculated symbol has the outcome of the recursive definition |
| SymbolTable.Table.ClearAllValid | support/kconfig/symbol.c:430-440 | MODULES is calculated again from nothing, with what its conditions read; values are right, and so is the table if MODULES keeps its value |
| SymbolTable.Table.InRangeRight | support/kconfig/symbol.c:462-479 | sym_tristate_within_range on stored values decides range by the definition |
| SymbolTable.Table.StoredMarksDecide | support/kconfig/symbol.c:260-290 | on stored values: calculating again gives what is stored if and only if every choice that is on has its user mark or is selected |
| SymbolTable.Table.SetTristateValue | support/kconfig/symbol.c:481-515 | rejects exactly what is out of range and then changes nothing; stores the value, the pick of the choice and the marks of its visible values and changes no other input, apart from marks of choices that the calculation takes; the choice of a value set to y keeps its mark unless another value appears; an accepted value is the value of the symbol, a choice included, if every other choice that is on has its user mark or is selected, except for y for a choice without a member to show; in any case exactly if the table calculated anew can take it; for MODULES and the symbols its prompts, dir_dep and rev_dep read also when MODULES changes |
| SymbolTable.Table.RecordUser | support/kconfig/symbol.c:488-510 | the loop that stores a value and marks the values of a choice |
| SymbolTable.Table.PickStays | support/kconfig/symbol.c:481-515 | a choice value that is y stays y when a symbol is set that it does not depend on, if every choice that is on has its mark or is selected |
| SymbolTable.Table.SetKeepsPick | support/kconfig/symbol.c:481-515 | the same as a run: setting the symbol, then looking at the choice value |
| SymbolTable.SetWithoutEffect | support/kconfig/symbol.c:481-515 | a run in which a value is accepted and the symbol is n |
| SymbolTable.SetChoiceWithoutEffect | support/kconfig/symbol.c:481-515 | a run in which y is accepted for a choice that stays n |
| Cycles.RankedHasNoCycle | support/kconfig/symbol.c:1155-1224 | ranks that fall along every dependency, with whoever reads a choice above its values, exclude cycles |
| Cycles.ClosingIsCycle | support/kconfig/symbol.c:1192-1202 | meeting a symbol or choice that is on the stack closes a cycle |
| Cycles.Checker.CheckDeps | support/kconfig/symbol.c:1192-1224 | visits what is reachable, a choice value as its choice; leaves no check mark or stack entry; reports only cycles; reports nothing if a ranking puts all that is under check above the symbol and the readers of unchecked choices above their values |
| Cycles.Checker.CheckGroup | support/kconfig/symbol.c:1155-1190 | a choice is checked before its values, which are marked with it; what is found at one of them is returned as found at the choice |
| Cycles.Checker.CheckExprDeps | support/kconfig/symbol.c:1090-1118 | walks the symbols of an expression |
| Cycles.Checker.CheckAll | support/kconfig/zconf.y:516-522 | in any order of the symbols: only cycles are reported, where a choice counts as one with its values; without a report all symbols are ranked, and there is a cycle if and only if a reader of a choice is not above its values; if only its own values read a choice, a cycle is reported if and only if there is one; the loop never counts an error |
| Cycles.MissedCycle | support/kconfig/symbol.c:1165-1178 | a run in which a cycle through a reader of a choice is not reported |
| Cycles.UnreportedIsAcyclic | support/kconfig/symbol.c:1090-1190 | without a report and a missed cycle the ranks make a table acyclic in the sense the calculation needs, choices before their values, if its choice values have prompts that mention the choice and no defaults, and symbols that compare texts of tristates come after MODULES, which the comparison reads |
| Cycles.ModulesFirst | support/kconfig/symbol.c:748-770 | a MODULES that depends on nothing can always come first |
| Escape.CountEscaped | support/kconfig/symbol.c:903-920 | the counted length is that of the text, two quotes, the terminator and one per special character |
| Escape.EscapeString | support/kconfig/symbol.c:903-944 | the buffer holds the quoted, escaped text and its terminator and is filled exactly |
| Escape.UnescapeInPlace | support/kconfig/confdata.c:152-166 | the loop over the buffer succeeds exactly if there is a closing quote and leaves the unescaped text |
| Escape.EscapeRoundTrip | support/kconfig/symbol.c:903-944 | unescaping an escaped text gives the text back, whatever follows the closing quote |
| Escape.PyEscapeIsEscape | support/scripts/kconfiglib.py:2953-2957 | Kconfiglib's two replacements escape as the C function does |
| Escape.PyRoundTrip | support/scripts/kconfiglib.py:306-309 | Kconfiglib's replacements undo its escaping, and the C unescaping agrees on escaped texts |
| Escape.WholeIsRead | support/kconfig/confdata.c:152-166 | the C loop reads a text whole if and only if it finds no closing quote in it, but takes one after it |
| Escape.UnescapesAgree | support/scripts/kconfiglib.py:306-309 | the two unescapings agree on a text in quotes if and only if the text is the escaped form of something |
| Escape.UnescapesDiffer | support/scripts/kconfiglib.py:306-309 | the shortest texts on which the two unescapings differ |
| Defconfig.HeldChoiceIsOn | support/kconfig/menu.c:419-423 | a visible choice that is not optional is on without modules, whatever the user says |
| Defconfig.SelectedMember | support/kconfig/confdata.c:680-712 | what a choice selects is saved as y unless the choice selects it anyway |
| Defconfig.SavesOnlySelected | support/kconfig/confdata.c:680-712 | a choice value saved as y is the selected one |
| Defconfig.SavedIsNeeded | support/kconfig/confdata.c:680-713 | a symbol that can be changed is saved if and only if it would have another value if the user had said nothing about it |
| Defconfig.SavedPickIsNeeded | support/kconfig/confdata.c:696-707 | the selection of a choice that is not optional is saved if and only if it would be another one if the user had picked nothing; a tristate value is saved even then |
| Defconfig.KeepsTri | support/kconfig/confdata.c:680-694 | a boolean or tristate keeps its value exactly if no user's m is lost on it |
| Defconfig.KeepsText | support/kconfig/confdata.c:680-713 | a string or number keeps its text exactly if it is not lost |
| Defconfig.ReloadKeeps | support/kconfig/confdata.c:656-727 | without modules, or with modules and without choices, reading back a minimal configuration gives a symbol or choice its outcome if nothing is lost on it and on what ranks below it |
| Defconfig.ReloadKeepsAll | support/kconfig/confdata.c:656-727 | without modules, or with modules and without choices, all values come back if and only if nothing is lost |
| Defconfig.TextLost | support/kconfig/menu.c:240-247 | a string that is selected loses its text |
| Defconfig.OnlyTextsLost | support/kconfig/confdata.c:680-694 | without modules only texts of selected symbols are lost |
| Defconfig.ValueLost | support/kconfig/confdata.c:689-691 | a table with modules whose minimal configuration gives another value |
| ConfigLines.ReadsBack | support/kconfig/confdata.c:335-373 | a line printed for a symbol is read as this value of this symbol |
| ConfigLines.FindSymNamed | support/kconfig/confdata.c:335-373 | looking up a symbol's name finds the symbol |
| ConfigFile.ReadsAll | support/kconfig/confdata.c:328-387 | reading all written lines gives the restored input |
| ConfigFile.StringDefault | support/kconfig/symbol.c:681-746 | the default text of a calculated symbol |
| ConfigFile.DefaultSelection | support/kconfig/symbol.c:234-258 | the default selection of a choice that has been calculated |
| ConfigFile.SymbolLine | support/kconfig/confdata.c:683-713 | whether and how a marked symbol is written |
| ConfigFile.WriteDefconfig | support/kconfig/confdata.c:656-727 | the lines are one for each symbol to be saved, in menu order, and the table is calculated right |
| ConfigFile.SetSymVal | support/kconfig/confdata.c:119-182 | the value or complaint for a text, unescaping in place |
| ConfigFile.ReadSimpleLine | support/kconfig/confdata.c:328-387 | the effect of one line on the input |
| ConfigFile.ReadSimple | support/kconfig/confdata.c:305-392 | the table has the input the lines say, MODULES is calculated, and the table is right for the input if MODULES has the value of modules_val |
| ConfigFile.LoadedIsAcyclic | support/kconfig/confdata.c:656-727 | the loaded table is acyclic; if nothing is lost, it agrees with MODULES and has the same outcomes |
| ConfigFile.SaveAndLoad | support/kconfig/confdata.c:656-727 | without modules, a fresh table loaded from the minimal configuration has the values of the saved one for MODULES and all entries if and only if nothing is lost |
| ExprParser.Feed.ParseExpr2 | support/scripts/kconfiglib.py:846-852 | the loop over || gives the outcome of the grammar and leaves the rest of the tokens |
| ExprParser.Feed.ParseOrTerm | support/scripts/kconfiglib.py:854-860 | the same for && |
| ExprParser.Feed.ParseFactor | support/scripts/kconfiglib.py:862-912 | parentheses, NOT, relations and symbols, or an error |
| ExprParser.FlattenIsFlat | support/scripts/kconfiglib.py:2128-2154 | merging leaves no list directly in a list of the same operator |
| ExprParser.PrintFlatten | support/scripts/kconfiglib.py:2128-2190 | merging nested lists of one operator does not show in print |
| ExprParser.PrintThenParse | support/scripts/kconfiglib.py:2128-2190 | parsing a printed expression gives it back with nested lists merged and the symbol m quoted in relations |
| ExprParser.PrintDetermines | support/scripts/kconfiglib.py:2128-2190 | expressions that print alike are alike up to this |
| ExprParser.ListAccepted | support/scripts/kconfiglib.py:846-912 | an expression is only read from tokens that, apart from parentheses, are what it prints as, and in which parentheses are balanced |
| ExprParser.PrintKeepsMeaning | support/scripts/kconfiglib.py:1449-1516 | the parsed expression has the same value under every valuation |
| KconfigChanges.ReachIsClosed | support/scripts/kconfiglib.py:2966-2994 | a symbol and its dependents contain all readers and all members of the same choice of each of them |
| KconfigChanges.DependentsAreLeast | support/scripts/kconfiglib.py:2966-2994 | and they are contained in every set that does |
| KconfigChanges.ModulesIsNotReached | support/scripts/kconfiglib.py:2966-2994 | MODULES is a dependent of nothing else |
| KconfigChanges.ValSame | support/scripts/kconfiglib.py:2287-2445 | a value outside the reach of a change stays; where MODULES may have changed, if its evaluation meets no m |
| KconfigChanges.SelectionSame | support/scripts/kconfiglib.py:3173-3216 | so does the selection of a choice whose members are outside |
| KconfigChanges.ChangesCompare | support/scripts/kconfiglib.py:2447-2479 | setting or unsetting a symbol changes nothing outside its reach, for MODULES if there are modules as before |
| KconfigChanges.ModulesCompare | support/scripts/kconfiglib.py:2481-2486 | setting or unsetting any symbol, MODULES included, changes nothing outside a set that has its reach, is closed, and contains all symbols that may meet an m |
| KconfigChanges.ModulesReachesFurther | support/scripts/kconfiglib.py:2481-2486 | unsetting MODULES changes a symbol that does not depend on it |
| KconfigChanges.SteadyChoice | support/scripts/kconfiglib.py:2259-2274 | a choice whose prompts read no symbol and do not mention m always has the same visibility |
| KconfigChanges.UnreachedChoice | support/scripts/kconfiglib.py:2256-2274 | the visibility of a choice stays if a change reaches nothing that its prompts read |
| KconfigChanges.ShownChoice | support/scripts/kconfiglib.py:2259-2274 | a choice shown by one boolean symbol has the same visibility if and only if the symbol has the same value |
| KconfigCache.BuildDep | support/scripts/kconfiglib.py:1548-1593 | the dependent symbols of a symbol are those that read it or belong to a choice that does |
| KconfigCache.Config.GetDependent | support/scripts/kconfiglib.py:2966-2994 | the memoised recursion gives all dependents |
| KconfigCache.Config.EvalTree | support/scripts/kconfiglib.py:1449-1516 | evaluation that stops early gives the value over all operands |
| KconfigCache.Config.EvalExpr | support/scripts/kconfiglib.py:1435-1447 | m is y without modules |
| KconfigCache.Config.SymVisibility | support/scripts/kconfiglib.py:2259-2274 | the cached visibility is the uncached one, for special symbols the one when it was first asked for |
| KconfigCache.Config.ChoiceVisibility | support/scripts/kconfiglib.py:2259-2274 | the same for choices, where those without members are the exception |
| KconfigCache.Config.GetMode | support/scripts/kconfiglib.py:3292-3303 | the mode of a choice with members or constant prompts |
| KconfigCache.Config.GetSelection | support/scripts/kconfiglib.py:3173-3193 | the cached selection is the uncached one |
| KconfigCache.Config.GetValue | support/scripts/kconfiglib.py:2287-2445 | the cached value is the uncached one, and all caches stay right |
| KconfigCache.Config.SetUserValue | support/scripts/kconfiglib.py:2447-2479 | the user values change as the call says, the caches of the dependents go, or all if the symbol is MODULES, and every cache that is left is right, but for visibilities that are never invalidated |
| KconfigCache.Config.UnsetUserValue | support/scripts/kconfiglib.py:2481-2486 | the user value goes with the caches of the dependents; what is left is right, for MODULES if there are modules as before, and otherwise for all symbols whose evaluation meets no m |
| KconfigCache.Config.LoadConfig | support/scripts/kconfiglib.py:219-336 | after loading assignments, replacing or adding, every cache is right |
| KconfigCache.CachesSurvive | support/scripts/kconfiglib.py:2849-2863 | what was right and is outside the reach of a change is right after invalidation |
| KconfigCache.StaleAfterUnset | support/scripts/kconfiglib.py:2481-2486 | a run in which a cached value is wrong after MODULES is unset |
| KconfigCache.AskChoiceTwice | support/scripts/kconfiglib.py:2256-2274 | the visibility of a choice without members is answered from before a change; it is right if the change reaches nothing the prompts read, and for prompts shown by one symbol exactly if that keeps its value |
| KconfigCache.AskSymbolTwice | support/scripts/kconfiglib.py:2849-2859 | the same for special symbols |
| KconfigCache.StaleChoice | support/scripts/kconfiglib.py:2256-2274 | a run in which the cached visibility of a choice without members is wrong |
| KconfigCache.StaleSpecial | support/scripts/kconfiglib.py:2849-2859 | a run in which the cached visibility of a symbol from the environment is wrong |
| KconfigCache.Run | support/scripts/kconfiglib.py:2287-2486 | over any run of calls that set, unset and load values and ask for values, visibilities, selections and modes, each answer is the one that evaluation from scratch gives at that time |
| KconfigLaws.EvaluationSolves | support/scripts/kconfiglib.py:2259-2445 | evaluation solves equations over the values of the symbols that are read: visibilities, modes, selections, and values; a symbol in no choice is the user's value capped by its visibility, or else the first usable default, or its reverse dependency if that is more; numbers are moved into their range |
| KconfigLaws.SolutionIsEvaluation | support/scripts/kconfiglib.py:2259-2445 | nothing else solves these equations |
| KconfigLaws.SelectedIsOn | support/scripts/kconfiglib.py:2345-2350 | a symbol in no choice is at least what its reverse dependency is |
| KconfigLaws.ValuesExclude | support/scripts/kconfiglib.py:2311-2325 | in mode y exactly the selected choice value is y if it is visible; in another mode a tristate choice value is at most the mode |
| KconfigLaws.OneValueIsOn | support/scripts/kconfiglib.py:2311-2325 | two values of a choice with mode y that are y are the same |
| KconfigLaws.EnginesAgree | support/scripts/kconfiglib.py:1449-1516 | an expression has the same value for Kconfiglib and, translated, for the C engine |

## Left out

- Memory management: `expr_free`, leaks and the sharing of `menu->visibility` between properties. Trees have one owner.
- `expr_eliminate_dups` on nodes: its two cursors are paths into a tree held by an object, so the aliasing is modelled but not the addresses. `expr_join_or`, `expr_join_and`, `expr_trans_compare` and `expr_extract_eq` are on values as well.
- E_LIST, E_RANGE and E_NONE in expressions; choices and ranges hold their symbols directly.
- Range clamping (`sym_validate_range`), hash buckets, SYMBOL_AUTO and SYMBOL_CHANGED, `sym_toggle_tristate_value`.
- A change of `modules_val` in the middle of a calculation: a whole table is right where `modules_val` is the value MODULES has.
- The property list of a symbol is split into prompts and defaults, each in order.
- The stack entries of the cycle search for a choice value and, a second time, for its choice, which only show in messages.
- Cycles.UnreportedIsAcyclic: `dir_dep`, which the search does not visit, adds no other symbols.
- SymbolTable.Table.SetTristateValue: when MODULES gets another value, nothing is said about symbols that only its defaults read, which are calculated before `modules_val` follows only where MODULES uses that default, nor about symbols that are calculated after `modules_val` has followed.
- Menus.Finalize: the updates of reverse and direct dependencies, of symbol types, of the member list of a choice and of the dependencies that a tristate choice adds to boolean members.
- ConfigFile.SaveAndLoad: tables with modules, where a fresh table calculates MODULES while `modules_val` is still n; `conf_read`'s later reset of values that cannot be seen, comments and headings.
- Defconfig.ReloadKeeps: tables with both modules and choices.
- KconfigCache.Run: unsetting MODULES, and visibilities that are never invalidated, which give wrong answers.
- KconfigCache.Config.GetValue: `write_to_conf`, which is set on the way and not cached.
- Python's int and hex conversions are parameters of a configuration; `_get_str_value` of an expression that is no symbol or string, which would raise an error, is the empty text.
- User interfaces, file and environment access, the C lexer and grammar, Kconfiglib's tokenizer and block parser, warnings and other diagnostics.
