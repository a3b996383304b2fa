# Verification of the Rex core

A Dafny model of the parts of Rex in which a mistake is hardest to see, with proofs about them.
`dafny verify dfyconfig.toml` checks the whole project.

**Unification** (`Types`, `Substitution`, `Unification`, `Matching`, `Soundness`, `Completeness`, `Hereditary`,
`Loops`, `Agreement`, `InPlaceUnifier`, `PureUnifier`, `HeadCalls`, `RecordHeadCalls`, `HeadAgreement`,
`Compositions`, `Coercion`, `Connected`, `CoercionGeneral`, `HeadCapture`). One function says what unifying means
under two rules: the rule of the in-place `Unifier`, which applies what it learned about the head of `f x` before
going on to the record fields, and the rule of the persistent `unify`, which does not. The class over the dense
binding table refines the first and the methods over persistent substitutions refine the second, both on all inputs
and on every exit. Soundness is up to the record/`Dict` coercion; completeness is about syntactic equality, and up to
the coercion about how general the result is.

**The packrat parser** (`Pegs`, `PegSemantics`, `PegLaws`, `PegMachine`, `PegRefinement`, `PegAdequacy`, `PegParser`,
`PegProperties`, `PegTermination`). The meaning of a grammar expression is a recursion without memo table or stack,
held against one law per shape of expression; the interpreter is a step machine and a class that takes the same steps.
The machine halts exactly where the meaning is defined, with that result, and grammars ranked against left recursion
are defined everywhere.

**The grammar notation** (`PegSyntax`, `PegRules`, `PegNotation`, `PegReading`, `PegFlattening`, `PegRoundTrip`,
`PegMeaning`, `PegPrinted`). The canonical printer, the notation's own grammar run by the parser above, the reading of
its syntax trees and the resolution of names undo each other up to flattening, and flattening changes no meaning.

**Building expressions** (`OperatorFold`, `GroupedTail`, `GroupedTailTerms`, `GroupedTailAgreement`,
`ExpressionReading`, `ExpressionLimits`). The operator fold against the trees the precedence table prescribes, and the
iterative shortcut for right-nested groups against the ordinary recursion, and that against what the syntax tree says.

**Editor services** (`Scoping`, `ReferenceCollector`, `Renaming`, `NewNames`, `Environments`, `Levenshtein`,
`TextEdits`). Scope-aware reference collection and rename, edit distance, and the application of text edits.

**Shared state** (`Interner`, `Permits`). The symbol interner and the permit counter as state machines, proved over
every run.

## Where the code and its description differ

- `compose_subst` documents its law for all substitutions. It is false when both bind a variable differently;
  `Substitution.ComposeLaw` gives the exact condition. The runs of the persistent `unify` meet it where head variables
  stay out of the record fields (`Compositions.RunsComposeDisjoint`), and for head, fields and argument taken together
  where its head calls are guarded (`Compositions.RunsComposeLawfully`); `HeadCapture.NonsenseComposition` is a call
  that breaks it.
- The persistent `unify` does not apply the substitution found for the head of `f x` to the fields of the record it is
  unified with. `HeadCapture` shows inputs on which it therefore accepts incompatible types or returns a substitution
  that is not resolved. `Soundness.PureSoundIff` says exactly when all the nested calls of a run are correct; a later
  call can repair what an earlier one got wrong (`HeadCapture.LaterCallRepairs`), so for the result itself
  `HeadCalls.HeadCallExact` and `RecordHeadCalls.RecordHeadCallExact` give the condition on the types of one such
  call, and `HeadAgreement.HeadCallAgrees` shows it is also when the two unifiers agree. The in-place unifier is
  correct on all inputs.
- Unification looks for a unifier in the strict sense, so it can miss a solution up to the record coercion
  (`HeadCapture.CoercionIsNotSearched`); it does not on types without records (`Coercion.DecidesCoercion`).
- The operator fold lets a right operand that is folded first swallow all later operators, so `a - b * c - d` is
  grouped as `a - ((b * c) - d)`; `OperatorFold.FoldIsPrescribed` says exactly which chains are grouped as the
  precedence table prescribes.
- The shortcut for grouped tails does not join a constructor with a dictionary behind it, which the ordinary recursion
  does; `GroupedTailAgreement.ShortcutIsFaithful` gives the exact condition.
- `rename_for_source` checks of the new name only that it looks like an identifier, so the renamed definition may
  capture variables or have its references captured (`NewNames.RenameCaptures`). It does not rename constructors in
  patterns (`NewNames.ConstructorIsLost`), and renames the key of a field pattern together with the variable that goes
  by it (`NewNames.KeyIsRenamed`). `Renaming.RenameIsAlpha` says exactly which new names are safe.
- Insertions at the same position are applied in the reverse of their order in the list, where LSP 3.17, section
  "TextEdit[]", has them appear in that order; `TextEdits.ProtocolOrder` says exactly when the text is the same.
- A poller refused a permit may store its waker after the last release has looked for one (`Permits.WakeupCanBeLost`),
  or have it overwritten in the single slot (`Permits.WakerCanBeOverwritten`); `Permits.LostBy` says that these are
  the only ways in which a wakeup is lost.

## Model

| member | source | states |
|---|---|---|
| Substitution.ComposeLaw | rex-typesystem/src/unification.rs:189-208 | the composition law documented for every pair of substitutions holds for all types if and only if `a` agrees with what `a` makes of `b` wherever both are defined |
| Substitution.ComposeLawFails | rex-typesystem/src/unification.rs:189-208 | a pair of substitutions for which the documented law is false |
| Substitution.ComposeAssoc | rex-typesystem/src/unification.rs:193-208 | composition is associative where the first two domains are disjoint |
| Substitution.OccursIsFatal | rex-typesystem/src/unification.rs:251-262 | a type strictly containing a variable is strictly larger than the variable under every substitution, so refusing to bind it loses nothing |
| Unification.Unify | rex-typesystem/src/unification.rs:286-343 | unification ends on all inputs (variables, then size); keys and range of a result lie in the variables of the two types, and unless nothing is bound some bound variable is gone from all that is substituted, which is what the recursion ends by |
| Unification.SolveFrom | rex-typesystem/src/unification.rs:295-330 | a list of equations under a running substitution: what was bound stays bound, everything new comes from the variables of the equations, and some bound variable is gone from the range if that was so before |
| Matching.MatchesStable | rex-typesystem/src/unification.rs:314-323 | compatibility up to "a record of mutually compatible fields matches `Dict` of them" survives every substitution |
| Matching.MatchesIsEquality | rex-typesystem/src/unification.rs:314-323 | on types without records compatibility is equality |
| Soundness.UnifySound | rex-typesystem/src/unification.rs:111-175 | the in-place rule, on all inputs: the resulting substitution is resolved, and on success makes the two types compatible |
| Soundness.PureSoundIff | rex-typesystem/src/unification.rs:286-343 | the pure unifier: every call of a run is correct if and only if every record-against-`f x` call of the run passes a guard on the head variable and the fields |
| Soundness.ElemsCallExact | rex-typesystem/src/unification.rs:314-323 | for one such call, given correct nested results: the result is correct exactly under the guard |
| Completeness.MostGeneral | rex-typesystem/src/unification.rs:251-343 | if some substitution makes the types equal, unification succeeds under either rule and that substitution factors through the result |
| Completeness.MostGeneralApplied | rex-typesystem/src/unification.rs:251-343 | the same for every type: applying the result first makes no difference to a unifier |
| Completeness.DecidesUnifiability | rex-typesystem/src/unification.rs:111-175 | on types without records success means exactly that a unifier exists, and the result is one |
| Completeness.RecordMeetsDict | rex-typesystem/src/unification.rs:155-175 | a record against `Dict e`, or against `f e` with `f` made `Dict`, in either order: if some substitution makes `e` and all field types one type, the in-place rule succeeds and that substitution factors through the result |
| Completeness.FailsAtOnce | rex-typesystem/src/unification.rs:111-175 | what fails at the outermost constructors, under either rule, and the error it fails with: a clash by the two types in the order given, an occurs error, an empty record |
| Completeness.OccursIsReal | rex-typesystem/src/unification.rs:251-262 | under either rule an occurs error names a variable and a type that properly contains it |
| Agreement.RulesAgree | rex-typesystem/src/unification.rs:286-343 | the pure unifier gives the in-place result, substitution and error, on every run whose head variables stay out of the record fields |
| Agreement.RulesAgreeWithoutVarHeads | rex-typesystem/src/unification.rs:286-343 | in particular on all types without variable-headed applications |
| Agreement.CarriesAlong | rex-typesystem/src/unification.rs:111-175 | solving under a substitution the equations no longer mention only carries it along: what lets one accumulated state stand for composed substitutions |
| HeadCapture.PureLeavesHeadBehind | rex-typesystem/src/unification.rs:314-320 | an input on which the pure result still mentions a variable it binds, and what the in-place unifier gives instead |
| HeadCapture.PureAcceptsNonsense | rex-typesystem/src/unification.rs:314-320 | an input the pure unifier accepts with a result under which the types are incompatible, and the in-place one rejects |
| HeadCapture.LaterCallRepairs | rex-typesystem/src/unification.rs:286-343 | an input on which a nested call is wrong and the result is correct: the guard of `PureSoundIff` is about every call, not about what is returned |
| HeadCapture.NonsenseComposition | rex-typesystem/src/unification.rs:314-320 | an input on which that call composes substitutions that bind a variable differently, so that the documented law for compositions fails |
| HeadCapture.InnerCompositionDisagrees | rex-typesystem/src/unification.rs:314-320 | a guarded call whose inner composition breaks the law while head, fields and argument together obey it |
| HeadCalls.HeadCallExact | rex-typesystem/src/unification.rs:314-320 | what the pure unifier returns for a record without nested records against `f x`, in terms of the types alone: correct if and only if `f` is not in the fields or every unifier of the fields and of `x` with `f` replaced by `Dict` makes `f` that |
| RecordHeadCalls.RecordHeadCallExact | rex-typesystem/src/unification.rs:314-320 | the same with records inside but no variable-headed application: correct if and only if it fails, or `f` is not in the fields, or every solution up to the coercion makes `f` `Dict` |
| HeadAgreement.HeadCallAgrees | rex-typesystem/src/unification.rs:314-320 | the two unifiers give such a call the same answer, failure or substitution, if and only if the same condition holds: exactly where the pure result is correct |
| HeadAgreement.EquationsFinished | rex-typesystem/src/unification.rs:111-175 | equations all of whose unifiers considered make a variable `Dict`: knowing that before solving them or adding it afterwards gives the same substitution |
| HeadCalls.SoundWithoutVarHeads | rex-typesystem/src/unification.rs:286-343 | on all types without variable-headed applications, records or not, what the pure unifier returns is correct |
| HeadCalls.PureDecidesUnifiability | rex-typesystem/src/unification.rs:286-343 | on types without records, variable heads or not, the pure unifier succeeds exactly if there is a unifier, and returns one |
| Compositions.RunsComposeDisjoint | rex-typesystem/src/unification.rs:189-208 | on a run whose head variables stay out of the record fields, every composition of every call is of substitutions with disjoint domains |
| Compositions.RunsComposeLawfully | rex-typesystem/src/unification.rs:189-208 | on a run all of whose head calls pass the guard, the loops compose disjoint substitutions, and the result of a head call does what head, fields and argument do in turn |
| Compositions.HeadLawExact | rex-typesystem/src/unification.rs:314-320 | for one head call with disjoint nested results that law holds if and only if they leave the head variable alone or make it `Dict` |
| Coercion.ErasureIsNecessary | rex-typesystem/src/unification.rs:286-343 | for all types and both rules: where a solution up to the record coercion exists, the types with every record erased to `Dict` of its first field unify, and the erased solution factors through the result |
| Coercion.DecidesCoercion | rex-typesystem/src/unification.rs:111-175 | on types without records success means exactly that a solution up to the coercion exists |
| CoercionGeneral.SolutionsFactor | rex-typesystem/src/unification.rs:111-175 | for all types, records or not, whether or not the attempt succeeds: every solution up to the coercion, erased, factors through the result, and a variable the result makes a constant is that constant in every solution |
| HeadCapture.CoercionIsNotSearched | rex-typesystem/src/unification.rs:286-343 | with records it does not: a failing input that does have a solution up to the coercion |
| InPlaceUnifier.ResolutionUnique | rex-typesystem/src/unification.rs:53-94 | an acyclic binding table has one resolution |
| InPlaceUnifier.Compression | rex-typesystem/src/unification.rs:60-70 | overwriting a binding by its resolved type keeps the table acyclic and its resolution unchanged |
| InPlaceUnifier.Binding | rex-typesystem/src/unification.rs:53-58 | binding a free variable to a type that does not contain it keeps the table acyclic and composes the binding onto the resolution |
| InPlaceUnifier.Unifier.BindVar | rex-typesystem/src/unification.rs:53-58 | the dense table grows as needed and changes at the one variable |
| InPlaceUnifier.Unifier.Prune | rex-typesystem/src/unification.rs:60-94 | returns the type fully resolved; compression leaves every variable resolved as before |
| InPlaceUnifier.Unifier.ApplyType | rex-typesystem/src/unification.rs:96-98 | the type under the accumulated substitution |
| InPlaceUnifier.Unifier.Occurs | rex-typesystem/src/unification.rs:100-109 | true exactly if the variable is free in the resolved type |
| InPlaceUnifier.Unifier.Unify | rex-typesystem/src/unification.rs:111-175 | from every reachable state and on every exit: the error, and the accumulated substitution, are those of unifying the resolved types and composing after the old one |
| InPlaceUnifier.Unifier.RecordElemType | rex-typesystem/src/unification.rs:236-249 | unifies the fields of a record one after another with the first |
| InPlaceUnifier.Unifier.IntoSubst | rex-typesystem/src/unification.rs:177-186 | hands out exactly the accumulated substitution |
| PureUnifier.ComposeSubst | rex-typesystem/src/unification.rs:193-208 | the two loops build the composed substitution, early exits included |
| PureUnifier.Bind | rex-typesystem/src/unification.rs:251-262 | nothing for the variable itself, an error if it occurs, one binding otherwise |
| PureUnifier.RecordElemType | rex-typesystem/src/unification.rs:264-284 | the loop over the fields, with the current element type re-applied each time |
| PureUnifier.Unify | rex-typesystem/src/unification.rs:286-343 | the persistent unifier, loops and early returns, computes exactly the pure rule of `Unification.Unify` |
| PegSemantics.MoreFuel | rex-parser/src/grammar.rs:531-844 | the memo-free meaning of an expression does not depend on how much rule nesting is allowed for, once it is defined |
| PegLaws.TokenLaw | rex-parser/src/grammar.rs:541-549 | the token at the cursor is consumed unless it is the end of input, or the failure names what was expected, exactly |
| PegLaws.RuleLaw | rex-parser/src/grammar.rs:550-582 | exactly the outcomes of the body: its trees as one node that stands where they do, or its failure with the cursor back |
| PegLaws.WrapLaw | rex-parser/src/grammar.rs:761-844 | the outcomes of an optional item, of lookahead, label and cut, each exactly, from the outcomes of the item |
| PegLaws.AndLaw | rex-parser/src/grammar.rs:823-830 | `&e` succeeds without trees and without moving where `e` succeeds, fails uncommitted where `e` fails, and does nothing else |
| PegLaws.NotLaw | rex-parser/src/grammar.rs:831-838 | `!e` succeeds where `e` fails, committed or not, and fails where `e` succeeds |
| PegLaws.SeqLaw | rex-parser/src/grammar.rs:701-727 | the outcomes of a sequence from those of its first item and of the rest |
| PegLaws.ChoiceLaw | rex-parser/src/grammar.rs:728-760 | the first alternative that succeeds or fails committed decides; otherwise the failure is the farthest, with everything expected there |
| PegLaws.RepeatLaw | rex-parser/src/grammar.rs:770-804 | as often as the item succeeds: an uncommitted failure ends the repetition, a committed one is its outcome, an item that consumes nothing is the last |
| PegLaws.Repeat1Law | rex-parser/src/grammar.rs:805-822 | once, and then as a repetition |
| PegLaws.FailuresArePlaced | rex-parser/src/grammar.rs:531-844 | every failure stands at a token not before the start, bears that token's span and says what was expected |
| PegRefinement.Simulates | rex-parser/src/grammar.rs:531-844 | wherever the meaning is defined, the machine reaches it from any stack and any table in agreement with the meaning, leaves the stack untouched, the cursor at the end and the table in agreement |
| PegAdequacy.HaltsIffDefined | rex-parser/src/grammar.rs:531-844 | the machine halts if and only if the meaning is defined, and wherever it halts it has exactly that result |
| PegAdequacy.Defined | rex-parser/src/grammar.rs:531-844 | every halting run has a meaning, whatever is on the stack |
| PegParser.Engine.Expect | rex-parser/src/peg.rs:227-255 | a match consumes one token unless it is the end of input; a mismatch fails at the cursor |
| PegParser.GrammarParser.Evaluate | rex-parser/src/grammar.rs:541-668 | one look at an expression is one step of the machine |
| PegParser.GrammarParser.Apply | rex-parser/src/grammar.rs:671-844 | handing a result to a frame is one step of the machine |
| PegParser.GrammarParser.ParseExprIterative | rex-parser/src/grammar.rs:531-669 | the loop over work, frames, memo and cursor returns the meaning of the expression and leaves the cursor there |
| PegParser.GrammarParser.ParseRule | rex-parser/src/grammar.rs:522-529 | one node spanning what was consumed, or the failure with the cursor back at the start |
| PegProperties.UncommittedBacksUp | rex-parser/src/grammar.rs:701-844 | every uncommitted failure leaves the cursor where the expression started |
| PegProperties.FailureByShape | rex-parser/src/grammar.rs:677-844 | rules and sequences back up on every failure; optional and repetition fail only committed; lookahead never moves and erases commitment |
| PegProperties.DecidedChoice | rex-parser/src/grammar.rs:733-768 | after a success or a committed failure no further alternative is tried: adding more changes nothing |
| PegMachine.CommittedUnwinds | rex-parser/src/grammar.rs:671-844 | a committed failure takes down one frame a step as far as the innermost lookahead: nothing is entered on the way, and every rule left is recorded as having failed committed |
| PegMachine.CommittedHalts | rex-parser/src/grammar.rs:671-844 | with no lookahead on the stack the machine halts after as many steps as there are frames, the failure still committed |
| PegMachine.LookaheadStops | rex-parser/src/grammar.rs:823-838 | a lookahead frame turns it into a result that is not committed |
| PegProperties.OnlyCutCommits | rex-parser/src/grammar.rs:828-844 | without cut in expression and grammar no failure is committed |
| PegProperties.TreesAreLossless | rex-parser/src/grammar.rs:541-549 | the trees of a success cover exactly the consumed tokens, each node spanning its first to its last |
| PegProperties.LeavesAreTheTokens | rex-parser/src/grammar.rs:677-692 | the leaves in order, the end of input removed, are the consumed tokens |
| PegTermination.HasResult | rex-parser/src/grammar.rs:550-582 | a grammar with a rank against left recursion has a meaning everywhere |
| PegTermination.RankedMachineHalts | rex-parser/src/grammar.rs:531-669 | for such a grammar the machine halts on every expression, position and token sequence |
| PegTermination.PackratBound | rex-parser/src/grammar.rs:550-582 | a halting run pushes a rule frame at most once for each rule and position |
| PegReading.SuffixedPostfix | rex-parser/src/peg_syntax.rs:815-835 | an atom followed by `?`, `*` or `+` is read as optional, repeated or repeated at least once |
| PegReading.AndReads | rex-parser/src/peg_syntax.rs:797-813 | `&` before an expression is read as lookahead |
| PegReading.NotReads | rex-parser/src/peg_syntax.rs:797-813 | and `!` as negative lookahead |
| PegFlattening.ResolvesExactly | rex-parser/src/peg_syntax.rs:571-582 | a name resolves to the rule or terminal that has it and to nothing else, and is unknown if there is none |
| PegFlattening.SynResolves | rex-parser/src/peg_syntax.rs:554-616 | resolving what is read from the printed form gives the expression with nested and one-element lists flattened |
| PegFlattening.FlatIsCanonical | rex-parser/src/peg_syntax.rs:583-616 | flattening leaves no list of one and no list directly inside a list of its own kind |
| PegFlattening.CanonicalIsFlat | rex-parser/src/peg_syntax.rs:583-616 | and changes nothing where there was none |
| PegRoundTrip.RoundTrip | rex-parser/src/grammar.rs:982-1042 | the tokens printed for any expression without empty lists parse, all of them, as a `Choice` of the notation, are read off the tree and resolve to the flattened expression; it is the expression itself exactly if that was canonical |
| PegRoundTrip.ReadChoice | rex-parser/src/peg_syntax.rs:618-710 | the printed tokens are read back in any surroundings that cannot continue them |
| PegPrinted.MachineReadsBack | rex-parser/src/peg_syntax.rs:342-356 | the packrat machine, run on the printed tokens, halts with such a tree |
| PegPrinted.NotationHalts | rex-parser/src/peg_syntax.rs:618-710 | the parser of the notation halts on every token sequence |
| PegMeaning.FlatMeans | rex-parser/src/peg_syntax.rs:583-616 | the flattened expression in the flattened grammar means the same: same trees, same failures, on all tokens |
| OperatorFold.FoldBinaryFrom | rex-parser/src/ast_builder.rs:1248-1274 | the index-threading recursion builds the grouping, and consumes every part |
| OperatorFold.FoldBinaryExpr | rex-parser/src/ast_builder.rs:624-652 | the error cases of an expression node, and the fold of its operands |
| OperatorFold.FoldKeepsTheChain | rex-parser/src/ast_builder.rs:1248-1274 | read from left to right the tree is the chain: nothing lost, nothing moved |
| OperatorFold.ObeysIffPrescribed | rex-parser/src/ast_builder.rs:1460-1471 | a tree obeys precedence and associativity at every node if and only if it is the one prescribed for the chain it reads as |
| OperatorFold.OneTreePerChain | rex-parser/src/ast_builder.rs:1460-1471 | of all trees over a given chain exactly one, the prescribed one, obeys |
| OperatorFold.TighterInside | rex-parser/src/lexer.rs:652-664 | a chain with one operator of each group of the table, loosest first, is prescribed to nest to the right |
| OperatorFold.SameGroup | rex-parser/src/ast_builder.rs:1460-1471 | of two operators of one group the first goes inside, except for comparisons and `::` |
| OperatorFold.FoldIsPrescribed | rex-parser/src/ast_builder.rs:1248-1274 | the fold builds that tree if and only if, wherever it folds the right operand first, every later operator may stand to the right |
| OperatorFold.MinusAfterTimes | rex-parser/src/ast_builder.rs:1257-1270 | `a - b * c - d` is a chain it groups differently |
| GroupedTail.TryGroupedTailApplication | rex-parser/src/ast_builder.rs:657-699 | the peeling loop and the replay of its steps, depth errors included, build from the inside out |
| GroupedTail.ApplyApplicationGroup | rex-parser/src/ast_builder.rs:703-722 | the terms built one by one and applied as they come, the first error returned, and the tail last |
| GroupedTail.ApplicationExpr | rex-parser/src/ast_builder.rs:735-764 | the two loops of an application: dictionaries joined to constructors, then the rest applied to the first |
| GroupedTail.JoinDictionaries | rex-parser/src/ast_builder.rs:735-750 | the peeking loop joins a constructor reference and the dictionary behind it |
| ExpressionReading.ReadsAsWritten | rex-parser/src/ast_builder.rs:619-830 | what the ordinary recursion builds, read from left to right, is what the syntax tree says: every name, field, annotation, operator and item that counts, in order and in its brackets |
| ExpressionReading.ConstructorsAreCapital | rex-parser/src/ast_builder.rs:1473-1488 | what counts as a constructor reference |
| ExpressionReading.PutAllKeepsLast | rex-parser/src/ast_builder.rs:869-888 | the items kept are those a map holds after all have been put in |
| ExpressionLimits.StandsAsWritten | rex-parser/src/ast_builder.rs:703-775 | what is built stands where the syntax tree does: from its first term to its last term, field or annotation |
| ExpressionLimits.ShortcutSpans | rex-parser/src/ast_builder.rs:688-699 | what the shortcut builds bears the span of its node |
| ExpressionLimits.AcceptedIff | rex-parser/src/ast_builder.rs:619-699 | either way of building accepts exactly the trees without empty applications or overlong chains whose nesting stays within the limit |
| GroupedTailAgreement.ShortcutIsFaithful | rex-parser/src/ast_builder.rs:624-764 | whenever the ordinary recursion succeeds the shortcut does, and gives the same expression up to spans if and only if no peeled application has, behind its first term, a constructor reference directly followed by a dictionary; of dictionary items at one key only the last matters |
| GroupedTailAgreement.ExprsAgree | rex-parser/src/ast_builder.rs:657-764 | the same at any two depths at which both succeed |
| GroupedTailAgreement.ShortcutAcceptsMore | rex-parser/src/ast_builder.rs:657-699 | the depth limit: what the recursion accepts at some depth the shortcut accepts at every smaller one |
| GroupedTailAgreement.PairIsTornApart | rex-parser/src/ast_builder.rs:701-722 | `f Some {} (x)` is an input on which the two differ |
| ReferenceCollector.Collector.Collect | rex-lsp/src/navigation.rs:125-287 | the visitor reports the references in order and leaves the pushed and truncated scope as it found it |
| ReferenceCollector.PatternBindings | rex-lsp/src/navigation.rs:97-120 | the variables of a pattern, from left to right |
| Environments.BindsItsVariables | rex-lsp/src/navigation.rs:97-120 | a pattern binds a name exactly if the variable is one of its parts, however deep |
| Environments.ReferencesComeFromTarget | rex-lsp/src/navigation.rs:125-287 | against an account of scoping by environments: the spans reported are, in order, exactly those of the variables of that name whose value comes from the target |
| Environments.SafeKeepsValues | rex-lsp/src/navigation.rs:289-367 | a new name is safe if and only if after the edits every variable has its value from where it had it before, every pattern has its keys, and every constructor named is found |
| Renaming.RenameIsAlpha | rex-lsp/src/navigation.rs:289-367 | for every new name: the edits of a rename, the definition and the references reported, keep the nameless form if and only if no variable is captured, no pattern key is renamed along, and every constructor a pattern names is still found |
| Renaming.OnlyTheReferences | rex-lsp/src/navigation.rs:289-367 | with the target renamed, a set of variables keeps the nameless form if and only if it is the references, apart from variables that have the new name already, and the new name is safe |
| Renaming.RenameKeepsMeaning | rex-lsp/src/navigation.rs:125-287 | the same in any scope and for any marks that hit the target and no other binder: kept if and only if the marked variables are those that resolve to the target, apart from those that have the new name already, and the new name is safe |
| NewNames.FreshNames | rex-lsp/src/navigation.rs:289-367 | a name used nowhere is safe if and only if the target is neither bound by a pattern key nor a constructor that a pattern names |
| NewNames.RenameCaptures | rex-lsp/src/shared.rs:429-438 | `x` renamed to `y` in `\x -> \y -> x` is accepted and gives `\y -> \y -> y` |
| NewNames.ConstructorIsLost | rex-lsp/src/navigation.rs:97-120 | a constructor renamed keeps its old name in patterns and is not found there any more |
| NewNames.KeyIsRenamed | rex-parser/src/ast_builder.rs:1162-1174 | a field pattern written as its key alone has the key renamed with the variable |
| Levenshtein.LevenshteinDistance | rex-lsp/src/code_actions.rs:825-852 | the two swapped rows compute the distance |
| Levenshtein.ScriptAchieves | rex-lsp/src/code_actions.rs:825-852 | some edit script turns the one text into the other at the cost of the distance |
| Levenshtein.NoCheaperScript | rex-lsp/src/code_actions.rs:825-852 | and none does so for less |
| Levenshtein.Symmetric | rex-lsp/src/code_actions.rs:825-852 | the distance is symmetric |
| Levenshtein.OnlyEqualTextsAreAtZero | rex-lsp/src/code_actions.rs:825-828 | zero exactly for equal texts |
| Levenshtein.Triangle | rex-lsp/src/code_actions.rs:825-852 | the triangle inequality |
| TextEdits.ApplyEdits | rex-lsp/src/queries.rs:1389-1405 | range checks, the stable descending order, and the replacements one after another |
| TextEdits.BackToFront | rex-lsp/src/queries.rs:1400-1404 | applied from the back, edits in the order of the text give the left-to-right splice |
| TextEdits.AppliedIsSpliced | rex-lsp/src/queries.rs:1389-1405 | edits in range and apart, in whatever order they are listed, always apply, and give the splice of the application order read backwards |
| TextEdits.ApplicableIff | rex-lsp/src/queries.rs:1390-1398 | edits are in range and apart, insertions and deletions included, if and only if they can be put into the order of the text |
| TextEdits.ArrangementsAgree | rex-lsp/src/queries.rs:1400-1404 | two arrangements of the same edits splice to the same text if and only if they insert the same at every place |
| TextEdits.ProtocolOrder | rex-lsp/src/queries.rs:1389-1405 | the result is the text the Language Server Protocol asks for if and only if at every place the insertions read the same from first to last as from last to first |
| TextEdits.OrderOfEdits | rex-lsp/src/queries.rs:1389-1405 | two lists of the same edits give the same text if and only if at every place their insertions read the same from last to first |
| TextEdits.InsertionsAtOnePlaceSwap | rex-lsp/src/queries.rs:1399-1404 | two insertions `x`, `y` at any one place come out as `y x`, which is the text asked for if and only if they commute |
| Interner.RunsAreSound | rex-ast/src/symbol.rs:31-63 | every step of locking, looking up, pruning, inserting, cloning and dropping keeps each held symbol entered under its text |
| Interner.EqualTextIsOneAllocation | rex-ast/src/symbol.rs:66-94 | at every moment of every run two held symbols have equal text exactly when they share one allocation |
| Interner.TextIsStable | rex-ast/src/symbol.rs:126-138 | a held symbol shows the same text whatever else is dropped, pruned or allocated |
| Interner.InternYieldsTheName | rex-ast/src/symbol.rs:31-51 | a step that releases the lock leaves exactly one more handle, which shows the name asked for and is what the name is found under; any other step of the call leaves all handles and texts alone |
| Interner.InternEnds | rex-ast/src/symbol.rs:31-51 | a call taken without interruption ends, after one step if the name is held and after four if not, in a handle to the held allocation or the fresh one, and affects no other name |
| Interner.CloneShares | rex-ast/src/symbol.rs:24-26 | a copy is one more handle to the same allocation and nothing else changes |
| Interner.LastDropForgets | rex-ast/src/symbol.rs:126-138 | a drop takes away one handle; its name is found as before unless that was the last one, and then not at all |
| Interner.InternShares | rex-ast/src/symbol.rs:38-40 | interning the text of a held symbol yields its allocation |
| Interner.SecondLookupMisses | rex-ast/src/symbol.rs:42-45 | the lookup after pruning never hits |
| Interner.PruneKeepsTheLiving | rex-ast/src/symbol.rs:146-151 | pruning removes no entry that could be found, and when it prunes leaves exactly the names of held symbols |
| Permits.RunsAreSound | rex-engine/src/config.rs:137-185 | every atomic step of every poller keeps the counter equal to the live permits, within the bound, every loaded count below it, and nobody waiting while being polled |
| Permits.CountIsExact | rex-engine/src/config.rs:137-185 | at every moment of every interleaving the active count is the number of live permits and does not exceed the normalised bound |
| Permits.NoWrapAround | rex-engine/src/config.rs:165-178 | neither raising nor lowering the counter wraps around |
| Permits.ChangeMeansProgress | rex-engine/src/config.rs:165-170 | a counter that changed since it was read means that at some step in between the set of live permits changed |
| Permits.RefusedOnlyWhenFull | rex-engine/src/config.rs:157-164 | a poller is turned away exactly if every permit is out at the moment it looks |
| Permits.TurnedAwayOnlyWhenFull | rex-engine/src/config.rs:157-170 | at every step and for every poller not turned away before: it is turned away exactly if the step is its own look at the counter and every permit is out; a failed exchange turns nobody away |
| Permits.OwnStepsOnly | rex-engine/src/config.rs:152-185 | no step of another poller, and no release, moves a poller; which kind of step is its own next is settled |
| Permits.ExchangeIsExact | rex-engine/src/config.rs:165-178 | an exchange hands out the permit named, and it alone, if the count is as loaded, and otherwise sends the poller to look again |
| Permits.GivingBackIsExact | rex-engine/src/config.rs:171-178 | a release takes out the one permit and frees its place at once; afterwards the slot is empty and the poller that stood in it, and no other, has been woken |
| Permits.AcquiresIffFree | rex-engine/src/config.rs:157-185 | after a failed exchange, or at any point before being turned away, a poller can get a permit by its own steps alone if and only if one is free |
| Permits.LostMeans | rex-engine/src/config.rs:157-179 | a waiting poller is lost, its waker not in the slot or no permit left to release, if and only if no run wakes it in which neither it is polled again nor a permit is handed out |
| Permits.LostBy | rex-engine/src/config.rs:159-179 | a poller comes to be lost at exactly two kinds of step: its own waker stored when no permit is left, or another waker stored over its own |
| Permits.WakeupsAreKept | rex-engine/src/config.rs:157-179 | in a run from a fresh controller nobody is ever lost if and only if no step of it is of these kinds |
| Permits.ForgottenForGood | rex-engine/src/config.rs:159-179 | a poller whose waker was overwritten waits on through every run, permits handed out and returned included, until it is polled again |
| Permits.WakeupCanBeLost | rex-engine/src/config.rs:157-179 | an interleaving of the first kind |
| Permits.WakerCanBeOverwritten | rex-engine/src/config.rs:157-179 | and one of the second |

## Left out

Unification
- The display names of type variables, `with_infer_depth` and its limit, and `scheme_compatible`: no bearing on the result.
- Error messages: errors carry the two types or the variable instead of a rendered string.
- Sharing through reference counts and the "changed" flags of `apply`: substitution is modelled on values.
- HeadAgreement.HeadCallAgrees: is about records without records inside, and about failing as such, not which error.
- Coercion.DecidesCoercion: is about types without records; with records, whether a solution up to the coercion is found
  is not characterised, only what every one has in common with the result (`CoercionGeneral.SolutionsFactor`).
- A record is unified field by field in the order given; that the fields are sorted by name is not part of the model.

Parser
- `FailureTracker` and the text of errors: they never influence a returned result.
- PegParser.GrammarParser.ParseExprIterative: asks for an expression that has a meaning at the cursor, because on a
  left-recursive grammar the loop does not end; `PegTermination.HasResult` supplies one for ranked grammars.
- The list of grammar items is a map from rules to expressions (the last definition of a rule wins); comments between
  rules and the iterative drop of syntax trees are not modelled.
- The lexers, comment stripping and the concrete Rex grammar: tokens are the starting point, grammars are arbitrary.
- The closure combinators and the memo cache of `peg.rs`, which the interpreter does not use.
- Whole `.peg` files (rule lines, comments, start rule and missing-rule checks): the round trip is about expressions.
- Empty sequences and choices, which the printer refuses; the reader's unreachable cases are `None` or an error here.

Expressions
- Depth limits other than the one for expressions, error positions, the errors collected on the side, and forms
  other than applications, annotations, projections, parentheses and operators, which are nodes with parts here.
- The order in which a dictionary keeps its items: the model keeps the last item of each key, in the order listed.
- The depth that error exits leave raised in `expr_depth`: depth is a parameter here.
- Capital letters beyond `A` to `Z`, which also begin a constructor's name in the source.
- Failing annotations and field names: the syntax trees of the model have well-formed ones.

Editor services
- Finding the target of a rename from a cursor position, imports, class and instance methods and types: targets are
  binders, functions and constructors.
- New names that change what is parsed and that `is_ident_like` accepts: keywords, `_`, and capitals for the variable of
  a pattern. Renaming is about syntax trees.
- Two definitions of one top-level name: which is found after a rename onto an existing name is a parameter (`wins`).
- UTF-16 columns, line endings and the mapping from positions to offsets: text edits start from offsets.
- Overlapping edits, which LSP forbids: `TextEdits.ApplyEdits` covers them, the splice theorems do not.

Shared state
- When a waker that was woken is polled again is up to the executor; liveness is about who may still be woken.
- Memory is addresses with a text each; reference counts are the handles held.

Not modelled at all: inference, evaluation, storage, the server, command line and everything that does I/O.
