# LL(1) parser visualizer: a verified model of its parsing core

The repository is a small web application that shows step by step how a
table-driven LL(1) parser works on one fixed grammar:

    S -> a A | b B
    A -> c C | d D | ε
    B -> c C | d D
    C -> a S
    D -> b B

The whole core sits in `src/lib/grammar.ts`, and this project models it in Dafny:

- **The grammar data** (module `Grammar`, `grammar.dfy`): the grammar, the
  predictive parsing table, the terminals (including the end marker `$`),
  the non-terminals, the seven curated example sentences and
  `getSentenceDescription`. Lemmas prove the following:
  - the tables are consistent with each other;
  - every table cell holds one of its row's alternatives, selected by
    that alternative's own lookahead;
  - the table predicts every alternative.
- **The parser object** (module `Parser`, `parser.dfy`): `LL1Parser` is
  a class with the source's five fields (`trace`, `iterations`,
  `stackContent`, `inputTokens`, `position`). `Reset`, `Accept`, `Match`,
  `Expand` and `Error` do what the private helpers do. `Parse` is a
  `while` loop proved equal to a functional specification, `Run`: an
  initial configuration followed by repeated `Step`s.
  - The loop invariant `Inv` says that the end marker is at the bottom of
    the stack and that the stack has one of three shapes: "$", "$N" or
    "$Nt".
  - `Measure` decreases strictly with every step, so the loop always
    returns.
  - The invalid-symbol branch and the fallback return after the loop are
    modelled, and proved unreachable.
- **Properties of the parser** (`parser_proofs.dfy`):
  - the stack invariant;
  - the exact effect of one step;
  - the trace always has one entry more than iterations were counted;
  - the trace starts with the initial configuration and ends in exactly
    one verdict entry;
  - the verdict agrees with the trace;
  - repeated calls are independent.
- **A reference parser** (`parser_predict.dfy`): a recursive-descent
  reading of the same table, `Predict`. It is proved to give the same
  verdict and the same sequence of actions as the loop, for every input.
- **The example sentences** (`parser_examples.dfy`):
  - each of the seven curated sentences gets the verdict it is listed
    with, including the full action sequence for "bcaa" and the exact
    failing step for the invalid ones;
  - an input containing `$` is handled the way the code handles it;
  - every sentence that has a description is accepted.
- **The sentence generator** (modules `Generator` and `GeneratorProofs`,
  with `Derivations`):
  - `generateSentence` is a loop over a stack, with the random choices
    supplied as a sequence of numbers (an oracle).
  - Every sentence it produces uses only a–d, has a leftmost derivation
    from S, and is accepted by the parser.
  - Conversely, every sentence without `$` that the parser accepts is
    produced by some choice sequence.

Symbols are single characters, so a production body is the sequence of
its symbols. The body written "a A" is "aA", and "ε" is the one-symbol
sequence "ε", exactly what `split(" ")` yields.

How the source's text is represented:
- A trace entry's action is a datatype, `Action`. `ActionText` maps it to
  the text the source writes.
- A trace entry's `currentSymbol` and `input` fields are strings, as in
  the source.

Where the behaviour of the code might be described differently, the model
follows the code:
- **Generator fallback.** `generateSentence` has no depth bound and no
  fallback to a shortest alternative. It picks uniformly at every
  non-terminal until the stack is empty.
- **The sentence "ab".** It is rejected when the parser looks up A with
  lookahead b and finds no table entry (`NoEntry`), not at a
  terminal-against-end-marker mismatch.
- **A `$` in the input.** Such a character is not rejected. The input
  "a$b" is accepted, because the parser accepts when the end marker on
  the stack meets a `$` lookahead, wherever that `$` sits in the input.
- **Sentence descriptions.** `getSentenceDescription` has no fallback
  based on patterns of the input. Every input other than the sentence of
  a valid example gets the fixed text "No valid description found.",
  including the sentences of the invalid examples.

## Model

| member | source | states |
|---|---|---|
| Grammar.VocabulariesConsistent | src/lib/grammar.ts:11-77 | terminals and non-terminals are disjoint, the non-terminals are exactly the grammar's left-hand sides and the table's rows, ε is in neither vocabulary, and the input alphabet is the terminals without `$` |
| Grammar.ProductionsWellShaped | src/lib/grammar.ts:11-17 | every non-terminal has at least one alternative, and every alternative is ε or an input terminal followed by one non-terminal |
| Grammar.TableWellShaped | src/lib/grammar.ts:47-67 | every table cell is ε or an input terminal followed by a non-terminal, so an expansion never pushes ε or an undeclared symbol |
| Grammar.TableFromGrammar | src/lib/grammar.ts:43-67 | every cell holds one of its row's own alternatives, and the cell's lookahead is that alternative's first symbol, or `$` (FOLLOW of A) for ε |
| Grammar.TablePredictsGrammar | src/lib/grammar.ts:11-67 | conversely, every alternative of every non-terminal sits in the table at its selecting lookahead |
| Grammar.TableCell | src/lib/grammar.ts:11-67 | the table cell for one given alternative exists, at that alternative's selecting lookahead, and holds it |
| Grammar.ExampleSentencesDistinct | src/lib/grammar.ts:82-119 | no two curated examples share a sentence |
| Grammar.Describes | src/lib/grammar.ts:272 | definition: the test `find` applies, same sentence and marked valid; `Grammar.FindDescribing` and `Grammar.GetSentenceDescription` state the lookup in its terms |
| Grammar.FindDescribing | src/lib/grammar.ts:271-273 | the search returns the index of the first example whose sentence is the argument and that is marked valid; when it finds none, no example passes that test |
| Grammar.GetSentenceDescription | src/lib/grammar.ts:270-275 | the result is the meaning of the valid example with this sentence; when no valid example has it, such as for the invalid examples, the result is the fixed fallback text; any other result comes from such an example |
| Parser.ActionText | src/lib/grammar.ts:157-232 | definition: the text the trace shows for each action, written once; its property is `Parser.ErrorTextIffError` |
| Parser.ErrorTextIffError | src/lib/grammar.ts:175-190 | the displayed action text includes "Error" (the test the trace display applies) exactly for the three error actions, and then starts with "Error: " |
| Parser.Tokenize | src/lib/grammar.ts:150 | definition: the input's characters in order, then one end marker; `ParserProofs.ParseTrace` states that the initial entry carries `Tokenize(input)`, and `Parser.StartInv` that it ends in the end marker |
| Parser.Spaced | src/lib/grammar.ts:232 | definition: a body as the action text writes it, its symbols joined by single spaces; its length is stated, and `Parser.ErrorTextIffError` (through `Parser.ActionText`) states what the display relies on |
| Parser.Pushed | src/lib/grammar.ts:224-227 | definition: what an expansion pushes, nothing for ε and otherwise the body reversed; `ParserProofs.StepEffects` states the resulting stack |
| Parser.Record | src/lib/grammar.ts:154-245 | definition: the snapshot every helper appends, a copy of the stack and the input from the cursor on; `ParserProofs.StepEffects` states that each iteration appends exactly one |
| Parser.Counted | src/lib/grammar.ts:163 | definition: the counter raised at the start of each iteration; `ParserProofs.StepEffects` states it rises by one |
| Parser.Matched | src/lib/grammar.ts:208-218 | definition: the state `match` leaves; `ParserProofs.StepEffects` and `Parser.StepMatch` state its effects |
| Parser.Expanded | src/lib/grammar.ts:220-236 | definition: the state `expand` leaves; `ParserProofs.StepEffects` and `Parser.StepExpand` state its effects |
| Parser.Top | src/lib/grammar.ts:164 | definition: the symbol on top of the parser's stack; `Parser.TopDeclared` states that it is always declared |
| Parser.Start | src/lib/grammar.ts:149-160 | definition: the configuration set up before the loop; `Parser.StartInv` and `ParserProofs.ParseTrace` state its properties |
| Parser.Step | src/lib/grammar.ts:162-191 | definition: one iteration of the loop body; `ParserProofs.StepEffects`, `Parser.StepPreservesInv`, `Parser.StepMatch` and `Parser.StepExpand` state what it does |
| Parser.StepPreservesInv | src/lib/grammar.ts:162-192 | an iteration that lets the loop go on keeps the end marker at the bottom, the stack shape and the cursor in range, and strictly decreases the measure |
| Parser.StepAccept | src/lib/grammar.ts:166-169 | the end marker on top meeting the end marker as lookahead ends the loop, accepted, with the accepting entry |
| Parser.StepExpandContinues | src/lib/grammar.ts:180-182 | a non-terminal with a table entry for the lookahead lets the loop go on with that expansion |
| Parser.StepMatch | src/lib/grammar.ts:171-173 | a match happens only on a three-symbol stack, with an input terminal on top; it pops that terminal, moves the cursor one token on, keeps the invariant and lowers the measure |
| Parser.StepExpand | src/lib/grammar.ts:180-182 | an expansion happens only on a two-symbol stack, the non-terminal right above the end marker; it leaves "$" alone or a three-symbol stack with an input terminal on top, keeps the invariant and lowers the measure |
| Parser.TopDeclared | src/lib/grammar.ts:171-191 | under the invariant, the top of the stack is always a terminal or a non-terminal, so the invalid-symbol branch is never taken |
| Parser.RunFrom | src/lib/grammar.ts:162-194 | the loop, run from any invariant-satisfying configuration, terminates (by `Parser.Measure`) and always ends in a return; that this return is a verdict from inside the loop and not the fallback after it is `ParserProofs.RunFromTrace` |
| Parser.Iterate | src/lib/grammar.ts:163-191 | one iteration of the loop followed by the rest of the loop always ends in a return |
| Parser.RunAccept | src/lib/grammar.ts:163-169 | with the end marker on top and as lookahead, the run ends at once, accepted, with one accepting entry and the counter advanced |
| Parser.RunMatch | src/lib/grammar.ts:171-173 | a terminal on top equal to the lookahead pops it, advances the cursor by one and records a match, and the run goes on from there |
| Parser.RunMismatch | src/lib/grammar.ts:171-179 | a terminal on top that differs from the lookahead ends the run, rejected, with a mismatch entry naming both symbols and the stack and cursor unchanged |
| Parser.RunExpand | src/lib/grammar.ts:180-182 | a non-terminal with a table entry for the lookahead is replaced by that body reversed (nothing for ε), an expansion is recorded, and the run goes on |
| Parser.RunNoEntry | src/lib/grammar.ts:180-188 | a non-terminal without a table entry for the lookahead ends the run, rejected, with a missing-entry entry |
| Parser.StartInv | src/lib/grammar.ts:149-160 | the initial configuration (stack "$S", cursor 0, one trace entry) satisfies the loop invariant |
| Parser.Run | src/lib/grammar.ts:144-195 | parsing any input ends in a verdict |
| Parser.LL1Parser.constructor | src/lib/grammar.ts:129-134 | a new parser has an empty trace, stack and tokens, and a zero counter and cursor |
| Parser.LL1Parser.Reset | src/lib/grammar.ts:136-142 | every field is back at its initial value, whatever it was before, so resetting twice is the same as resetting once |
| Parser.LL1Parser.Accept | src/lib/grammar.ts:197-206 | appends a snapshot of the current stack and remaining input with the accepting action, "$" and matched; changes nothing else; returns accepted with the current counter and trace |
| Parser.LL1Parser.Match | src/lib/grammar.ts:208-218 | pops the top, advances the cursor by one and appends a snapshot of the new stack and input with that match; changes nothing else |
| Parser.LL1Parser.Expand | src/lib/grammar.ts:220-236 | pops the top and pushes the table's body reversed, nothing for ε, then appends a snapshot with that expansion; changes nothing else |
| Parser.LL1Parser.Error | src/lib/grammar.ts:238-247 | appends a failed snapshot with the given action and symbol; changes nothing else; returns rejected with the current counter and trace |
| Parser.LL1Parser.Parse | src/lib/grammar.ts:144-195 | the result and the fields afterwards are those of the specification `Run` of the input, whatever earlier calls left in the object, and the result holds the object's own counter and trace |
| ParserProofs.StackInvariant | src/lib/grammar.ts:151-191 | while the loop runs, the end marker is at the bottom of the stack and only there, and every other stack symbol is a declared terminal or non-terminal, never ε |
| ParserProofs.StepEffects | src/lib/grammar.ts:162-236 | one iteration: the tokens never change, the counter rises by one and exactly one snapshot entry is appended; a match pops exactly the matched terminal (never `$`) and advances the cursor; an expansion pops the non-terminal and pushes the table's body reversed; a return leaves stack and cursor alone and is never an invalid-symbol error |
| ParserProofs.RunFromTrace | src/lib/grammar.ts:162-194 | from a running trace, the loop extends the trace, keeps it one entry longer than the iteration count, and ends it with exactly one verdict entry |
| ParserProofs.RunFromIterations | src/lib/grammar.ts:162-194 | from any invariant configuration, the loop counts at most `Parser.Measure` + 1 more iterations |
| ParserProofs.RunIterations | src/lib/grammar.ts:144-195 | a parse of an input of length n counts at most 3n + 6 iterations |
| ParserProofs.ParseTrace | src/lib/grammar.ts:149-194 | the returned trace starts with the initial configuration entry (stack "$S", the whole input plus "$", no symbol, not matched), continues with successful matches and expansions only, ends in one verdict entry, and is one entry longer than the iteration count |
| ParserProofs.ParseVerdict | src/lib/grammar.ts:167-195 | accepted exactly when the last entry is a matched accepting entry, and rejected exactly when it is an unmatched error entry; the trace length is iterations + 1 |
| ParserProofs.ParseTwice | src/lib/grammar.ts:136-152 | parsing the same input twice on one object gives identical results, both those of the specification |
| ParserPrediction.PredictAccepts | src/lib/grammar.ts:162-192 | an accepted prediction from a non-terminal used the table cell for the lookahead: ε only at the end marker, otherwise the body's terminal consumed and its non-terminal accepted on the rest |
| ParserPrediction.PredictAgrees | src/lib/grammar.ts:162-194 | from any invariant configuration whose stack is "$N", the loop's verdict and the actions it appends agree with the recursive reading of the table from N |
| ParserPrediction.AtBottomAgrees | src/lib/grammar.ts:163-179 | from the stack "$", the loop's verdict and appended action are the predictor's: accept at a `$` lookahead, otherwise a mismatch against `$` |
| ParserPrediction.MatchThenAgrees | src/lib/grammar.ts:171-179 | from the stack "$Nt", the loop's verdict and appended actions are the predictor's: match t and continue from N, or a mismatch |
| ParserPrediction.ExpandAgrees | src/lib/grammar.ts:180-188 | when the table has a cell for the non-terminal and the lookahead, the loop's verdict and appended actions are the predictor's: the expansion, then the end-marker test or the match of the body's terminal |
| ParserPrediction.ExpandEpsilonAgrees | src/lib/grammar.ts:180-182 | the ε case of ExpandAgrees: after the expansion only "$" is left, and the loop's verdict and appended actions are the predictor's |
| ParserPrediction.PredictExpands | src/lib/grammar.ts:180-182 | with a table cell for the lookahead, the predictor records the expansion first, then goes on from "$" for ε or from "$Nt" otherwise |
| ParserPrediction.RunPredicts | src/lib/grammar.ts:144-195 | for every input, the parser's verdict is the recursive predictor's, and its trace's actions are the initial entry followed by the predictor's actions |
| ParserExamples.SentenceA | src/lib/grammar.ts:83-87 | "a" is accepted |
| ParserExamples.SentenceBcaa | src/lib/grammar.ts:88-92 | "bcaa" is accepted by the derivation S → b B, B → c C, C → a S, S → a A, A → ε, with its four matches and the final accept, in that order |
| ParserExamples.SentenceAcaa | src/lib/grammar.ts:93-97 | "acaa" is accepted |
| ParserExamples.SentenceBdbcaa | src/lib/grammar.ts:98-102 | "bdbcaa" is accepted |
| ParserExamples.SentenceC | src/lib/grammar.ts:103-107 | "c" is rejected at once: no table entry for S and c |
| ParserExamples.SentenceAb | src/lib/grammar.ts:108-113 | "ab" is rejected after expanding S → a A and matching a: no table entry for A and b |
| ParserExamples.SentenceBda | src/lib/grammar.ts:114-118 | "bda" is rejected after b and d are matched: no table entry for D and a |
| ParserExamples.ParseFollows | src/lib/grammar.ts:144-195 | the parser's verdict and actions on a sentence are the predictor's, and the iteration count is the number of the predictor's actions |
| ParserExamples.ParseBcaa | src/lib/grammar.ts:88-92 | parsing "bcaa" accepts in 10 iterations, with the trace's actions exactly the initial entry and the bcaa derivation |
| ParserExamples.ParseBda | src/lib/grammar.ts:114-118 | parsing "bda" rejects in 5 iterations with a 6-entry trace whose last action is the missing entry for D and a |
| ParserExamples.ParseEmbeddedEndMarker | src/lib/grammar.ts:150-169 | "a$b" is accepted once the `$` typed inside it is reached; the trailing b is never looked at |
| ParserExamples.ExampleVerdict | src/lib/grammar.ts:82-119 | every curated example's validity flag is the parser's verdict on its sentence |
| ParserExamples.DescribedSentencesParse | src/lib/grammar.ts:270-275 | every sentence that has a description is accepted by the parser |
| Generator.Choose | src/lib/grammar.ts:260-262 | definition: the alternative an oracle value picks; `GeneratorProofs.ChoiceIndex` states that it is one of the non-terminal's alternatives |
| Generator.Emitted | src/lib/grammar.ts:254-266 | definition: what the loop appends from a given stack on; `GeneratorProofs.EmitStep`, `GeneratorProofs.EmittedIsPredicted` and `GeneratorProofs.EmittedIsDerived` state its properties |
| Generator.Generated | src/lib/grammar.ts:250-269 | definition: the sentence for an oracle; `GeneratorProofs.GeneratedIsAccepted` and `GeneratorProofs.AcceptedIffGenerated` state its properties |
| Generator.Strip | src/lib/grammar.ts:268 | the result contains no `$`, and a string without `$` is left unchanged |
| Generator.StripAppend | src/lib/grammar.ts:268 | stripping works character by character: stripping a concatenation strips each part and keeps their order (with `Generator.StripSingle`: each `$` is dropped and every other character kept) |
| Generator.StripSingle | src/lib/grammar.ts:268 | a single character is kept exactly when it is not `$` |
| Generator.GenerateSentence | src/lib/grammar.ts:250-269 | the loop produces exactly the specification `Generated` of the choice sequence: the stripped terminals, in order, of the stack expansion from "$S" under those choices, or nothing when the choices run out |
| GeneratorProofs.ChoiceIndex | src/lib/grammar.ts:260-262 | whatever the oracle value, the non-terminal has alternatives and the value selects one of them |
| GeneratorProofs.EmitExpansion | src/lib/grammar.ts:255-265 | a non-terminal above the end marker is replaced by its chosen alternative, pushed reversed, and one choice is used up |
| GeneratorProofs.EmitEpsilon | src/lib/grammar.ts:255-265 | the ε symbol is dropped without being emitted, and then only the end marker is emitted |
| GeneratorProofs.EmitTerminal | src/lib/grammar.ts:255-259 | an input terminal on top is emitted before anything below it |
| GeneratorProofs.EmitStep | src/lib/grammar.ts:254-265 | expanding a non-terminal picks one of its alternatives; ε emits nothing more and leaves only the end marker; otherwise the body's terminal is emitted first, then what its non-terminal yields under the remaining choices |
| GeneratorProofs.EmittedIsPredicted | src/lib/grammar.ts:254-266 | what the expansion of a non-terminal emits is a sentence over a–d followed by the end marker, and the predictor accepts it from that non-terminal |
| GeneratorProofs.EmittedIsDerived | src/lib/grammar.ts:254-266 | what the expansion emits has a leftmost derivation from the expanded non-terminal |
| GeneratorProofs.GeneratedIsAccepted | src/lib/grammar.ts:250-269 | every generated sentence uses only a, b, c and d, has a leftmost derivation from S, and is accepted by the parser |
| GeneratorProofs.PredictedIsEmitted | src/lib/grammar.ts:254-266 | every input the predictor accepts from a non-terminal, with `$` only as its last symbol, is emitted by that non-terminal's expansion under some choice sequence |
| GeneratorProofs.AcceptedIsGenerated | src/lib/grammar.ts:250-269 | every sentence without `$` that the parser accepts is generated by some choice sequence |
| GeneratorProofs.AcceptedIffGenerated | src/lib/grammar.ts:144-269 | for sentences without `$`: accepted by the parser if and only if some choice sequence generates it |
| Stacks.Last | src/lib/grammar.ts:164 | definition: the top of a non-empty stack, its last element; used by `Parser.Top` and by the trace lemmas of `ParserProofs` |
| Stacks.Pop | src/lib/grammar.ts:209 | definition: `pop` as it affects the array; `ParserProofs.StepEffects` states what each pop does to the parser's stack |
| Stacks.Reverse | src/lib/grammar.ts:225 | `reverse`: same length, and the element at i is the one at the mirrored index |
| Stacks.Slice | src/lib/grammar.ts:156 | definition: `slice(p)`, the suffix from p or empty past the end; `ParserProofs.StepEffects` states that every snapshot's input is `Slice(tokens, position)` of the new cursor |
| Derivations.RewriteAfterSentence | src/lib/grammar.ts:11-17 | replacing the non-terminal after a terminal prefix by one of its alternatives is a leftmost derivation step |
| Derivations.DerivationCons | src/lib/grammar.ts:11-17 | a leftmost step followed by a leftmost derivation is a leftmost derivation from the step's start to the derivation's end |

## Left out

- The React interface (pages, components, trace table, animation) is not
  part of this model. It only displays what `parse` returns.
- `firstSets` and `followSets` (src/lib/grammar.ts:19-41) are not modelled
  as constants. The parser never reads them; what they encode is stated
  by `SelectingLookahead` and `Grammar.TableFromGrammar`.
- GenerateSentence: `Math.random()` is replaced by a sequence of choice
  numbers. A choice picks alternative `choice % count`, the same
  alternative `Math.floor(Math.random() * count)` picks for a matching
  random value. When the sequence runs out at a non-terminal, the result
  is `None`.
- GenerateSentence: it is not claimed that the random loop terminates.
  The source ends only with probability 1, and the model has no depth
  bound, because the code has none.
- Trace action text: entries carry an `Action` value instead of a string.
  `Parser.ActionText` gives the source's text for each action once, so
  the text is not repeated in every entry.
- Strings: JavaScript strings are sequences of UTF-16 code units, and
  `split("")` splits at code units. The model splits at Dafny characters.
  The two differ only for characters outside the Basic Multilingual
  Plane, where the source would split one character into two tokens.
- Table lookup: the source tests whether a table cell is truthy. Every
  cell holds a non-empty string, so truthiness is membership, and the
  model tests membership.
- Sharing: `parse` returns its own trace array, so later pushes to that
  array would show through the returned result. `reset` replaces the
  array with a fresh one, and nothing in the core pushes after a return,
  so the model returns values.
- Counters are unbounded naturals. `ParserProofs.RunIterations` bounds
  the iterations of a parse by 3n + 6 for an input of length n, far below
  the range where JavaScript numbers lose precision.
