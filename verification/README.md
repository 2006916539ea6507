# xript, verified

A Dafny model of the parts of xript that are hardest to get right, and proofs of what they promise.
`dafny verify dfyconfig.toml` checks everything.

* **Events bus** (`EventBus`, `BusRuns`, `BusServing`, `BusAnswers`). The state a bus keeps, its verbs working in place on one
  worker's copy of it, and runs of any number of workers that share it through a versioned read and a
  write that refuses a stale version. A run is any sequence of steps of any workers: calls begin at any
  time on any worker, so a handler that calls the bus again is one more open call, and an attempt whose
  write is refused keeps the side effects it had on its own handlers. Over such runs: what can never
  happen, who is served, and what the verbs answer.
* **Values crossing the sandbox boundary** (`Graph`, `Tapes`, `Writers`, `Cursors`, `Inbound`, `Decoder`,
  `TapeWalk`, `Wordings`, `TapeReading`, `Marks`, `MarkedPass`, `MarkReading`, `Outbound`). A value is a heap of arrays
  and objects that may share and refer back; what it stands for is a finite tree in which a reference to
  an enclosing container is `Cycle(up)`. Inbound, the host spells a tape and a stack machine builds the
  value. Outbound, a marked-JSON pass, a second pass that follows cycles from the start, or a tape, and
  the matching reader on the host, which takes the tape's text from a decoder. `JSON.stringify` is the
  recursion that calls the replacer, its text escapes what a C string would lose, and `JSON.parse` builds
  fresh containers in order.
* **Keyed repeats** (`IncreasingSubsequence`, `RepeatDiff`). The patience method, the patch between two
  key lists, and a host that applies it.
* **The expression language** (`Expressions`, `Grammar`, `ExpressionParser`, `Forms`, `FormReading`,
  `FormDerivation`, `Evaluation`, `EvaluationRules`, `EvaluationLaws`, `Interpolation`, `Decimal`,
  `NumberText`, `FixedPoint`, `Radix`). The parser as recursive methods over a token cursor, proved against
  the grammar written as functions; the seven binary levels are one function of the level and a table of
  operators. `Forms` says apart from both how expressions may be written: an operator's rank, where an
  operand needs parentheses, and what a form means; the parser accepts exactly the token lists of such
  forms. Evaluation is tied to inference rules, over any library of arithmetic, lookups and builtins.
  Number texts start from digits, and radix integers from bits.
* **Fragment binding** (`Templates`, `Reporting`, `Fragments`). What a render shows and reports is told from
  the template and the scopes alone; the bind pass is proved to show and report that.
* **Manifest inheritance** (`Manifests`, `MergePaths`), **the JSON nesting guard** (`NestingGuard`),
  **caller lanes** (`CallerLanes`) and the **store-only zip writer** (`Crc32`, `Zip`), which a strict reader reads.

Where a text here and the code disagree, the model follows the code. Five promises do not hold as they
stand; each has its exact condition and an input that breaks it:

* `segments_to_source` is not an inverse of `segment_text` for every text it is used on: a literal that
  ends in an odd run of `{` directly before a site does not come back (`RoundTripsExactlyWhenEven`,
  `OddRunText`).
* `nestsTooDeep` is not the plain bracket scan. It counts erasing passes that lower nothing as depth, and
  what an unclosed literal holds. `GuardIsExact` says what it refuses on every text, and
  `GuardDiffersExactly` where that differs from the scan; only texts from depth 993 on are concerned.
  Three inputs: brackets of different kinds, a pair in front of the openers, and a literal that never closes.
* A script that is stopped inside a handler can leave the handler's mod on its call's lane. The guard of a
  drain remembers the depth of the lane that was active before the drain entered its own, so it unwinds
  that lane and not the one the handler's frame lies on. `ExactWhenStopsAreClean` says when lanes stay
  exact, in every interleaving, and `StoppedDrainShowsAnother` is the run in which a call's own code,
  resumed, shows another mod.
* The text of an outbound tape is accepted once its decoded length is right. A loss that keeps the length
  goes unseen, and the value arrives changed. `CrossOut` says when a value arrives as it left,
  `SameTreeSameText` why a changed text cannot leave the tree the same, and `LossKeepsLength` names a text.
* A `refines` marker can reach the resolved manifest: one inside an object that replaces a scalar is kept with
  the object. `MarkersAreConsumed` says when none is left, and `MarkerSurvives` is an input.

## Model

| member | source | states |
|---|---|---|
| `EventBus.TokensDiffer` | runtimes/js/src/event-bus-kernel.ts:682-684 | different sequence numbers spell different tokens |
| `EventBus.NextTokenIsNew` | runtimes/js/src/event-bus-kernel.ts:682-684 | the token after `sequence` was never issued under it |
| `EventBus.DetachedIsExact` | runtimes/js/src/event-bus-kernel.ts:317-327 | taking any set of tokens out keeps the index exact: each live token once in its own event's list and nowhere else, no list empty, spent and live disjoint, all tokens issued |
| `EventBus.SubscribedIsExact` | runtimes/js/src/event-bus-kernel.ts:682-689 | subscribing keeps the index exact, under a token that was neither live nor spent |
| `EventBus.SpentIsExact` | runtimes/js/src/event-bus-kernel.ts:342-347 | claiming a live once token keeps the index exact |
| `EventBus.EveryVerbKeepsExact` | runtimes/js/src/event-bus-kernel.ts:187-195 | every verb that does not throw keeps the index exact |
| `EventBus.WhatChanges` | runtimes/js/src/event-bus-kernel.ts:187-195 | exactly which live subscriptions and spent tokens a verb changes, and when the sequence moves |
| `EventBus.DetachedTwice` | runtimes/js/src/event-bus-kernel.ts:317-327 | detaching one set of tokens and then another is detaching both at once, so the order of a loop does not matter |
| `EventBus.RemoveAt` | runtimes/js/src/event-bus-kernel.ts:125-128 | shifting and shortening a list takes out exactly the one position |
| `EventBus.Kernel.DetachIn` | runtimes/js/src/event-bus-kernel.ts:317-327 | the in-place detach is the state without the token, and deletes its handler exactly if this worker holds it |
| `EventBus.Kernel.SubscribeIn` | runtimes/js/src/event-bus-kernel.ts:682-689 | the in-place subscribe is the specified change, index exact, handlers untouched |
| `EventBus.Kernel.CancelIn` | runtimes/js/src/event-bus-kernel.ts:629-648 | cancel removes a live token the caller may cancel, reports a spent one, and throws without any change otherwise |
| `EventBus.Kernel.SpendIn` | runtimes/js/src/event-bus-kernel.ts:342-347 | a claim succeeds exactly on a live token, which is then spent |
| `EventBus.Kernel.CancelOwnedIn` | runtimes/js/src/event-bus-kernel.ts:707-719 | the loop takes out exactly the owner's subscriptions and counts them, in whatever order keys come |
| `EventBus.Kernel.OffIn` | runtimes/js/src/event-bus-kernel.ts:829-847 | the loop over a snapshot takes out exactly the event's subscriptions the caller may drop, and counts them |
| `BusRuns.CommitsToState` | runtimes/js/src/event-bus-kernel.ts:187-195 | an accepted write changes the very state its call had read |
| `BusRuns.ThrownDroppedNothing` | runtimes/js/src/event-bus-kernel.ts:636-647 | a call whose change throws has deleted no handler in an earlier, refused attempt |
| `BusRuns.EveryStepKeeps` | runtimes/js/src/event-bus-kernel.ts:182-361 | every step of any worker, refused writes included, keeps the whole invariant |
| `BusRuns.EveryRunKeeps` | runtimes/js/src/event-bus-kernel.ts:182-361 | so does every run |
| `BusRuns.StatesAreSequential` | runtimes/js/src/event-bus-kernel.ts:187-195 | in every run the shared state is the committed changes applied one after the other, and its index is exact |
| `BusRuns.OnceRunsAtMostOnce` | runtimes/js/src/event-bus-kernel.ts:333-361 | in every run, two runs of one once token are the same run |
| `BusRuns.OnceRunsFollowOneClaim` | runtimes/js/src/event-bus-kernel.ts:341-350 | each run of a once token has one committed claim of it while it was live, and no other commit claims it |
| `BusRuns.NoTokenIssuedTwice` | runtimes/js/src/event-bus-kernel.ts:682-689 | no two committed changes issue the same token |
| `BusRuns.RunsAreTheSubscribers` | runtimes/js/src/event-bus-kernel.ts:351-361 | no run is of another handler, for another owner or on another worker than subscribed under its token |
| `BusRuns.LiveSubscriptionsKeepTheirHandlers` | runtimes/js/src/event-bus-kernel.ts:317-327 | a live subscription has its own handler with its worker, unless a call still open has deleted it |
| `BusRuns.DroppedAreGone` | runtimes/js/src/event-bus-kernel.ts:187-195 | when a call ends, no token whose handler any of its attempts deleted is live |
| `BusServing.PersistentHandlerRuns` | runtimes/js/src/event-bus-kernel.ts:333-361 | after any run, a worker that holds the handler of a live persistent token and is asked to serve it runs that handler, for the owner it was subscribed for, exactly once, and nothing else changes |
| `BusServing.OnceHandlerRuns` | runtimes/js/src/event-bus-kernel.ts:333-361 | the same for a once token whose claim nobody overtakes: one run, and the token is spent, no longer live, and its handler gone |
| `BusServing.NothingRuns` | runtimes/js/src/event-bus-kernel.ts:334-341 | without the handler, the live token or the match the call ends and nothing runs or changes but the worker's handlers |
| `BusServing.LookDecides` | runtimes/js/src/event-bus-kernel.ts:333-351 | which of the three a call comes to: run, claim first, or end |
| `BusServing.LiveIsServed` | runtimes/js/src/event-bus-kernel.ts:333-361 | every live subscription that no open call is taking out is served by its own worker whenever it is asked |
| `BusServing.ServedAmongOthers` | runtimes/js/src/event-bus-kernel.ts:333-361 | whatever other calls do in between, a call that finds its persistent token live runs the handler once |
| `BusServing.SpentIsServed` | runtimes/js/src/event-bus-kernel.ts:342-361 | in every run each spent token has been run or is being run; with `OnceRunsAtMostOnce`, a claim is exactly one run |
| `BusAnswers.PrefixBelongsToFirst` | runtimes/js/src/event-bus-kernel.ts:884-890 | after any run a prefix belongs to whoever committed the first claim of it, and to nobody if none did |
| `BusAnswers.ClaimIsAnswered` | runtimes/js/src/event-bus-kernel.ts:884-890 | a claim is granted exactly when the first claimant of the prefix is the caller |
| `BusAnswers.EntriesStand` | runtimes/js/src/event-bus-kernel.ts:786-806 | a catalogue entry keeps its place, id and party for good; it changes only by its own party's declaration, and a manifest's never |
| `BusAnswers.DeclarationStands` | runtimes/js/src/event-bus-kernel.ts:786-806 | a committed declaration is what the id then resolves to, and none is committed over a manifest's or another party's entry |
| `BusAnswers.CancelIsAnswered` | runtimes/js/src/event-bus-kernel.ts:629-648 | a cancellation answers whether the token was live and otherwise whether an earlier commit claimed it; the token is not live afterwards |
| `BusAnswers.DropsAreAnswered` | runtimes/js/src/event-bus-kernel.ts:707-719 | `off` and `cancelOwned` leave exactly the subscriptions they do not concern, and answer how many fewer there are |
| `BusAnswers.SubscribersStandInOrder` | runtimes/js/src/event-bus-kernel.ts:682-689 | after any run an event's list holds exactly its live tokens, each once, in the order they were issued |
| `Graph.UnfoldedIsOk` | runtimes/js/src/crossing.ts:332-352 | the tree of a heap value has distinct keys and back-references that stay inside it |
| `Graph.MeansUnfolds` | runtimes/js/src/crossing.ts:332-352 | a value built for a tree unfolds to that tree |
| `Tapes.LeafComesBack` | runtimes/js/src/crossing.ts:672-687 | a spelled leaf, whatever follows it, is read back as itself, taking exactly its own code, numbers, text and handle |
| `Tapes.IntegerComesBack` | runtimes/js/src/crossing.ts:854-859 | the decimal spelling of any BigInt reads back as it |
| `Tapes.IntegerTextIsUnique` | runtimes/js/src/crossing.ts:1216-1217 | no other decimal text of that length is the same BigInt |
| `Tapes.UnitsComeBack` | runtimes/js/src/crossing.ts:620-630 | a string spelled as code units reads back |
| `Writers.Writer.PutText` | runtimes/js/src/crossing.ts:843-852 | a string goes on the tape as text where a C string carries it, and as its code units otherwise |
| `Inbound.Speller.Spell` | runtimes/js/src/marshal.ts:125-167 | writes exactly the tape of the value's tree and leaves the ancestors as they were; refuses exactly when the value nests past 2048 |
| `Inbound.Speller.MarshalArgs` | runtimes/js/src/marshal.ts:73-81 | the same for an argument list on the tape, each argument crossing as a value of its own |
| `Inbound.IsJsonExact` | runtimes/js/src/marshal.ts:91-123 | answers whether the value's tree has no cycle, exact leaves only, no `__proto__` key and at most 513 levels |
| `Inbound.ExactArrives` | runtimes/js/src/marshal.ts:69-72 | such a tree arrives as it is on either route |
| `Inbound.TextIsSafe` | runtimes/js/src/crossing.ts:804-808 | the joined text of any tape spelled inbound holds no NUL and no lone surrogate |
| `Cursors.Cursor.ReadUnits` | runtimes/js/src/crossing.ts:620-630 | the chunked loop reads exactly as many code units as announced |
| `Cursors.Cursor.ReadText` | runtimes/js/src/crossing.ts:632-637 | takes the announced number of text units and no more |
| `Decoder.StepKeepsOk` | runtimes/js/src/crossing.ts:655-701 | whatever tape it reads, the machine's heap stays well formed |
| `Decoder.Feed` | runtimes/js/src/crossing.ts:655-701 | run over a spelled tree with anything behind it, the machine builds that tree in fresh containers, delivers it, and is left with exactly the rest |
| `Decoder.DecodesSpelled` | runtimes/js/src/crossing.ts:639-703 | decoding what was spelled gives a value of exactly that tree, cycles included, with nothing left over |
| `Decoder.Decode` | runtimes/js/src/crossing.ts:639-703 | the loop over four cursors is that machine |
| `Decoder.ArgumentsArrive` | runtimes/js/src/marshal.ts:73-81 | what a marshalled argument list decodes to |
| `Decoder.ExactArgsArrive` | runtimes/js/src/marshal.ts:70 | parsing the JSON text of an exact list builds what the tape would |
| `Decoder.CrossIn` | runtimes/js/src/marshal.ts:69-81 | every argument list, by JSON or by tape, arrives as its tree, or is refused exactly when it nests past 2048 |
| `TapeWalk.Open` | runtimes/js/src/crossing.ts:332-352 | a container is opened, or spelled as a back-reference exactly when it is one the walk is inside, or refused |
| `TapeWalk.Walk` | runtimes/js/src/crossing.ts:354-386 | the iterative walk writes exactly the tape of the value's tree; refuses exactly when it nests past 2048 |
| `TapeReading.TapeReader.Read` | runtimes/js/src/crossing.ts:1177-1285 | whatever texts arrived in the tape's shape, reads a value that stands for what they say, a repeated key in its first place; fails exactly where a BigInt's text is no integer |
| `TapeReading.TapeReader.ReadBox` | runtimes/js/src/crossing.ts:1242-1284 | an array or object is read to its end code and no further, its back-references pointing at the containers being built |
| `Wordings.SameTreeSameText` | runtimes/js/src/crossing.ts:1177-1285 | with other texts in the shape of a tree the reader ends up with that tree exactly when the texts are the same |
| `MarkedPass.Pass.StartTracking` | runtimes/js/src/crossing.ts:458-464 | tracking begins with the holder in hand, which lies at most 900 containers deep |
| `MarkedPass.Pass.Follow` | runtimes/js/src/crossing.ts:466-474 | entering, returning or climbing above the lowest holder, the stack stays a contiguous part of the chain the engine is inside, from a holder at most 900 deep |
| `MarkedPass.Pass.Replacer` | runtimes/js/src/crossing.ts:476-515 | a leaf is spelled as JSON or as its marker; a followed container as the marker of how far up it is; one that is opened lies less than 1000 deep |
| `MarkedPass.Pass.Visit` | runtimes/js/src/crossing.ts:517-546 | on any value the engine's recursion stays below 1000 containers; JSON that comes out is the value's tree marked, with its functions in order; a pass that follows from the start never meets the circular error |
| `Marks.UnmarkedIsJson` | runtimes/js/src/crossing.ts:534-538 | a tree without markers is JSON as it is |
| `MarkReading.ParsedIsLaid` | runtimes/js/src/crossing.ts:1027-1036 | parsed JSON lies in fresh, unshared containers of a well-formed heap |
| `MarkReading.LeafMarkerMeans` | runtimes/js/src/crossing.ts:1146-1173 | every leaf marker is read back as the leaf |
| `MarkReading.MarkReader.Read` | runtimes/js/src/crossing.ts:1116-1144 | reading in place turns a parsed marked tree into a value of the tree itself, and changes nothing outside it |
| `Outbound.FastPass` | runtimes/js/src/crossing.ts:517-559 | what a pass hands over carries the value's tree; tracked from the start it never stops for a cycle |
| `Outbound.EncodeValue` | runtimes/js/src/crossing.ts:572-602 | whichever route is taken carries the tree; refuses exactly when the value nests past 2048; from 1000 levels on it is the tape |
| `Outbound.SafeTapeText` | runtimes/js/src/crossing.ts:267-272 | strings and keys a C string carries join to a text it carries |
| `Outbound.LossKeepsLength` | runtimes/js/src/crossing.ts:1073-1078 | a text that a decoder loses without changing its length |
| `Outbound.ReadCrossing` | runtimes/js/src/crossing.ts:1008-1087 | the reader each shape asks for gives a value of the tree it carries exactly when the shape is JSON or the tape's text, if decoded to its own length, is decoded to itself |
| `Outbound.CrossOut` | runtimes/js/src/crossing.ts:572-602 | encode and read: plain data crosses as the tree it stands for, cycles and special numbers intact, or is refused exactly when it nests past 2048; on the tape route exactly when the text arrives, which it does where a C string carries every string |
| `IncreasingSubsequence.LeftmostTail` | crates/xript-tree/src/repeat.rs:172-183 | the binary search finds the leftmost tail not less than the value |
| `IncreasingSubsequence.LongestIncreasingSubsequence` | crates/xript-tree/src/repeat.rs:168-196 | ascending indices at ascending values, no such pick longer, settled toward the last tail |
| `IncreasingSubsequence.SettledPickIsUnique` | crates/xript-tree/src/repeat.rs:163-167 | ties are settled the same way by every run of the procedure |
| `IncreasingSubsequence.SettledPickIsLongest` | crates/xript-tree/src/repeat.rs:163-167 | a settled pick is as long as any increasing pick |
| `RepeatDiff.ResolveRepeatKeys` | crates/xript-tree/src/repeat.rs:132-161 | keys are always distinct; kept exactly when all are valid and differ, index keys otherwise, with the problem named |
| `RepeatDiff.DiffRepeat` | crates/xript-tree/src/repeat.rs:206-273 | the patch in each of the three cases: first render, mode change, and by key |
| `RepeatDiff.PatchTakesEachOnce` | crates/xript-tree/src/repeat.rs:232-271 | removed and kept positions partition the previous copies |
| `RepeatDiff.PatchNamesEachNext` | crates/xript-tree/src/repeat.rs:248-271 | after the removes the ops name positions 0, 1, 2, ... with the next keys, and each kept op joins equal keys |
| `RepeatDiff.ReusedKeepOrder` | crates/xript-tree/src/repeat.rs:248-271 | the copies left in place keep their relative order |
| `RepeatDiff.PatchAssembles` | crates/xript-tree/src/repeat.rs:206-273 | a host that takes out what is removed or moved and puts the rest in first to last ends up with what the ops name |
| `RepeatDiff.PatchRebuildsNext` | crates/xript-tree/src/repeat.rs:206-273 | applying the patch leaves one copy per next key, in order: a kept one with that key, or a fresh one where no previous copy had it |
| `RepeatDiff.PatchMovesFewest` | crates/xript-tree/src/repeat.rs:248-271 | no patch that keeps its unmoved copies in relative order leaves more in place |
| `Expressions.NotedAreTheIdentifiers` | crates/xript-expr/src/parser.rs:507-509 | noting names as they are read keeps each once, none besides |
| `Expressions.NotedInOrder` | crates/xript-expr/src/parser.rs:507-509 | and in the order of their first appearances |
| `Grammar.ParseExpr` | crates/xript-expr/src/parser.rs:272-281 | a parsed expression has taken tokens, counted exactly its AST's nodes within the cap, closed every bracket, and noted exactly its identifiers |
| `Grammar.ParseLevel` | crates/xript-expr/src/parser.rs:283-393 | each of the seven left-associative levels counts exactly its AST's nodes within the cap, closes its brackets and notes exactly its identifiers; which operator stands at which level is `ReadsExactlyTheForms` |
| `Grammar.ParsePrimary` | crates/xript-expr/src/parser.rs:445-523 | the same for literals, names, calls and groups; a group adds no node |
| `ExpressionParser.Parser.ParseExpression` | crates/xript-expr/src/parser.rs:272-281 | the method parses as the grammar says, and closes the activation it opened, paid for by nodes and open brackets, on every way out |
| `ExpressionParser.Parser.ParseBinary` | crates/xript-expr/src/parser.rs:283-393 | the binary levels parse as the grammar says, under the same bound on activations |
| `ExpressionParser.Parser.ParseChain` | crates/xript-expr/src/parser.rs:325-339 | the loop of a left-associative level is the rest of its chain |
| `ExpressionParser.Parser.ParseUnaryOperator` | crates/xript-expr/src/parser.rs:395-409 | a unary operator is counted before its operand is parsed |
| `ExpressionParser.Parser.ParsePostfixes` | crates/xript-expr/src/parser.rs:411-443 | the suffix loop parses as the grammar says, and refuses a call of a value |
| `ExpressionParser.Parser.ParseBracketed` | crates/xript-expr/src/parser.rs:255-270 | a bracket costs one level of depth, refused past 64, and is given back when it closes |
| `ExpressionParser.Parser.ParsePrimaryOne` | crates/xript-expr/src/parser.rs:445-523 | primaries parse as the grammar says |
| `ExpressionParser.ParseWithLimit` | crates/xript-expr/src/parser.rs:531-561 | succeeds exactly when the grammar reads the whole list; the node count is the AST's size, the names its identifiers; and on every token list, parsed or refused, at most 12 times (node cap + 64) + 12 activations were ever open at once |
| `ExpressionParser.NamesAreTheIdentifiers` | crates/xript-expr/src/ast.rs:66-67 | `names` holds each identifier once, in the order of first appearance |
| `FormReading.ReadsInfix` | crates/xript-expr/src/parser.rs:283-393 | an operator is read at the level of its rank: its left operand goes on the chain, its right one binds tighter |
| `FormReading.ReadsForm` | crates/xript-expr/src/parser.rs:272-523 | every grammatical form, with anything behind it that cannot continue it, is read as what it means |
| `FormDerivation.DerivedExpr` | crates/xript-expr/src/parser.rs:272-523 | whatever is read is a grammatical form with exactly the tokens taken, the AST as its meaning and brackets within 64 levels |
| `FormDerivation.ReadsExactlyTheForms` | crates/xript-expr/src/parser.rs:531-561 | a token list parses to an AST if and only if a grammatical form within the node and nesting caps has those tokens and means that AST |
| `FormDerivation.FormsAreUnambiguous` | crates/xript-expr/src/parser.rs:272-523 | two grammatical forms with the same tokens mean the same |
| `FormDerivation.TighterBindsFirst` | crates/xript-expr/src/parser.rs:283-393 | for all operators p, q and one-token operands, `a p b q c` groups to the left if p ranks at least as tight as q and to the right otherwise |
| `Forms.FormMeans` | crates/xript-expr/src/parser.rs:272-443 | an AST written with parentheses around all operands, or only where precedence needs them, is grammatical and means that AST |
| `FormDerivation.RoundTrips` | crates/xript-expr/src/parser.rs:531-561 | either way of writing any well-formed AST within the caps parses back to exactly that AST |
| `Evaluation.NamesDecide` | crates/xript-expr/src/eval.rs:55-159 | bindings that agree on an expression's names evaluate alike |
| `EvaluationRules.EvaluationIsByTheRules` | crates/xript-expr/src/eval.rs:55-159 | by the inference rules, which name the premises that are evaluated and in what order, every expression has exactly one value: the one it evaluates to |
| `EvaluationRules.OrderIsLess` | crates/xript-expr/src/xvalue.rs:146-169 | the order of texts is by the first code unit in which they part, a beginning below the whole |
| `EvaluationLaws.ConnectivesAreChoices` | crates/xript-expr/src/eval.rs:82-107 | the three connectives evaluate like choices on their left operand |
| `EvaluationLaws.ChoicesPick` | crates/xript-expr/src/eval.rs:108-114 | a literal test picks its own branch, and the branch not taken may be any expression |
| `EvaluationLaws.NegationExchanges` | crates/xript-expr/src/eval.rs:74-114 | a negated test exchanges the branches, and negation exchanges conjunction and disjunction |
| `EvaluationLaws.ConnectivesAssociate` | crates/xript-expr/src/eval.rs:82-107 | chains of one connective evaluate alike however they are grouped |
| `EvaluationLaws.ComparisonsMirror` | crates/xript-expr/src/eval.rs:119-127 | `<` is `>` turned round, `<=` is `>=`, `!=` is the negation of `==`, and `==` is symmetric |
| `EvaluationLaws.OneOfThree` | crates/xript-expr/src/xvalue.rs:135-169 | of two numbers or two texts exactly one of below, equal and above holds, of other values neither order |
| `EvaluationLaws.LessOrEqual` | crates/xript-expr/src/xvalue.rs:146-169 | `<=` is below or equal where there is an order, and false elsewhere |
| `EvaluationLaws.LessIsTransitive` | crates/xript-expr/src/xvalue.rs:146-169 | `<` is transitive |
| `EvaluationLaws.TextsJoin` | crates/xript-expr/src/eval.rs:128-137 | texts are joined in order, in whichever groups, and `null` adds nothing |
| `EvaluationLaws.TruthsJoinAsWords` | crates/xript-expr/src/xvalue.rs:106-127 | a truth value joins a text as its own word |
| `EvaluationLaws.BracketedTextIsMember` | crates/xript-expr/src/eval.rs:62-73 | a text in brackets reads the member of that name |
| `EvaluationLaws.NameStandsForValue` | crates/xript-expr/src/eval.rs:55-159 | writing an expression in place of a name is binding the name to that expression's value |
| `Interpolation.SegmentText` | crates/xript-expr/src/interpolate.rs:45-108 | the cursor loop splits as specified |
| `Interpolation.SplitIsWellFormed` | crates/xript-expr/src/interpolate.rs:45-108 | what splitting produces: trimmed sites without a closer inside, no two literals in a row, none empty, and how a literal before a site can end |
| `Interpolation.SpelledSegmentsComeBack` | crates/xript-expr/src/interpolate.rs:137-146 | segments whose literals before sites end in even runs of braces come back |
| `Interpolation.OddSegmentsDoNotComeBack` | crates/xript-expr/src/interpolate.rs:137-146 | all others do not |
| `Interpolation.RoundTripsExactlyWhenEven` | crates/xript-expr/src/interpolate.rs:45-146 | so spelling and splitting the segments of a text is the identity exactly when no literal before a site ends in an odd run |
| `Interpolation.OddRunText` | crates/xript-expr/src/interpolate.rs:137-146 | a text for which it is not: the segments that come back differ |
| `NumberText.IsDecimalLiteral` | crates/xript-expr/src/value.rs:231-268 | accepts exactly the texts that denote a decimal number |
| `NumberText.LayoutDenotes` | crates/xript-expr/src/value.rs:77-91 | every laid-out text is such a literal and denotes 0.d1...dk times ten to the point (section 6.1.6.1.20 of ECMA-262) |
| `FixedPoint.AddOne` | crates/xript-expr/src/value.rs:113-127 | the carry loop adds one to the number the digits spell |
| `FixedPoint.RoundKept` | crates/xript-expr/src/value.rs:112-128 | the kept digits are the integer nearest the number times ten to the places, ties up; all digits where more places are asked for |
| `FixedPoint.NearestTiesUpIsNearest` | crates/xript-expr/src/value.rs:103-104 | that integer is nearest among all, the larger of two equally near (section 21.1.3.3 of ECMA-262) |
| `FixedPoint.FormatFixed` | crates/xript-expr/src/value.rs:105-138 | the ordinary text from 1e21 up, otherwise the kept digits with the point and sign in place; no text where the split would lie before the first digit |
| `FixedPoint.PlacesPastTheDigits` | crates/xript-expr/src/value.rs:129-138 | past the digits of the expansion the text denotes the number only if that is zero |
| `FixedPoint.FixedTextDenotes` | crates/xript-expr/src/value.rs:129-138 | the text is a literal that denotes the rounded digits over ten to the places |
| `Radix.CollectBits` | crates/xript-expr/src/value.rs:199-204 | fails exactly on a character outside the radix; the bits spell the integer the digits do |
| `Radix.RoundBits` | crates/xript-expr/src/value.rs:212-224 | significand, round bit and sticky bits give the nearest 53-bit value, ties to even, carry included |
| `Radix.NearestOfAll` | crates/xript-expr/src/value.rs:196-197 | no other 53-bit significand with any exponent is nearer, and an equally near one yields to the even |
| `Radix.RadixInteger` | crates/xript-expr/src/value.rs:198-228 | for any number of digits the nearest double, ties to even; infinite exactly from halfway past the largest one |
| `NestingGuard.NestsTooDeep` | runtimes/js/src/stack-guard.ts:157-176 | the loop answers what erasing and walking say |
| `NestingGuard.PassLowersAtMostOne` | runtimes/js/src/stack-guard.ts:160-166 | one pair-erasing pass lowers the depth by at most one, on any brackets |
| `NestingGuard.PassNeverDeepens` | runtimes/js/src/stack-guard.ts:160-166 | and never raises it |
| `NestingGuard.PassLowersMatchedByOne` | runtimes/js/src/stack-guard.ts:160-166 | and by exactly one where brackets match |
| `NestingGuard.PassKeepsMatching` | runtimes/js/src/stack-guard.ts:160-166 | a pass keeps matched brackets matched |
| `NestingGuard.ErasureCoversDepth` | runtimes/js/src/stack-guard.ts:149-155 | erasing literals and plain text loses no depth, on any text |
| `NestingGuard.ErasureKeepsDepth` | runtimes/js/src/stack-guard.ts:149-155 | and keeps it exactly where every literal is closed |
| `NestingGuard.GuardMissesNothing` | runtimes/js/src/stack-guard.ts:157-176 | never lets through a text whose depth outside literals exceeds 1000 |
| `NestingGuard.GuardIsExactWhenMatched` | runtimes/js/src/stack-guard.ts:157-176 | on properly matched brackets it refuses exactly those |
| `NestingGuard.SqueezingStalls` | runtimes/js/src/stack-guard.ts:157-166 | the passes take as much off the depth as off what is allowed, less one for each pass that stalls |
| `NestingGuard.GuardIsExact` | runtimes/js/src/stack-guard.ts:157-176 | on every text it refuses exactly when the depth of what is left of it and the stalled passes together exceed 1000 |
| `NestingGuard.GuardDiffersExactly` | runtimes/js/src/stack-guard.ts:157-176 | so it agrees with the plain scan exactly unless a text of depth at most 1000 gets past the limit that way |
| `NestingGuard.ShallowPasses` | runtimes/js/src/stack-guard.ts:157-176 | what nests to 992 or less is never refused |
| `NestingGuard.GuardRefusesMismatched` | runtimes/js/src/stack-guard.ts:157-176 | an input: brackets closed in another kind, of depth 1000, refused |
| `NestingGuard.GuardRefusesLeadingPair` | runtimes/js/src/stack-guard.ts:157-176 | an input: a pair before 1000 openers, of depth 1000, refused |
| `NestingGuard.GuardRefusesOpenLiteral` | runtimes/js/src/stack-guard.ts:149-176 | an input: a literal that never closes, of depth 0 outside literals, refused |
| `Fragments.BindContext.BindNode` | runtimes/js/src/fragment.ts:1135-1176 | shows the node in its scope and reports its condition as it holds there; copies come out of one budget, records settle in the node bound, and its size is within twice the template for each copy and once more |
| `Fragments.BindContext.BindChildren` | runtimes/js/src/fragment.ts:994-1012 | the same for a list of nodes in order, later children unsettling no earlier record |
| `Fragments.BindContext.ExpandRepeat` | runtimes/js/src/fragment.ts:1014-1086 | the copies are those of the first items, as many as the budget leaves, the j-th shown in the j-th item's scope; the record says how many, and its range is exactly the copies |
| `Fragments.SettledFinds` | runtimes/js/src/fragment.ts:1066-1076 | a settled record's path leads to what it is about wherever no element on the way had its children replaced |
| `Fragments.ProcessTree` | runtimes/js/src/fragment.ts:963-989 | for any nesting of repeats: the tree shows the template in its scopes, node by node; the reports are those the template gives, in order; all counts together stay within the ceiling, the tree within 2 (1 + copies) times the template; and each range or path addresses precisely its copies or node unless `data-bind` replaced an ancestor's children |
| `Reporting.ReportsAreTrue` | runtimes/js/src/fragment.ts:1051-1151 | each report's origin names a node of the template and, through the copies around it, a scope: a condition is as its expression holds in that scope, a repeat has no more copies than it has items there |
| `Reporting.CutLeavesNothing` | runtimes/js/src/fragment.ts:1029-1041 | a repeat's copies are its first items, all of them unless the render has then no copy left to make |
| `CallerLanes.CallerContext.Drop` | runtimes/js/src/caller-context.ts:41-51 | the end of `run` takes out its own frame, wherever it stands, if it is still there |
| `CallerLanes.CallerContext.UnwindTo` | runtimes/js/src/caller-context.ts:89-92 | drops exactly the active lane's frames above the depth, and is what a returning guard does |
| `CallerLanes.EveryStepKeeps` | runtimes/js/src/caller-context.ts:41-92 | starting, resuming, dispatching, guarding, returning, settling, and a stop that is clean keep every lane exactly its call's frame and those of the dispatches open on it |
| `CallerLanes.CleanRunKeeps` | runtimes/js/src/caller-context.ts:41-92 | so does every interleaving whose stops are clean |
| `CallerLanes.StopLeaves` | runtimes/js/src/sandbox.ts:1783-1798 | what a stop leaves on every lane: the host's own frames gone, the sandbox's cut off but still there, and the guard's lane unwound to the depth it remembers |
| `CallerLanes.StopIsExactWhenClean` | runtimes/js/src/sandbox.ts:2196-2214 | lanes are exact after a stop if, and only if, all it cut off lies on the guard's own lane and the guard's depth is still right there |
| `CallerLanes.ExactWhenStopsAreClean` | runtimes/js/src/caller-context.ts:41-92 | in every interleaving lanes stay exact if, and only if, every stop is clean |
| `CallerLanes.UncleanStopShowsAnother` | runtimes/js/src/sandbox.ts:2196-2214 | after any other stop, code resumed on a lane it left a frame on sees the mod that was cut off |
| `CallerLanes.StoppedDrainShowsAnother` | runtimes/js/src/sandbox.ts:2196-2214 | the run: a call of mod a, its guarded drain, a handler of mod b in it that is stopped; resumed once more, a's code sees b |
| `CallerLanes.EntriesRestoreTheLane` | runtimes/js/src/caller-context.ts:69-77 | in every run, stopped or not, at any two moments with the same entries open the same lane is active |
| `CallerLanes.ReturnRestoresTheLane` | runtimes/js/src/caller-context.ts:69-77 | ending an entry puts back the lane that was active when it began |
| `CallerLanes.CodeSees` | runtimes/js/src/caller-context.ts:26-29 | while stops are clean, code sees the innermost mod dispatched to on its lane, or else the lane's own call, never another's |
| `CallerLanes.ResumedCodeSeesItsCall` | runtimes/js/src/sandbox.ts:2196-2214 | while stops are clean, code resumed in a call's lane sees that call's mod until the call settles and no mod afterwards |
| `CallerLanes.CallKeepsItsMod` | runtimes/js/src/caller-context.ts:54-61 | a lane's call and its mod never change, and a settled call stays settled |
| `Manifests.DeepMergeLaw` | runtimes/js/src/extends.ts:54-69 | under each key a deep merge holds the base's value, the child's, or both objects merged; `refines` is consumed |
| `MergePaths.OverlaidMeets` | runtimes/js/src/extends.ts:54-69 | at every path where base and child both have an object the merge has one |
| `MergePaths.OverlaidParts` | runtimes/js/src/extends.ts:54-69 | at every other path the merge holds what the child has from where they part, and the base's value where the child has nothing or only its marker |
| `MergePaths.CollidesByPaths` | runtimes/js/src/extends.ts:79-97 | only types may be declared on both sides, over an abstract one, which the child replaces, or to refine one, over which it is laid path by path |
| `MergePaths.MarkersAreConsumed` | runtimes/js/src/extends.ts:48-69 | a merge onto a base without `refines` markers has none exactly when each of the child's lies over an object of the base |
| `MergePaths.MarkerSurvives` | runtimes/js/src/extends.ts:48-69 | a marker that reaches the merge |
| `Manifests.MergeMaps` | runtimes/js/src/extends.ts:71-100 | the merged section and exactly the conflicting ids |
| `Manifests.MergeManifests` | runtimes/js/src/extends.ts:340-396 | refused exactly when some id of a section, or some slot, conflicts, or the rest does not merge |
| `Manifests.MergeSlots` | runtimes/js/src/extends.ts:102-133 | the loop appends, refines or reports each slot as specified |
| `Manifests.SlotsAddedLaw` | runtimes/js/src/extends.ts:102-133 | merged slots have the ids of both sides, each once where the base's are |
| `Manifests.ResolveInternal` | runtimes/js/src/extends.ts:398-445 | halts on any finite set of files, chains of distinct paths; succeeds exactly when every base loads without a cycle and every merge does |
| `Manifests.ChainsEnd` | runtimes/js/src/extends.ts:412-437 | no chain of bases is longer than there are files |
| `Manifests.DeclaredOnce` | runtimes/js/src/extends.ts:398-445 | every binding, capability and hook of the result is declared at exactly one place of the extends tree, and unchanged |
| `Manifests.DeclaredIsResolved` | runtimes/js/src/extends.ts:398-445 | nothing declared anywhere in the tree is lost |
| `Manifests.SlotsStandOnce` | runtimes/js/src/extends.ts:398-445 | a manifest that extends others has every slot id of its tree, each once |
| `Manifests.SlotIsDeclared` | runtimes/js/src/extends.ts:398-445 | and no other |
| `Crc32.ByteByTable` | docs/src/components/zip.ts:7-20 | one table step is eight bit steps |
| `Crc32.BuildTable` | docs/src/components/zip.ts:7-15 | the nested loops build that table |
| `Crc32.TableCrc` | docs/src/components/zip.ts:17-21 | the table-driven CRC is the bit-at-a-time one on every byte sequence |
| `Zip.WriteLocal` | docs/src/components/zip.ts:48-63 | the buffer written field by field is the local header, name and data (section 4.3.7 of PKWARE APPNOTE) |
| `Zip.WriteCentral` | docs/src/components/zip.ts:65-80 | the same for the central directory header (section 4.3.12) |
| `Zip.CreateZip` | docs/src/components/zip.ts:36-101 | the archive is all local parts, all central parts with the running offsets, and the end record (section 4.3.16), which is what `ArchiveReadsBack` reads |
| `Zip.ArchiveReadsBack` | docs/src/components/zip.ts:36-101 | a strict reader gets exactly the names and data, within the 16- and 32-bit fields: it refuses unless both headers of a file agree on version, flags, method, stamp, CRC, both sizes and the name, the CRC is the data's, and the end record's counts, size and offset fit the directory |

## Left out

- Values: getters, `toJSON`, wrapper objects, thenables, `copyNamed`, symbols and non-crossing functions going out, and host functions with no sandbox counterpart; values are plain data. JSON text is exact in transport, since `JSON.stringify` escapes NUL and lone surrogates.
- BigInt spellings other than decimal: a tape text that was changed to one counts as unreadable.
- Byte buffers: the growth of tape buffers and the packing of header, numbers and codes into one buffer; the four parts of a tape are sequences.
- The stack array of the marked pass beyond its depth; the model's stack is the part in use.
- Events bus: dispatch order, sessions, payload matching, id shapes, payload encoding between workers and the text of errors; any worker may be asked to serve any token at any time, and whether a match holds is free. `claim`, `declare` and the seeding of the catalogue are changes like the others, without an in-place method of their own.
- Caller lanes: when a script is stopped, and the job queue; a stop may come at any moment a guard or the start of a call is open. The late unwinding of an async call's guard is taken while no host call is open.
- Parser: the tokenizer, and the positions and messages of errors; tokens are given.
- Evaluation: rounded arithmetic, the spelling of numbers, member and index reads, and builtins; they are functions of the library. Numbers are reals.
- Interpolation: the list of issues for sites that do not parse.
- `shortest_digits`, exact float formatting and float parsing: number texts start from the digits they yield; section 21.1.3.3 of ECMA-262 is proved for the digits kept.
- Repeat keys: numbers are compared as real values.
- Fragments: sanitizing, prop routing, diagnostics, text of segments and the patches of repeats inside a render; copies are told apart by their position in place of their key.
- `Manifests.MergeManifests`: `formats`, `vocabularies`, scalar and further fields stand behind one given merge that may fail; path joining is given too. A key named `__proto__` is an ordinary key.
- `Manifests.DeclaredOnce`: says nothing of `types`, which may be refined or made concrete by a child.
- Zip: text encoding and the packing of dates; names, contents and the stamp are given.
- `Zip.ArchiveReadsBack`: holds within the field widths; the writer cuts larger numbers to their fields.
