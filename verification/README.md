# A Datalog and Linda engine over triples: model and proofs

The repository is an in-memory store of triples with a Datalog engine on top (stratified semi-naive evaluation,
magic sets, incremental insertion, retraction through recorded proofs), a Linda tuple space, transactions with an undo
log and an operation log, three ordered indexes over a radix tree, an open-addressing hash table and an epoch scheme for
memory reclamation. This project states the programs' loops and state changes as Dafny methods, classes and step
relations, and proves what they are for: least fixpoints, agreement with recomputation, exact rollback, refinement of
maps and multisets, safety over all runs.

`dafny verify dfyconfig.toml` checks everything.

## How the project is laid out

| files | part of the repository |
|---|---|
| `Collections` | options, sequences without repeats, sizes of subsets |
| `Datalog`, `Validate`, `Stratify` | symbols, rules, models; range restriction and strata (`lib/rule.c`) |
| `Solver`, `Join`, `JoinAnswers` | the recursive solver (`lib/lftj.c`) and the backtracking cursor (`lib/facts.c`) |
| `Justification`, `RuleEval`, `SemiNaive`, `Evaluation`, `Reevaluation`, `Incremental`, `Retraction` | evaluation and maintenance (`lib/eval.c`, `lib/justification.c`, `lib/facts.c`) |
| `Magic`, `MagicAnswers`, `MagicCalls` | the magic-sets rewrite (`lib/magic.c`) |
| `Symbols`, `Hexastore`, `Journal`, `Store` | symbol table, indexes, facts and transactions (`lib/intern.c`, `lib/hexastore.c`, `lib/facts.c`, `lib/transaction.c`) |
| `LogText`, `LogReplay` | the operation log (`lib/io.c`) |
| `Linda`, `LindaWaits`, `LindaTakes` | the tuple space as a multiset, its waiting protocol, and what `in` takes under it (`lib/linda.c`) |
| `HashSet` | the hash table (`lib/set.c`) |
| `RaxTree`, `RaxRuns`, `Rax`, `RaxIterator`, `Scans` | the radix tree (`deps/rax/rax.c`) and the range scans over it |
| `Leapfrog`, `LeapfrogSearch` | trie iterators and leapfrog intersection (`lib/lftj.c`) |
| `Epochs` | the epoch scheme (`include/urcu.h`) |

A symbol whose text begins with `?` is a variable, as `is_variable` has it. What the C code enumerates in the order of an
index or a bucket is taken here in any order, unless the order itself is the result. Where memory can run out, a
parameter (`room`, `memory`) says for how long it lasts, and the contract says what is undone.

The Datalog theorems have hypotheses, gathered in `Evaluation.SafeRules`, `Evaluation.WellFormed`,
`MagicAnswers.Rewritable` and `Retraction.Settled`: predicates are constants (lib/rule.c:659, lib/rule.c:691 skip any
other) and every rule passes `datalog_rule_validate`. Evaluation itself is modelled over any asserted and derived facts;
that no asserted fact has a head predicate is assumed where its result is called the perfect model, and
`Reevaluation.PerfectIff` says what holds otherwise. That every rule has a positive subgoal is not assumed: evaluation
answers -1 exactly when one has not, or when a nonempty program has no strata. The empty program evaluates to 0.

## Results that are not what one would expect

- include/eval.h:6-13 announces the stratified fixed point. Evaluation never reads a fact of the predicates of the stratum
  it works on that was there before, and never derives such a fact again (lib/eval.c:142-145, lib/eval.c:367).
  `Reevaluation.SecondRunMisses` evaluates, asserts one more fact and evaluates again, which leaves out a fact of the model;
  `Reevaluation.AssertedIsNotRead` shows the same for an asserted fact. `Reevaluation.PerfectIff`: over any facts the result
  is the perfect model exactly when the derived facts to start from belong to it and every other fact of each stratum follows
  without reading a fact of the stratum that was there before.
- `Retraction.CircleOutlivesItsSupport`: two facts that prove each other stay derived when the fact that started them
  goes. `Retraction.LeastIffNoCircle`: retraction reaches the least model exactly when no set of derived facts that is
  cut off from the remaining asserted facts proves itself.
- `MagicAnswers.AnswersPreservedIff`: for a goal without rules the rewrite is the empty program, and its answers are lost
  exactly when an asserted fact matches the goal, as in `MagicAnswers.AssertedAnswerIsLost`. `MagicAnswers.EmptyRuleIff`: the
  rewrite makes a rule without subgoals, which evaluation refuses, exactly when the goal leads, from
  call to call, to a rule that is entered without bound columns and starts with a derived subgoal with a constant argument;
  `MagicAnswers.FreeGoalMakesEmptyRule` is a program of two rules where it does.
- Magic sets do not restrict evaluation to what the goal needs: the rules of a predicate that may be called with nothing
  known carry no guard, so they call others even where no goal call reaches them. `MagicCalls.DemandedUnasked` is such a
  program. `MagicCalls.MagicIsAsked` says exactly which magic facts hold, `MagicCalls.AnsweredExactly` which answers are
  computed, and `MagicCalls.MagicIsAskedByGoal` that they are the goal's own calls where no such predicate is reached.
- `JoinAnswers.ExactIff`: the backtracking cursor reports each answer once over every database exactly when every variable
  that stands twice in one subgoal is bound before that subgoal is opened; otherwise some database makes it report an
  answer twice.
- `Linda.Space.InOnce`: a blocking `in` hands out a tuple without taking it exactly when memory for the undo entry is
  missing and this was its last occurrence, because lib/linda.c:636 reads -1 as success. So over a run the tuples put in
  need not pay for those handed out: `Linda.RunBalances` counts the difference, `Linda.UnpaidIff` says when there is none,
  and `Linda.HandedOutAndKept` is the failing call.
- `LindaWaits.PromotionLosesWakeup`: asserting, in a transaction of the store's own, a fact that was derived before makes
  it visible to `rd` and `in` but is not reported to them (lib/transaction.c:142 passes over state entries), and a thread
  that waits for it is left blocked with no broadcast to come. `LindaWaits.LoudIff` and `LindaWaits.LoudIsNeeded` say
  exactly which commits keep wakeups, and `LindaWaits.RunLosesNoWakeup` that no wakeup is lost in a run in which no
  transaction of the store asserts a fact that is stored as derived alone. `out` always announces its tuple.
- `LogText.StringBack`: a string comes back from the log exactly when it is shorter than the read buffer.
- `HashSet.ProbeEndsIff`: a table that has no free slot never ends the search for a missing key. `HashSet.FillOneSlot` builds
  such a table, of one slot; from a capacity of 2 on, growth keeps a slot free.
- Runs in the radix tree need not be as long as they could be. The comment at deps/rax/rax.c:1302-1311 announces that
  removing `FOO` next to `FOOBAR` leaves one run, but deps/rax/rax.c:1275 tests `h->size == 1`, which no run of two
  characters has: `RaxRuns.FooBarLosesRun`. `Rax.Tree.Remove` keeps runs maximal exactly when the removed key does not
  stand on such a run that could be joined with the node above or the one below. `Rax.Tree.Insert` keeps them maximal
  exactly when the new string does not leave a run before its last character while a keyless run or single edge follows:
  what the cut leaves is never joined with what follows it (`RaxRuns.KeyOnRunBreaks`).

## Model

| member | source | states |
|---|---|---|
| Validate.PositiveVars | lib/rule.c:172-187 | the list holds exactly the variables of the positive subgoals, each once |
| Validate.Validates | lib/rule.c:168-220 | a rule is accepted exactly when its head and its negated subgoals use only variables of positive subgoals |
| Stratify.Propagate | lib/rule.c:681-716 | within one pass more than there are predicates the levels are the pointwise least ones, or a cycle goes through a negated dependency |
| Stratify.LateChange | lib/rule.c:681-722 | a level that still rises in the last pass proves a cycle through negation |
| Stratify.Stratify | lib/rule.c:644-752 | no strata exactly when no predicate is constant or a dependency cycle goes through a negated edge; otherwise each rule has its head's level in the pointwise least solution |
| Stratify.StratifiedRules | lib/rule.c:644-752 | along a positive dependency the stratum does not fall, along a negated one it rises |
| Stratify.OneStratum | lib/rule.c:644-752 | a program without negation has a single stratum |
| Solver.BindTriple | lib/lftj.c:544-622 | binding a fact fails exactly at a column that contradicts an earlier value; taking back the reported slots restores the bindings either way |
| Solver.BindMeaning | lib/lftj.c:544-622 | after a successful binding the subgoal instantiates to the very fact |
| Solver.SatSplit | lib/lftj.c:544-622 | every satisfying assignment passes through the binding of one visible fact for the next subgoal |
| Solver.StepExact | lib/lftj.c:544-622 | the assignments that use a given fact are exactly the satisfying assignments of the remaining subgoals from its binding |
| Solver.SolveFact | lib/lftj.c:577-618 | one fact contributes its assignments, once each, and the slots are put back |
| Solver.NaiveSolveRec | lib/lftj.c:544-622 | the callback sees every satisfying assignment exactly once, the result counts them, and all bindings are restored |
| Joins.OpenKeeps | lib/facts.c:1399-1407 | opening a level puts exactly the visible facts of the substituted subgoal in front of its cursor |
| Joins.SlotsGrow | lib/facts.c:1172-1184 | a level's cursor writes only slots that the levels below left empty, so clearing them restores the earlier bindings |
| Joins.FoundKeeps | lib/facts.c:1453-1457 | moving a level to its next fact loses and repeats no path |
| Joins.ClosedKeeps | lib/facts.c:1458-1467 | closing an exhausted level loses no path |
| Joins.Complete | lib/facts.c:1367-1471 | when all levels hold a fact they are a path, the slots are what it leaves, and it does not come again |
| Joins.JoinCursor.constructor | lib/facts.c:1058-1127 | every path is pending, except that an empty specification has none |
| Joins.JoinCursor.Open | lib/facts.c:1399-1407 | the new level is specified by the parent's remaining subgoals under the current values |
| Joins.JoinCursor.Advance | lib/facts.c:910-946 | the deepest cursor takes an unvisited fact, or is closed and its slots are emptied |
| Joins.JoinCursor.Turn | lib/facts.c:1396-1469 | one turn keeps the set of paths to come and uses up work |
| Joins.JoinCursor.Next | lib/facts.c:1367-1471 | each call returns one pending path and leaves exactly the others; it answers 0 only when none is pending, and calls come to an end |
| JoinAnswers.Enumerate | lib/facts.c:1242-1365 | the calls run through every path exactly once |
| JoinAnswers.PathAnswers | lib/facts.c:1367-1471 | a path without fresh repeats ends in a satisfying assignment, which determines the path |
| JoinAnswers.AnswerHasPath | lib/facts.c:1367-1471 | every satisfying assignment is the end of a path |
| JoinAnswers.RepeatGoesTwice | lib/facts.c:926-933 | an unbound repeat gives a database over which one answer is reported twice |
| JoinAnswers.ExactIff | lib/facts.c:1367-1471 | paths and answers correspond one to one over every database exactly when repeats are bound in time |
| JoinAnswers.Cheapest | lib/facts.c:1879-1951 | the first subgoal of least cost among the remaining ones |
| JoinAnswers.SpecSort | lib/facts.c:1871-1998 | a permutation in which each subgoal is cheapest among those after it, given the variables bound before it |
| JoinAnswers.BoundByIs | lib/facts.c:1961-1996 | the variables taken for bound are those of the positive subgoals before, all of them up to 128 |
| JoinAnswers.NegatedWaits | lib/facts.c:1938-1950 | a negated subgoal is not chosen before its variables are bound while any other is left that has something bound, if no constant is used 100000 times |
| JoinAnswers.BindingHelps | lib/facts.c:1879-1951 | binding a variable makes no subgoal dearer |
| JoinAnswers.ConstantsCompare | lib/facts.c:1879-1951 | of two constants the one used less often is cheaper, an unknown one cheaper still |
| JoinAnswers.Join | lib/facts.c:1058-1127 | no answer is missed; without repeats inside a subgoal the answers are exact and come once each, whatever the reordering did |
| JoinAnswers.BothEngines | lib/lftj.c:544-631 | cursor and solver report the same assignments with the same multiplicity |
| Solver.SolveMulti | lib/lftj.c:624-631 | every satisfying assignment once from empty slots, and none without subgoals |
| JustificationGraphs.JustificationGraph.Add | lib/justification.c:71-109 | a proof is stored once |
| JustificationGraphs.JustificationGraph.Clone | lib/justification.c:111-126 | the copy holds the same proofs in the same order |
| JustificationGraphs.JustificationGraph.Count | lib/justification.c:128-139 | positive exactly when a stored proof concludes the fact |
| JustificationGraphs.JustificationGraph.Conclusions | lib/justification.c:161-187 | the conclusions of the proofs that use a support, each once |
| JustificationGraphs.JustificationGraph.RemoveSupport | lib/justification.c:189-221 | exactly the proofs that use the support go, the others keep their order, and every conclusion that lost one is reported once |
| RuleEval.NegationHolds | lib/eval.c:70-83 | true exactly when no negated subgoal is visible |
| RuleEval.OnSolution | lib/eval.c:61-161 | the application is recorded once while proofs are staged, with one support for each subgoal in order, its fact and its sign, and its rule's index; its head is queued unless it is derived already |
| RuleEval.JustRecords | lib/eval.c:106-131 | a proof holds the application's head, its rule's index and, subgoal by subgoal, the instantiated atom and whether it is negated; nothing else records the application |
| RuleEval.RecordedSupports | lib/eval.c:106-131 | a fact is a positive or negated support of the proof exactly when the application needs it present or absent |
| RuleEval.SolverMeaning | lib/eval.c:229-284 | solving the compiled body finds exactly the assignments that put each positive subgoal into the database chosen for it |
| RuleEval.RunRule | lib/eval.c:229-284 | every application over the chosen databases fires, no other does, each with its head and its proof |
| RuleEval.Facts.MergeDerived | lib/eval.c:184-207 | derived support for exactly the queued facts, and the count of those that gained it |
| RuleEval.Facts.RemoveDerived | lib/eval.c:1131-1136 | derived support goes, and the fact disappears exactly when nothing asserts it |
| SemiNaive.IterationZero | lib/eval.c:341-384 | iteration 0 fires exactly the stratum's applications over the visible facts of other predicates, and queues the heads not derived yet |
| SemiNaive.Iteration | lib/eval.c:426-510 | an iteration fires exactly what some old/delta/full version of some rule allows |
| SemiNaive.VersionComplete | lib/eval.c:463-510 | an application that became possible with the delta is found by the version of its first new subgoal |
| SemiNaive.HeadsInEveryModel | lib/eval.c:341-533 | no iteration derives a fact outside a set closed under the stratum's rules, up to conclusions that were derived before |
| SemiNaive.FixpointLoop | lib/eval.c:407-534 | the loop ends, by a measure on the finite Herbrand base, with nothing left to derive in the stratum |
| SemiNaive.EvalStratum | lib/eval.c:344-542 | over any support: the stratum's own facts are not read; what is added is the least set that follows from the others, up to conclusions derived before; proofs are its applications; false exactly when a rule has no positive subgoal |
| Evaluation.ApplicationStable | lib/eval.c:344-542 | later strata neither enable nor disable an application of an earlier one |
| Evaluation.EvalStrata | lib/eval.c:344-542 | the strata in order, each over what the lower ones left, from any derived support |
| Evaluation.FromNothing | lib/eval.c:286-551 | from no derived support, and with no asserted fact of a head predicate, the strata build the perfect model and its true applications |
| Evaluation.EvalLocked | lib/eval.c:286-551 | -1 exactly without strata or positive subgoals, 0 for the empty program; otherwise what each stratum adds to any support it finds, and how many facts gained derived support; from none, exactly what the perfect model adds |
| Evaluation.Eval | lib/eval.c:553-578 | the same, with nothing changed on failure |
| Evaluation.PerfectModelUnique | lib/eval.c:286-551 | there is only one perfect model |
| Evaluation.PerfectIsLeast | lib/eval.c:286-551 | without negation it is the least model |
| Evaluation.ProvedIsDerived | lib/justification.c:128-139 | a fact's count is positive exactly when it is the head of a true application |
| Evaluation.ExactIsRecorded | lib/eval.c:106-131 | the graph holds exactly the proofs of the true applications exactly when each item records one of them, each is recorded, and none twice |
| Evaluation.SupportReported | lib/justification.c:161-221 | removing a support from such a graph reports exactly the conclusions of true applications that need the fact, in the sign asked for |
| Evaluation.Attach | lib/facts.c:1704-1771 | derived support is dropped before evaluation, so whatever was derived, the graph holds the proofs of the true applications of the perfect model, once each, counts are positive exactly for derived facts, and looking up any support finds exactly the heads of applications that need that fact present, or absent; on failure nothing has changed |
| Reevaluation.OverSaturated | lib/eval.c:286-551 | where every true application has its head derived and its proof recorded, evaluation queues nothing and records nothing new |
| Reevaluation.StratumIff | lib/eval.c:344-542 | a stratum over facts that were there before reaches its least fixpoint exactly when it can recover the facts missing from it |
| Reevaluation.PerfectIff | lib/eval.c:286-551 | over any asserted and derived facts the result is the perfect model exactly when these derived facts belong to it and each stratum can recover the rest |
| Reevaluation.SecondRunMisses | include/eval.h:6-13 | evaluating, asserting a fact and evaluating again leaves out a fact of the least model |
| Reevaluation.AssertedIsNotRead | lib/eval.c:358-367 | an asserted fact of a head predicate is not read by the rules of its stratum |
| Reevaluation.EvaluateTwice | lib/eval.c:553-578 | two evaluations with an assertion between them, and the fact they leave out |
| Incremental.Round | lib/eval.c:936-1005 | a round fires exactly the applications that use a new fact |
| Incremental.InsertionLoop | lib/eval.c:914-1027 | the delta loop ends closed under the rules, with every application that uses an inserted or derived fact recorded |
| Incremental.PropagateInsertions | lib/eval.c:799-1034 | the insertion phase starts from any visible state closed up to the inserted facts and closes it |
| Incremental.InvalidateNothing | lib/eval.c:1090-1152 | without negation no insertion invalidates a proof |
| Incremental.OnInsert | lib/eval.c:1154-1180 | an insert-only commit ends at the least model of the enlarged facts with exactly its true applications, as recomputation would, also for the empty program |
| Retraction.Invalidate | lib/eval.c:1090-1152 | what stays derived is the greatest set whose members keep a proof with surviving supports, and exactly the surviving proofs stay; a rescan is asked for exactly when facts were deleted or a negated support was lost |
| Retraction.HandleConclusions | lib/eval.c:1121-1145 | a derived fact without proofs loses its support and becomes an event, no other fact does |
| Retraction.KeptProof | lib/eval.c:1090-1152 | a set that supports itself is never touched by the cascade |
| Retraction.DerivedIsProved | lib/eval.c:1090-1152 | in the least model with its exact graph each derived fact has a proof |
| Retraction.SettledIsReady | lib/eval.c:1090-1152 | a delete-only commit from a settled state meets what the cascade relies on |
| Retraction.RemainderClosed | lib/eval.c:1154-1180 | what the cascade leaves is closed under the rules |
| Retraction.RemainderSaturated | lib/eval.c:1154-1180 | and every true application over it has its head derived and its proof recorded, so the evaluation that follows finds a saturated state |
| Retraction.LeastIffWellFounded | lib/eval.c:1090-1152 | the remainder is the least model of the reduced facts exactly when its proofs can be ranked |
| Retraction.LeastIffNoCircle | lib/eval.c:1090-1152 | in terms of the state before: exactly when no derived facts that the reduced asserted facts no longer reach prove each other |
| Retraction.AcyclicIsWellFounded | lib/eval.c:1090-1152 | proofs of an acyclic graph can always be ranked |
| Retraction.OnDelete | lib/eval.c:1154-1180 | a delete-only commit, cascade and evaluation together, leaves the greatest supported set, closed, with exactly its true applications; it fails exactly when evaluation refuses the program; it is the least model exactly when no facts cut off prove each other |
| Retraction.CircleOutlivesItsSupport | lib/eval.c:1090-1152 | a settled program and a deletion after which the cascade keeps two facts the least model lacks |
| Magic.Enqueue | lib/magic.c:29-54 | an entry is queued once |
| Magic.AddBound | lib/magic.c:94-110 | the bound variables grow by the term if it is a variable |
| Magic.AdornBody | lib/magic.c:202-211 | a subgoal's column is adorned as bound exactly when its value is determined: any two bindings that agree on the head's bound columns and on the end columns of the subgoals before give it one value; exactly the derived subgoals are queued |
| Magic.BoundIsDetermined | lib/magic.c:81-110 | a term is bound exactly when its value is determined in that sense |
| Magic.SubAdDetermined | lib/magic.c:202-211 | so each adornment says which arguments are determined on entry |
| Magic.CopyBody | lib/magic.c:224-281 | the rewritten body: the guard, then the subgoals under their adorned names |
| Magic.TransformRule | lib/magic.c:179-296 | the output grows by the adorned rule and one magic rule for each derived subgoal |
| Magic.Transform | lib/magic.c:298-336 | no program exactly for a variable goal predicate; otherwise the output covers every entry reachable from the goal, and the worklist ends |
| Magic.QueueIsCalled | lib/magic.c:298-336 | the entries of the worklist are exactly those the goal leads to through calls |
| Magic.AtMostFour | lib/magic.c:298-336 | at most four adornments of a predicate are queued |
| Magic.NamesDiffer | lib/magic.c:73-79 | adorned and magic names determine predicate and adornment |
| Magic.NamesAre | lib/magic.c:73-79 | the names as texts: `_bb`, `_bf`, `_fb`, `_ff` behind the predicate, `magic_` before |
| MagicAnswers.OutputIsSafe | lib/magic.c:179-296 | every rule of the output is range restricted |
| MagicAnswers.NewRuleFires | lib/magic.c:179-296 | on facts that answer or demand something true, a rewritten rule derives the same kind of fact |
| MagicAnswers.BodyAnswered | lib/magic.c:179-296 | if a demanded head holds in the original model, each subgoal in turn is demanded and answered |
| MagicAnswers.AnswersPreserved | lib/magic.c:298-336 | with the goal's seed, the least model of the output holds an adorned goal fact exactly when the original least model holds the plain one |
| MagicAnswers.AnswersPreservedIff | lib/magic.c:298-336 | answers are kept for all matching facts exactly when rules define the goal or no asserted fact matches it |
| MagicAnswers.AssertedAnswerIsLost | lib/magic.c:298-336 | one asserted fact and a goal it answers: the rewrite answers nothing |
| MagicAnswers.UnderivedGoal | lib/magic.c:298-336 | a goal without rules rewrites to nothing |
| MagicAnswers.EmptyRuleIff | lib/magic.c:224-251 | a rule without subgoals appears exactly when the goal leads, in the source program, to an entry without bound columns whose rule starts with a derived subgoal that has a constant argument |
| MagicAnswers.FreeGoalMakesEmptyRule | lib/magic.c:224-251 | a goal without constants over two rules gives a rule without subgoals |
| MagicCalls.MagicIsAsked | lib/magic.c:179-336 | with the goal's seed, a magic fact is in the least model exactly when left-to-right evaluation over the original model makes its call, from the goal or from a predicate the goal may call with nothing known |
| MagicCalls.MagicIsAskedByGoal | lib/magic.c:179-336 | if the goal leads to no call with nothing known, exactly when it makes the call from the goal |
| MagicCalls.AnsweredExactly | lib/magic.c:213-290 | an adorned fact is in the least model exactly when it holds in the original one and is asked for |
| MagicCalls.DemandedUnasked | lib/magic.c:213-290 | three rules and a magic fact that holds although the goal does not call it |
| MagicCalls.SeedIs | lib/magic.c:112-141 | the seed of a goal and the predicate of its answers, as texts |
| MagicCalls.PathsRewritten | t/00util/test/check_magic.c:7-37 | the rewrite of transitive closure for a goal with its start bound is exactly three rules, which pass the start along |
| Symbols.SymbolTable.Intern | lib/intern.c:130-171 | one more use of the text, by a symbol whose id no other live text has; refused exactly when a new text finds no memory; live symbols stay live |
| Symbols.SymbolTable.Unintern | lib/intern.c:180-196 | one use less, and the entry goes with the last one |
| Symbols.LiveUnique | lib/intern.c:130-171 | equal texts have one live symbol |
| Hexastores.Hexastore.Insert | lib/hexastore.c:69-96 | all three indexes gain the fact or none does, even when memory fails halfway; only a taken key leaves a trace |
| Hexastores.Hexastore.Remove | lib/hexastore.c:98-113 | all three indexes lose exactly the fact |
| Hexastores.Hexastore.Compact | lib/hexastore.c:136-173 | rebuilding keeps the contents of all three indexes, and happens exactly when memory suffices |
| Hexastores.IndexesUnique | lib/hexastore.c:31-36 | the facts determine the index |
| Journal.EntryUndoes | lib/facts.c:1778-1805 | the entry pushed before a change of support leads back over it |
| Journal.Recorded | lib/transaction.c:216-246 | a change with its entry keeps the undo log leading back to the snapshot |
| Journal.LoggedChange | lib/facts.c:485-515 | one log line for each change of asserted support keeps the log replaying to the asserted triples |
| Stores.Store.Push | lib/transaction.c:216-246 | the entry holds references of its own, and is refused only for want of memory |
| Stores.Store.InsertCopy | lib/facts.c:435-483 | stored in the hash set and three indexes with its references and undo entry, or all of it taken back, exactly when memory does not last for the copy, the indexes, the hash set and the entry |
| Stores.Store.Hold | lib/facts.c:522-548 | three texts become a fact whose references are held, or none is, exactly when memory does not last for the new texts |
| Stores.Store.RemoveFound | lib/facts.c:631-640 | the fact leaves the hash set and the indexes and gives up its references |
| Stores.Store.AddFact | lib/facts.c:485-515 | one kind of support is added, or nothing changes, which is so exactly when memory does not last for what is missing; an undo entry appears exactly for a real change |
| Stores.Store.RemoveFact | lib/facts.c:642-674 | 0 exactly without such support, -1 exactly for want of memory, and the fact goes with its last support |
| Stores.Store.AddSpo | lib/facts.c:522-548 | the same by texts, whose new ones need memory too, with no reference left behind |
| Stores.Store.RemoveSpo | lib/facts.c:681-690 | the same for removing |
| Stores.Store.Lookup | lib/facts.c:722-732 | the one stored fact with these texts, or none |
| Stores.Store.ApplyEntry | lib/facts.c:1778-1805 | undoing an entry keeps indexes, usage counts and log in step with the facts |
| Stores.Store.Begin | lib/transaction.c:68-87 | the outermost begin fixes what a rollback returns to |
| Stores.Store.Rollback | lib/transaction.c:189-214 | from any nesting the facts are those at the outermost begin, -1 exactly without a transaction |
| Stores.Store.Commit | lib/transaction.c:89-177 | an inner commit keeps the transaction open; the outer one applies the listener's changes, or undoes everything when it fails |
| Stores.Store.RunOp | lib/facts.c:485-695 | one operation changes one kind of support of one triple, and nothing when memory stops it |
| Stores.Store.RunOps | lib/transaction.c:89-246 | any run of changes, nested begins and inner commits acts on the supported triples as the plain set operations do, in order |
| Stores.Store.BeginRunRollback | lib/transaction.c:189-214 | after any run a rollback restores facts with supports, the three indexes, every usage count and every live symbol |
| Stores.SameUsage | lib/intern.c:130-196 | stored facts and outside references determine every usage count |
| LogText.WriteString | lib/io.c:8-41 | the text between quotes with its special characters escaped, or plain |
| LogText.ReadString | lib/io.c:43-92 | the string that stands at a place, or none when it is malformed or too long |
| LogText.PlainForm | lib/io.c:8-41 | text without line ends and backslashes that does not begin with a quote stands as it is on a line |
| LogText.QuotedForm | lib/io.c:8-41 | any other stands between quotes, one character longer for each quote and backslash in it |
| LogText.QuotedMeans | lib/io.c:43-92 | a quoted string is read exactly when it stands there, whatever is escaped in it, and fits the buffer |
| LogText.PlainMeans | lib/io.c:43-92 | a plain string is read exactly when it stands there on a line and fits the buffer |
| LogText.StringBack | lib/io.c:8-92 | reading inverts writing exactly for strings shorter than the buffer, and stops right behind what was written |
| LogReplay.WriteLog | lib/io.c:193-203 | one line for each logged change, in order |
| LogReplay.PlainLine | lib/io.c:193-203 | the text of a line about plain strings: `add` or `remove`, the three strings, an empty line |
| LogReplay.OperationIsSpelled | lib/io.c:205-265 | the operation is read from exactly these two words, in small or capital letters |
| LogReplay.ReadLog | lib/io.c:205-265 | the asserted triples become what the text says, or reading fails |
| LogReplay.ReplayLine | lib/io.c:205-265 | a line adds or removes one asserted triple, and fails exactly when it removes one that is not there; no reference is left behind |
| LogReplay.LogBack | lib/io.c:193-265 | a written log reads back exactly when its strings are nonempty and fit the buffer and no line removes a missing triple |
| LogReplay.Rebuild | lib/io.c:193-265 | the log of any store with a history of changes, commits and rollbacks rebuilds its asserted triples in a new store |
| HashSet.SomeFree | lib/set.c:84-118 | fewer items than slots leave a free slot |
| HashSet.Set.constructor | lib/set.c:29-42 | an empty table of the given capacity, one slot or more |
| HashSet.NewSet | lib/set.c:29-42 | a table exactly for a capacity above 0 |
| HashSet.Set.Probe | lib/set.c:183-199 | ends at the key's slot exactly when the key is stored, else at the free slot of its probe sequence |
| HashSet.Set.Add | lib/set.c:84-118 | the key is stored once and nothing else changes; the table doubles exactly when it was half full; a table of two slots or more with a free one keeps one |
| HashSet.Set.Remove | lib/set.c:120-171 | only the item's key goes, every other key stays reachable, `count` and `collisions` stay exact |
| HashSet.Set.CloseGap | lib/set.c:137-166 | shifting items back closes the gap for every later probe sequence and counts displaced items exactly |
| HashSet.CanMoveMeaning | lib/set.c:145-152 | an item may move into the hole exactly when its way from home leads through it |
| HashSet.Set.Resize | lib/set.c:208-255 | the contents survive any change of capacity, also when rehashing resizes again; refused exactly for capacity 0 or when the items cannot fit |
| HashSet.MoveOne | lib/set.c:229-245 | each moved item keeps the new table complete for what was moved |
| HashSet.ProbeEndsIff | lib/set.c:183-199 | a lookup ends exactly when its key is stored or some slot is free |
| HashSet.FillOneSlot | lib/set.c:84-118 | one key in a table of one slot: every lookup of another key goes on for ever |
| HashSet.Scan | lib/set.c:257-280 | the cursor meets every stored key once |
| RaxTree.PlugSame | deps/rax/rax.c:638-1051 | relinking a node that stores the same changes nothing in the tree |
| RaxTree.PlugKey | deps/rax/rax.c:298-308 | setting a node's key changes what is stored under its path and nothing else |
| RaxTree.SplitSame | deps/rax/rax.c:818-923 | splitting a run at a mismatch keeps what is stored |
| RaxTree.EndSplitSame | deps/rax/rax.c:924-985 | so does splitting where the string ends |
| RaxTree.AddChildSame | deps/rax/rax.c:330-470 | a new edge, put where the order wants it, stores nothing yet |
| RaxRuns.PlugMaximal | deps/rax/rax.c:638-1051 | runs of a tree are maximal exactly when they are around a place, at it, and across it |
| RaxRuns.SplitMaximal | deps/rax/rax.c:818-923 | cutting a run leaves runs maximal below exactly when what stays behind the cut cannot be joined with the next run |
| RaxRuns.FooBarLosesRun | deps/rax/rax.c:1275-1328 | removing FOO next to FOOBAR leaves two runs, one directly above the other |
| RaxRuns.KeyOnRunBreaks | deps/rax/rax.c:818-923 | an insertion that cuts the run of a key leaves two runs, one directly above the other |
| Rax.LowWalk | deps/rax/rax.c:546-609 | the walk stops at the longest stored prefix, with the place it reached and the offset inside a run |
| Rax.FindEdge | deps/rax/rax.c:565-586 | the index of the character, or the number of edges when it is missing |
| Rax.StopGet | deps/rax/rax.c:1109-1113 | the stop decides whether the string is stored, and under which value |
| Rax.InsertAt | deps/rax/rax.c:638-1051 | the string gets the value, every other string keeps its own, edges stay sorted, no way down ends without a key, and runs stay maximal exactly when no cut leaves one to be joined |
| Rax.Tree.Find | deps/rax/rax.c:1109-1113 | agrees with the map |
| Rax.Tree.Insert | deps/rax/rax.c:1081-1086 | the map gains or overwrites one entry, reports the old value, `numele` is its size, and runs stay maximal exactly when no cut leaves one to be joined |
| Rax.CleanUp | deps/rax/rax.c:1240-1274 | nodes that led only to the removed one go, up to the first that leads elsewhere or is a key |
| Rax.Prune | deps/rax/rax.c:1275-1412 | a node with one way on is joined with its neighbours into a run that can be extended in neither direction, any longer run is left as it is; what is stored does not change |
| Rax.Recompress | deps/rax/rax.c:1329-1412 | the chain from the topmost to the lowest node that only leads on becomes one run, which can be extended in neither direction |
| Rax.Tree.Remove | deps/rax/rax.c:1213-1417 | the map loses exactly the string, `numele` follows, every way down still ends at a key, and runs stay maximal exactly when the key does not stand on a run of two or more that could be joined |
| RaxIterators.GoUp | deps/rax/rax.c:1592-1651 | climbing ends at the next greater edge or with nothing greater left |
| RaxIterators.NextStep | deps/rax/rax.c:1554-1654 | the least stored string after the place |
| RaxIterators.SeekFrom | deps/rax/rax.c:1762-1930 | the least stored string not below the given one, wherever the walk stops |
| RaxIterators.Next | deps/rax/rax.c:1935-1946 | the least stored string above the current one |
| Scans.BigEndianOrder | lib/hexastore.c:19-29 | byte order of encoded numbers is their order, and the encoding is injective |
| Scans.KeyBytesOrder | lib/hexastore.c:31-36 | byte order of the 24-byte keys is lexicographic order of the ids |
| Scans.IndexTreeInsert | lib/hexastore.c:69-96 | inserting under the key bytes makes the tree the index of one fact more |
| Scans.IndexTreeRemove | lib/hexastore.c:98-113 | removing the key bytes makes it the index of one fact less |
| Scans.ScanRange | lib/facts.c:862-946 | seek and next run through exactly the facts between two keys, in order |
| Scans.RangeIsPattern | lib/facts.c:996-1051 | in the chosen index the facts of a pattern are exactly those between its two corner keys |
| Scans.Scan | lib/facts.c:958-1051 | for each of the eight patterns exactly the matching facts, once each, ascending in the ids of the variable columns: s, p, o when all are free, and o before s when only p is bound |
| Scans.OrderIsFree | lib/facts.c:996-1051 | in the index chosen for a pattern matching facts are ordered by its variable columns |
| Leapfrog.Seek | lib/lftj.c:134-172 | the least key not below the sought one, failing exactly when there is none |
| Leapfrog.Next | lib/lftj.c:174-216 | the least greater key below the same parents, failing exactly when there is none |
| Leapfrog.Open | lib/lftj.c:84-123 | the first key of the next level; only an empty index has none |
| Leapfrog.UpIsAtKey | lib/lftj.c:125-132 | coming back up from anything below leaves the iterator at its key |
| LeapfrogSearch.Pass | lib/lftj.c:219-232 | one pass settles one more of the greatest keys |
| LeapfrogSearch.SortIterators | lib/lftj.c:219-232 | the iterators are permuted into ascending keys, those at the end last |
| LeapfrogSearch.AscendsNext | lib/lftj.c:235-258 | moving the least key to the greatest place keeps the keys cyclically sorted |
| LeapfrogSearch.Search | lib/lftj.c:235-258 | the least common key from a bound on, or none; it ends because every seek moves on |
| LeapfrogSearch.Intersect | lib/lftj.c:356-369 | exactly the keys common to all iterators, ascending, each once, whatever the deeper levels do to them |
| Epochs.NextInv | include/urcu.h:87-327 | every step of readers and writer keeps the invariant |
| Epochs.FreedNotHeld | include/urcu.h:297-327 | no reader holds an object that the scan found old enough |
| Epochs.RunSafe | include/urcu.h:87-327 | in no run is an object freed while a reader holds it in its section |
| Epochs.SectionSafe | include/urcu.h:90-119 | counted over the steps of the run alone: an object acquired by a thread is not freed while the thread has locked more often than unlocked since its outermost lock |
| Epochs.NestingIs | include/urcu.h:90-119 | a registered thread's depth is its locks less its unlocks, and its slot is active from the end of the outermost lock to the last unlock |
| Epochs.SlotHoldsEpoch | include/urcu.h:90-119 | inside a section the slot holds the epoch that was current when the outermost lock began |
| Epochs.FreeSlotsAreFree | include/urcu.h:206-255 | a slot that no registered thread owns is inactive |
| Epochs.CollectorFrees | include/urcu.h:297-327 | a collection frees exactly the entries older than the epoch it began in and than each reader it has seen, and keeps the others in order |
| Epochs.SeenWasActive | include/urcu.h:297-327 | each reader it takes into account was active when it looked |
| Epochs.QuietCollectionFreesAll | include/urcu.h:297-327 | a collection that meets no active reader frees everything retired |
| Epochs.NobodyWaits | include/urcu.h:87-327 | in every state of a run each registered thread and the writer can take their next step |
| Epochs.CollectionEnds | include/urcu.h:297-327 | a collection is over after at most three steps for each slot and one for each entry, whatever readers do meanwhile |
| Epochs.LivesOnce | include/urcu.h:257-327 | at any point of a run an object is linked, unlinked, or waiting and then freed, exactly as the steps that name it have taken it |
| Epochs.WriterIsSequential | include/urcu.h:257-327 | bumping and collecting go one thing after the other, uninterrupted by the writer itself |
| Epochs.ReaderChoices | include/urcu.h:87-119 | a thread can unregister exactly when no lock or unlock of its own is under way, lock again and acquire what is linked exactly inside a section |
| Epochs.WriterChoices | include/urcu.h:257-296 | any new object may be linked, any linked one unlinked, any unlinked one retired |
| Epochs.RunFreesOnce | include/urcu.h:257-327 | no retired object is freed twice |
| Linda.Space.EntryAdd | lib/linda.c:93-120 | the overlay gains the count or, without memory, nothing |
| Linda.Space.EntryRemove | lib/linda.c:122-133 | the overlay forgets the fact and gives up its references |
| Linda.Space.OutAgain | lib/linda.c:424-468 | one more occurrence of a present tuple through the overlay alone, with an empty undo log; refused exactly when the counter needs memory that is missing or is full |
| Linda.Space.OutNew | lib/linda.c:424-468 | a first occurrence through the store alone, taken back when the commit fails; it succeeds exactly when memory lasts and the listener agrees |
| Linda.Space.Out | lib/linda.c:424-468 | one more occurrence exactly when it reports success, and when it does |
| Linda.MatchOne | lib/linda.c:478-534 | an asserted fact into which some assignment of texts to the pattern's variables turns the pattern, or none exactly when there is none |
| Linda.TermsMatchIff | lib/linda.c:501-530 | comparing constants, and columns of one variable with each other, decides exactly whether such an assignment exists |
| Linda.RepeatedVariable | lib/linda.c:506-515 | a pattern with one variable in two columns matches only tuples with equal texts there |
| Linda.Space.ConsumeOne | lib/linda.c:536-552 | an occurrence of the overlay without touching the store, or else the fact itself |
| Linda.Space.Take | lib/linda.c:708-739 | the tuple loses one occurrence or, when memory or the listener fails, nothing |
| Linda.Space.Finish | lib/linda.c:607-663 | a failed commit leaves the multiset as it was, because the overlay changed only with an empty undo log; it fails exactly when the listener refuses changes |
| Linda.Space.Inp | lib/linda.c:708-739 | 0 exactly when no assignment turns the pattern into a tuple of the space, and unchanged; 1 with one such occurrence taken exactly when another is left or memory and listener allow it, else -1 and unchanged |
| Linda.Space.Rd | lib/linda.c:695-706 | a tuple into which some assignment turns the pattern, 0 exactly when the space has none |
| Linda.Space.InOnce | lib/linda.c:607-663 | with a match and no memory the result is 1 all the same, and the last occurrence then stays; otherwise a success takes one occurrence |
| Linda.RunOperations | lib/linda.c:424-739 | over any run of `out`, `rd`, `inp` and `in`, with memory or without, what was there and was put in, together with what was handed out unpaid, equals what was handed out and what is left |
| Linda.Operate | lib/linda.c:424-739 | one operation adds, reads or takes as its answer says, an `in` without memory taking only what is there more than once |
| Linda.RunBalances | lib/linda.c:424-739 | that balance, after every prefix of a run |
| Linda.UnpaidIff | lib/linda.c:607-663 | nothing was handed out unpaid exactly when every successful `in` had memory or found its tuple more than once |
| Linda.HandedOutAndKept | lib/linda.c:636 | an `in` without memory on a tuple's only occurrence hands it out and keeps it |
| LindaWaits.NextInv | lib/linda.c:135-663 | every step of any thread keeps locks and transactions in order, and every step but a commit that keeps silent about a tuple it made visible keeps the broadcasts owed |
| LindaWaits.BroadcastServes | lib/linda.c:135-145 | a broadcast leaves nobody blocked on its partition |
| LindaWaits.RunLosesNoWakeup | lib/linda.c:567-663 | if no transaction of the store asserts a fact stored as derived alone, a thread blocked while a matching tuple is visible has a broadcast pending, in every state of the run |
| LindaWaits.LoudRunLosesNoWakeup | lib/linda.c:567-663 | the same for runs whose commits announce what they make visible |
| LindaWaits.LoudIff | lib/transaction.c:141-174 | a commit announces all it makes visible exactly when each fact it turned from derived to asserted is announced by another entry or by `out` |
| LindaWaits.LoudIsNeeded | lib/transaction.c:141-174 | a commit leaves every possible waiter a wakeup exactly when it announces all it makes visible |
| LindaWaits.UnpromotedIsLoud | lib/transaction.c:141-174 | a commit that asserts no derived fact, or is that of `out` or `in`, announces all it makes visible |
| LindaWaits.PromotionLosesWakeup | lib/transaction.c:141-174 | a run from the start that ends with a thread blocked, its tuple visible and no broadcast pending |
| LindaWaits.NoDeadlock | lib/linda.c:366-663 | some thread can take its step, one in a transaction by committing any change that fits it, unless all are outside or waiting |
| LindaWaits.SomethingToCommit | lib/linda.c:567-663 | there is always such a change, for `in` the taking of the tuple it found |
| LindaWaits.OutIsLoud | lib/linda.c:424-468 | `out` is always announced, also when it asserts a derived fact |
| LindaWaits.NewFactsAreLoud | lib/transaction.c:141-174 | transactions that only add facts not stored before are always announced |
| LindaWaits.PromotionIsSilent | lib/transaction.c:141-174 | asserting a derived fact makes a tuple visible and announces nothing |
| LindaWaits.Partition | lib/facts.c:1605-1614 | variables have partition 0 to themselves |
| LindaWaits.PartitionIs | lib/facts.c:1605-1614 | cutting the hash to 32 bits in every round comes to cutting a polynomial in 33 once |
| LindaTakes.GoesOnWithTuple | lib/linda.c:567-663 | in any step of a run, `rd` returns and `in` goes on to take only where a matching tuple is visible, with that tuple; where none is, an open space's look ends in waiting; an `in` on a counted tuple never fails |
| LindaTakes.LooksAtRest | lib/linda.c:567-663 | a look has the store to itself: no other transaction is open, and the store changes only by its writer's commit |
| LindaTakes.ClosedForGood | lib/linda.c:366-383 | once the space is closed no operation begins, and a thread that takes its partition's lock gives up |
| LindaTakes.TakenOnce | lib/linda.c:536-663 | over any stretch of a run, the occurrences of a tuple there were and the ones written are those taken and those left: no two calls of `in` take the same one |
| LindaTakes.OutAddsOne | lib/linda.c:424-468 | a commit of `out` adds one occurrence of one tuple with its subject and changes no other |

## Left out

- Order of callbacks: `eval_solution_cb` runs here after the solver has listed a rule's solutions, not in between; the databases the solver reads do not change meanwhile.
- Retraction.Invalidate: the deletion phase with negation (lib/eval.c:619-798) and commits that both insert and delete are not modelled.
- Retraction.OnDelete: the undoing of the commit when the listener fails is `Stores.Store.Commit`; here the facts stay as the cascade left them.
- Evaluation.Attach: detaching a program and the checks before attaching one (lib/facts.c:1704-1740) are left out.
- MagicAnswers.AnswersPreserved: speaks of the least model of the rewritten program with the seed, not of running the evaluator on it: the seed has a head predicate, and such asserted facts are not read, see `Reevaluation.AssertedIsNotRead`.
- MagicAnswers.OutputIsSafe: magic sets over negated subgoals are not covered.
- Evaluation and the store are linked through the sets of asserted and derived facts, not through the store's class; allocation failure inside evaluation, in the justification graph and in the rewrite is not modelled.
- Joins.JoinCursor.Next: positive subgoals only. Going back into a satisfied `:not` level succeeds again (lib/facts.c:1409-1452). Sorting, limit and offset of `facts_with_cursor_next` are left out, and so is `spec_expand`.
- JoinAnswers.SpecSort: costs are real numbers, without rounding.
- Leapfrog.Seek: iterators are values in the array; the rows of an index are taken as a sorted sequence. `facts_lftj_solve` end to end is not modelled: a failed constant seek leaves the iterator a level too deep (lib/lftj.c:318-325), a ground query answers 1 unchecked (lib/lftj.c:285-290), some variable orders use an unsuitable index (lib/lftj.c:516-518).
- Rax.Tree.Insert: nodes are values linked by a stack of places; reallocation, padding, node counts, the size limit of a run and allocation failure are not modelled. `raxPrev`, "<", "<=", ">", "^", "$" seeks and random walks are left out.
- Hexastores.Hexastore.Insert: indexes are maps from keys here; `Scans.IndexTreeInsert` and `Scans.IndexTreeRemove` carry them over to the radix tree.
- HashSet.Set.Add: hashes are arbitrary numbers; overflow of the size computation and allocation failure are not modelled, nor is the endless lookup itself: `Probe` asks for a free slot or a stored key.
- Symbols.SymbolTable.Intern: the last id a 64-bit counter can give (lib/intern.c:138) is not a case of its own; `memory` may stand for it.
- Stores.Store.Rollback: assumes the memory that undoing needs, as the code does without checking.
- Stores.Store.Commit: listeners are any sequence of additions and removals with a given outcome; observers are part of `LindaWaits` only. Threads and locks of transactions are not in this class.
- LogReplay.ReadLog: of a malformed line the code keeps references to the strings it had read (lib/io.c:139-156); the model takes none.
- LogReplay.Rebuild: the log since the last reset, strings without NUL, files as strings of characters; `fsync`, temporary files and rewriting on reset are left out.
- Epochs.RunSafe: sequential consistency and one writer; `urcu_synchronize` and the immediate free when retiring fails are left out.
- Linda.RunOperations: one operation at a time; operations inside a caller's open transaction and templates with actual formal checks on output buffers are left out.
- LindaWaits.RunLosesNoWakeup: a timed wait may end at any moment; the clock is not modelled, nor `linda_eval`.
- LindaWaits.NoDeadlock: speaks of the modelled locks only, and gives no fairness.
- Rule parsing, SPARQL, the command line, terminal editing, random and hash functions, benchmarks and demos.
