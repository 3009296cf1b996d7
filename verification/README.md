# Verified model of the fraud-detection service

A Dafny 4.11 model of the four parts of the service in which a mistake would be silent: how Kafka messages
become stored decisions, how rule conditions are checked and evaluated, how rule-set versions are published and
cached, and how tables are paged and callers limited. Each part is proved against a statement of what it is for.
`dafny verify dfyconfig.toml` checks everything.

## What is modelled

**Delivery** (`Records`, `Store`, `PartitionProtocol`, `Delivery`, `Replay`, `Progress`, `RetryMachine`, `Worker`,
`FleetAudit`,
`ObjectInFleet`, `Pipeline`). `Store` is the database transaction that records a decision, as statements on two tables with roll
back, and the velocity look-back. `PartitionProtocol` is one consumer incarnation: its queue, its flags, and where
its drain task stands; every function is the code between two awaits. `Delivery` is the whole fleet: a log per
partition, any number of incarnations (an old owner may still be working when a new one starts), both tables, the
dead-letter topic and the committed offsets, under any schedule of polls, failures, unacknowledged writes, commits,
stops, cancellations, crashes and reassignments. A step that cannot happen is skipped, so every sequence of steps is
a run and the theorems hold of every run. Two invariants carry the results. *Committed prefix*: settled messages are
a prefix of each log, and no stored or committed offset passes an unsettled message. *Replay determinism*: the
decisions table is, at every moment, the sequential fold of each partition's settled prefix. `Progress` adds recovery:
from the state of any run a fault-free continuation settles everything, so the theorems are not about nothing.
`FleetAudit` is what the audit table says after any run of the fleet. `Worker` and `RetryMachine` are
the object and the loops as written; their methods are proved against functions of what happens during their awaits,
and those functions are proved to be runs of the owner steps. `ObjectInFleet` lifts them into the fleet, among any
other steps of it, so that the theorems about every run are theorems about the object.

**The rule language** (`RuleSyntax`, `RuleChecker`, `RuleEvaluator`, `RuleSoundness`, `RuleSemantics`,
`RuleTypes`, `RuleOperators`, `RuleContexts`, `RuleSets`). Conditions are JSON trees. The checker, with its shared node counter, is proved to accept
exactly the trees derivable in a typing judgment and within both limits. Accepted conditions are proved to evaluate
without error in every context an event can give rise to, to the value that strict evaluation of the uncompiled tree
has, at a cost bounded by what the checker counted. A number has the value it is written with and the value of the
Python object that holds it; compiling makes them equal, and `CompilingMatters` shows why that is needed.
`RuleTypes` and `RuleOperators` say what is accepted and what each operator answers without the definitions: types that
share a value, sums that add up, texts that occur. `RuleContexts` ends with what each variable's name reads of an event.

**Publishing and caching** (`RuleSetVersions`, `Staleness`, `CacheOrder`, `ProviderCalls`,
`RuleCache`). Publishers race between reading
the highest version and inserting the next. Copies of a version travel from PostgreSQL to Redis to a provider's memory;
each hop takes time, can be lost, and can land out of order, and calls of one provider can overlap. `CacheOrder` settles
when answers can go back to an older version: for every setting of the two times to live and of the hop, and every
choice among four rules on the schedule, they never do exactly if the chosen rules are enough for that setting.
`ProviderCalls` shows that a call of `get_active` is a run of those steps that keeps the provider's own rules. Every
copy that is loaded passes an integrity check.

**Paging and limiting** (`OrderBy`, `Paging`, `Cursor`, `VersionPaging`, `RateLimit`). Walks along page cursors over a
table that grows meanwhile, the cursor's base64url text (sections 3.2, 4 and 5 of RFC 4648), and the fixed-window
request counter over whole traces.

## Assumptions

- Kafka delivers a partition's log in order from the committed offset and delivers nothing while the partition is
  paused; PostgreSQL transactions are atomic and its unique keys hold; a dead letter counts only once acknowledged.
- A log's offsets are contiguous from zero.
- A failure is permanent only because of the message (it does not parse) or of the tables (its id is stored with other
  data); the environment causes transient and unexpected failures.
- Replay determinism holds for one fixed rule set, with each user and each transaction id on one partition, and in
  runs where no message is dead-lettered for an unexpected failure, on top of the assumptions above.
- The audit theorem about single deliveries assumes that a source position (topic, partition, offset) always carries
  the same event; the one about the fleet proves it from the logs.
- "Published definitions only" assumes an injective hash, that validating a definition's dump gives it back, and that
  in-place edits leave the hash columns alone. The plain traceability theorem assumes none of these.
- The JSON layer of a cursor is a printer and a parser that reads the printer's texts back.
- Settings have the lower bounds the settings module gives them (watermark, attempts, window lengths at least 1).
- A rebalance names each partition once. No stored row is edited while a client's walk over a version history is under
  way; edits before it are part of the model.
- An in-place edit makes a row or a Redis entry fail its integrity check, or undoes such an edit, where time matters
  (`Staleness`); `RuleCache`, which has no time, allows any edit.
- In the cache every hop lands or is lost within one bound, and all clocks run at one rate.
- A Redis counter's expiry is judged by the clock the request reads.

## Where the code and its documentation differ

- The documented staleness bound is the two times to live (`app/cache.py:10-12`). A copy also ages while in flight,
  once towards Redis and once towards the provider, so the bound that holds is the two times to live plus two hops.
  `DocumentedBoundExceeded` is a run past the documented one, and `DocumentedBoundIsInstant` shows that every run
  meets it exactly when hops take no time. The promise about edited rows (`app/cache.py:17-18`) is short of the same
  two hops.
- A comment says static checks cannot catch type errors and that the dry run is for those (`app/rules.py:426-428`).
  The static check does catch them: `DryRunNeverRejects` proves that no definition that validates fails the dry run.
- A comparison or a search is refused as one that "can never be equal" or "can never match" (`app/rules.py:261-276`).
  Between true/false and numbers it can: Python's true equals 1. `RefusedYetEqual` is the example, and `EqualIffBlurred`
  says for exactly which types the message is true.
- Within the staleness bound a provider can go back to an older version, which "pods normally switch" can be read to
  exclude. It takes overlapping calls of one provider, a write lost while Redis serves an older version, a write that
  lands after a newer one has ended, or a copy kept before its own write has ended; `NeverGoesBackIffEnough` says
  exactly which of these have to be ruled out for which settings.
- One version that fails its integrity check fails every page that holds it (`app/database.py:603`), so a client cannot
  list the versions below that page by following `next_before_version`; the listing endpoint's documentation does not
  say so. `VersionWalk` and `CorruptVersionStopsWalk` say exactly what a walk returns.

## Model

| member | source | states |
|---|---|---|
| Store.Find | app/database.py:369-371 | a lookup by primary key answers a stored row with that id, and answers nothing only when no row has it |
| Store.Database.RecordDecision | app/database.py:333-389 | the statements, with roll back, leave both tables and the result exactly as one atomic first-decision-wins write would; the answer is `evaluated` iff the id was new, and its decision is the one stored afterwards |
| Store.Database.InsertTransaction | app/database.py:346-369 | the row is added iff the id is new; nothing else changes |
| Store.Database.InsertHistory | app/database.py:384-388 | the audit row is added iff its source position is new |
| Store.VelocityAdds | app/database.py:400-420 | the look-back adds up over parts of the table, so row order is immaterial |
| Store.VelocityOfOne | app/database.py:400-420 | which single rows count (both bounds included, own id excluded) and that only the window's currency is summed |
| Store.FindStable | app/database.py:333-389 | a stored decision stays the one found however the table grows |
| Store.RecordKeepsAudit | app/database.py:297-389 | one delivery keeps: unique ids and positions, exactly one `evaluated` row per stored transaction, every audit row equal to the stored decision and about its event |
| Store.AuditInEveryRun | app/database.py:297-389 | that audit invariant in every state reachable by any deliveries in any order and number |
| Store.RunsOnlyAppend | app/database.py:333-389 | stored decisions and audit rows are never changed or removed |
| Store.ReapplyingChangesNothing | app/database.py:333-389 | a message already in the audit table, however it is re-scored, changes nothing and is answered with the stored decision |
| Store.ConflictWritesNothing | app/database.py:365-382 | the write is refused exactly when the id is stored with different data, and then nothing is written |
| Store.AnswerIsTheStoredDecision | app/database.py:365-389 | an answer is `evaluated` iff no row had the id, and its decision is the one stored under the id from then on |
| Store.AuditRowOfAnswer | app/database.py:383-389 | a position met for the first time gets one audit row: the stored decision's data, the outcome answered, and this delivery's position, timestamp and correlation id; a known one gets none |
| Store.OneDecisionPerId | app/database.py:333-389 | over any calls, once an id has been answered every later answer for it is `duplicate` with the same decision |
| FleetAudit.EveryRunIsAudited | app/database.py:297-389 | after any run of any schedule: one `evaluated` row per stored transaction, every audit row equal to the stored decision and under the position of a message of the logs |
| FleetAudit.AuditRowIsAboutItsMessage | app/processing.py:96-138 | every audit row names a message of the logs, with its timestamp, and the decision it shows is about the event that message carries |
| PartitionProtocol.StepKeepsOrder | app/worker.py:283-320 | every step keeps the queue an unbroken run of offsets between the message in flight and the next poll |
| PartitionProtocol.BackpressureNeverWedges | app/worker.py:283-320 | in every run backlog is within the watermark, unpaused means room, and a paused idle partition has the right next message queued |
| PartitionProtocol.PausesAtWatermark | app/worker.py:283-298 | a partition is paused by exactly the delivery that brings its backlog to the watermark, and gets none after it |
| PartitionProtocol.ResumesAtHalf | app/worker.py:316-320 | a paused partition resumes at exactly the round that brings its backlog to half the watermark, having stored the offset of the last finished message |
| PartitionProtocol.SettlesInOffsetOrder | app/worker.py:300-320 | in every run an owner settles exactly the offsets from its committed offset on, each once, none skipped, and stores only settled ones |
| Delivery.OnlyTheWindowMatters | app/processing.py:57-86 | a decision does not depend on its own row, other users' rows, later events or events before the window |
| Delivery.DecidedFromTheWindow | app/processing.py:57-86 | what one more row of the table adds to the count and the sum the rules see, by its own fields and literal bounds, and that the decision is what the rules say of them |
| Delivery.SettleOne | app/worker.py:300-320 | settling a message at or before the frontier keeps the settled messages a prefix |
| Delivery.MoveKeepsSafe | app/worker.py:245-320 | no step of one owner can pass the frontier |
| Delivery.StepKeepsSafe | app/worker.py:221-320 | every step of the fleet keeps the committed-prefix invariant |
| Delivery.EveryRunIsSafe | app/worker.py:221-320 | the committed-prefix invariant holds after every run |
| Delivery.CommittedPrefix | app/worker.py:221-320 | after any run settled messages form a prefix, and everything before a committed offset, a stored offset or a message in flight is settled |
| Replay.LogDecides | app/processing.py:96-138 | processing a log decides every valid message in it |
| Replay.VelocityOnShare | app/database.py:392-420 | the look-back answers the same on one partition's share of the table |
| Replay.FindOnShare | app/database.py:345-382 | an id is decided in the table iff it is decided in its partition's share |
| Replay.ReadIsFaithful | app/processing.py:57-86 | reading at the frontier is reading exactly the preceding prefix |
| Replay.WriteIsFaithful | app/database.py:345-389 | writing such a decision, first or repeated, extends the partition's share exactly as sequential processing does |
| Replay.StepKeepsReplayed | app/worker.py:283-423 | every step keeps table and waiting decisions faithful to the sequential fold |
| Replay.EveryRunReplays | app/worker.py:283-423 | that invariant after every run in which nothing was given up |
| Replay.TableIsFoldOfSettledPrefixes | app/worker.py:283-423 | at any moment of any run each partition's share of the table is the sequential fold of its settled prefix |
| Replay.ReplayDeterminism | app/processing.py:96-138 | a run that settles every message ends with exactly the table that processing each log once, alone and in order gives |
| Replay.AnyTwoRunsAgree | app/worker.py:283-423 | any two such runs end with the same table, however scheduled |
| Progress.OneRound | app/worker.py:300-423 | without faults one round settles the next message, whatever it contains, and stores its offset |
| Progress.EveryRunCanFinish | app/worker.py:245-423 | recovery: from the state of any run, crashes included, a fault-free continuation settles every message and gives up on none beyond those given up before; if none was, it ends with the reference table |
| Progress.FaultFreeRunSettlesAll | app/worker.py:245-423 | a run with no fault at all settles every message, gives up on none and ends with the reference table |
| RetryMachine.Handle | app/worker.py:322-423 | the handler is called until success or judgement and never again; the letter counts exactly those calls; True means success or an acknowledged letter, False means stopped; the final phase is the specified one |
| RetryMachine.OneDecidingPass | app/worker.py:345-400 | success, judgement and still retrying exclude each other and at most one pass decides |
| RetryMachine.LoopExplained | app/worker.py:339-423 | for any number of passes the loop's state says exactly which policy case holds |
| RetryMachine.OutcomeIsDecided | app/worker.py:339-423 | settled, waiting for the letter, or retrying: each iff the documented policy says so of the whole sequence, however failures interleave |
| Worker.FraudWorker.StartPartitions | app/worker.py:245-254 | each newly assigned partition gets a fresh state; one already held keeps its own |
| Worker.FraudWorker.Dispatch | app/worker.py:283-298 | the partition ends as the specified owner does after a delivery; no other partition is paused or resumed |
| Worker.FraudWorker.RequestStop | app/worker.py:262-265 | exactly the named partitions are flagged, drained and woken |
| Worker.FraudWorker.StopPartitions | app/worker.py:256-279 | stopping, waiting for the tasks and forgetting: exactly the named partitions go, each with the offset its owner has stored once its task has ended; the others are untouched |
| Worker.FraudWorker.StatesFor | app/worker.py:241-243 | of the partitions named, exactly those held here |
| Worker.FraudWorker.OnRevoke | app/worker.py:221-232 | after a revoke, of any partitions, what is committed is what every partition has stored once the named ones have stopped, unless the commit fails; the named ones are then forgotten and the others untouched |
| Worker.FraudWorker.OnLost | app/worker.py:234-239 | after a loss nothing is committed, then or later, for the partitions lost; the others are untouched |
| Worker.FraudWorker.GetNext | app/worker.py:303-305 | taking an item starts on it, or ends the loop for a wake item or a stopped partition |
| Worker.FraudWorker.FinishTurn | app/worker.py:306-320 | the offset of a finished message is stored, an abandoned one's is not, and a drained partition resumes |
| Worker.FraudWorker.OneTurn | app/worker.py:300-320 | one turn of the loop is the specified function of what happens during its awaits |
| Worker.FraudWorker.ConsumePartition | app/worker.py:300-320 | the whole loop is the specified function of its turns, touching no other partition's stored offset |
| Worker.HandleTrace | app/worker.py:339-423 | any number of passes of the retry loop is a run of owner steps that changes the phase alone |
| Worker.TurnsAreSteps | app/worker.py:300-320 | the drain loop is a run of owner steps |
| Worker.DrainLoopIsSafe | app/worker.py:283-320 | so from a fresh assignment the loop keeps offset order and backpressure and stores only finished offsets |
| Worker.StopIsSteps | app/worker.py:256-279 | stopping a task, in time or by cancellation, is a run of owner steps |
| Worker.StopDiscardsNothingStored | app/worker.py:256-279 | a stop stores past the message in flight iff that message was finished and the broker took its offset, and never reaches a discarded message, so all of those are delivered again |
| ObjectInFleet.StepLifts | app/worker.py:283-423 | every step of the object that the log and the tables allow is a step or two of the fleet that moves its owner alike and no other |
| ObjectInFleet.EventsLift | app/worker.py:283-423 | among any other steps of the fleet, and writes it never hears of, the owner is what the object's own steps make of it |
| ObjectInFleet.EveryLoopHasEvents | app/worker.py:300-320 | every run of the drain loop is such a run |
| ObjectInFleet.LoopRunsInFleet | app/worker.py:300-320 | from any reachable state a newly assigned object that runs its loop is, in a state the fleet can reach, the owner the loop's specification says |
| ObjectInFleet.LoopIsSafeInFleet | app/worker.py:300-320 | so every message before the object's stored offset, or before the one it is working on, is settled |
| ObjectInFleet.LoopReplaysInFleet | app/processing.py:96-138 | and once everything is settled the decisions table is the reference table |
| RuleSyntax.TypeNamesAreFaithful | app/rules.py:172-184 | comparing, prefix-testing and prefix-stripping the type texts decides the same as comparing types |
| RuleSyntax.NoTypeIsAnything | app/rules.py:172-174 | only an empty list's element is called "anything" |
| RuleSyntax.NormalisedOperation | app/rules.py:154-164 | compiling changes neither the operator nor the number of its arguments |
| RuleSyntax.NormaliseKeepsShape | app/rules.py:154-164 | compiling keeps size and depth |
| RuleChecker.TypeIsUnique | app/rules.py:187-303 | a tree has at most one type |
| RuleChecker.ConcludeIsJudgment | app/rules.py:237-279 | given the arguments' types, the operator's verdict is the judgment's, both ways; what the judgment takes as comparable and searchable is the subject of `RuleTypes` |
| RuleChecker.ListIsJudgment | app/rules.py:213-222 | given the items' types, a list literal's verdict is the judgment's, both ways |
| RuleChecker.ExpressionChecker.VisitNode | app/rules.py:202-279 | the recursion with its mutable counter computes the specified type or first refusal and the specified count |
| RuleChecker.ExpressionChecker.CheckVariable | app/rules.py:281-299 | likewise for a variable reference and its default |
| RuleChecker.ExpressionChecker.VisitEach | app/rules.py:218-235 | arguments are visited in order, stopping at the first refusal, sharing the counter |
| RuleChecker.ExpressionChecker.ValidateExpression | app/rules.py:187-303 | the whole check decides as specified |
| RuleChecker.VisitDecides | app/rules.py:202-299 | a visit succeeds iff the tree is typable and fits what is left of both limits; it then finds the type and counts exactly the tree's nodes |
| RuleChecker.CheckerDecidesPublishable | app/rules.py:187-303 | a condition is accepted iff it is derivable with type true/false, has at most 400 nodes and is at most 24 deep |
| RuleTypes.ComparableIffShared | app/rules.py:261-267 | `==` and `!=` are accepted exactly for types that share a value, and for null |
| RuleTypes.SearchableIffFindable | app/rules.py:268-279 | `in` is accepted exactly where some search succeeds, and for the empty list |
| RuleTypes.SearchFindsWhatIsThere | app/rules.py:107-113 | an accepted `in` answers whether the value is an item of the list, or the text a stretch of the other |
| RuleTypes.RefusedNumbersFail | app/rules.py:75-96 | arithmetic and order comparisons are refused exactly for types on whose values they fail |
| RuleTypes.EqualIffBlurred | app/rules.py:263-266 | values of two types can evaluate as equal iff the types differ at most by booleans for numbers, so a refusal's "can never be equal" is true of all but those |
| RuleEvaluator.Multiply | app/rules.py:121-126 | the running product is the product |
| RuleEvaluator.LookupVariable | app/rules.py:306-313 | descending part by part answers the dotted name's value |
| RuleSemantics.PairwiseOrders | app/rules.py:88-96 | comparing neighbours orders the whole list, so three arguments mean "between" |
| RuleSemantics.NumericOperators | app/rules.py:88-143 | what each comparison and `-` answers on one, two and three numbers |
| RuleSemantics.EqualityIsIdentity | app/rules.py:99-104 | in any comparison the checker accepts, `==` is identity and null equals only null |
| RuleSemantics.MembershipIsIdentity | app/rules.py:107-113 | `in` on an accepted list is membership of the value itself |
| RuleOperators.OrderOfTwo | app/rules.py:129-136 | the answers of `>`, `>=`, `<`, `<=`, `==` and `!=`, as they are written, on two numbers |
| RuleOperators.OrderOfThree | app/rules.py:88-96 | three arguments of `<` or `<=` mean "between" |
| RuleOperators.ArithmeticOfOne | app/rules.py:116-143 | the answers of `-`, `+`, `*`, `min` and `max` on one number |
| RuleOperators.ArithmeticOfTwo | app/rules.py:116-143 | the answers of `+`, `-` and `*` on two numbers |
| RuleOperators.SumOfMore | app/rules.py:138 | more arguments of `+` add to its answer, however many |
| RuleOperators.ProductOfMore | app/rules.py:121-126 | more arguments of `*` multiply its answer, however many |
| RuleOperators.Extremes | app/rules.py:141-142 | `min` answers an argument no greater than any, `max` one no less than any, of any number |
| RuleOperators.EqualityOfTwo | app/rules.py:99-104 | `==` and `!=` on values of any types accepted there say whether they are the same value |
| RuleOperators.SearchOfTwo | app/rules.py:107-113 | `in` on values of any types accepted there says whether the one is within the other |
| RuleOperators.NotOfOne | app/rules.py:136 | `!` answers true exactly of null, false, zero and the empty text, list and dict |
| RuleOperators.AndOr | app/rules.py:335-338 | `and` and `or` on any number of truth values, whatever is skipped |
| RuleOperators.IfOfThree | app/rules.py:339-341 | `if` answers what the chosen branch does |
| RuleOperators.VarOfOneOrTwo | app/rules.py:328-334 | `var` answers what the name stands for, else its default, else fails |
| RuleOperators.ArityOfComparisons | app/rules.py:129-136 | how many arguments `==`, `!=`, `>`, `>=`, `<` and `<=` are accepted with |
| RuleOperators.ArityOfArithmetic | app/rules.py:138-142 | how many `+`, `-`, `*`, `min` and `max` are |
| RuleOperators.ArityOfOthers | app/rules.py:136-151 | how many `!`, `in`, `and`, `or`, `if` and `var` are |
| RuleOperators.RefusedYetEqual | app/rules.py:263-266 | `{"==": [true, 1]}` is refused as never equal, and would be true |
| RuleSemantics.CompilingMatters | app/rules.py:154-164 | an accepted condition that is wrong on an uncompiled binary float and right once compiled |
| RuleSoundness.OperatorKeepsTypes | app/rules.py:88-143 | an operator given values of the types the checker saw raises nothing and yields the type it concluded |
| RuleSoundness.UntilAgrees | app/rules.py:335-338 | stopping `and` and `or` early finds what looking at every argument finds |
| RuleSoundness.TypedAgrees | app/rules.py:316-346 | every typed tree, compiled and evaluated lazily, raises nothing, yields its type, and yields the strict meaning of the original tree |
| RuleSoundness.OnlyNamedVariablesMatter | app/rules.py:306-346 | contexts that agree on the variables a tree names give the same run of it, call by call |
| RuleSoundness.NormaliseKeepsVariables | app/rules.py:154-164 | the compiled tree names exactly the variables the published one does |
| RuleSoundness.AcceptedConditionReadsOnlyItsVariables | app/rules.py:306-346 | an accepted condition's outcome depends only on the variables it names as published |
| RuleSoundness.CostBounded | app/rules.py:316-346 | evaluating any tree in any context makes at most as many calls as it has nodes, nested at most as deep as it is |
| RuleSoundness.AcceptedConditionEvaluates | app/rules.py:187-346 | every accepted condition evaluates to true or false, and to its strict meaning |
| RuleSoundness.AcceptedConditionIsCheap | app/rules.py:202-346 | at most 400 calls, 24 deep, before and after compiling |
| RuleContexts.EveryVariableResolves | app/rules.py:306-313 | every declared dotted name reaches the field or velocity figure it stands for |
| RuleContexts.ContextSupplies | app/rules.py:491-507 | only optional variables can be missing, and whatever is present has its declared type |
| RuleContexts.EventContextSupplies | app/processing.py:70-79 | that holds of every event, whichever optional fields it carries |
| RuleContexts.ReadsEvent | app/processing.py:70-79 | what "amount", "currency" and "category" read, in terms of the event |
| RuleContexts.ReadsOptional | app/processing.py:70-79 | what "channel" and "country" read of an event that has them or not |
| RuleContexts.ReadsVelocity | app/rules.py:491-507 | what "velocity.prior_count" and "velocity.prior_amount" read |
| RuleContexts.ReadsEnrichment | app/rules.py:491-507 | what the three numeric enrichment names read, down to the event's own features |
| RuleContexts.ReadsFlags | app/rules.py:491-507 | what the two true/false enrichment names read |
| RuleContexts.RequiredIffAlwaysThere | app/rules.py:56-69 | a variable is declared required exactly when every event supplies it |
| RuleContexts.DeclaredTypeIsActual | app/rules.py:56-69 | a variable is declared with the type that its values have |
| RuleSets.EvaluateAll | app/rules.py:524-543 | the loop evaluates every rule in order and stops at the first error only |
| RuleSets.ValidRuleSetScores | app/rules.py:524-543 | scoring with a valid set never fails: reasons are the rules whose published conditions are true, in order, risk is their sum, and verdict and flag follow from the thresholds |
| RuleSets.FiringIsRuleByRule | app/rules.py:524-543 | the reasons and the risk are those of the rules one by one, in order: a rule fires iff its condition as published is true, and then scores its own score |
| RuleSets.DryRunNeverRejects | app/rules.py:411-433 | a definition is accepted for publishing iff it validates |
| RuleSets.PublishedIff | app/rules.py:349-402 | what can be published, all told: the bounds of every field, distinct well-formed codes, ordered thresholds, and conditions that are derivable with type true/false within both limits |
| Pipeline.StoredDecisionsAreExplained | app/processing.py:96-138 | end to end: every stored decision is about a settled message, and its reasons, score and verdict follow from the published rules, that message (read as `RuleContexts.ReadsEvent` and its companions say) and the decisions before it in its log |
| RuleSetVersions.MaxIsLength | app/database.py:630-634 | with versions 1..n the maximum read is n and exactly 1..n are taken |
| RuleSetVersions.InsertIsAtomic | app/database.py:628-652 | an insert succeeds iff the key is still where the writer read it, and then is an atomic append; a guarded write lands directly on its guard |
| RuleSetVersions.GuardRefusedOnlyWhenStale | app/database.py:635-638 | the guard refuses exactly when the key is not at the expected version at the read |
| RuleSetVersions.VersionsStayConsecutive | app/database.py:606-653 | under any number of racing writers a key's versions are 1..n and never overwritten |
| RuleSetVersions.OneOfTwoWins | app/database.py:628-652 | of two publishers that read one version the first to insert publishes the next number and the other loses the race |
| RuleSetVersions.VersionStore.CreateRuleSetVersion | app/database.py:606-653 | against any commits between its read and its insert: conflict, lost race or atomic append, each exactly when |
| Staleness.StepKeepsBounded | app/cache.py:123-179 | every publish, lost or late write, expiry and read keeps every copy within its share of the bound |
| Staleness.StalenessBound | app/cache.py:123-153 | the version answered was the latest at some moment within both times to live and two hops of now |
| Staleness.FreshAnswerBound | app/cache.py:130-153 | a version just fetched is within the Redis time to live and two hops |
| Staleness.SupersededVersionIsDropped | app/api.py:396-407 | a version superseded longer ago than the bound is not used |
| Staleness.DocumentedBoundExceeded | app/cache.py:10-12 | a run that answers with a version superseded longer ago than the two times to live |
| Staleness.DocumentedBoundIsInstant | app/cache.py:10-12 | every run meets the documented bound if and only if hops take no time |
| Staleness.DamagedVersionIsRefused | app/cache.py:14-19 | a version whose row was edited in place is no longer answered from both times to live and two hops after the edit on |
| Staleness.DamagedActiveVersionStopsScoring | app/cache.py:14-19 | if it is the active one, from then on no provider answers with any version |
| CacheOrder.RedisIsNoOlder | app/cache.py:130-141 | under sufficient rules, what a provider reads from Redis is no older than what it holds |
| CacheOrder.StepKeepsOrdered | app/cache.py:123-179 | every step that keeps the rules keeps the ordering invariant, and under sufficient rules makes no provider's version older |
| CacheOrder.FollowingNeverGoesBack | app/cache.py:123-179 | in every run that keeps sufficient rules no provider's version is ever older than it was |
| CacheOrder.OverlappingCalls | app/cache.py:130-152 | two overlapping calls of one provider can take it back, for every setting |
| CacheOrder.LostWrite | app/cache.py:168-179 | a Redis outage during a publish can take a provider back when the local time to live is below the Redis one |
| CacheOrder.LateWrite | app/cache.py:168-179 | a write landing after a newer one can, when the local time to live is below the Redis one plus a hop |
| CacheOrder.ShortMemory | app/cache.py:146-152 | a copy kept before its own write has ended can, when it expires within a hop |
| CacheOrder.KeptThenLost | app/cache.py:146-179 | so can such a copy whose write is then lost, when the local time to live is below the Redis one plus a hop |
| CacheOrder.NeverGoesBackIffEnough | app/cache.py:123-179 | for every setting and every choice of rules, no run that keeps them goes back if and only if they are enough |
| CacheOrder.AllFourNeeded | app/cache.py:123-179 | with a local copy that expires within a hop and before a Redis entry, that takes all four rules |
| ProviderCalls.FetchFromRedis | app/cache.py:136-138 | a call answered by Redis is a read and the keeping of what was read, whatever happens in between |
| ProviderCalls.FetchFromDatabase | app/cache.py:139-152 | a call answered by the database is a read, the end of its Redis write and the keeping of the copy, in that order |
| ProviderCalls.CallIsSteps | app/cache.py:123-153 | every outcome of `get_active` is a run of the timed cache that keeps the rules of one call at a time and write first, and answers the version the cache has it hold |
| RuleCache.RuleSetProvider.GetActive | app/cache.py:123-153 | which layer answers, what is cached and written back, that a corrupt version drops the local copy and that no error falls back to an older version |
| RuleCache.AnswerFromStored | app/cache.py:123-162 | without a fresh copy: an intact Redis entry of schema 1 is the answer, as exactly the rule set stored; anything else leaves it to the database, whose latest row is the answer if intact, and whose every other state is its own error |
| RuleCache.WrittenEntryServes | app/cache.py:64-162 | the entry one call writes answers the next call of any provider with the database down, exactly if the stored hash is that of the definition's own dump |
| RuleCache.EntryRoundTrip | app/cache.py:64-95 | a cache entry reads back as its rule set exactly when that set carries its own hash and passes the dry run, and is refused otherwise |
| RuleCache.DecisionsAreTraceable | app/rules.py:551-575 | whatever is edited in place, a decision's hash is the hash of JSON that a row or the Redis entry held during the run, and its definition was parsed, validated and dry-run from that JSON |
| RuleCache.DecisionsUsePublishedRules | app/processing.py:104-138 | if edits leave hashes alone, every decision was scored with the published definition its hash names |
| RuleCache.DecisionsNameTheirVersion | app/processing.py:104-138 | if edits leave versions alone too, the version a decision records is the one whose published definition scored it |
| RuleCache.UneditedDecisions | app/processing.py:104-138 | so with no in-place edits every decision's version, hash and definition are those of one published version |
| OrderBy.SortSorts | app/database.py:493-496 | on unique keys the query answers the table's rows, each once, strictly descending |
| OrderBy.DescendingIsUnique | app/database.py:493-496 | the rows determine the order |
| Paging.SelectSelects | app/database.py:475-492 | the query selects exactly the matching rows past the cursor |
| Paging.PageIsTop | app/database.py:463-506 | a page is the top of the matching rows past the cursor, and its next cursor separates it from exactly the rest |
| Paging.ListTransactions | app/database.py:474 | a page size is refused exactly outside 1..100 |
| Paging.PageTakes | app/database.py:475-492 | which rows a page takes, field by field: every filter given, the upper time bound excluded, after the cursor and down to the page's last row |
| Paging.NextMeansMore | app/database.py:493-506 | a next page is announced exactly when there is a row for it |
| Paging.PageIsNewestFirst | app/database.py:493-496 | newest first, and by id within one moment |
| Paging.KeysetWalk | app/database.py:463-506 | with any inserts between pages: strictly descending, none twice, all matching, and a finished walk has every row that matched from the start |
| Paging.WalkTerminates | app/database.py:498-506 | a walk ends once its pages could hold more rows than match |
| Paging.QuietWalkIsSortedTable | app/database.py:463-506 | with no inserts the pages together are the filtered table, sorted |
| Cursor.DecodeUndoesEncode | app/database.py:448-458 | base64url text decodes to the bytes it was made from, for every length |
| Cursor.PadUndoesStrip | app/database.py:450-456 | dropping the padding and adding `-len % 4` characters restores the text, for every byte length |
| Cursor.TestVectors | app/database.py:448-450 | the encoding is that of RFC 4648, section 10, with the URL-safe characters |
| Cursor.CursorRoundTrip | app/database.py:448-460 | every cursor survives the trip through a client and no two share a token |
| VersionPaging.ListPage | app/api.py:328-339 | a request is refused as a bad one exactly for a page size outside 1..100 or a bound below 2 |
| VersionPaging.ListIsDown | app/database.py:586-603 | the call answers the next versions below its bound, newest first, unless one of them fails its integrity check, and then fails |
| VersionPaging.VersionWalk | app/api.py:328-351 | the pages return n, n-1, ... with no gap and no repeat, whatever is published meanwhile; pages enough for n get to version 1 without an error if and only if all n load |
| VersionPaging.CorruptVersionStopsWalk | app/database.py:536-603 | otherwise exactly the full pages above the highest version that does not load are returned, and its page is refused |
| VersionPaging.WalkFinishesOrStops | app/api.py:328-351 | with pages enough there is no third outcome |
| VersionPaging.NoEmptyPage | app/api.py:341-351 | a page is refused exactly when a version on it does not load; any other is not empty and announces a next page iff an older version exists |
| RateLimit.RateLimiter.Enforce | app/rate_limit.py:49-75 | counts and judges as specified; with Redis down nothing is counted and the request is let through |
| RateLimit.ExpiryOutlivesWindow | app/rate_limit.py:59-63 | an expiry set at any moment of a window lies beyond its end |
| RateLimit.CountersAreExact | app/rate_limit.py:49-63 | over any trace each counter holds exactly its caller's requests in its window and outlives the window |
| RateLimit.VerdictIsByRank | app/rate_limit.py:63-75 | a request is accepted iff it is among the first `max_requests` of its caller in its window |
| RateLimit.WindowBudget | app/rate_limit.py:49-75 | a window accepts exactly the smaller of the requests made and the limit |
| RateLimit.TwiceTheLimit | app/rate_limit.py:7-9 | any span no longer than a window accepts at most twice the limit |
| RateLimit.RetryLandsLater | app/rate_limit.py:69-75 | waiting `Retry-After` reaches a later window, and no shorter whole wait of at least a second does |
| RateLimit.RefusalSaysWhen | app/rate_limit.py:69-75 | that wait is the one every refused request of any trace is told |

## Left out

- RuleEvaluator.Evaluate: numbers are reals, so Decimal rounding at 28 digits and its overflow traps are not modelled and arithmetic never fails.
- RuleEvaluator.Equals: whole dicts compare structurally, where Python ignores key order; no accepted condition compares one.
- RuleChecker.Validate: refusals carry their kind, not the location and wording of the message.
- RetryMachine.Handle: the backoff delay and its jitter are not modelled; only what each pass meets is.
- Worker.FraudWorker.ConsumePartition: what other tasks do during `_handle` is run before its passes; the two touch different fields, so their order within `_handle` cannot be told apart.
- Worker.FraudWorker.StopPartitions: the stopped tasks end one after the other; they share nothing but librdkafka's per-partition memory, so their order cannot be told apart. The time limit is a choice made for each task.
- Cursor.DecodeCursor: refuses every token outside the alphabet, where Python's decoder skips such characters; tokens the service made itself are not affected.
- Staleness.Apply: a provider's Redis write and the copy it keeps travel separately, so a write that times out for the provider may still land; the code's own order, write first, is one of the rules of CacheOrder. A read that fails is a step that does not happen.
- Delivery.Decide: the active rule set is fixed for a run; decisions across a publish are covered by RuleCache, not by replay determinism.
- Commits: any incarnation with a stored offset may commit it at any time, which includes the commit on revoke and the background commit, and allows commits the broker would refuse from a stale owner.
- Failure classification: a failure carries one of three tags; the table of exception classes is not modelled.
- Parsing of events, JSON, UUIDs and timestamps: the model starts from parsed events and trees; a UUID is a number with its order.
- Hashing: SHA-256 and canonical JSON are a parameter, and the rate limiter's truncated digest is the caller's name itself.
- created_at and processed_at columns, which no decision logic reads.
- The `/evaluate` endpoint, the daily summary, single-row reads, HTTP error mapping, JWT checks, metrics, logging, group-membership health, migrations and deployment: I/O, or members that would only be easy.
