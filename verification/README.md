# Verification of the crawler, capability, planning and scheduling cores

Dafny models of the parts of the repository in which something can go wrong in more than one
place at once, and proofs of what those parts promise. `dafny verify dfyconfig.toml` checks
the whole project.

| files | what they model |
|---|---|
| `Text`, `CleanText` | the clean-up of page text, as six passes and as one canonical form |
| `Chunking`, `MergeGroups`, `ChunkOrder`, `MergeOrder`, `Cleaner` | hard split, greedy packing and merging of chunks, as functions and on chunk objects; which texts are merged; which paragraphs each chunk comes from, and in which order |
| `RoundRobin`, `Scheduler`, `EndpointLife` | smooth weighted round-robin, endpoint health, and the life of an endpoint over a break |
| `Redistribution`, `TargetShares`, `WeightUpdate`, `ReportEffects` | redistribution of weights, who gets which share, reports on calls and what each leaves field by field |
| `SchemaValidation`, `SchemaTermination`, `SchemaFaults` | the schema interpreter, when its recursion ends, and what its errors say |
| `PydanticCompat`, `SchemaMeaning`, `SchemaExactness` | the compiler from annotations to schemas, whether the schemas mean the annotations, and for each kind of annotation exactly when |
| `ModelCoercion`, `ModelRoundTrip`, `TypedCoercion`, `IoModels` | printing and parsing of model instances, parsing of typed values, and what holds for the repository's own input models |
| `Plan`, `ExecutionEngine`, `EngineOutcomes`, `EngineSafety`, `EngineCoverage`, `EngineOrder` | the serial interpreter of plans, over all plans and over all orders of a plan, what its records say of the executors' answers, and what a plan tells before it runs |
| `Capability`, `PlanValidation`, `IssueCodes`, `Admission` | registry, panel and validator, exactly which issues a plan is reported, and exactly which plans pass |
| `Preflight`, `AgentGraph`, `AgentLoop`, `RunIds`, `AgentLoopSafety`, `AgentLoopEnds`, `AgentLoopAdmission` | the agent loop: a graph over any nodes, the nodes, what every run of the loop keeps, and why it ended |
| `ResultCache` | the result cache against the history of its uses |
| `BrowserPages`, `PageLife`, `BrowserRegistry` | the registry of open browser pages, as values and with handles updated in place; which operation ends a page |
| `HostLimiter`, `GuardHistory` | the per-host limiter as interleaved steps of tasks, and the rule that says from the steps so far which may come next |
| `HttpFetch`, `Freshness` | disk cache and fetch loop, and any interleaving of fetches against a changing origin |
| `Wrappers` | the option type and the filter of the others |

Where the source updates fields or runs a loop, the model is a class or a method with the
same loop, proved equal to a function of its inputs; the properties are lemmas about those
functions over all inputs and all runs. Oracles (planner, checker, decider, executors,
origin server) are arbitrary functions or arbitrary answers per visit; in the agent loop
those called from a node may also raise. The clock and the random identifiers are arguments.

The schema language is the subset of JSON Schema 2020-12 that the source interprets
(section 10.2.1.2 of Core for `anyOf`, section 10.3.2.3 of Core for `additionalProperties`,
sections 6.1, 6.2, 6.4.2 and 6.5.3 of Validation), with booleans counting as integers as in
Python. Revalidation follows sections 13.1.2, 13.1.3 and 15.4.5 of RFC 9110 and section 4.3
of RFC 9111.

## Where the code and what is said of it differ

- The bound on chunk lengths needs a condition on the two settings; `Chunking.BoundIsExact` gives it. For
  `max_chunk_chars < 1` the hard-split loop does not end.
- Pieces come in document order if and only if no oversized paragraph follows a normal one: an oversized paragraph is
  emitted while earlier text is still buffered (clean.py:61-70). `ChunkOrder.OrderIsExact` proves both directions,
  `MergeOrder.ChunkOrderIsExact` carries them to the final chunks, and `ChunkOrder.OversizedOvertakes` says for any
  document what is emitted in front of what.
- The comment at scheduler.py:131 says that the rounding residual is -1, 0 or 1. It can be larger, and
  scheduler.py:141 never uses a negative one up; `Redistribution.CorrectionIsExact` says exactly when the correction works.
- A failing endpoint loses no weight: `decay_step` is shared out to the others (scheduler.py:176-182), and
  `WeightUpdate.FailureShares` says what that does to the total.
- The dynamic weight of an endpoint is said to stay between 0 and its base weight (abc_cls.py:90). The lower end holds
  (`ReportEffects.WeightsStayNonNegative`); the upper does not, since shares are added without a limit
  (`ReportEffects.FailureExceedsBase`).
- `best_api` at scheduler.py:83 is annotated but not assigned; the model reads it as starting at None, which line 97
  tests for.
- The compiled schema means its annotation only for faithful annotations: value types of dictionaries, bare None,
  literals and enums of mixed types, and bounds on anything but lists and numbers are not expressed. The
  exactness lemmas of `SchemaMeaning` and `SchemaExactness` give the conditions. A schema can err to either side: it
  takes values it should not in the cases just named, and a literal or enum whose constants are not all of the first
  one's JSON type (for enums: not all strings) rejects some of its own constants; `SchemaExactness.NeverRejectsExactly`
  gives that condition, and `SchemaMeaning.NeverTooStrict` shows that there is no other cause of rejection.
- A union with None among its members accepts everything (`ModelRoundTrip.OptionalTakesAll`), because parsing None as an
  annotation returns any value unchanged.
- Covering the whole plan is not the same as success (`EngineSafety.WholePlanMayFail`). With unique ids it is, whatever
  the executors, if and only if the last step's policy is to continue, or it cannot be reached, or the plan is empty, or
  some step's inputs cannot be copied and reported (`EngineCoverage.CoverageIsSuccess`).
- The inputs of a step are copied by `dict(...)` outside the try block (execution_engine.py:107 and :120), and the
  preflight asks those of a command step for an action (preflight.py:25). At the end of a run the copies are written as
  JSON with sorted keys (execution_engine.py:171), with or without an artifact manager. Inputs are not checked to be a
  mapping when a plan is built (llm_planner.py:78). So on a deprecated capability a list of plain values, or a list of
  pairs whose keys are a number and a text, passes validation and the preflight and then raises out of the whole run
  (`AgentLoopAdmission.ListInputsRaise`, `AgentLoopAdmission.MixedKeysRaise`). `AgentLoopAdmission.UncheckedInputs`,
  `EngineCoverage.NeverRaisesExactly` and `Preflight.RaisesExactly` say exactly when;
  `AgentLoopAdmission.ModelInputsNeverRaise` shows that it cannot happen where every capability has the input schema
  of a model and deprecated ones are not allowed.
- The validator calls the schema interpreter without a handler (plan_validation.py:209 and :233), and the interpreter
  does not end on definitions that reach themselves through `anyOf`. A plan for a capability with such a schema crashes
  the loop whatever its inputs are (`AgentLoopAdmission.CyclicSchemaCrashes`); `Admission.ValidationRaisesExactly` says
  exactly which plans make the validator raise.
- With deprecated capabilities allowed, inputs and required capabilities of a step are not checked
  (`Admission.DeprecatedPassesUnchecked`).
- The loop policy's `max_iterations` is read by no node and no edge (`AgentLoopSafety.NothingStopsReplanning`).
- A cached body can be older than the time to live by the duration of the exchange that fetched it
  (`Freshness.TtlBoundsExactly`), and a caller's own `If-None-Match` can stand in for a validator that the cached
  entry lacks, or go out beside it under another spelling, which the update at http.py:217 does not overwrite
  (`Freshness.RevalidationExactly`, `Freshness.SpellingMatters`).
- The guard at http.py:66-76 calls private methods from a nested class, which Python resolves against the wrong
  class; the model is of `__aenter_host` and `__aexit_host` themselves.

## Model

| member | source | states |
|---|---|---|
| `CleanText.CollapseBlankLines` | src/AgentCrawler/src/webkit/pipeline/clean.py:25-34 | the loop keeps a line unless it and the line before it are both blank; the remembered flag is what the last line was |
| `CleanText.CleanedText` | src/AgentCrawler/src/webkit/pipeline/clean.py:17-37 | the method returns the composition of the six passes in the source's order |
| `CleanText.CleanIsCanonical` | src/AgentCrawler/src/webkit/pipeline/clean.py:17-37 | cleaning is rendering the visible characters with one standard gap each, read off in a single scan; the last replacement never changes anything |
| `CleanText.CleanFixpoints` | src/AgentCrawler/src/webkit/pipeline/clean.py:17-37 | a text is left alone by cleaning if and only if it is in normal form (trimmed, no CR or tab, white space only single or a newline pair, never three newlines), and every cleaned text is; so cleaning is idempotent |
| `CleanText.CleanIsUnique` | src/AgentCrawler/src/webkit/pipeline/clean.py:17-37 | the cleaned text is the only normal text with the same visible characters and gaps |
| `CleanText.CanonicalFixpoint` | src/AgentCrawler/src/webkit/pipeline/clean.py:17-37 | the scan's own normal form agrees with the position-by-position description in both directions |
| `CleanText.CleanKeepsVisible` | src/AgentCrawler/src/webkit/pipeline/clean.py:17-37 | no visible character is lost, added or moved |
| `Cleaner.Cleaner.ChunkDocument` | src/AgentCrawler/src/webkit/pipeline/clean.py:39-106 | the method on objects: new texts of the chunks are those of the specification, in order, numbered from 0; the document ends with the cleaned text and these chunks |
| `Cleaner.Cleaner.PackParagraphs` | src/AgentCrawler/src/webkit/pipeline/clean.py:43-80 | the packing loop with its nested hard split and flush |
| `Cleaner.Cleaner.SplitHard` | src/AgentCrawler/src/webkit/pipeline/clean.py:62-70 | the hard-split loop cuts consecutive parts of the maximal length and strips each |
| `Cleaner.Cleaner.MergeTiny` | src/AgentCrawler/src/webkit/pipeline/clean.py:82-99 | the merge loop; the chunks that are long enough stay, as the same objects in the same order, and every other chunk is new |
| `Cleaner.Cleaner.Renumber` | src/AgentCrawler/src/webkit/pipeline/clean.py:101-103 | orders are positions |
| `Chunking.ChunksAreBounded` | src/AgentCrawler/src/webkit/pipeline/clean.py:39-106 | with min_chunk_chars <= 1 or 2 * min_chunk_chars <= max_chunk_chars every final chunk of every document is at most max_chunk_chars long |
| `Chunking.BoundIsExact` | src/AgentCrawler/src/webkit/pipeline/clean.py:39-106 | that condition on the two settings is necessary as well: otherwise some document has a longer chunk |
| `Chunking.TwoWordsOverflow` | src/AgentCrawler/src/webkit/pipeline/clean.py:82-99 | the document that shows it: two equal words whose chunks are merged into one too long |
| `Chunking.PackedInv` | src/AgentCrawler/src/webkit/pipeline/clean.py:61-80 | what bounds the merge: of two neighbouring packed pieces, only a hard-split tail and a flushed buffer can both be tiny |
| `Chunking.RoundTrip` | src/AgentCrawler/src/webkit/pipeline/clean.py:40-106 | joining the final chunks with blank lines gives the cleaned text back if and only if no paragraph is oversized |
| `Chunking.ParagraphsOfNormal` | src/AgentCrawler/src/webkit/pipeline/clean.py:40-41 | splitting a normal text at blank lines and joining it again is the identity |
| `Chunking.PackedKeepsOrder` | src/AgentCrawler/src/webkit/pipeline/clean.py:61-80 | oversized paragraphs keep their order among themselves, and so do the normal ones |
| `ChunkOrder.PackedOriginsAreTrue` | src/AgentCrawler/src/webkit/pipeline/clean.py:61-80 | every packed piece is traced to its paragraphs: a hard-split part to the one it was cut from, a flushed buffer to the normal ones it joins |
| `ChunkOrder.OrderIsExact` | src/AgentCrawler/src/webkit/pipeline/clean.py:61-80 | the pieces come in the order of their paragraphs if and only if no oversized paragraph follows a normal one |
| `ChunkOrder.ChunksKeepOrder` | src/AgentCrawler/src/webkit/pipeline/clean.py:39-106 | under that condition the final chunks read the visible characters of the document in their order |
| `MergeOrder.ChunkOrderIsExact` | src/AgentCrawler/src/webkit/pipeline/clean.py:39-106 | the final chunks, traced through the merge pass to their paragraphs, come in the order of the document if and only if no oversized paragraph follows a normal one |
| `MergeOrder.TracedAreChunks` | src/AgentCrawler/src/webkit/pipeline/clean.py:82-99 | the traced merge pass yields the chunks of the source, each with the positions of the texts it joined |
| `ChunkOrder.OversizedOvertakes` | src/AgentCrawler/src/webkit/pipeline/clean.py:61-70 | for any paragraphs in front that are not all oversized: a following oversized paragraph is emitted before the text of some of them, which is still buffered |
| `Chunking.MergeKeepsVisible` | src/AgentCrawler/src/webkit/pipeline/clean.py:82-99 | merging keeps every visible character in order |
| `Chunking.ChunksKeepVisible` | src/AgentCrawler/src/webkit/pipeline/clean.py:39-106 | for every document the final chunks hold the same visible characters with the same multiplicity |
| `MergeGroups.MergeIsGrouping` | src/AgentCrawler/src/webkit/pipeline/clean.py:82-99 | the packed texts fall into groups, each text of at least min_chunk_chars by itself and each unbroken run of shorter ones as a whole, and every group becomes one chunk: the text as it is, or the run joined by blank lines and stripped |
| `Scheduler.Api.GetStatus` | src/SchedulingModuleWroteBefore/abc_cls.py:111-121 | a stopped endpoint whose cool-down is over becomes recovering and gains recover_step |
| `Scheduler.Api.AdaptWeight` | src/SchedulingModuleWroteBefore/abc_cls.py:127-134 | a weight change, with the circuit break of a weight below zero |
| `Scheduler.Api.Call` | src/SchedulingModuleWroteBefore/abc_cls.py:161-170 | breaks an unhealthy or failing endpoint and refuses exactly when it ends up stopped |
| `Scheduler.CallRefusesExactly` | src/SchedulingModuleWroteBefore/abc_cls.py:161-170 | which calls are refused: those that break the endpoint and those within the cool-down of an earlier break |
| `EndpointLife.ComesBack` | src/SchedulingModuleWroteBefore/abc_cls.py:111-121 | whatever looks at a broken endpoint until its cool-down is over finds it stopped with weight 0 and no failures; the first look after that brings it back recovering with exactly recover_step, and it adds exactly that much to its running weight in this and every later acquire |
| `EndpointLife.LifeOverCall` | src/SchedulingModuleWroteBefore/abc_cls.py:136-170 | the same life over a break by a call on an unhealthy endpoint, or one with max_fails failures |
| `EndpointLife.LifeOverWeightChange` | src/SchedulingModuleWroteBefore/abc_cls.py:127-147 | the same life over a break by a weight change that would leave less than nothing |
| `EndpointLife.CallLeaves` | src/SchedulingModuleWroteBefore/abc_cls.py:161-170 | what a call leaves, field by field, also when a negative cool-down makes a break end at once |
| `Scheduler.Pool.Acquire` | src/SchedulingModuleWroteBefore/scheduler.py:70-103 | the whole acquire on mutable endpoints: empty pool, all stopped (nothing changes), or one step of the specification with the picked endpoint called |
| `Scheduler.Pool.RaiseLive` | src/SchedulingModuleWroteBefore/scheduler.py:86-98 | the loop raises every live endpoint and finds the first largest running weight |
| `Scheduler.Pool.Registry` | src/SchedulingModuleWroteBefore/scheduler.py:61-63 | keeps the sum of the base weights up to date |
| `Scheduler.AcquireIsTurn` | src/SchedulingModuleWroteBefore/scheduler.py:86-100 | a successful acquire is, on the running weights, one weighted round-robin turn |
| `Scheduler.AcquiresAreFairRun` | src/SchedulingModuleWroteBefore/scheduler.py:70-103 | any number of acquires on a fresh healthy pool is a fair run of such turns |
| `Scheduler.FairAcquires` | src/SchedulingModuleWroteBefore/scheduler.py:70-103 | in any window of T successive acquires, T the sum of the base weights, every endpoint is picked exactly base-weight times |
| `RoundRobin.TurnDrift` | src/SchedulingModuleWroteBefore/scheduler.py:82-101 | what a turn does to the total of the running weights; it is kept if and only if the live weights add up to the base weights |
| `RoundRobin.SumIsInvariant` | src/SchedulingModuleWroteBefore/scheduler.py:82-101 | in a fair run the running weights always add up to T |
| `RoundRobin.NeverStarved` | src/SchedulingModuleWroteBefore/scheduler.py:82-101 | no running weight ever reaches -T |
| `RoundRobin.ClosedForm` | src/SchedulingModuleWroteBefore/scheduler.py:86-101 | a running weight is its start plus its share of the turns minus T for every pick |
| `RoundRobin.QuotaIsKept` | src/SchedulingModuleWroteBefore/scheduler.py:86-101 | an endpoint that has used up its quota is not picked again before turn T |
| `RoundRobin.FairCycle` | src/SchedulingModuleWroteBefore/scheduler.py:82-101 | after T turns every endpoint was picked base-weight times and every running weight is back at its start |
| `RoundRobin.Periodic` | src/SchedulingModuleWroteBefore/scheduler.py:82-101 | the running weights repeat with period T |
| `RoundRobin.FairWindow` | src/SchedulingModuleWroteBefore/scheduler.py:82-101 | the quota is met in every window of T turns, wherever it starts |
| `RoundRobin.BoundedLead` | src/SchedulingModuleWroteBefore/scheduler.py:82-101 | at every moment an endpoint's picks stay below its proportional share plus one |
| `RoundRobin.EqualWeightsTakeTurns` | src/SchedulingModuleWroteBefore/scheduler.py:86-98 | with equal weights from equal running weights the endpoints are picked in turn, in pool order: ties go to the first |
| `Redistribution.Compensate` | src/SchedulingModuleWroteBefore/scheduler.py:131-141 | the correction loop on the array of rounded shares |
| `Redistribution.CompensatedSum` | src/SchedulingModuleWroteBefore/scheduler.py:137-141 | what the loop adds to the sum, for every residual |
| `Redistribution.CorrectionIsExact` | src/SchedulingModuleWroteBefore/scheduler.py:131-141 | corrected shares add up to delta if and only if the residual lies between 0 and the number of targets, or is minus that number |
| `Redistribution.CorrectionCanMiss` | src/SchedulingModuleWroteBefore/scheduler.py:127-141 | two concrete weight sets for which the corrected shares miss delta |
| `Redistribution.CompensatedAt` | src/SchedulingModuleWroteBefore/scheduler.py:132-141 | which target changes by how much, for every residual |
| `Redistribution.HeaviestAreRaised` | src/SchedulingModuleWroteBefore/scheduler.py:132-141 | every share moves by at most one, and raised targets are the heaviest, ties in pool order |
| `Redistribution.RoundHalfEven` | src/SchedulingModuleWroteBefore/scheduler.py:128 | the rounded share is within one half of the exact one; `TargetShares.RoundsToNearest` adds that it is even at an exact half |
| `TargetShares.RoundsToNearest` | src/SchedulingModuleWroteBefore/scheduler.py:128 | rounding yields the integer nearest to the exact share, and the even one of two equally near |
| `TargetShares.SharesAreFair` | src/SchedulingModuleWroteBefore/scheduler.py:127-141 | the share of every target: the nearest integer to delta times its base weight over the sum, plus a correction of -1, 0 or 1 that depends only on the residual and on how many targets are heavier, or as heavy and earlier |
| `TargetShares.SharesAreNear` | src/SchedulingModuleWroteBefore/scheduler.py:127-141 | every share is within 3/2 of the proportional one, and within 1/2 if it was not corrected |
| `Redistribution.Redistribute` | src/SchedulingModuleWroteBefore/scheduler.py:105-145 | the whole redistribution on mutable endpoints: targets, corrected shares, adapted weights; a zero weight sum raises exactly if there is a target |
| `Redistribution.SelectTargets` | src/SchedulingModuleWroteBefore/scheduler.py:116-122 | the targets in pool order, with the status change that looking at them causes |
| `Redistribution.TargetsAre` | src/SchedulingModuleWroteBefore/scheduler.py:117-122 | the targets are exactly the endpoints in service other than the changer, in pool order |
| `Redistribution.ApplyShares` | src/SchedulingModuleWroteBefore/scheduler.py:143-145 | every target is adapted by its own share, one after the other |
| `Redistribution.TotalChange` | src/SchedulingModuleWroteBefore/scheduler.py:124-145 | if no endpoint breaks, the total weight of the pool grows by exactly delta if and only if the residual can be corrected |
| `Redistribution.OthersUntouched` | src/SchedulingModuleWroteBefore/scheduler.py:116-122 | the endpoint that caused a redistribution, and every stopped one, keeps its state |
| `TargetShares.RedistributionIs` | src/SchedulingModuleWroteBefore/scheduler.py:105-145 | a redistribution field by field: exactly the endpoints in service other than the changer get their fair share, an endpoint coming back also its recover_step, one left below zero breaks, and every other endpoint keeps its state |
| `WeightUpdate.UpdateWeight` | src/SchedulingModuleWroteBefore/scheduler.py:150-182 | the report on the last call on mutable endpoints, with the interval between recoveries and the three exceptions |
| `WeightUpdate.ReporterUntouched` | src/SchedulingModuleWroteBefore/scheduler.py:150-182 | whatever a report shares out, the endpoint it is about only counts it |
| `WeightUpdate.SuccessAfterAcquire` | src/SchedulingModuleWroteBefore/scheduler.py:156-174 | reporting success raises on the status that should not be if and only if the acquire was refused and the cool-down is not over |
| `WeightUpdate.BreaksAfterMaxFails` | src/SchedulingModuleWroteBefore/abc_cls.py:149-170 | an endpoint serves while its failures in a row are fewer than max_fails and is refused by the next call after that many |
| `WeightUpdate.FailureShares` | src/SchedulingModuleWroteBefore/scheduler.py:176-182 | a reported failure takes nothing from the endpoint that failed and gives the others exactly decay_step if and only if the residual can be corrected |
| `ReportEffects.ReportCounts` | src/SchedulingModuleWroteBefore/scheduler.py:156-174 | a success that shares nothing out: the endpoint is not recovering, or the interval is not over; only it is touched, its failures are reset, and the report raises exactly on an endpoint still stopped |
| `ReportEffects.ReportShares` | src/SchedulingModuleWroteBefore/scheduler.py:156-182 | a failure shares out decay_step and a recovering success recover_step, by fair shares over the pool in which the report was counted; a success then starts a new interval |
| `ReportEffects.ReportDivides` | src/SchedulingModuleWroteBefore/scheduler.py:124-145 | with a zero weight sum such a report raises exactly if there is a target, after it was counted and the others were looked at, and without starting an interval |
| `ReportEffects.RecoveriesArePaced` | src/SchedulingModuleWroteBefore/scheduler.py:163-171 | over any reports, with anything happening to the pool in between, recoveries are shared out more than the interval apart |
| `ReportEffects.WeightsStayNonNegative` | src/SchedulingModuleWroteBefore/abc_cls.py:90-134 | with recovery steps of at least 0 no report leaves a dynamic weight below zero |
| `ReportEffects.FailureExceedsBase` | src/SchedulingModuleWroteBefore/scheduler.py:176-182 | in any fresh pool of two, a reported failure of one leaves its weight and lifts the other above its base weight |
| `SchemaValidation.Validate` | src/sdk_test_agent/capability/schema_validation.py:15-71 | the recursive validator with its loops computes the error list of the specification, or runs out of the given recursion depth exactly when the specification does |
| `SchemaValidation.ValidateEntries` | src/sdk_test_agent/capability/schema_validation.py:42-46 | the loop over the properties of an object |
| `SchemaValidation.ValidateItems` | src/sdk_test_agent/capability/schema_validation.py:47-57 | the loop over the items of an array |
| `SchemaTermination.Terminates` | src/sdk_test_agent/capability/schema_validation.py:18-24 | with bounded reference chains the recursion ends on every value, by value size, chains left and schema |
| `SchemaTermination.CycleNeverEnds` | src/sdk_test_agent/capability/schema_validation.py:18-24 | a definition that reaches itself through anyOf makes the recursion endless |
| `SchemaTermination.TerminationIsExact` | src/sdk_test_agent/capability/schema_validation.py:18-24 | the validator ends on every value for every schema if and only if no definition reaches itself through anyOf |
| `SchemaTermination.ReferencesDefinition` | src/sdk_test_agent/capability/schema_validation.py:74-78 | a reference stands for the definition it names; a name that is not defined accepts everything |
| `SchemaFaults.ErrorsNameFaults` | src/sdk_test_agent/capability/schema_validation.py:15-71 | where the interpreter ends, its errors are exactly the faults: each names what is wrong and the part of the value it is wrong with, and every fault is named |
| `PydanticCompat.ModelJsonSchema` | src/sdk_test_agent/capability/_pydantic_compat.py:82-101 | the loop over the fields builds the compiled model schema |
| `PydanticCompat.ModelSchemaHas` | src/sdk_test_agent/capability/_pydantic_compat.py:82-101 | the schema of a model lists its fields in order with their bounds, requires exactly those without a default, and forbids or allows further entries only where the model says so |
| `PydanticCompat.ErrorsMeanRejection` | src/sdk_test_agent/capability/schema_validation.py:15-71 | no errors means acceptance in the declarative reading of the schema, and the other way round |
| `SchemaMeaning.MeaningPreserved` | src/sdk_test_agent/capability/_pydantic_compat.py:165-196 | for faithful annotations the compiled schema accepts exactly the inhabitants |
| `SchemaMeaning.CompilerCorrect` | src/sdk_test_agent/capability/_pydantic_compat.py:165-196 | compiler and interpreter together: the interpreter ends and reports no error exactly for the inhabitants of a faithful annotation |
| `SchemaMeaning.NeverTooStrict` | src/sdk_test_agent/capability/_pydantic_compat.py:165-196 | no inhabitant is rejected, for any annotation whose literals and enums reject none of their own constants: those of a literal have the JSON type of the first, those of an enum are strings |
| `SchemaExactness.NeverRejectsExactly` | src/sdk_test_agent/capability/_pydantic_compat.py:165-196 | that condition is necessary as well, for annotations without unions whose models have distinct field names, values for their required fields, and no bounds beside constants that are not safe |
| `SchemaExactness.ModelNeverRejects` | src/sdk_test_agent/capability/_pydantic_compat.py:82-101 | the schema of such a model rejects none of its values if and only if none of its fields' schemas does |
| `SchemaExactness.ListExactness` | src/sdk_test_agent/capability/_pydantic_compat.py:173-174 | the schema of a list is exact if and only if that of its elements is |
| `SchemaExactness.UnionOfExact` | src/sdk_test_agent/capability/_pydantic_compat.py:171-172 | the schema of a union is exact if those of its members are |
| `SchemaExactness.ModelExactness` | src/sdk_test_agent/capability/_pydantic_compat.py:82-101 | the schema of a model with distinct field names and inhabited required fields is exact if and only if that of every field with its bounds is |
| `SchemaExactness.BoundsExactness` | src/sdk_test_agent/capability/_pydantic_compat.py:191-195 | beside an exact schema, bounds are exact if and only if every inhabitant meets the part of them that the schema leaves out |
| `SchemaExactness.UnionBoundsExactness` | src/sdk_test_agent/capability/_pydantic_compat.py:191-195 | bounds on an exact union are exact if and only if every inhabitant meets them |
| `SchemaExactness.LengthExactness` | src/sdk_test_agent/capability/_pydantic_compat.py:191-192 | a minimum length on a string, an untyped value or a dictionary of any values is exact if and only if it is at most zero |
| `SchemaExactness.UnionMayHide` | src/sdk_test_agent/capability/_pydantic_compat.py:171-172 | a union can be exact although a member is not, when another member takes what is wrong with it |
| `SchemaMeaning.LiteralExactness` | src/sdk_test_agent/capability/_pydantic_compat.py:179-182 | a literal's schema is exact if and only if all its constants have the JSON type of the first |
| `SchemaMeaning.EnumExactness` | src/sdk_test_agent/capability/_pydantic_compat.py:185-186 | an enum's schema is exact if and only if all its values are strings |
| `SchemaMeaning.DictExactness` | src/sdk_test_agent/capability/_pydantic_compat.py:177-178 | a dictionary's schema is exact if and only if its value type takes everything |
| `SchemaMeaning.BareNoneAcceptsAll` | src/sdk_test_agent/capability/_pydantic_compat.py:189-190 | None outside a union constrains nothing |
| `SchemaMeaning.UnionIgnoresBounds` | src/sdk_test_agent/capability/_pydantic_compat.py:191-195 | bounds beside anyOf have no effect |
| `SchemaMeaning.StringIgnoresLength` | src/sdk_test_agent/capability/_pydantic_compat.py:191-192 | a minimum length on a string has no effect |
| `SchemaMeaning.ObjectIgnoresBounds` | src/sdk_test_agent/capability/_pydantic_compat.py:191-195 | bounds on an object schema have no effect |
| `ModelRoundTrip.RoundTrip` | src/sdk_test_agent/capability/_pydantic_compat.py:36-80 | reading back a printed value gives the value, when the unions in the annotation exclude each other and models forbid extra fields |
| `ModelRoundTrip.RejectedValue` | src/sdk_test_agent/capability/_pydantic_compat.py:117-163 | the syntactic exclusion test is sound: an annotation that excludes another takes none of its printed values |
| `ModelRoundTrip.AcceptedIsParsed` | src/sdk_test_agent/capability/_pydantic_compat.py:117-163 | every payload the generated schema accepts is parsed, for float-free annotations with distinct field names and well-typed defaults |
| `TypedCoercion.TypedStays` | src/sdk_test_agent/capability/_pydantic_compat.py:117-163 | parsing leaves a typed value as it is: enum members, model instances, and lists and unions of them, where no union has a member that converts the values of one behind it |
| `TypedCoercion.EnumFirstConverts` | src/sdk_test_agent/capability/_pydantic_compat.py:122-155 | why that condition: an enum in front of plain strings turns its own values into members |
| `TypedCoercion.ModelMade` | src/sdk_test_agent/capability/_pydantic_compat.py:51-77 | a dictionary is parsed as a model if and only if every field can be made from its entry or its default and no unknown entry is forbidden; the instance holds these values in order, and exactly the unknown entries, in order, where extra ones are allowed |
| `TypedCoercion.TypedFieldsStay` | src/sdk_test_agent/capability/_pydantic_compat.py:36-77 | a model constructed from typed values holds exactly these |
| `TypedCoercion.ParsedIsTyped` | src/sdk_test_agent/capability/_pydantic_compat.py:117-163 | whatever plain data is parsed to has the type of the annotation |
| `ModelRoundTrip.PrintedInstance` | src/sdk_test_agent/capability/_pydantic_compat.py:79-112 | a printed instance has one entry per field, in order, and none for its extra attributes; a printed member is its value |
| `ModelRoundTrip.FloatGap` | src/sdk_test_agent/capability/_pydantic_compat.py:160-162 | why float-free: an integer passes the number schema and is refused by parsing |
| `ModelRoundTrip.OptionalTakesAll` | src/sdk_test_agent/capability/_pydantic_compat.py:122-131 | a union of any members with None anywhere among them takes every value |
| `ModelRoundTrip.NoneFirstLosesModel` | src/sdk_test_agent/capability/_pydantic_compat.py:122-131 | a None in front of a model keeps the printed dictionary instead of rebuilding the instance |
| `IoModels.RunCommandPromise` | src/sdk_test_agent/capability/capability_io_models.py:8-27 | all of this holds for the command input of the repository |
| `IoModels.CommandAccepted` | src/sdk_test_agent/capability/capability_io_models.py:8-27 | the generated schema of the command input accepts exactly this: an action of the two and a payload of either kind, whether or not it is the kind of that action; words where lists of strings are declared, at least one; 1 to 300 seconds, or true; and nothing else |
| `IoModels.PayloadsExclude` | src/sdk_test_agent/capability/capability_io_models.py:8-27 | its two payload models exclude each other |
| `IoModels.BuildArgsUnchecked` | src/sdk_test_agent/capability/capability_io_models.py:67-74 | declared string values of the build arguments are not checked by their schema |
| `ExecutionEngine.Engine.Run` | src/sdk_test_agent/execution/execution_engine.py:24-172 | the interpreter loop leaves the context and returns the result that the step-by-step specification gives, or raises: on an unknown kind, on inputs that cannot be copied, or at the end on copied inputs whose keys cannot be sorted |
| `EngineOutcomes.RunsTellOutcomes` | src/sdk_test_agent/execution/execution_engine.py:30-73 | every record of a run, by position in the plan: what an executor asked with the outputs so far returned is the status and outputs of its record, except that a failure under request_replan waits; what it raised is a failure without outputs; a step whose dependencies have not succeeded is skipped |
| `EngineOutcomes.OutputsAreReturned` | src/sdk_test_agent/execution/execution_engine.py:48-51 | with unique ids, what later steps find under the id of a step is what its executor returned, if it returned success, and otherwise nothing that was not there before the run |
| `EngineOutcomes.ResultIs` | src/sdk_test_agent/execution/execution_engine.py:57-79 | the result of a run follows from its records: which status it reports, which step it waits for, and which exception ends it |
| `Plan.CopiedExactly` | src/sdk_test_agent/execution/execution_engine.py:96-124 | inputs can be copied into a dictionary if and only if they are one, or iterate over values that make entries, and then exactly the keys of these are kept |
| `Plan.SortableExactly` | src/sdk_test_agent/execution/execution_engine.py:166-172 | copied keys can be written sorted if and only if JSON takes each and any two are equal or compare |
| `ExecutionEngine.StoppedStays` | src/sdk_test_agent/execution/execution_engine.py:57-73 | a stopped run ignores the steps that remain |
| `EngineSafety.RunInvariant` | src/sdk_test_agent/execution/execution_engine.py:30-79 | after every prefix of any plan: the shape of the run and why it stopped or raised, the status table and dependency safety |
| `EngineSafety.SuccessIsExact` | src/sdk_test_agent/execution/execution_engine.py:57-79 | step runs match a prefix of the plan in order; the loop over the steps reaches its end if and only if they cover the plan and none of them halts it, and the run then succeeds if and only if the inputs of all steps can be reported |
| `EngineSafety.FinishedExactly` | src/sdk_test_agent/execution/execution_engine.py:166-172 | a run ends with a result if and only if no step raised and the copied inputs of every recorded step have keys of one sortable kind |
| `EngineSafety.StopsAtFirstHalt` | src/sdk_test_agent/execution/execution_engine.py:50-73 | a stopped run ends at the one halting step, and its status tells the step's policy |
| `EngineSafety.WholePlanMayFail` | src/sdk_test_agent/execution/execution_engine.py:68-73 | covering the whole plan does not imply success: a failing last step |
| `EngineCoverage.CoverageIsSuccess` | src/sdk_test_agent/execution/execution_engine.py:57-79 | with unique ids: a result that covers the plan is a success under all executors if and only if the plan is empty, its last step continues on failure or is unreachable, or some inputs cannot be copied and reported |
| `EngineCoverage.PassedOverLast` | src/sdk_test_agent/execution/execution_engine.py:57-79 | if the last step continues on failure, a result is a success if and only if it covers the plan, for all executors |
| `EngineCoverage.SucceededAreHopeful` | src/sdk_test_agent/execution/execution_engine.py:30-55 | whatever the executors do, only steps succeed that would in the run in which every started step succeeds |
| `EngineCoverage.NeverRaisesExactly` | src/sdk_test_agent/execution/execution_engine.py:30-48 | no executors make the run raise if and only if the inputs of all steps can be copied and reported and every step that can be reached has an executor |
| `EngineSafety.OutputsAreExact` | src/sdk_test_agent/execution/execution_engine.py:50-52 | the context holds exactly the outputs of the succeeded steps besides what it held before |
| `EngineSafety.OutputsFromEmpty` | src/sdk_test_agent/execution/execution_engine.py:50-52 | from an empty context a step has outputs if and only if it succeeded |
| `EngineSafety.AncestorsSucceededEarlier` | src/sdk_test_agent/execution/execution_engine.py:30-35 | every transitive dependency of an executed step has succeeded, strictly earlier |
| `EngineSafety.BadDependenciesNeverRun` | src/sdk_test_agent/execution/execution_engine.py:30-35 | no step on, or downstream of, a dependency cycle or a forward dependency is executed |
| `EngineOrder.ExecutedExactly` | src/sdk_test_agent/execution/execution_engine.py:30-35 | a step is executed if and only if all its dependencies have succeeded before it |
| `EngineOrder.RunWithinGraph` | src/sdk_test_agent/execution/execution_engine.py:30-55 | in any order, what succeeds in a run succeeds in the recursive reading of the dependency graph |
| `EngineOrder.GraphWithinRun` | src/sdk_test_agent/execution/execution_engine.py:30-55 | in a dependency-respecting order the converse holds |
| `EngineOrder.RunIsGraphStatus` | src/sdk_test_agent/execution/execution_engine.py:30-55 | the run gives every step exactly its status in the graph |
| `EngineOrder.OrderIndependence` | src/sdk_test_agent/execution/execution_engine.py:30-55 | two dependency-respecting orders of the same steps give every step the same status |
| `Capability.CapabilityRegistry.Register` | src/sdk_test_agent/capability/capability_registry.py:11-17 | registers if and only if neither id nor step kind is taken, keeps both indexes in step, and says which was taken |
| `Capability.CapabilityRegistry.MaybeGetByStepKind` | src/sdk_test_agent/capability/capability_registry.py:25-26 | finds the one descriptor of a kind, or none exactly if there is none |
| `Capability.CapabilityRegistry.ListAll` | src/sdk_test_agent/capability/capability_registry.py:28-29 | lists all descriptors once, in registration order |
| `Capability.EnabledMeansEligible` | src/sdk_test_agent/capability/capability_panel.py:90-109 | the chain of gates enables a capability if and only if it passes every gate, and calls it deprecated exactly in the stated case |
| `Capability.FirstGateDecides` | src/sdk_test_agent/capability/capability_panel.py:90-109 | the first of the seven gates that is shut decides the status, exactly its own flag is set, and the missing keys are listed exactly when it is that of the context |
| `Capability.OpenGatesEnable` | src/sdk_test_agent/capability/capability_panel.py:90-109 | where no gate is shut the capability is enabled with no mark against it |
| `Capability.SnapshotHolds` | src/sdk_test_agent/capability/capability_panel.py:28-44 | a snapshot holds every descriptor in order with its own availability, the kinds enabled and not enabled, and the digest of all these |
| `Capability.KindsWithAre` | src/sdk_test_agent/capability/capability_panel.py:31-32 | the two kind lists of a snapshot split the availability records by status |
| `Capability.BuildResolutionRecord` | src/sdk_test_agent/capability/capability_panel.py:65-67 | the loop that sorts the capability ids of a snapshot into one list per status |
| `Capability.IdsInOrder` | src/sdk_test_agent/capability/capability_panel.py:65-79 | a list of the record names the capabilities of its status in the order of the snapshot |
| `Capability.RecordIsComplete` | src/sdk_test_agent/capability/capability_panel.py:65-79 | the five lists hold every capability exactly as often as the snapshot does |
| `PlanValidation.Validate` | src/sdk_test_agent/plan/plan_validation.py:77-120 | the validator raises if and only if the inputs of some checked step make the schema interpreter recurse too deep; otherwise it collects exactly the issues of the specification and passes if and only if none of them blocks |
| `PlanValidation.ValidateIds` | src/sdk_test_agent/plan/plan_validation.py:95-104 | the loop over the step ids with its growing set |
| `PlanValidation.ValidateSteps` | src/sdk_test_agent/plan/plan_validation.py:112-118 | the loop over the steps, left at the first whose check raises |
| `IssueCodes.IssuesAreDeserved` | src/sdk_test_agent/plan/plan_validation.py:77-371 | a plan is reported an issue, by code, severity and step, if and only if it deserves it, for every code there is |
| `IssueCodes.LastDescriptorCounts` | src/sdk_test_agent/plan/plan_validation.py:177-188 | where a snapshot lists a kind or an id several times the last descriptor counts |
| `IssueCodes.LastAvailabilityCounts` | src/sdk_test_agent/plan/plan_validation.py:177-188 | the same for availability records |
| `Admission.ValidationIsExact` | src/sdk_test_agent/plan/plan_validation.py:77-371 | the validator returns a passing result if and only if the plan is admissible, a condition without issues, codes or severities |
| `Admission.StepAdmission` | src/sdk_test_agent/plan/plan_validation.py:190-225 | against the panel's own snapshot a step passes if and only if it properly uses the one registered capability of its kind |
| `Admission.ValidationRaisesExactly` | src/sdk_test_agent/plan/plan_validation.py:190-233 | against the panel's own snapshot the validator raises if and only if some step is of the kind of an eligible capability on whose schema the interpreter does not end for its inputs |
| `Admission.PassedPlansAreSafe` | src/sdk_test_agent/plan/plan_validation.py:190-323 | end to end, with deprecated capabilities not allowed: every step of a passed plan is of a kind registered exactly once, by a capability eligible for the request, with inputs free of schema errors |
| `Admission.DeprecatedPassesUnchecked` | src/sdk_test_agent/plan/plan_validation.py:205-207 | with deprecated capabilities allowed a step can pass whatever its inputs are |
| `Preflight.RunPreflight` | src/sdk_test_agent/agent_loop/preflight.py:14-31 | the loop over the steps collects the errors of the specification, or raises: on command inputs that are no mapping or an action that is unhashable |
| `Preflight.PreflightIsExact` | src/sdk_test_agent/agent_loop/preflight.py:18-31 | it passes if and only if every step has an executor and, if it is a command, inputs that can be asked for an action, which is known or absent |
| `Preflight.RaisesExactly` | src/sdk_test_agent/agent_loop/preflight.py:24-28 | it raises if and only if some command step has inputs without get or an unhashable action, and the first such step decides which |
| `Preflight.RaiseHasCause` | src/sdk_test_agent/agent_loop/preflight.py:24-28 | which exception a step raises, and the first entry of its inputs named action as the cause of the second |
| `Preflight.ErrorsAreBlamed` | src/sdk_test_agent/agent_loop/preflight.py:18-31 | if nothing raises, an error is collected if and only if some step is to blame for it |
| `AgentLoop.BuildAvailableContextKeys` | src/sdk_test_agent/agent_loop/nodes.py:40-45 | the keys of the bound managers, in order |
| `AgentLoop.ContextKeysAre` | src/sdk_test_agent/agent_loop/nodes.py:40-45 | the keys by name |
| `AgentGraph.RunAgentLoopOnce` | src/sdk_test_agent/agent_loop/graph_builder.py:99-130 | the procedure calls exactly the nodes the graph visits from its start to the first that ends a pass, and returns the graph's state then; an exception leaves it where the graph raises |
| `AgentGraph.CallAll` | src/sdk_test_agent/agent_loop/graph_builder.py:112-113 | the loops over node lists follow the graph's unconditional edges |
| `AgentGraph.Rounds` | src/sdk_test_agent/agent_loop/graph_builder.py:82-93 | the looping graph goes round in nines: which node a visit is to fixes when its round began |
| `AgentGraph.RoundInduction` | src/sdk_test_agent/agent_loop/graph_builder.py:82-93 | an invariant of rounds holds at every visit of every round |
| `AgentGraph.NeverEnds` | src/sdk_test_agent/agent_loop/graph_builder.py:82-95 | a graph that always leads on never ends |
| `AgentLoopSafety.RoundInvariant` | src/sdk_test_agent/agent_loop/nodes.py:12-128 | at every visit inside a round the state holds what that very round has established, in its own iteration |
| `AgentLoopSafety.ExecutedPlanIsAdmitted` | src/sdk_test_agent/agent_loop/nodes.py:83-115 | every execute runs the plan its own round drafted, validated and preflighted |
| `AgentLoopSafety.RunIdsNeverRepeat` | src/sdk_test_agent/agent_loop/nodes.py:110-115 | no two recorded executions of a run of the loop share a run id |
| `RunIds.RunIdInjective` | src/sdk_test_agent/agent_loop/nodes.py:112 | run ids of different iterations differ |
| `RunIds.RunIdReads` | src/sdk_test_agent/agent_loop/nodes.py:112 | a run id is the fixed prefix and the decimal iteration |
| `AgentLoopSafety.SucceededMeansExecuted` | src/sdk_test_agent/agent_loop/graph_builder.py:43-51 | a run ends as succeeded only right after a check that accepted the recorded execution of its last plan |
| `AgentLoopSafety.EndedBy` | src/sdk_test_agent/agent_loop/graph_builder.py:94-95 | an ended graph was ended by one terminal node and keeps its state |
| `AgentLoopEnds.EndTellsWhy` | src/sdk_test_agent/agent_loop/graph_builder.py:25-95 | the status an ended run reports tells its cause: which mode was decided, that the plan of the last round was not valid or not executable, or what the checker answered; those who answer the user do so in the words of the decider |
| `AgentLoopEnds.DecisionStays` | src/sdk_test_agent/agent_loop/nodes.py:12-38 | from the first visit on the loop goes by one decision and one goal |
| `AgentLoopEnds.ReplansTheRoundBefore` | src/sdk_test_agent/agent_loop/nodes.py:124-128 | the request to replan that a round carries names the iteration before its own |
| `AgentLoopEnds.SetUpWhileUnderway` | src/sdk_test_agent/agent_loop/nodes.py:48-51 | between the environment and the end the status says that it is set up, and the context keys are those of the bound managers |
| `AgentLoopSafety.NothingStopsReplanning` | src/sdk_test_agent/agent_loop/graph_builder.py:43-51 | as long as plans pass and the checker asks to replan the loop goes on forever |
| `AgentLoopAdmission.PreflightedNeverRaises` | src/sdk_test_agent/agent_loop/preflight.py:18-31 | after a passed preflight no executor lookup of the engine raises, and its run ends with a result whatever the executors do if and only if all inputs can be copied and reported |
| `AgentLoopAdmission.ExecutionNeverRaises` | src/sdk_test_agent/agent_loop/nodes.py:110-115 | in the assembled loop every execute runs to a result, which is checked next, or crashes the loop on inputs that cannot be copied or reported; it never does the latter on a plan without such inputs |
| `AgentLoopAdmission.ExecutedStepsAreEligible` | src/sdk_test_agent/agent_loop/nodes.py:54-115 | end to end: every executed step uses the one registered capability of its kind, eligible for the request of that very round |
| `AgentLoopAdmission.ModelInputsNeverRaise` | src/sdk_test_agent/agent_loop/nodes.py:83-115 | if every capability has the input schema of a model and deprecated ones are not allowed, every execute runs to a result |
| `AgentLoopAdmission.ModelSchemasAreObjects` | src/sdk_test_agent/capability/_pydantic_compat.py:82-101 | what the compiler makes of a model is such a schema |
| `AgentLoopAdmission.ListInputsRaise` | src/sdk_test_agent/execution/execution_engine.py:96-124 | a plan with a list of plain values as inputs, for any deprecated capability and any executors: it passes validation and preflight, and its execution raises |
| `AgentLoopAdmission.MixedKeysRaise` | src/sdk_test_agent/execution/execution_engine.py:166-172 | the same for a list of pairs with keys of two kinds: it is copied, and the run raises at its very end |
| `AgentLoopAdmission.UncheckedInputs` | src/sdk_test_agent/execution/execution_engine.py:96-172 | for any inputs on a deprecated capability: the plan passes validation and preflight, and its execution ends with a result if and only if the inputs can be copied and reported |
| `AgentLoopAdmission.CyclicSchemaCrashes` | src/sdk_test_agent/plan/plan_validation.py:209-233 | validating a plan with a step of an eligible capability whose schema refers to a definition on an anyOf cycle crashes the loop, whatever the inputs |
| `AgentLoopAdmission.VisitRaises` | src/sdk_test_agent/agent_loop/graph_builder.py:82-95 | a visit crashes the loop if and only if something it calls outside raises, or the validator does on inputs its schema interpreter does not end on, or the preflight on the inputs or action of a command, or the engine on inputs that cannot be copied or reported |
| `AgentLoopAdmission.CrashCause` | src/sdk_test_agent/agent_loop/graph_builder.py:82-95 | a crashed loop has crashed by one visit, which raised for one of these causes |
| `ResultCache.Cache.Get` | src/AgentCrawler/src/agent_crawler/fetch/result_cache.py:34-42 | the method, with the pop of an expired entry and the move to the end |
| `ResultCache.Cache.Put` | src/AgentCrawler/src/agent_crawler/fetch/result_cache.py:44-49 | the method with its eviction loop; a negative limit raises on the emptied dictionary |
| `ResultCache.Cache.Clear` | src/AgentCrawler/src/agent_crawler/fetch/result_cache.py:51-52 | forgets everything |
| `ResultCache.RunAgrees` | src/AgentCrawler/src/agent_crawler/fetch/result_cache.py:34-52 | after any operations the items agree with the history: current, ordered by last use, at most max_entries, and nothing lost but for expiry or crowding out |
| `ResultCache.GetIsSound` | src/AgentCrawler/src/agent_crawler/fetch/result_cache.py:34-42 | what a get returns is the latest put since the last clear, unexpired |
| `ResultCache.GetIsComplete` | src/AgentCrawler/src/agent_crawler/fetch/result_cache.py:34-49 | the unexpired latest put is returned if fewer than max_entries other keys were put or hit since |
| `ResultCache.GetIsExact` | src/AgentCrawler/src/agent_crawler/fetch/result_cache.py:34-49 | as long as no expired key was asked for, if and only if |
| `ResultCache.ExpiredIsDropped` | src/AgentCrawler/src/agent_crawler/fetch/result_cache.py:34-42 | a key asked for after it had expired is held no more until it is put again |
| `ResultCache.KeysAreDistinct` | src/AgentCrawler/src/agent_crawler/fetch/result_cache.py:22-32 | keys of bar-free parts are equal only if the parts are |
| `ResultCache.KeysCollide` | src/AgentCrawler/src/agent_crawler/fetch/result_cache.py:22-32 | a bar inside a part can make the keys of different requests equal |
| `BrowserRegistry.BrowserPageRegistry.Register` | src/AgentCrawler/src/agent_crawler/fetch/browser_registry.py:33-61 | sweeps, inserts and evicts on mutable handles exactly as the specification says |
| `BrowserRegistry.BrowserPageRegistry.Get` | src/AgentCrawler/src/agent_crawler/fetch/browser_registry.py:63-73 | hands a page out if and only if it is held and has not expired, and touches it in place |
| `BrowserRegistry.BrowserPageRegistry.Close` | src/AgentCrawler/src/agent_crawler/fetch/browser_registry.py:75-81 | closes a held page |
| `BrowserRegistry.BrowserPageRegistry.CloseAll` | src/AgentCrawler/src/agent_crawler/fetch/browser_registry.py:87-92 | closes every held page in order |
| `BrowserRegistry.BrowserPageRegistry.SweepExpired` | src/AgentCrawler/src/agent_crawler/fetch/browser_registry.py:83-85 | closes the expired pages and counts them |
| `BrowserPages.RunAccounted` | src/AgentCrawler/src/agent_crawler/fetch/browser_registry.py:33-116 | over any run every registered page is held or closed, exactly once, and at most max_open_pages are held |
| `BrowserPages.SortedByRank` | src/AgentCrawler/src/agent_crawler/fetch/browser_registry.py:109-112 | the stable sort puts every page at its rank by last access, then registration |
| `BrowserPages.VictimsExactly` | src/AgentCrawler/src/agent_crawler/fetch/browser_registry.py:105-116 | a page is evicted if and only if fewer pages come before it in that rank than have to go |
| `BrowserPages.EvictedBefore` | src/AgentCrawler/src/agent_crawler/fetch/browser_registry.py:105-116 | no evicted page was accessed later than a survivor, and ties go to the page registered earlier |
| `BrowserPages.RegisteredIsHeld` | src/AgentCrawler/src/agent_crawler/fetch/browser_registry.py:45-61 | on a clock that does not go back, the page just registered is held |
| `PageLife.HeldExactly` | src/AgentCrawler/src/agent_crawler/fetch/browser_registry.py:33-116 | over any run: a page is held after an operation if and only if it was held before, or is the one registered, and the operation does not end it by closing it, by looking at it or sweeping after it has lapsed, or by crowding it out |
| `PageLife.RunTold` | src/AgentCrawler/src/agent_crawler/fetch/browser_registry.py:33-73 | a held page was last used, and is to live, as the operations so far say |
| `PageLife.NextDoes` | src/AgentCrawler/src/agent_crawler/fetch/browser_registry.py:33-116 | what each operation does to the pages held, in order, and to the log of those closed |
| `HostLimiter.AtMostMaxInside` | src/AgentCrawler/src/webkit/fetchers/http.py:51-64 | in every interleaving at most max_concurrency_per_host tasks are inside a host's guard and at most one is at its gate |
| `HostLimiter.GatesApart` | src/AgentCrawler/src/webkit/fetchers/http.py:55-60 | successive gate times of a host are at least min_interval_s apart |
| `HostLimiter.RateLimited` | src/AgentCrawler/src/webkit/fetchers/http.py:55-60 | so any window of gate times is as long as the intervals in it |
| `HostLimiter.NeverStuck` | src/AgentCrawler/src/webkit/fetchers/http.py:51-64 | as long as a task is at the guard some task can go on |
| `GuardHistory.EnabledExactly` | src/AgentCrawler/src/webkit/fetchers/http.py:51-64 | after any steps of a host a task can take its next step if and only if the steps so far let it: fewer than the maximum are in, nobody is at the gate, and the gate has opened; a task that finds it open passes at once |
| `GuardHistory.TraceIsLawful` | src/AgentCrawler/src/webkit/fetchers/http.py:34-64 | over all hosts a sequence of events can happen if and only if each follows that rule of its host |
| `HostLimiter.HostsAreIndependent` | src/AgentCrawler/src/webkit/fetchers/http.py:44-49 | the state of a host is that of its own events alone |
| `HostLimiter.TraceByHost` | src/AgentCrawler/src/webkit/fetchers/http.py:44-64 | a sequence of events can happen if and only if every host's part can |
| `HostLimiter.EveryHostIsLimited` | src/AgentCrawler/src/webkit/fetchers/http.py:34-64 | both limits, for every host, over any events |
| `HostLimiter.Limiter.Get` | src/AgentCrawler/src/webkit/fetchers/http.py:44-49 | a host's entries are made on first use and always hold what its tasks made of them |
| `HostLimiter.Limiter.AcquireSemaphore` | src/AgentCrawler/src/webkit/fetchers/http.py:51-53 | takes a permit if and only if there is one |
| `HostLimiter.Limiter.EnterGate` | src/AgentCrawler/src/webkit/fetchers/http.py:55-59 | takes the lock and computes the sleep |
| `HostLimiter.Limiter.LeaveGate` | src/AgentCrawler/src/webkit/fetchers/http.py:60 | books the next start and gives the lock back |
| `HostLimiter.Limiter.ReleaseSemaphore` | src/AgentCrawler/src/webkit/fetchers/http.py:62-64 | gives the permit back |
| `HttpFetch.HttpFetcher.FetchUrl` | src/AgentCrawler/src/webkit/fetchers/http.py:173-276 | the retry and revalidation loop: result and cache are those of the specification |
| `HttpFetch.DiskCache.Load` | src/AgentCrawler/src/webkit/fetchers/http.py:101-117 | the entry and whether it is stale |
| `HttpFetch.DiskCache.Save` | src/AgentCrawler/src/webkit/fetchers/http.py:119-131 | replaces the entry and stamps the time |
| `HttpFetch.LastTryDecides` | src/AgentCrawler/src/webkit/fetchers/http.py:220-274 | between one and max_attempts requests are made and the last alone decides |
| `HttpFetch.FetchedExactly` | src/AgentCrawler/src/webkit/fetchers/http.py:220-276 | a fetch succeeds if and only if the deciding request was answered; transient errors and retryable statuses decide only on the last attempt; the cache changes only with status 200 |
| `HttpFetch.FetchSettles` | src/AgentCrawler/src/webkit/fetchers/http.py:173-276 | what every fetch comes to: an entry that is not stale is answered without a request; otherwise one request decides, and a 304 to a held entry gives status 200, its body and a new stamp, a 200 with a body gives and stores it, and anything else is handed out, or fails, with the store as it was |
| `HttpFetch.DecidingIsUnique` | src/AgentCrawler/src/webkit/fetchers/http.py:220-274 | only one request can be the deciding one: those before it were answered 429, 500, 502, 503, 504 or failed transiently, with attempts left |
| `Freshness.EveryAnswerIsFresh` | src/AgentCrawler/src/webkit/fetchers/http.py:173-265 | over any interleaving of fetches every body handed out with status 200 was the origin's current one no further back than ttl and one exchange |
| `Freshness.NotModifiedMeansCurrent` | src/AgentCrawler/src/webkit/fetchers/http.py:184-238 | a 304 means that the entry's body is current, when no conditional header of the caller decides it |
| `Freshness.RevalidationExactly` | src/AgentCrawler/src/webkit/fetchers/http.py:184-217 | a 304 can be trusted, whatever version-unique origin sent it, if and only if no conditional header of the caller takes the place of a validator the entry lacks or goes out beside one under another spelling |
| `Freshness.SpellingMatters` | src/AgentCrawler/src/webkit/fetchers/http.py:216-217 | beside an entry with an entity tag the caller's own is harmless as If-None-Match and not as if-none-match |
| `Freshness.TtlBoundsExactly` | src/AgentCrawler/src/webkit/fetchers/http.py:110-123 | the bound of ttl alone holds against every origin over all runs if and only if no request is made, or ttl is positive and exchanges take no time |
| `Freshness.LatencyMatters` | src/AgentCrawler/src/webkit/fetchers/http.py:123 | the bound of ttl alone fails for every positive latency, because the stored time is that of the save |
| `Freshness.TtlMatters` | src/AgentCrawler/src/webkit/fetchers/http.py:110 | with ttl <= 0 nothing bounds the age |
| `Freshness.FetchIsARun` | src/AgentCrawler/src/webkit/fetchers/http.py:173-276 | a fetch that runs by itself is a run of these events |

## Left out

- White space: space, tab, CR and LF only. With the wider Unicode white space that Python strips, the chunk bound does not hold.
- Chunk metadata, scores and features, and the document's other fields: no loop reads them.
- Scheduler.Pool.Acquire: one clock reading per acquire, endpoints are distinct objects, and the thread lock is taken as held throughout.
- Redistribution.Compensate: shares are computed over the reals, not in binary floating point, before they are rounded.
- Redistribution.Redistribute, WeightUpdate.UpdateWeight: one clock reading per operation; the singleton, the setter of the interval and the log lines are not modelled.
- Tuples, string-valued enum members inside payloads, error message texts, recursive model classes and the real pydantic, if it is installed.
- PlanValidation.Validate: message texts, paths and metadata of issues; the recursion limit is counted in calls of the interpreter, where Python counts all frames on its stack, so near the limit a deeply nested input may raise earlier.
- Identifiers, times and prompt references of the panel's resolution record, prompt rendering, snapshot ids and the digest function itself: the digest is an arbitrary function of its payload.
- ExecutionEngine.Engine.Run: timestamps, generated ids, artifact persistence and summaries; an executor is a function of the step and the outputs so far whose results, also when it raises, are well formed, and it leaves the inputs as they are; fields of a step other than its inputs have their declared types.
- EngineOrder.RunIsGraphStatus: it is about the step runs of a run, also of one whose report raises at the end.
- EngineCoverage.NeverRaisesExactly: keeping an artifact is taken not to raise, and so is copying and writing values that are deep or large; Python raises there on inputs nested too deeply or with integers of thousands of digits. Dictionaries in inputs have text keys, as in JSON; enum members count as plain, so that none can be a key.
- AgentGraph.RunAgentLoopOnce: the graph library's own state handling is modelled as the key-wise merge the procedure uses; task id and task type are taken as given; engine and preflight share one executor registry.
- AgentLoop: skill selection, prompt text, plan ids, reports and artifact references, which no route reads.
- AgentLoopAdmission.CrashCause: what a node calls outside (decider, session opening, input factory, planner, checker) is modelled as answering or raising, once per visit; what it answers is well formed. Rendering prompts, and turning plans, snapshots and results into dictionaries and back, are taken to lose nothing and not to raise.
- ResultCache.Cache.Get: one clock reading per operation, over the reals.
- BrowserRegistry.BrowserPageRegistry.Register: one clock reading per operation, page references are fresh, and closing a page or context always ends; the asyncio lock makes each operation atomic.
- HostLimiter: cancellation of a waiting task, and the order in which waiting tasks are served; a sleep never wakes early.
- HttpFetch.DiskCache.Save: the two files are replaced as one; unreadable files and crashes in between are not modelled.
- HttpFetch.HttpFetcher.FetchUrl: the refusal of other methods than GET, redirects, encodings, response headers other than the validators, and the length of the back-off sleeps.
- Freshness.EveryAnswerIsFresh: one URL at a time, since entries are kept under separate keys; the URL hash is taken as injective. The origin's representation depends on time alone: callers with different request headers share an entry, and for an origin that answers them differently the result does not hold. It is a hypothesis on the origin that it compares `If-Modified-Since` for equality: section 13.1.3 of RFC 9110 compares dates, so an origin rolled back to an older version may answer 304 for a newer one's date.
- Freshness.RevalidationExactly: the value of a conditional header is taken as one validator; lists of entity tags, `*` and malformed values are not modelled.
- Docker, sandbox, SQLite and artifact drivers, LLM clients, prompts, planners, Playwright navigation, HTML extraction, ranking scores, crawler tracing, tool registries and command allow-lists.
