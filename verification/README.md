# Verified models of task execution, cutover and their supporting rules

This project models the parts of the repository whose correctness spans several functions or
whole runs, and proves what they promise. It has three parts.

**Task execution and effect receipts.** Workers claim a task with a lease token and a growing
generation, scan for effects left behind, write an intent before each external effect, keep the
receipts in the run transaction and commit only while the token still matches. `AgentRows` gives
each transaction as a function on the rows, `EffectProtocol` makes them the steps of a labelled
transition system with any number of workers, lease expiries, crashes and rollbacks,
`EffectInvariant` keeps its invariant, and `EffectGuarantees` states what holds over whole runs.
`EffectLateness` says when an intent is written late and what that costs, `EffectReclaims` when a
closed key is claimed again, `EffectLeases` what a live lease, an edit and a recorded outcome mean for
every later step, `EffectProgress` what a worker can always do. `EffectWitnesses` holds concrete runs showing where a condition is
needed. `AgentRepository` has the repository and the recorder as classes, each method tied to the
same row functions, and the coordinator on its own. `Evidence` is the read-only evidence reader,
`EvidenceGuarantees` connects it to the protocol.

**The cutover compiler, interpreter and checker.** `CutoverModel` has the
graphs, `CutoverBuild` compiles two of them into edit operations, `CutoverApply` interprets operations, `CutoverVerify` compares.
`CutoverPhases` and `CutoverResult` describe the graph that compiling and running yields,
`CutoverGuarantees` says exactly what the checker then reports, `CutoverFixpoint` treats a second
rebuild, the webhook guard and the dry run, `CutoverNulls` and `CutoverStops` targets with null lanes,
`CutoverCarries` the meaning of the compiler's parts, `CutoverTexts` what happens to every string,
`CutoverMeaning` the compiled operations, the rebuilt graph and the reported differences by the
fields of the graphs, `CutoverWitnesses` small inputs for each condition.

**Smaller rules.** Whole-word host rewriting (`HostRewrite`, `HostMatches`, `HostRewriteGuarantees`,
`HostRewriteEnds`, `HostRewritePairs`), reference repointing (`Repoint`, `RepointGuarantees`,
`RepointMeaning`), the
diagnostic rate limit (`ShadowRateLimit`), rater agreement (`EvaluatorAgreement`), the budgeted
observations (`ConversationTools`), the surrogate guard (`JsonGuard`,
`JsonGrammar`, `JsonReading`), scheduled goals
(`Schedules`, `ScheduleRuns`), subagent chains (`Subagents`) and data table columns
(`ColumnNames`). `Prelude`, `Strings`, `SnakeNames` and `Splices` are shared.

Statements about runs and whole graphs use the functions that the methods and loops are proved
against. What those functions mean is stated separately, by the fields of the rows and the
characters of the texts: in the contracts of the repository methods, in `HostMatches`,
`CutoverTexts`, `CutoverMeaning` and `RepointMeaning`, and in one lemma for each string operation.

Nothing was executed. `dafny verify dfyconfig.toml` checks the whole project.

## Main results

- When a generation-g worker executes, an effect of an earlier generation is receipted if and only
  if its intent was written while its writer still held the newest generation; a late effect never
  gets a receipt. Nothing is assumed about `record_intent` being atomic: the fence check and the
  insert are two steps, and over every run the intent is late if and only if a claim was granted
  between them (`LateExactlyAfterANewerClaim`). So the past is fully receipted if and only if every
  earlier insert of the run was timely (`ReceiptedPastExactlyByTimelyInserts`), a condition on
  generations alone; it holds when check and insert are atomic (`AtomicFenceGivesAReceiptedPast`)
  and fails in the run of `LateInsertSpoilsThePast`. The comment in
  `app/services/agent_tasks.py:611-618` claims the receipted past without the condition. Timely
  receiptless effects share one generation, and once one is left behind no later claim runs an
  effect until the task is deleted.
- A key's first completed answer is replayed after any run, with the approval token blanked. With
  the ledger read and the claim apart, a closed key can still be claimed again in some continuation
  if and only if some worker holds a read of its row from when it was running
  (`ClosedKeyIsReclaimedExactly`; `CompletedKeyCanExecuteAgain` is such a run), and over every
  continuation the commit of such a claim fails and changes no row (`ClosedKeyNeverCompletesAgain`).
- A live lease keeps every other worker out: along every run that does not release it, until its end,
  the token keeps the task and each attempt to claim it is refused as busy (`LiveLeaseKeepsOthersOut`);
  a claim is granted if and only if the lease is free or over (`ClaimIsGrantedExactly`). An edit revokes
  the token it clears for good (`EditRevokesTheClaim`), and wherever an effect's receipt ends up it
  tells the outcome that was recorded (`ReceiptsTellTheOutcome`).
- The protocol is not safe by standing still: from every reachable state in which the task is free and
  nothing is left behind, any idle worker can claim it, run any list of new effects and commit, and then
  the run is completed and every effect has its intent and its receipt (`TaskCanBeRun`); with an effect
  left behind the claim ends in the refusal (`OrphanStopsTheRun`), and a worker that holds a claim can
  always end its run and free the lease (`EveryRunCanEnd`).
- Compile, run, check: the checker's report is characterised exactly, difference by difference. It
  is silent if and only if no added node lacks a version, no Code node lost its overlay file to an
  earlier one with the same key, and no index-less target edge between remaining nodes is missing
  from the source. A second rebuild changes nothing if and only if the first of these holds. All
  this is for every target on which the run does not stop at a null lane, and it stops if and only
  if a node is removed while another source has one, or none is removed and the source has an edge
  for one (`CompiledRunsExactly`, `NullStopsMeans`).
- In every string of every compiled parameter, at any depth, the host, each workflow id and each data
  table id are replaced in turn, the leftmost occurrences first, and nothing else changes
  (`ReplaceIs`, `TreeIsRewritten`, `CompiledParameters`); an identifier that shares no stretch with a
  replacement from its own on is in no such string (`CompiledIdentifiersAreGone`), and one that does
  can come back (`KeyComesBack`).
- Host rewriting with one pair, whatever characters OLD holds before a last letter, digit, dot or
  hyphen: no text is left with a whole-word OLD if and only if NEW cannot make one, by holding it,
  by ending in a stem of it that what follows completes, or by completing copied characters before
  it (`OldIsGoneExactly`). For a list no OLD is left if each, from some pair that names it on, is
  not made again (`EachStaysGone`); for OLD sides of word characters that cannot match at one place
  this is exact, a second rewrite rests exactly then, and the reported number is the number of
  occurrences there were if and only if no NEW regrows a later OLD. The accepted pairs `x.=x`
  (`TrailingDotComesBack`) and `x/=x` (`SlashComesBack`) leave their OLD behind.
- If deferrals land, a schedule's failed plannings lie 15 minutes apart, provided each was due at
  its tick's own moment. The due scan reads its clock later than the tick reads its moment: a row
  that comes due in between is planned but not deferred, and a later tick can plan it within the
  back-off if and only if that happened (`PlannedAgainTooSoonExactly`, `LateRowIsPlannedAgain`).
  If the deferral is lost, a later tick can, unless the failed tick's due scan itself was 15 minutes
  late (`LostDeferralSpinsExactly`).
- The surrogate guard's decoder reads exactly the texts of the grammar of RFC 8259 with Python's three
  words added, each as the value it denotes (`ReadIsTheGrammar`), so an ASCII body is refused if and
  only if it is such a text and one of its kept keys or strings has an unpaired surrogate escape
  (`GuardRefusesExactly`), with or without the fast path (`FastPathAgrees`).
- n fields always get column names within the 63 character limit if and only if n is at most 999.

## Assumptions

- One transaction is one atomic step, except where statements are listed above as separate steps.
  Generated tokens and ids are nonempty and never repeat. Clocks never run backwards; a tick's
  moment may be any time up to the due scan's clock.
- A worker runs one effect at a time: it checks the next fence, and commits its run, only with no
  effect in flight (`services/agent_runtime/runtime.py:345-382`).
- The rows of one owner's task are an independent slice, because every statement names both.
- Hashes are injective, so the model compares what is hashed.
- Python's `str` operations act on ASCII text; names are unique and credentials keyed once where a
  contract says so. The webhook, version and overlay conditions above are stated, not assumed.
- The length of a JSON encoding is a parameter; recall assumes only that a count below ten takes
  one digit.

## Model

| member | source | states |
|---|---|---|
| AgentRows.Persistable | app/services/agent_runtime_persistence.py:50-55 | a stored result keeps every entry but the approval token, which is null |
| AgentRows.ClaimedRuns | app/services/agent_runtime_persistence.py:263-343 | a claim enters its run row, or retakes it for one more attempt, closes every other running row as superseded and leaves closed rows alone |
| AgentRows.ClaimAnswers | app/services/agent_runtime_persistence.py:263-352 | a claim is refused for a missing task or a live lease, else granted with the next generation, the new token and expiry, and the run row entered |
| AgentRows.FailureText | app/services/agent_runtime_persistence.py:487-527 | what is kept of an error is a nonempty prefix of it, whole up to 8000 characters |
| EffectInvariant.StepKeeps | app/services/agent_runtime_persistence.py:212-527 | every transaction, expiry, crash and rollback keeps the effect and ledger invariants |
| EffectInvariant.RunKeeps | app/services/agent_tasks.py:563-734 | the invariants hold after every run of every interleaving |
| EffectGuarantees.EffectsBeginOnAReceiptedPast | app/services/agent_tasks.py:610-629 | while a worker executes, every on-time effect of an earlier generation has a durable receipt |
| EffectLateness.LateExactlyAfterANewerClaim | app/services/agent_effect_receipts.py:68-108 | over any run from a fence check that succeeds to its insert, the intent is late exactly when a claim was granted in between |
| EffectLateness.GenerationCountsClaims | app/services/agent_runtime_persistence.py:298-343 | over every run the task's generation grows by the number of granted claims |
| EffectLateness.LateEffectsAreNeverReceipted | app/services/leased_effect_recorder.py:42-96 | in every reachable state an effect with a receipt was recorded on time |
| EffectLateness.ReceiptedExactlyWhenOnTime | app/services/agent_tasks.py:610-629 | while a worker executes, an effect of an earlier generation has a receipt exactly when it is on time |
| EffectLateness.ReceiptedPastExactlyByTimelyInserts | app/services/agent_tasks.py:610-629 | over every run, an executing worker's past is fully receipted exactly when it is all on time, exactly when every earlier claim inserted only under its own generation |
| EffectGuarantees.OrphansShareOneGeneration | app/services/agent_effect_receipts.py:176-216 | all on-time receiptless effects of a task belong to one generation |
| EffectGuarantees.ReceiptsAreAllOrNothing | app/services/leased_effect_recorder.py:42-96 | the effects of one claim are receipted together or not at all |
| EffectGuarantees.LeftBehindBlocksTheTask | app/services/agent_tasks.py:610-629 | along every run a left-behind effect stays, and no later claim executes until the task is deleted |
| EffectLateness.AtomicFenceGivesAReceiptedPast | app/services/agent_effect_receipts.py:54-108 | with fence check and insert atomic, the receipted past is unconditional |
| EffectLateness.TimelyOrphansShareOneGeneration | app/services/agent_effect_receipts.py:176-216 | over runs with timely inserts all receiptless effects belong to one generation |
| EffectGuarantees.StaleWorkerIsFencedOff | app/services/agent_runtime_persistence.py:354-527 | after a newer claim no renew, park, complete or fail by the old token changes task, runs or receipts |
| EffectGuarantees.ClaimsGrowTheGeneration | app/services/agent_runtime_persistence.py:263-343 | generations never fall and every later token carries a larger one |
| EffectGuarantees.OneRunAtATime | app/services/agent_runtime_persistence.py:298-343 | at most one run row of a task is running |
| EffectGuarantees.ReceiptsLandWithTheirRun | app/services/agent_tasks.py:689-716 | a receipt becomes durable only in the transaction that completes its own run, with all its siblings |
| EffectGuarantees.LedgerOnlyAdvances | app/services/agent_runtime_persistence.py:234-258 | over every run a key's row keeps its request, and once closed its state, result and error |
| EffectGuarantees.FirstAnswerIsReplayed | app/services/agent_runtime_persistence.py:234-258 | after any run a repeated request gets the first answer, approval token blanked, and changes no row |
| EffectGuarantees.FailedKeyKeepsRefusing | app/services/agent_runtime_persistence.py:234-258 | a failed key refuses forever, with a conflict when the parameters differ |
| EffectWitnesses.LateInsertSpoilsThePast | app/services/agent_effect_receipts.py:54-108 | a reachable state in which a worker executes although an earlier effect has no receipt |
| EffectReclaims.ClosedKeyIsReclaimedExactly | app/services/agent_runtime_persistence.py:234-343 | a completed or failed key is claimed again in some continuation exactly when a worker still holds a read of its running row |
| EffectReclaims.ClosedKeyNeverCompletesAgain | app/services/agent_runtime_persistence.py:425-485 | over every continuation the commit of a claim on a closed key fails and changes no row |
| EffectLeases.ClaimIsGrantedExactly | app/services/agent_runtime_persistence.py:263-292 | a claim is granted exactly when the task has no token, or no expiry, or a past one; a refused one changes no row |
| EffectLeases.LiveLeaseKeepsOthersOut | app/services/agent_runtime_persistence.py:263-292 | along every run that does not release a live lease, until its end, the token keeps the task and every claim is refused as busy |
| EffectLeases.EditsWaitForTheLease | app/services/agent_runtime_persistence.py:142-210 | an edit or delete goes through exactly without a live lease; an edit stores its payload and clears the token |
| EffectLeases.EditRevokesTheClaim | app/services/agent_runtime_persistence.py:142-168 | after an edit no earlier claim commits a run in any continuation |
| EffectLeases.ReceiptsTellTheOutcome | app/services/leased_effect_recorder.py:78-96 | in every continuation the durable receipt of an effect, if there is one, has the recorded status, provider and response |
| EffectLeases.RefusalParks | app/services/agent_tasks.py:736-773 | a refusal writes the task only while the lease holds and the task is not over; the run fails either way |
| EffectProgress.TaskCanBeRun | app/services/agent_tasks.py:563-734 | from every reachable state with a free task and nothing left behind, a worker can claim, run any new effects and commit, all of them with intent and receipt |
| EffectProgress.OrphanStopsTheRun | app/services/agent_tasks.py:610-629 | from every reachable state with a free task and an effect left behind, a claim ends in the refusal, the effects as they were |
| EffectProgress.EffectsRun | app/services/leased_effect_recorder.py:42-96 | under the fence a list of effects gets its intents and waiting receipts, each under its own id, and no other row changes |
| EffectProgress.ReceiptAnswers | app/services/leased_effect_recorder.py:78-96 | a receipt waits for the commit exactly while the fence holds and the stored intent has none |
| EffectProgress.HeartbeatAnswers | app/services/agent_runtime_persistence.py:354-387 | a heartbeat moves the expiry while token and running row are its own, and else marks the lease lost |
| EffectProgress.FenceAnswers | app/services/agent_effect_receipts.py:68-81 | a worker passes the fence exactly while its token and generation are the task's |
| EffectProgress.CrashAnswers | app/services/agent_tasks.py:563-734 | a crash at any time leaves every row as it is |
| EffectProgress.EveryRunCanEnd | app/services/agent_runtime_persistence.py:487-527 | whoever holds a claim can fail its run, which closes the row and frees the lease where they are its own |
| EffectWitnesses.CompletedKeyCanExecuteAgain | app/services/agent_runtime_persistence.py:234-343 | a reachable state in which a completed key is being executed again |
| EffectWitnesses.OnlyARunningRowCompletes | app/services/agent_runtime_persistence.py:425-485 | a run completes exactly while its token owns the task and its row is still running |
| AgentRepository.AgentTaskRepository.AcquireExecution | app/services/agent_runtime_persistence.py:212-352 | replays, refuses without changing a row, or claims the lease with the next generation |
| AgentRepository.AgentTaskRepository.RenewExecution | app/services/agent_runtime_persistence.py:354-387 | extends the lease only for its owner and says whether the run row is still its own |
| AgentRepository.AgentTaskRepository.ParkIfLeased | app/services/agent_runtime_persistence.py:389-423 | writes the task only while the token owns it |
| AgentRepository.AgentTaskRepository.CompleteExecution | app/services/agent_runtime_persistence.py:425-485 | result, released lease and receipts land together or nothing does |
| AgentRepository.AgentTaskRepository.FailExecution | app/services/agent_runtime_persistence.py:487-527 | closes the run and releases the lease, each only where still owned |
| AgentRepository.AgentTaskRepository.SaveForMutation | app/services/agent_runtime_persistence.py:142-168 | an edit is refused under a live lease and clears a dead one |
| AgentRepository.AgentTaskRepository.DeleteOwned | app/services/agent_runtime_persistence.py:187-210 | a delete is refused under a live lease and removes every row of the task |
| AgentRepository.AgentTaskRepository.RecordIntent | app/services/agent_effect_receipts.py:54-108 | an intent row is written exactly when token and generation match |
| AgentRepository.AgentTaskRepository.FindOrphanIntents | app/services/agent_effect_receipts.py:176-216 | lists exactly the intents without a receipt, each once |
| AgentRepository.LeasedEffectRecorder.BeginEffect | app/services/leased_effect_recorder.py:42-76 | an effect begins exactly when its intent was stored under this claim |
| AgentRepository.LeasedEffectRecorder.CompleteEffect | app/services/leased_effect_recorder.py:78-96 | a receipt waits with the run, refused on a lost fence, unknown intent or second receipt |
| AgentRepository.StartRun | app/services/agent_tasks.py:563-629 | the orphan scan happens under the lease just claimed and lists exactly the receiptless intents |
| AgentRepository.RunUntilBlocked | app/services/agent_tasks.py:563-734 | undisturbed, a run either parks the task over an orphan and fails its key with the refusal, or completes it with every intent receipted |
| AgentRepository.RefuseOrphanedTask | app/services/agent_tasks.py:736-773 | the task is parked as failed for the orphan's reason unless done, the run keeps the refusal and the lease is free |
| Evidence.ReconcileRecords | app/services/arf_evidence_source.py:95-222 | refuses exactly rows that contradict plan or each other; splits invoked steps into receipted and ambiguous |
| EvidenceGuarantees.ReaderAgreesWithTheProtocol | app/services/arf_evidence_source.py:156-205 | over every plan-following run the rows are accepted, receipted means the one effect succeeded, an orphan makes its step ambiguous |
| EvidenceGuarantees.RowsAreAccepted | app/services/arf_evidence_source.py:120-180 | rows of the protocol contradict neither the plan nor each other |
| CutoverBuild.ConnectionEdges | scripts/vps_cutover_rebuild.py:169-179 | lists exactly the edges of a graph, each lane's in order, whatever the dictionary order |
| CutoverBuild.BuildOperations | scripts/vps_cutover_rebuild.py:182-351 | the compiled list, and the overlay files no Code node asked for |
| CutoverMeaning.CompiledParameters | scripts/vps_cutover_rebuild.py:207-305 | every operation with parameters has those of a source node of its name, every string rewritten, its overlay file as the code |
| CutoverMeaning.CompiledIdentifiersAreGone | scripts/vps_cutover_rebuild.py:98-125 | no string of a compiled operation holds an identifier that no replacement from its own on can write again, overlay text aside |
| CutoverMeaning.UnmatchedAre | scripts/vps_cutover_rebuild.py:213-312 | the unmatched files are those whose key no Code node has |
| CutoverBuild.SourceNodeOps | scripts/vps_cutover_rebuild.py:207-305 | one chunk of operations for each source node, the overlay consumed on the way |
| CutoverBuild.ExtraNodeOps | scripts/vps_cutover_rebuild.py:307-310 | one removal for every target name the source lacks |
| CutoverBuild.MapNodeCredentials | scripts/vps_cutover_rebuild.py:128-166 | the loop yields the mapped credentials |
| CutoverCarries.MappedCredential | scripts/vps_cutover_rebuild.py:128-166 | each credential gets its twin's id and name, or is left off when it has none |
| CutoverCarries.MappedCallers | scripts/vps_cutover_rebuild.py:328-334 | the callers kept are the nonblank ones, each as its twin or as itself |
| CutoverCarries.ReplaceNothing | scripts/vps_cutover_rebuild.py:107-120 | without an occurrence the text is unchanged |
| CutoverCarries.ReplaceFirst | scripts/vps_cutover_rebuild.py:107-120 | the first occurrence becomes the new text and the rest is replaced likewise |
| CutoverTexts.ReplaceIs | scripts/vps_cutover_rebuild.py:107-120 | the result of a replacement is the one text with the occurrences, left to right without overlap, put anew |
| CutoverTexts.TreeIsRewritten | scripts/vps_cutover_rebuild.py:98-125 | the rewritten tree is the one whose every string went through host, workflow ids and data tables in turn; all else is as it was |
| CutoverTexts.ReplacementRemoves | scripts/vps_cutover_rebuild.py:107-120 | a replacement removes its key and makes nothing that shares no stretch with what it writes |
| CutoverTexts.IdentifierIsGone | scripts/vps_cutover_rebuild.py:98-125 | an identifier that no replacement from its own on can write again is in no string of the rewritten tree |
| CutoverTexts.KeyComesBack | scripts/vps_cutover_rebuild.py:107-120 | a replacement that holds its key, or ends as the key begins, can leave the key behind |
| CutoverCarries.RewriteKeepsShape | scripts/vps_cutover_rebuild.py:98-125 | only string values change: keys, shape and other leaves stay |
| CutoverCarries.OverlayKeyTwice | scripts/vps_cutover_rebuild.py:88-95 | a name and the stem it reduces to have one key |
| SnakeNames.SnakeGrows | scripts/vps_cutover_rebuild.py:88-95 | one more character adds itself in lower case if it is a letter or digit, after one underscore where others stood between, and nothing otherwise |
| CutoverCarries.RebuiltNodeCarries | scripts/vps_cutover_rebuild.py:207-305 | a rebuilt node has the source's type, version, position, state and settings; the rest comes from the node it replaces |
| CutoverCarries.RebuiltNodeBinds | scripts/vps_cutover_rebuild.py:254-297 | its credentials are the mapped ones, else those it had |
| CutoverMeaning.RebuiltParameters | scripts/vps_cutover_rebuild.py:207-305 | a rebuilt node has the source's parameters, every string rewritten, and its overlay file as the code |
| CutoverMeaning.RebuiltLaneMeans | scripts/vps_cutover_rebuild.py:314-324 | a lane of the result is the stray edges of the target and then the source's edges in order, each with its index or 0 |
| CutoverMeaning.GoneAre | scripts/vps_cutover_rebuild.py:224-310 | a target node keeps its place exactly when the source has a node of its name and type |
| CutoverMeaning.LanesAre | scripts/vps_cutover_rebuild.py:169-179 | a lane's edges are those of the stored list, and none for a missing or null lane |
| CutoverMeaning.TruthMeans | scripts/vps_cutover_rebuild.py:268-296 | which members count as true |
| CutoverMeaning.SettingsMean | scripts/vps_cutover_rebuild.py:326-328 | the eight copied settings come from the source where it has them; every other setting stays |
| CutoverMeaning.ErrorWorkflowMeans | scripts/vps_cutover_rebuild.py:335-341 | the error workflow becomes its own map's entry, else its twin, else stays the target's |
| CutoverMeaning.CallersMean | scripts/vps_cutover_rebuild.py:328-334 | the caller ids are the source's, mapped and joined by commas, else the target's |
| CutoverMeaning.CallersGrow | scripts/vps_cutover_rebuild.py:328-334 | one more caller adds its twin or itself at the end, a blank one nothing |
| CutoverMeaning.SplitJoins | scripts/vps_cutover_rebuild.py:328-334 | what a text splits into at commas has none, and joins to the text again |
| CutoverMeaning.JoinSplits | scripts/vps_cutover_rebuild.py:328-334 | parts without commas, joined, split into themselves |
| CutoverMeaning.PairGetIs | scripts/vps_cutover_rebuild.py:328-337 | a look-up in the workflow map finds the first entry of the key |
| CutoverMeaning.DescriptionMeans | scripts/vps_cutover_rebuild.py:346-349 | the description is the source's first 255 characters, else the target's |
| CutoverApply.ApplyOperations | scripts/vps_cutover_apply.py:108-203 | operations apply in order, the first failure stops the run, emptied entries are dropped |
| CutoverApply.DropEmptyEntries | scripts/vps_cutover_apply.py:192-201 | trailing empty lanes, empty types and empty sources go |
| CutoverApply.CleanAt | scripts/vps_cutover_apply.py:192-201 | dropping empty entries changes no lane |
| CutoverApply.WithLaneAt | scripts/vps_cutover_apply.py:100-105 | writing one lane changes that lane and no other |
| CutoverApply.WithoutNameAt | scripts/vps_cutover_apply.py:156-164 | removing a node empties its lanes and drops the edges to it everywhere |
| CutoverPhases.EditUpdates | scripts/vps_cutover_rebuild.py:224-305 | the edits compiled for a node updated in place leave exactly the updated node |
| CutoverResult.LaneSurvivors | scripts/vps_cutover_apply.py:166-172 | only an edge without an index, between nodes that stay, escapes the removals |
| CutoverStops.NullStopsMeans | scripts/vps_cutover_apply.py:100-203 | a compiled run stops exactly when the first removed node leaves another source's lane null, or no node is removed and a null lane of the target has edges in the source; by the graphs' own fields |
| CutoverNulls.CompiledRunsExactly | scripts/vps_cutover_apply.py:100-203 | the run of a compiled list fails exactly when a node is removed beside a null lane or the source has an edge for one; otherwise every node, lane, setting and the description of the result are known |
| CutoverNulls.ScrubbedRun | scripts/vps_cutover_apply.py:100-203 | any list of operations stops on a null lane or does what it does with empty lanes in their place |
| CutoverVerify.Compare | scripts/vps_cutover_verify.py:46-134 | reports exactly the differences between mapped source and target |
| CutoverVerify.NodeMismatches | scripts/vps_cutover_verify.py:65-107 | reports exactly the differences of one node |
| CutoverVerify.EdgeMismatches | scripts/vps_cutover_verify.py:113-118 | reports exactly the missing and the extra connections |
| CutoverVerify.SettingMismatches | scripts/vps_cutover_verify.py:120-134 | reports exactly the differing settings and error workflow |
| CutoverMeaning.NodeDifferenceMeans | scripts/vps_cutover_verify.py:65-107 | each kind of node difference by the fields of the two nodes |
| CutoverMeaning.ConnectionMeans | scripts/vps_cutover_verify.py:113-118 | a graph has a connection exactly when a lane holds an edge to that target with that index, 0 when it has none |
| CutoverMeaning.SettingDifferenceMeans | scripts/vps_cutover_verify.py:120-134 | each kind of settings difference by the fields of the two settings |
| CutoverGuarantees.CheckerReportsExactly | scripts/vps_cutover_verify.py:46-134 | unless the run stops on a null lane, each possible difference is reported if and only if its cause was present |
| CutoverGuarantees.CheckerSilentExactly | scripts/vps_cutover_verify.py:46-134 | then the checker is silent exactly on inputs with none of the three causes |
| CutoverGuarantees.LanesAreTheSourceLanes | scripts/vps_cutover_rebuild.py:314-324 | when target edges carry indices, each lane is the source's lane edge for edge |
| CutoverGuarantees.RebuiltEdges | scripts/vps_cutover_verify.py:113-118 | the result's edges are the source's and the stray ones |
| CutoverFixpoint.RebuildIsAFixpointExactly | scripts/vps_cutover_rebuild.py:224-310 | a second rebuild returns the graph unchanged exactly when no added node lacked a version |
| CutoverFixpoint.TidyIsCanonical | scripts/vps_cutover_apply.py:192-201 | connections without empty entries are determined by the edges of their lanes and by which lanes are null |
| CutoverFixpoint.UrlBearingIs | scripts/vps_cutover_apply.py:223-236 | which nodes have a reachable webhook id: those of the five listed types and of every type that ends in Trigger |
| CutoverFixpoint.CheckWebhookIds | scripts/vps_cutover_apply.py:257-266 | one complaint for each caller-facing webhook id that vanished or changed |
| CutoverFixpoint.GuardComplainsExactly | scripts/vps_cutover_apply.py:232-266 | the guard names exactly the URL-bearing target nodes without a source node of that name and type |
| CutoverFixpoint.GuardSilentExactly | scripts/vps_cutover_apply.py:257-266 | the guard passes exactly when each has one |
| CutoverFixpoint.Rehearse | scripts/vps_cutover_apply.py:326-376 | the dry run raises exactly on a null lane it meets, and ends clean exactly when every file found its node, it meets none, no webhook is lost and the rebuild matches |
| CutoverWitnesses.VersionlessNodeDiffers | scripts/vps_cutover_rebuild.py:285-291 | an added node without a version is reported |
| CutoverWitnesses.NamesakeLosesItsFile | scripts/vps_cutover_rebuild.py:213-219 | the second Code node of one overlay key is reported |
| CutoverWitnesses.UnindexedEdgeStays | scripts/vps_cutover_apply.py:166-172 | an edge without an index survives its removal and is reported |
| CutoverWitnesses.NullLaneStopsTheRun | scripts/vps_cutover_apply.py:174-181 | adding an edge to a null lane fails |
| HostRewrite.ParsePairs | scripts/n8n_migrate.py:238-256 | accepted exactly when every argument is OLD=NEW with both sides and no NEW holds an OLD |
| HostRewrite.ItemReads | scripts/n8n_migrate.py:238-250 | an argument is read as what stands before its first '=' and what stands behind it, both stripped, and refused when there is no '=' or a side is blank |
| Strings.StripIs | scripts/n8n_migrate.py:238-250 | strip leaves the one text without blanks at either end |
| HostRewrite.MatchIsStanding | scripts/n8n_migrate.py:74-80 | the pattern matches exactly where the host stands, but for case, with no word character or at sign before it and no longer host behind it |
| HostMatches.SubstitutionIs | scripts/n8n_migrate.py:166-180 | a substitution puts NEW at the standing places, left to right without overlap, copies the rest and counts the places |
| HostMatches.TreeIsRewritten | scripts/n8n_migrate.py:166-195 | every string of a tree goes through the pairs in turn, all else stays, and the report is the sum of the places |
| HostMatches.CountIs | scripts/n8n_migrate.py:198-201 | the count is the number of places in all strings of the tree |
| HostRewriteEnds.OldIsGoneExactly | scripts/n8n_migrate.py:74-80 | one pair leaves no OLD in any text exactly when NEW cannot make one |
| HostRewriteEnds.PlacesNotGained | scripts/n8n_migrate.py:74-80 | one substitution gains no place of a host that its NEW cannot make, and removes its own host |
| HostRewriteGuarantees.PlacesAfter | scripts/n8n_migrate.py:74-80 | one substitution of word-character hosts neither gains places of a host NEW does not bring nor loses any of an unrelated one |
| HostRewriteGuarantees.HitsArePlaces | scripts/n8n_migrate.py:198-201 | matches never overlap: the scan counts every place a host stands |
| HostRewritePairs.NoOldIsLeft | scripts/n8n_migrate.py:166-195 | over a whole tree a named host that no NEW from its pair on makes again is gone |
| HostRewritePairs.OtherHostsStay | scripts/n8n_migrate.py:166-195 | over a whole tree a host unrelated to every OLD, which no NEW makes, is found exactly as often as before |
| HostRewritePairs.NoOldIsLeftExactly | scripts/n8n_migrate.py:166-195 | no text is left with an OLD exactly when no NEW regrows an OLD named so far |
| HostRewritePairs.EachStaysGone | scripts/n8n_migrate.py:166-195 | with repeated or related OLDs too, no OLD is left if each is not made again from some pair that names it on |
| HostRewriteGuarantees.OldBecomesNewExactly | scripts/n8n_migrate.py:166-180 | in every text each OLD becomes one NEW and no NEW is lost or made, exactly when neither goes on behind the other |
| HostRewritePairs.ReportIsTheCountExactly | scripts/n8n_migrate.py:166-201 | the number reported is the sum of the counts before, on every tree, exactly when no NEW regrows a later OLD |
| HostRewritePairs.RewriteTwiceExactly | scripts/n8n_migrate.py:166-195 | a second rewrite changes and reports nothing, on every tree, exactly when no NEW regrows an OLD named so far |
| HostRewritePairs.TreeRewritten | scripts/n8n_migrate.py:166-195 | string leaves are rewritten one by one; keys, shape and other leaves stay |
| HostRewritePairs.WellFormedIsNeverRegrown | scripts/n8n_migrate.py:74-80 | a host that is alphanumeric at both ends and after every dot is never regrown |
| HostRewritePairs.TrailingDotComesBack | scripts/n8n_migrate.py:74-80 | an accepted pair whose OLD ends in a dot can leave OLD behind |
| HostRewritePairs.SlashComesBack | scripts/n8n_migrate.py:74-80 | so can an accepted pair whose OLD ends in a slash |
| Repoint.RepointWorkflow | scripts/n8n_migrate.py:818-908 | the repointed copy and its three reports |
| Repoint.LoadMap | scripts/n8n_migrate.py:259-292 | a map is accepted exactly when each entry has an id that is no source id, and its ids read back as written |
| RepointMeaning.EntryIs | scripts/n8n_migrate.py:259-292 | an entry is a nonblank id, bare or in an object, stripped, with the object's name |
| RepointGuarantees.EveryReferenceOnce | scripts/n8n_migrate.py:818-908 | every reference gets exactly one line, and a line is a change, done or dangling, never two |
| RepointMeaning.ReportTells | scripts/n8n_migrate.py:818-908 | the report holds exactly the lines that the workflow's fields call for, sub-workflow nodes, credentials, table fields and error workflow each by their own rule |
| RepointMeaning.CopyIsRepointed | scripts/n8n_migrate.py:818-908 | field by field, the copy has the mapped ids, names and addresses where a map covers the reference, and is otherwise as it was |
| RepointMeaning.KindsAre | scripts/n8n_migrate.py:227-237 | which node types hold a sub-workflow and which parameters a data table |
| Strings.LowerCase | scripts/n8n_migrate.py:227-237 | lower case, letter by letter |
| RepointGuarantees.SecondReport | scripts/n8n_migrate.py:818-908 | the second report line by line from the first |
| RepointGuarantees.SettledExactly | scripts/n8n_migrate.py:818-908 | a second repoint changes nothing exactly when no id it wrote is a source id |
| RepointGuarantees.SecondRepointRests | scripts/n8n_migrate.py:818-908 | with separate ids the workflow and the dangling lines stay and every change is done |
| RepointGuarantees.ReportFollows | scripts/n8n_migrate.py:818-908 | every change writes the id its map gives |
| ShadowRateLimit.Limiter.Consume | app/services/arf_shadow_rate_limit.py:40-53 | the upsert admits within eight seconds of the slot, moves it, or names the wait |
| ShadowRateLimit.LimiterRefinesBucket | app/services/arf_shadow_rate_limit.py:1-5 | on every run the stored slot admits what a five-token bucket refilling every two seconds admits |
| ShadowRateLimit.FreshOwnerHasAFullBucket | app/services/arf_shadow_rate_limit.py:35-48 | an owner without a row starts with a full bucket |
| ShadowRateLimit.WindowBound | app/services/arf_shadow_rate_limit.py:35-48 | in any W-second window of any run at most 5 + floor(W/2) requests are admitted |
| ShadowRateLimit.SteadyRateIsAdmitted | app/services/arf_shadow_rate_limit.py:35-48 | with room for one, a request every two seconds is always admitted |
| ShadowRateLimit.RetryIsExact | app/services/arf_shadow_rate_limit.py:49-53 | the named wait is the least whole number of seconds after which a request is admitted |
| ShadowRateLimit.RetrySuffices | app/services/arf_shadow_rate_limit.py:49-53 | the named wait suffices even if a slot opened between the clock readings |
| EvaluatorAgreement.KappaIsBounded | services/agent_evaluation.py:74-87 | kappa is defined exactly when the raters do not both give one same verdict, lies in [-1, 1], and is 1 exactly without disagreement |
| EvaluatorAgreement.RefusedExactly | services/agent_evaluation.py:63-73 | which inputs are refused, and for what |
| EvaluatorAgreement.AgreementCounts | services/agent_evaluation.py:74-87 | every field of the result by counting the tasks both voted on |
| EvaluatorAgreement.AgreementIsSymmetric | services/agent_evaluation.py:58-87 | swapping the raters changes nothing |
| EvaluatorAgreement.KappaIs | services/agent_evaluation.py:79-86 | the statistic in integers: (g n - p) / (n n - p) |
| EvaluatorAgreement.ProductsBound | services/agent_evaluation.py:80-85 | twice the sum of tally products is at most n n + n agreed |
| EvaluatorAgreement.DefinedExactly | services/agent_evaluation.py:80-86 | chance agreement is full exactly when both raters give one verdict throughout |
| ConversationTools.RecallObservation | app/services/conversation_tools.py:22-88 | always ends, within the limit when the empty view fits, showing prefixes with exact counts, and cuts no more errors, citations or excerpts than it must |
| ConversationTools.ShortenedIsTheCount | app/services/conversation_tools.py:44-86 | the truncation counts are the numbers of shown texts shorter than their originals |
| ConversationTools.FitErrors | app/services/conversation_tools.py:50-64 | errors shrink to prefixes, counts exact, until the view fits or none is left |
| ConversationTools.FitExcerpts | app/services/conversation_tools.py:77-88 | excerpts shrink to prefixes until the view fits, citations whole |
| ConversationTools.InventoryPage | app/services/conversation_tools.py:154-171 | a page holds the rows that fit, the first name cut only as far as needed, and never none over rows that fit bare |
| ConversationTools.ReadEveryPage | app/services/conversation_tools.py:132-171 | following next_offset from 0 shows every row once, in order, within the accepted offsets |
| JsonGuard.FastPathAgrees | app/core/json_guard.py:22-54 | the fast path never changes the answer of always decoding |
| JsonGuard.ValueIsPlain | app/core/json_guard.py:27-44 | without an escape in the body no key or string has an unpaired surrogate |
| JsonGuard.LoneExactlyWhenUnpaired | app/core/json_guard.py:1-12 | decoded text holds a surrogate exactly when an escape is unpaired |
| JsonGuard.GuardRefusesExactly | app/core/json_guard.py:47-54 | an ASCII body is refused exactly when the decoder reads it and one of its kept keys or strings has an unpaired surrogate escape |
| JsonGuard.ValueLoneExactly | app/core/json_guard.py:27-34 | a decoded value holds a surrogate exactly when one of its tokens has an unpaired escape |
| JsonReading.ReadIsTheGrammar | app/core/json_guard.py:47-54 | a body is read exactly when it is a text of the grammar of RFC 8259, with Python's three words added, and as the value that text denotes, the last of equal keys counting |
| JsonGrammar.DocReads | app/core/json_guard.py:47-54 | every text of the grammar with a delimiter behind it is read to its end, as what it denotes |
| JsonGrammar.DocWasWritten | app/core/json_guard.py:47-54 | whatever the decoder reads at a place is a text of the grammar |
| JsonReading.FastPathLooksFor | app/core/json_guard.py:22-44 | a body is decoded exactly when it holds an escape whose four digits name a surrogate, or a byte that is zero or not ASCII |
| JsonGuard.PairDecodes | app/core/json_guard.py:10-11 | the two escapes of an astral character decode to that character |
| Schedules.HermesExpansionRepository.CreateSchedule | app/services/hermes_expansion_persistence.py:29-61 | a blank goal is refused; a new row is due or pending by its time |
| Schedules.HermesExpansionRepository.DueSchedules | app/services/hermes_expansion_persistence.py:76-107 | missed rows are cancelled, the other unclaimed due rows promoted and listed |
| Schedules.HermesExpansionRepository.CancelSchedule | app/services/hermes_expansion_persistence.py:109-130 | cancels unless completed or cancelled |
| Schedules.HermesExpansionRepository.DeferDueSchedules | app/services/hermes_expansion_persistence.py:184-241 | moves exactly the unclaimed due rows, and counts them |
| Schedules.HermesExpansionRepository.AttachTask | app/services/hermes_expansion_persistence.py:243-266 | attaches only to an unclaimed pending or due row |
| Schedules.HermesExpansionRepository.MarkFromTaskOutcome | app/services/hermes_expansion_persistence.py:268-298 | marks the linked row unless completed or cancelled |
| Schedules.ShortenedIs | app/services/hermes_expansion_persistence.py:127-236 | a reason is kept stripped, up to its first 2000 characters |
| ScheduleRuns.MaterializeDueSchedules | app/services/agent_tasks.py:503-537 | scan, then a task attached to each listed schedule |
| ScheduleRuns.DueScheduleCanComplete | app/services/agent_tasks.py:503-537 | from every state the due schedules can each get a new task, and the outcome of one task completes its own schedule and no other |
| ScheduleRuns.OutcomeClosesTheSchedule | app/services/hermes_expansion_persistence.py:268-298 | success completes the linked schedule, in every continuation; failure marks it failed for the reason; others are untouched |
| ScheduleRuns.MissedSlotNeverRuns | services/agent_runtime/schedule_policy.py:27-39 | a skipping schedule found too late has no task in any continuation; any other due one gets its own |
| ScheduleRuns.ScheduleLifeCycle | app/services/hermes_expansion_persistence.py:76-298 | completed and cancelled absorb, nothing returns to pending or due, a task once attached stays the only one |
| ScheduleRuns.NoTaskServesTwo | app/services/agent_tasks.py:510-537 | no task serves two schedules |
| ScheduleRuns.FailedPlanningsAreSpaced | app/services/agent_scheduler.py:99-147 | if deferrals land, failed plannings of a schedule that was due at its ticks' moments lie 15 minutes apart, n of them (n-1) times that |
| ScheduleRuns.PlannedAgainTooSoonExactly | app/services/agent_scheduler.py:119-153 | after a failed tick and its deferral a schedule can be planned again within the back-off exactly when it came due only after the tick's moment |
| ScheduleRuns.LateRowIsPlannedAgain | app/services/agent_scheduler.py:234-244 | runs in which a row that came due between moment and due scan is planned again at any later time, from one second on, though the deferral landed |
| ScheduleRuns.LostDeferralSpinsExactly | app/services/agent_scheduler.py:127-153 | without the deferral a schedule can be planned again within the back-off, unless the failed tick's own due scan was later |
| ScheduleRuns.LostDeferralSpins | app/services/agent_scheduler.py:127-153 | without the deferral the next tick plans again at once |
| ScheduleRuns.StepMovesOn | app/services/hermes_expansion_persistence.py:76-298 | every step moves a row only forward and never makes it due earlier |
| Subagents.WalkToRoot | app/services/agent_tasks.py:135-147 | the walk ends and counts the ancestors |
| Subagents.DepthIsTheChain | app/services/agent_tasks.py:135-147 | a task has one chain of ancestors, and its depth is the chain's length |
| Subagents.ChildContext | app/services/agent_tasks.py:436-452 | key by key, a child's context: its own three, what is stamped, what is inherited |
| Subagents.CallSubagent | app/services/agent_tasks.py:125-159 | refuses exactly when the chain would be deeper than the limit |
| Subagents.SpawnSubagentTask | app/services/agent_tasks.py:420-465 | a child under an existing parent, or a refusal |
| Subagents.ChildKeepsItsLinks | app/services/agent_tasks.py:440-452 | inherited keys never overwrite the child's own links; other keys come from the parent |
| Subagents.CalledSubagentIsShallow | app/services/agent_tasks.py:125-159 | a called subagent never has more ancestors than the limit, then or later |
| Subagents.HeritableLinkSkipsALevel | app/services/agent_tasks.py:446-450 | were the link heritable, the child would hang one level too high |
| ColumnNames.ColumnNames | scripts/airtable_mirror.py:98-122 | ends; names are first free candidates, distinct, legal, not system columns, and fit up to 999 fields |
| ColumnNames.FreeName | scripts/airtable_mirror.py:113-117 | the suffix loop ends at the first free candidate |
| ColumnNames.FieldMeans | scripts/airtable_mirror.py:65-112 | a field's base name and column type, spelled out |
| ColumnNames.AppendingRenamesNothing | scripts/airtable_mirror.py:98-122 | appending fields renames no earlier column |
| ColumnNames.FitsExactly | scripts/airtable_mirror.py:98-122 | n fields always get names that fit exactly when n is at most 999 |
| ColumnNames.ThousandthIsTooLong | scripts/airtable_mirror.py:110-120 | the thousandth field of one long name gets 64 characters |

## Left out

- Other owners and tasks, timestamps, `lease_owner` and the stored arguments hash: every statement is scoped to one owner and task, and none of them decides a branch here.
- The recorder's mode without a session factory, and the runtime evidence rows with their `verify` call in the run transaction: a failure there is a rollback, which the protocol has as a step.
- AgentRepository.RunUntilBlocked: one run without interference; heartbeat, lost lease, failing effects and other workers are steps of the protocol.
- Evidence.ReconcileRecords: approvals, gates, references and the revision are not read.
- ScheduleRuns.MaterializeDueSchedules: every planning succeeds; a failing one is the FailTick step of the runs.
- Subagents.CallSubagent: running the child is not modelled.
- Subagents.WalkToRoot: a parent id that is not a string is read as absent, where the source takes its text; the model's links are strings.
- `AgentRuntime` itself: which effects a worker begins is a free choice of the protocol.
- Approvals, gate attestations and the revision fingerprint of the evidence reader, and its two sessions: they wrap the reconciliation modelled here.
- The leftover-host line of `compare`: overlay text, node names and untouched target fields are never rewritten, so it is not bound to be empty.
- Hit counters and the report of the compiler, except the unmatched overlay files and the differences themselves.
- Null lane lists (a null lane in a list is modelled), null parameters, credentials or settings members, null edge indices, and node or edge members beyond those listed: the scripts would carry or fail on them, the model has no such values.
- CutoverBuild.BuildOperations: the order of the connection dictionaries is left open, because the theorems hold for every order; of the report only the unmatched files are modelled.
- CutoverVerify.Compare: the leftover-host line is not modelled, see above.
- CutoverFixpoint.Rehearse: the leftover-host line and the report of webhook ids are not modelled; the second guard and comparison after a real write are the same functions on what the server returns, which is not part of this model.
- Case folding and whitespace outside ASCII: `lower()`, `strip()`, `casefold()` and IGNORECASE treat a few other characters as equal or blank.
- HostRewriteEnds.OldIsGoneExactly: OLD ends in a letter, digit, dot or hyphen, and NEW holds no backslash, which the substitution would read as an escape. Behind an OLD that ends in another character the next one may be replaced as well, and a NEW can then bare an OLD before it, so the condition is another one.
- HostRewriteEnds.PlacesNotGained: the same.
- HostRewritePairs.NoOldIsLeft: the same.
- HostRewritePairs.EachStaysGone: the same.
- HostRewriteGuarantees.PlacesAfter: hosts of word characters, because other hosts can overlap themselves (`a:b:a`), and then losing one place may cost another.
- HostRewriteGuarantees.HitsArePlaces: hosts of word characters, for the same reason.
- HostRewriteGuarantees.OldBecomesNewExactly: both sides of word characters, for the same reason.
- HostRewritePairs.OtherHostsStay: word characters, for the same reason.
- HostRewritePairs.NoOldIsLeftExactly: word characters, and no two OLDs can match at one place. For repeated or related OLDs a later pair may undo what an earlier one regrew (`x.=x` then `x.=z`), so only the sufficient condition of EachStaysGone is stated.
- HostRewritePairs.ReportIsTheCountExactly: the same; a repeated OLD would be counted twice before and replaced once.
- HostRewritePairs.RewriteTwiceExactly: the same.
- `str()` of lists and objects used as ids: they never match a key, and the model gives them a fixed text.
- EvaluatorAgreement.KappaIsBounded: over the reals, because rounding is not the point; `outcome_verdict` and `all_evaluator_pairs` would only add easy members.
- The limiter's timeouts and database errors: they refuse without writing.
- `RecursionError` in the surrogate guard, integers of more than 4300 digits (Python's `int` refuses them, so such a body passes the guard), the middleware's buffering and replay, and bodies that are not plain ASCII, for which the guard always decodes with any decoder.
- The owner scan and the report of the schedule runner: one owner's rows are a slice of their own; malformed stored policies cannot be created.
- Subagents.CalledSubagentIsShallow: assumes no ancestor is deleted, since a walk stops at a missing task; `spawn_subagent` alone has no depth check.
- Inventory access, matching and view metadata: the page loop takes the matching rows.
- `app/services/dispatcher.py`, `scripts/vps_cutover_switch.py`, `_create_workflow` and the compare-and-set queues: single-branch facts, or facts that rest on code that is not part of this model.
