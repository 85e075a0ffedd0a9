/**
 The rows of one owner's task, and what each database transaction of
 `app/services/agent_runtime_persistence.py` and
 `app/services/agent_effect_receipts.py` does to them.

 Every statement of those files carries the owner and the task in its WHERE
 clause, so the rows of one (owner, task) pair are an independent slice of the
 database: a `Db` is that slice. `runs` is keyed by the idempotency key and
 `receipts` by the intent id, which are the unique constraints of the two tables.
 */
module AgentRows {
  import opened Prelude
  import opened JsonValues

  datatype TaskState = Planned | Running | WaitingApproval | Completed | Failed | Cancelled

  datatype TaskPayload = TaskPayload(state: TaskState, failureReason: string, body: Json) {
    predicate Done() {
      state in {Completed, Failed, Cancelled}
    }
  }

  datatype TaskRow = TaskRow(
    leaseToken: Option<string>,
    leaseExpires: Option<int>,
    generation: nat,
    payload: TaskPayload) {

    predicate OwnedBy(token: string) {
      leaseToken == Some(token)
    }

    // get_owned_for_mutation and delete_owned refuse only a token with a future expiry.
    predicate LiveLease(now: int) {
      leaseToken.Some? && leaseExpires.Some? && leaseExpires.value > now
    }
  }

  datatype RunState = RunRunning | RunCompleted | RunFailed

  type RunResult = map<string, Json>

  datatype RunRow = RunRow(
    id: string,
    maxSteps: int,
    state: RunState,
    leaseToken: Option<string>,
    attempt: nat,
    result: Option<RunResult>,
    error: Option<string>) {

    predicate HeldBy(runId: string, token: string) {
      id == runId && leaseToken == Some(token) && state.RunRunning?
    }
  }

  // The arguments hash is injective in this model: the row keeps the arguments themselves.
  datatype EffectCall = EffectCall(stepId: string, toolName: string, arguments: Json)

  datatype IntentRow = IntentRow(call: EffectCall, key: string, generation: nat, leaseToken: string)

  datatype EffectStatus = Succeeded | EffectFailed | Ambiguous

  datatype ReceiptRow = ReceiptRow(
    status: EffectStatus,
    providerReceiptId: string,
    rawResponse: map<string, Json>,
    generation: nat,
    leaseToken: string)

  datatype Db = Db(
    task: Option<TaskRow>,
    runs: map<string, RunRow>,
    intents: map<string, IntentRow>,
    receipts: map<string, ReceiptRow>) {

    predicate OwnedBy(token: string) {
      task.Some? && task.value.OwnedBy(token)
    }

    // The fence of record_intent and record_receipt: token and generation, not expiry.
    predicate Fenced(token: string, generation: nat) {
      OwnedBy(token) && task.value.generation == generation
    }
  }

  const APPROVAL_TOKEN := "approval_token"

  /** One-time approval credentials never reach a stored result or response. */
  function Persistable(result: map<string, Json>): (safe: map<string, Json>)
    ensures safe.Keys == result.Keys
    ensures forall k :: k in result && k != APPROVAL_TOKEN ==> safe[k] == result[k]
    ensures APPROVAL_TOKEN in safe ==> safe[APPROVAL_TOKEN] == JNull
  {
    if APPROVAL_TOKEN in result then result[APPROVAL_TOKEN := JNull] else result
  }

  predicate ValidRequest(key: string, maxSteps: int) {
    0 < |key| <= 200 && 1 <= maxSteps <= 100
  }

  function LeaseEnd(now: int, leaseSeconds: int): int {
    now + if leaseSeconds < 5 then 5 else leaseSeconds
  }

  datatype Error =
    | InvalidRequest
    | RunConflict
    | PreviouslyFailed
    | UnknownTask
    | Busy
    | DuplicateRunKey
    | LeaseLost
    | AmbiguousEffect
    | FenceRefused
    | UnknownIntent
    | DuplicateReceipt

  // What acquire_execution remembers of an existing run row between its read and its writes.
  datatype RunRef = RunRef(id: string, attempt: nat)

  datatype LedgerReply =
    | Proceed(existing: Option<RunRef>)
    | Replay(result: RunResult)
    | Refuse(error: Error)

  /** The ledger read that opens acquire_execution. */
  function ReadLedger(db: Db, key: string, maxSteps: int): LedgerReply {
    if !ValidRequest(key, maxSteps) then Refuse(InvalidRequest)
    else if key !in db.runs then Proceed(None)
    else
      var run := db.runs[key];
      if run.maxSteps != maxSteps then Refuse(RunConflict)
      else match run.state
        case RunCompleted => if run.result.None? then Refuse(RunConflict) else Replay(run.result.value)
        case RunFailed => Refuse(PreviouslyFailed)
        case RunRunning => Proceed(Some(RunRef(run.id, run.attempt)))
  }

  const SUPERSEDED := "superseded after execution lease expired"

  function Supersede(run: RunRow, existing: Option<RunRef>): RunRow {
    if run.state.RunRunning? && (existing.None? || run.id != existing.value.id)
    then run.(state := RunFailed, result := None, error := Some(SUPERSEDED), leaseToken := None)
    else run
  }

  // The ORM writes back only the attributes it changed: token and attempt, never the state.
  function Reclaim(run: RunRow, existing: Option<RunRef>, token: string): RunRow {
    if existing.Some? && run.id == existing.value.id
    then run.(leaseToken := Some(token), attempt := existing.value.attempt + 1)
    else run
  }

  /** Superseding and then reclaiming is one pass over the rows. */
  lemma TwoPasses(runs: map<string, RunRow>, existing: Option<RunRef>, token: string,
                  superseded: map<string, RunRow>, kept: map<string, RunRow>)
    requires superseded == map k | k in runs :: Supersede(runs[k], existing)
    requires kept == if existing.Some? then map k | k in superseded :: Reclaim(superseded[k], existing, token) else superseded
    ensures kept == map k | k in runs :: Reclaim(Supersede(runs[k], existing), existing, token)
  {
    hide Supersede;
  }

  datatype ClaimReply =
    | Claimed(db: Db, runId: string, generation: nat, payload: TaskPayload)
    | NotClaimed(error: Error)

  predicate SameEffects(a: Db, b: Db) {
    a.intents == b.intents && a.receipts == b.receipts
  }

  predicate Claimable(task: TaskRow, now: int) {
    task.leaseToken.None? || task.leaseExpires.None? || task.leaseExpires.value <= now
  }

  /** The writes of acquire_execution: fence the task, supersede stale runs, enter this run. */
  function ClaimLease(db: Db, now: int, key: string, maxSteps: int, existing: Option<RunRef>,
                      token: string, freshRunId: string, leaseSeconds: int): (reply: ClaimReply)
    ensures reply.Claimed? ==>
      db.task.Some? && SameEffects(db, reply.db)
      && reply.db.OwnedBy(token) && reply.generation == reply.db.task.value.generation == db.task.value.generation + 1
  {
    if db.task.None? then NotClaimed(UnknownTask)
    else if !Claimable(db.task.value, now) then NotClaimed(Busy)
    else if existing.None? && key in db.runs then NotClaimed(DuplicateRunKey)
    else
      var task := db.task.value.(leaseToken := Some(token),
                                 leaseExpires := Some(LeaseEnd(now, leaseSeconds)),
                                 generation := db.task.value.generation + 1);
      var kept := map k | k in db.runs :: Reclaim(Supersede(db.runs[k], existing), existing, token);
      var runs := if existing.Some? then kept
                  else kept[key := RunRow(freshRunId, maxSteps, RunRunning, Some(token), 1, None, None)];
      Claimed(db.(task := Some(task), runs := runs),
              if existing.Some? then existing.value.id else freshRunId,
              task.generation, task.payload)
  }

  ghost predicate UniqueRunIds(runs: map<string, RunRow>) {
    forall k, m :: k in runs && m in runs && runs[k].id == runs[m].id ==> k == m
  }

  /**
   Row by row, what a granted claim leaves of the run ledger: the key's row is entered, or retaken
   for one more attempt; every other running row is failed as superseded; closed rows stay.
   */
  ghost predicate Entered(before: map<string, RunRow>, after: map<string, RunRow>, key: string, maxSteps: int,
                          token: string, freshRunId: string, runId: string, attempt: nat)
  {
    && after.Keys == before.Keys + {key}
    && (if key in before
        then runId == before[key].id
             && after[key] == before[key].(leaseToken := Some(token), attempt := attempt)
        else runId == freshRunId
             && after[key] == RunRow(freshRunId, maxSteps, RunRunning, Some(token), attempt, None, None))
    && forall k :: k in before && k != key ==>
         after[k] == if before[k].state != RunRunning then before[k]
                     else RunRow(before[k].id, before[k].maxSteps, RunFailed, None, before[k].attempt, None, Some(SUPERSEDED))
  }

  /** Row by row, what a successful claim does to the run ledger. */
  lemma ClaimedRuns(db: Db, now: int, key: string, maxSteps: int, existing: Option<RunRef>,
                    token: string, freshRunId: string, leaseSeconds: int)
    requires ClaimLease(db, now, key, maxSteps, existing, token, freshRunId, leaseSeconds).Claimed?
    requires existing.Some? ==> key in db.runs && db.runs[key].id == existing.value.id
    requires existing.None? ==> key !in db.runs
    requires UniqueRunIds(db.runs)
    ensures var reply := ClaimLease(db, now, key, maxSteps, existing, token, freshRunId, leaseSeconds);
            Entered(db.runs, reply.db.runs, key, maxSteps, token, freshRunId, reply.runId,
                    if existing.Some? then existing.value.attempt + 1 else 1)
  {
    hide LeaseEnd, Claimable;
  }

  /** When the writes of acquire_execution are refused and why, and what they leave when they are not. */
  lemma ClaimAnswers(db: Db, now: int, key: string, maxSteps: int, existing: Option<RunRef>,
                     token: string, freshRunId: string, leaseSeconds: int)
    ensures var reply := ClaimLease(db, now, key, maxSteps, existing, token, freshRunId, leaseSeconds);
      if db.task.None? then reply == NotClaimed(UnknownTask)
      else if db.task.value.leaseToken.Some? && db.task.value.leaseExpires.Some? && now < db.task.value.leaseExpires.value
      then reply == NotClaimed(Busy)
      else if existing.None? && key in db.runs then reply == NotClaimed(DuplicateRunKey)
      else
        && reply.Claimed?
        && reply.generation == db.task.value.generation + 1 && reply.payload == db.task.value.payload
        && reply.db.task == Some(TaskRow(Some(token), Some(now + if leaseSeconds < 5 then 5 else leaseSeconds),
                                         reply.generation, reply.payload))
        && reply.db.intents == db.intents && reply.db.receipts == db.receipts
        && (UniqueRunIds(db.runs) && (existing.Some? ==> key in db.runs && db.runs[key].id == existing.value.id) ==>
              Entered(db.runs, reply.db.runs, key, maxSteps, token, freshRunId, reply.runId,
                      if existing.Some? then existing.value.attempt + 1 else 1))
  {
    var reply := ClaimLease(db, now, key, maxSteps, existing, token, freshRunId, leaseSeconds);
    if reply.Claimed? && UniqueRunIds(db.runs) && (existing.Some? ==> key in db.runs && db.runs[key].id == existing.value.id) {
      ClaimedRuns(db, now, key, maxSteps, existing, token, freshRunId, leaseSeconds);
    }
    hide Supersede, Reclaim, Entered, UniqueRunIds;
  }

  predicate SameGeneration(a: Db, b: Db) {
    (a.task.Some? <==> b.task.Some?) && (a.task.Some? ==> a.task.value.generation == b.task.value.generation)
  }

  /** The rows and the verdict renew_execution leaves; the caller rolls back on a False. */
  function Renew(db: Db, now: int, token: string, leaseSeconds: int): (after: Db)
    ensures SameEffects(db, after) && SameGeneration(db, after)
  {
    if !db.OwnedBy(token) then db
    else db.(task := Some(db.task.value.(leaseExpires := Some(LeaseEnd(now, leaseSeconds)))))
  }

  function Park(db: Db, token: string, payload: TaskPayload): (after: Db)
    ensures SameEffects(db, after) && SameGeneration(db, after)
  {
    if !db.OwnedBy(token) then db
    else db.(task := Some(db.task.value.(payload := payload)))
  }

  function CloseRun(run: RunRow, runId: string, token: string, state: RunState,
                    result: Option<RunResult>, error: Option<string>): RunRow
  {
    if run.HeldBy(runId, token)
    then run.(state := state, result := result, error := error, leaseToken := None)
    else run
  }

  // UPDATE ... WHERE id AND lease_token AND state = 'running'.
  function CloseRuns(runs: map<string, RunRow>, runId: string, token: string, state: RunState,
                     result: Option<RunResult>, error: Option<string>): map<string, RunRow>
  {
    map k | k in runs :: CloseRun(runs[k], runId, token, state, result, error)
  }

  /** The running row of that id and token is closed as told and gives up its token; every other row stays. */
  ghost predicate OneRunClosed(before: map<string, RunRow>, after: map<string, RunRow>, runId: string, token: string,
                               state: RunState, result: Option<RunResult>, error: Option<string>)
  {
    && after.Keys == before.Keys
    && forall k :: k in before ==>
         after[k] == if before[k].id == runId && before[k].leaseToken == Some(token) && before[k].state == RunRunning
                     then RunRow(before[k].id, before[k].maxSteps, state, None, before[k].attempt, result, error)
                     else before[k]
  }

  lemma ClosedRows(runs: map<string, RunRow>, runId: string, token: string, state: RunState,
                   result: Option<RunResult>, error: Option<string>)
    ensures OneRunClosed(runs, CloseRuns(runs, runId, token, state, result, error), runId, token, state, result, error)
  {
  }

  function Release(task: TaskRow): TaskRow {
    task.(leaseToken := None, leaseExpires := None)
  }

  /** complete_execution and the commit behind it, which also lands this run's receipts. */
  function Complete(db: Db, runId: string, token: string, payload: TaskPayload, result: RunResult,
                    pending: map<string, ReceiptRow>): (after: Db)
    requires db.OwnedBy(token)
    ensures after.intents == db.intents && SameGeneration(db, after)
  {
    Db(Some(Release(db.task.value).(payload := payload)),
       CloseRuns(db.runs, runId, token, RunCompleted, Some(Persistable(result)), None),
       db.intents,
       db.receipts + pending)
  }

  /** What is kept of an error: its own prefix, whole where it fits, and never nothing. */
  function FailureText(error: string): (text: string)
    ensures 0 < |text| <= 8000
    ensures error != "" ==> text <= error && (text == error || |text| == 8000)
    ensures error == "" ==> text == "agent task run failed"
  {
    if error == "" then "agent task run failed" else if |error| > 8000 then error[..8000] else error
  }

  /** fail_execution: closes the run and releases the lease, each only where still owned. */
  function Fail(db: Db, runId: string, token: string, error: string): (after: Db)
    ensures SameEffects(db, after) && SameGeneration(db, after)
  {
    db.(task := if db.OwnedBy(token) then Some(Release(db.task.value)) else db.task,
        runs := CloseRuns(db.runs, runId, token, RunFailed, None, Some(FailureText(error))))
  }

  /** get_owned_for_mutation clears a dead lease before the caller saves a new payload. */
  function Mutate(db: Db, payload: TaskPayload): (after: Db)
    requires db.task.Some?
    ensures SameEffects(db, after) && SameGeneration(db, after)
  {
    db.(task := Some(if db.task.value.leaseToken.Some?
                     then Release(db.task.value).(payload := payload)
                     else db.task.value.(payload := payload)))
  }

  /** Deleting a task row cascades to its runs, intents and receipts. */
  function Deleted(): Db {
    Db(None, map[], map[], map[])
  }

  function OrphanReason(): string {
    "ambiguous_external_effect"
  }

  /** What a refusal on an orphan says, and what its run row keeps. */
  function OrphanRefusal(intentId: string): string {
    OrphanReason() + ": An external effect was intended but no durable receipt was recorded. "
    + "Automatic retry is refused; human inspection is required. (intent_id=" + intentId + ")"
  }

  ghost predicate Orphan(db: Db, id: string) {
    id in db.intents && id !in db.receipts
  }
}
