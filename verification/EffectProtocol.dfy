/**
 The task-execution protocol of `run_until_blocked` as a labelled transition system.

 Any number of workers run the same task. Each transaction is one step, so every
 interleaving of transactions, lease expiries and crashes is a sequence of labels.
 Three places where the source issues separate statements stay separate here: the
 ledger read and the claim, the two reads of the orphan scan, and the fence check and
 the insert of an effect intent.
 */
module EffectProtocol {
  import opened Prelude
  import opened JsonValues
  import opened AgentRows

  datatype Claim = Claim(key: string, runId: string, token: string, generation: nat, payload: TaskPayload)

  datatype Outcome = Replayed(result: RunResult) | Finished(result: RunResult) | Refused(error: Error)

  datatype Worker =
    | Idle
    | Looked(key: string, maxSteps: int, existing: Option<RunRef>)
    // The lease is held; the orphan scan has not begun.
    | Holding(claim: Claim, lost: bool)
    // The scan has read the intents but not yet the receipts.
    | Scanned(claim: Claim, lost: bool, seen: set<string>)
    // The scan found an orphan.
    | Refusing(claim: Claim, lost: bool)
    // The agent runtime is executing; pending holds the uncommitted receipts.
    | Executing(claim: Claim, lost: bool, pending: map<string, ReceiptRow>,
                inFlight: Option<string>, fenced: Option<EffectCall>)
    // The run transaction was rolled back; the failure transaction comes next.
    | Failing(claim: Claim, error: Error)
    | Ended(outcome: Outcome)
  {
    predicate HasClaim() {
      Holding? || Scanned? || Refusing? || Executing? || Failing?
    }

    // The heartbeat runs from the claim until the run ends.
    predicate Beating() {
      (Holding? || Scanned? || Refusing? || Executing?) && !lost
    }
  }

  /**
   `issued` and `insertedAt` are history: the generation each lease token was issued
   with, and the task's generation at the moment an intent row was written.
   */
  datatype Sys = Sys(
    db: Db,
    now: int,
    workers: map<nat, Worker>,
    issued: map<string, nat>,
    runIds: set<string>,
    insertedAt: map<string, nat>)
  {
    function At(w: nat): Worker {
      if w in workers then workers[w] else Idle
    }

    function Put(w: nat, worker: Worker): Sys {
      this.(workers := workers[w := worker])
    }
  }

  datatype Label =
    | Tick(elapsed: nat)
    | Look(w: nat, key: string, maxSteps: int)
    | Take(w: nat, token: string, freshRunId: string, leaseSeconds: int)
    | Beat(w: nat, leaseSeconds: int)
    | BeatError(w: nat)
    | ScanIntents(w: nat)
    | ScanReceipts(w: nat)
    | ParkTask(w: nat, payload: TaskPayload)
    | CheckFence(w: nat, call: EffectCall)
    | InsertIntent(w: nat, intentId: string)
    | RecordReceipt(w: nat, status: EffectStatus, providerReceiptId: string, response: map<string, Json>)
    | CommitRun(w: nat, payload: TaskPayload, result: RunResult)
    | RollBack(w: nat, error: Error)
    | CommitFailure(w: nat, text: string)
    | Crash(w: nat)
    | MutateTask(payload: TaskPayload)
    | DeleteTask

  function LookStep(s: Sys, w: nat, key: string, maxSteps: int): Sys {
    match ReadLedger(s.db, key, maxSteps)
    case Proceed(existing) => s.Put(w, Looked(key, maxSteps, existing))
    case Replay(result) => s.Put(w, Ended(Replayed(result)))
    case Refuse(error) => s.Put(w, Ended(Refused(error)))
  }

  function TakeStep(s: Sys, w: nat, token: string, freshRunId: string, leaseSeconds: int): Sys
    requires s.At(w).Looked?
  {
    var me := s.At(w);
    match ClaimLease(s.db, s.now, me.key, me.maxSteps, me.existing, token, freshRunId, leaseSeconds)
    case NotClaimed(error) => s.Put(w, Ended(Refused(error)))
    case Claimed(db, runId, generation, payload) =>
      s.Put(w, Holding(Claim(me.key, runId, token, generation, payload), false))
       .(db := db, issued := s.issued[token := generation], runIds := s.runIds + {freshRunId})
  }

  // A refused renewal is rolled back and marks the lease lost.
  function BeatStep(s: Sys, w: nat, leaseSeconds: int): Sys
    requires s.At(w).Beating()
  {
    var me := s.At(w);
    if s.db.OwnedBy(me.claim.token) && RunHeld(s.db, me.claim)
    then s.(db := Renew(s.db, s.now, me.claim.token, leaseSeconds))
    else s.Put(w, me.(lost := true))
  }

  predicate RunHeld(db: Db, claim: Claim) {
    exists k | k in db.runs :: db.runs[k].HeldBy(claim.runId, claim.token)
  }

  function ScanReceiptsStep(s: Sys, w: nat): Sys
    requires s.At(w).Scanned?
  {
    var me := s.At(w);
    if me.seen <= s.db.receipts.Keys
    then s.Put(w, Executing(me.claim, me.lost, map[], None, None))
    else s.Put(w, Refusing(me.claim, me.lost))
  }

  // A task already done is not written; either way the refusal is raised.
  function ParkStep(s: Sys, w: nat, payload: TaskPayload): Sys
    requires s.At(w).Refusing?
  {
    var claim := s.At(w).claim;
    if claim.payload.Done() then s.Put(w, Failing(claim, AmbiguousEffect))
    else if s.db.OwnedBy(claim.token)
    then s.Put(w, Failing(claim, AmbiguousEffect)).(db := Park(s.db, claim.token, payload))
    else s.Put(w, Failing(claim, LeaseLost))
  }

  function CheckFenceStep(s: Sys, w: nat, call: EffectCall): Sys
    requires s.At(w).Executing?
  {
    var me := s.At(w);
    if s.db.Fenced(me.claim.token, me.claim.generation)
    then s.Put(w, me.(fenced := Some(call)))
    else s.Put(w, Failing(me.claim, FenceRefused))
  }

  // The insert itself is not conditional: only the row's foreign key can refuse it.
  function InsertIntentStep(s: Sys, w: nat, intentId: string): Sys
    requires s.At(w).Executing? && s.At(w).fenced.Some?
  {
    var me := s.At(w);
    if s.db.task.None? then s.Put(w, Failing(me.claim, UnknownTask))
    else
      var row := IntentRow(me.fenced.value, me.claim.key, me.claim.generation, me.claim.token);
      s.Put(w, me.(inFlight := Some(intentId), fenced := None))
       .(db := s.db.(intents := s.db.intents[intentId := row]),
         insertedAt := s.insertedAt[intentId := s.db.task.value.generation])
  }

  function RecordReceiptStep(s: Sys, w: nat, status: EffectStatus, providerReceiptId: string,
                             response: map<string, Json>): Sys
    requires s.At(w).Executing? && s.At(w).inFlight.Some?
  {
    var me := s.At(w);
    var id := me.inFlight.value;
    if !s.db.Fenced(me.claim.token, me.claim.generation) then s.Put(w, Failing(me.claim, FenceRefused))
    else if id !in s.db.intents then s.Put(w, Failing(me.claim, UnknownIntent))
    else if id in s.db.receipts then s.Put(w, Failing(me.claim, DuplicateReceipt))
    else
      var row := ReceiptRow(status, providerReceiptId, Persistable(response), me.claim.generation, me.claim.token);
      s.Put(w, me.(pending := me.pending[id := row], inFlight := None))
  }

  function CommitRunStep(s: Sys, w: nat, payload: TaskPayload, result: RunResult): Sys
    requires s.At(w).Executing?
  {
    var me := s.At(w);
    if !me.lost && s.db.OwnedBy(me.claim.token) && RunHeld(s.db, me.claim)
    then s.Put(w, Ended(Finished(result)))
          .(db := Complete(s.db, me.claim.runId, me.claim.token, payload, result, me.pending))
    else s.Put(w, Failing(me.claim, LeaseLost))
  }

  function FailureStep(s: Sys, w: nat, text: string): Sys
    requires s.At(w).Failing?
  {
    var me := s.At(w);
    s.Put(w, Ended(Refused(me.error))).(db := Fail(s.db, me.claim.runId, me.claim.token, text))
  }

  // Generated tokens and ids are nonempty and never repeat.
  predicate Fresh(name: string, used: set<string>) {
    name != "" && name !in used
  }

  predicate Enabled(s: Sys, l: Label) {
    match l
    case Tick(_) => true
    case Look(w, _, _) => s.At(w).Idle? || s.At(w).Ended?
    case Take(w, token, freshRunId, _) => s.At(w).Looked? && Fresh(token, s.issued.Keys) && Fresh(freshRunId, s.runIds)
    case Beat(w, _) => s.At(w).Beating()
    case BeatError(w) => s.At(w).Beating()
    case ScanIntents(w) => s.At(w).Holding?
    case ScanReceipts(w) => s.At(w).Scanned?
    case ParkTask(w, _) => s.At(w).Refusing?
    // The runtime is sequential: one effect at a time, each with its receipt before the next.
    case CheckFence(w, _) => s.At(w).Executing? && s.At(w).fenced.None? && s.At(w).inFlight.None?
    case InsertIntent(w, id) => s.At(w).Executing? && s.At(w).fenced.Some? && Fresh(id, s.insertedAt.Keys)
    case RecordReceipt(w, _, _, _) => s.At(w).Executing? && s.At(w).inFlight.Some?
    case CommitRun(w, _, _) => s.At(w).Executing? && s.At(w).fenced.None? && s.At(w).inFlight.None?
    case RollBack(w, _) => s.At(w).HasClaim() && !s.At(w).Failing?
    case CommitFailure(w, _) => s.At(w).Failing?
    case Crash(w) => true
    case MutateTask(_) => s.db.task.Some? && !s.db.task.value.LiveLease(s.now)
    case DeleteTask => s.db.task.Some? && !s.db.task.value.LiveLease(s.now)
  }

  function Do(s: Sys, l: Label): Sys
    requires Enabled(s, l)
  {
    match l
    case Tick(elapsed) => s.(now := s.now + elapsed)
    case Look(w, key, maxSteps) => LookStep(s, w, key, maxSteps)
    case Take(w, token, freshRunId, leaseSeconds) => TakeStep(s, w, token, freshRunId, leaseSeconds)
    case Beat(w, leaseSeconds) => BeatStep(s, w, leaseSeconds)
    case BeatError(w) => s.Put(w, s.At(w).(lost := true))
    case ScanIntents(w) => s.Put(w, Scanned(s.At(w).claim, s.At(w).lost, s.db.intents.Keys))
    case ScanReceipts(w) => ScanReceiptsStep(s, w)
    case ParkTask(w, payload) => ParkStep(s, w, payload)
    case CheckFence(w, call) => CheckFenceStep(s, w, call)
    case InsertIntent(w, id) => InsertIntentStep(s, w, id)
    case RecordReceipt(w, status, provider, response) => RecordReceiptStep(s, w, status, provider, response)
    case CommitRun(w, payload, result) => CommitRunStep(s, w, payload, result)
    case RollBack(w, error) => s.Put(w, Failing(s.At(w).claim, error))
    case CommitFailure(w, text) => FailureStep(s, w, text)
    case Crash(w) => s.Put(w, Idle)
    case MutateTask(payload) => s.(db := Mutate(s.db, payload))
    case DeleteTask => s.(db := Deleted())
  }

  /** A run: labels that are enabled one after the other. */
  ghost predicate Runs(s: Sys, labels: seq<Label>)
    decreases |labels|
  {
    labels == [] || (Enabled(s, labels[0]) && Runs(Do(s, labels[0]), labels[1..]))
  }

  ghost function After(s: Sys, labels: seq<Label>): Sys
    requires Runs(s, labels)
    decreases |labels|
  {
    if labels == [] then s else After(Do(s, labels[0]), labels[1..])
  }

  /** A freshly created task: no lease, no runs, no effects, no workers. */
  ghost predicate Init(s: Sys) {
    && s.db.task.Some?
    && s.db.task.value.leaseToken.None?
    && s.db.runs == map[] && s.db.intents == map[] && s.db.receipts == map[]
    && s.workers == map[] && s.issued == map[] && s.insertedAt == map[]
  }
}
