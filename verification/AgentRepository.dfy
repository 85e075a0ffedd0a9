/**
 The repository and the effect recorder in their own form: objects whose methods update
 stored rows. Each method is one transaction; its contract ties the rows it leaves to the
 transaction functions that the protocol's steps are made of.
 */
module AgentRepository {
  import opened Prelude
  import opened JsonValues
  import opened AgentRows

  datatype Acquired =
    | Granted(runId: string, generation: nat, payload: TaskPayload)
    | Answered(result: RunResult)
    | Rejected(error: Error)

  class AgentTaskRepository {
    var task: Option<TaskRow>
    var runs: map<string, RunRow>
    var intents: map<string, IntentRow>
    var receipts: map<string, ReceiptRow>

    ghost function Rows(): Db
      reads this
    {
      Db(task, runs, intents, receipts)
    }

    constructor (payload: TaskPayload)
      ensures Rows() == Db(Some(TaskRow(None, None, 0, payload)), map[], map[], map[])
    {
      task := Some(TaskRow(None, None, 0, payload));
      runs, intents, receipts := map[], map[], map[];
    }

    /**
     Acquire one fenced lease, replay a completed request, or refuse without changing a row. The first
     clause ties the call to the protocol's steps; the others give by the rows' own fields the
     answer and what a granted claim leaves behind.
     */
    method AcquireExecution(now: int, key: string, maxSteps: int, token: string, freshRunId: string,
                            leaseSeconds: int)
      returns (reply: Acquired)
      modifies this
      ensures match ReadLedger(old(Rows()), key, maxSteps)
        case Refuse(error) => reply == Rejected(error) && Rows() == old(Rows())
        case Replay(result) => reply == Answered(result) && Rows() == old(Rows())
        case Proceed(existing) =>
          match ClaimLease(old(Rows()), now, key, maxSteps, existing, token, freshRunId, leaseSeconds)
          case NotClaimed(error) => reply == Rejected(error) && Rows() == old(Rows())
          case Claimed(db, runId, generation, payload) =>
            reply == Granted(runId, generation, payload) && Rows() == db
      ensures
        if !(0 < |key| <= 200 && 1 <= maxSteps <= 100) then reply == Rejected(InvalidRequest)
        else if key in old(runs) && old(runs)[key].maxSteps != maxSteps then reply == Rejected(RunConflict)
        else if key in old(runs) && old(runs)[key].state.RunFailed? then reply == Rejected(PreviouslyFailed)
        else if key in old(runs) && old(runs)[key].state.RunCompleted? then
          if old(runs)[key].result.Some? then reply == Answered(old(runs)[key].result.value) else reply == Rejected(RunConflict)
        else if old(task).None? then reply == Rejected(UnknownTask)
        else if old(task).value.leaseToken.Some? && old(task).value.leaseExpires.Some?
                && now < old(task).value.leaseExpires.value then reply == Rejected(Busy)
        else reply.Granted?
      ensures !reply.Granted? ==> Rows() == old(Rows())
      ensures reply.Granted? ==>
        && reply.generation == old(task).value.generation + 1 && reply.payload == old(task).value.payload
        && task == Some(TaskRow(Some(token), Some(now + if leaseSeconds < 5 then 5 else leaseSeconds),
                                reply.generation, reply.payload))
        && intents == old(intents) && receipts == old(receipts)
      ensures reply.Granted? && UniqueRunIds(old(runs)) ==>
        Entered(old(runs), runs, key, maxSteps, token, freshRunId, reply.runId,
                if key in old(runs) then old(runs)[key].attempt + 1 else 1)
    {
      hide ClaimLease, Entered;
      if |key| == 0 || |key| > 200 || maxSteps < 1 || maxSteps > 100 { return Rejected(InvalidRequest); }
      var existing: Option<RunRef> := None;
      if key in runs {
        var run := runs[key];
        if run.maxSteps != maxSteps { return Rejected(RunConflict); }
        if run.state.RunCompleted? {
          if run.result.None? { return Rejected(RunConflict); }
          return Answered(run.result.value);
        }
        if run.state.RunFailed? { return Rejected(PreviouslyFailed); }
        existing := Some(RunRef(run.id, run.attempt));
      }
      ClaimAnswers(Rows(), now, key, maxSteps, existing, token, freshRunId, leaseSeconds);
      reply := EnterRun(now, key, maxSteps, existing, token, freshRunId, leaseSeconds);
    }

    /** The writes behind the ledger read: fence the task, supersede stale runs, enter this run. */
    method EnterRun(now: int, key: string, maxSteps: int, existing: Option<RunRef>, token: string,
                    freshRunId: string, leaseSeconds: int)
      returns (reply: Acquired)
      requires existing.None? ==> key !in runs
      modifies this
      ensures match ClaimLease(old(Rows()), now, key, maxSteps, existing, token, freshRunId, leaseSeconds)
        case NotClaimed(error) => reply == Rejected(error) && Rows() == old(Rows())
        case Claimed(db, runId, generation, payload) =>
          reply == Granted(runId, generation, payload) && Rows() == db
    {
      hide Supersede, Reclaim, LeaseEnd;
      ghost var before := runs;
      if task.None? { return Rejected(UnknownTask); }
      var row := task.value;
      if row.leaseToken.Some? && row.leaseExpires.Some? && row.leaseExpires.value > now { return Rejected(Busy); }
      row := row.(leaseToken := Some(token), leaseExpires := Some(LeaseEnd(now, leaseSeconds)),
                  generation := row.generation + 1);
      task := Some(row);
      runs := map k | k in runs :: Supersede(runs[k], existing);
      var runId := freshRunId;
      ghost var superseded := runs;
      if existing.Some? {
        runId := existing.value.id;
        runs := map k | k in runs :: Reclaim(runs[k], existing, token);
        TwoPasses(before, existing, token, superseded, runs);
      } else {
        TwoPasses(before, existing, token, superseded, runs);
        runs := runs[key := RunRow(freshRunId, maxSteps, RunRunning, Some(token), 1, None, None)];
      }
      reply := Granted(runId, row.generation, row.payload);
    }

    /** Only the owner's lease moves; false means the caller rolls back: lease or run row is lost. */
    method RenewExecution(now: int, runId: string, token: string, leaseSeconds: int) returns (renewed: bool)
      modifies this`task
      ensures Rows() == AgentRows.Renew(old(Rows()), now, token, leaseSeconds)
      ensures task == if old(task).Some? && old(task).value.leaseToken == Some(token)
        then Some(old(task).value.(leaseExpires := Some(now + if leaseSeconds < 5 then 5 else leaseSeconds)))
        else old(task)
      ensures renewed <==>
        && old(task).Some? && old(task).value.leaseToken == Some(token)
        && exists k | k in runs :: runs[k].id == runId && runs[k].leaseToken == Some(token) && runs[k].state == RunRunning
    {
      if task.None? || task.value.leaseToken != Some(token) { return false; }
      task := Some(task.value.(leaseExpires := Some(LeaseEnd(now, leaseSeconds))));
      renewed := exists k | k in runs :: runs[k].HeldBy(runId, token);
    }

    method ParkIfLeased(token: string, payload: TaskPayload) returns (parked: bool)
      modifies this`task
      ensures Rows() == Park(old(Rows()), token, payload)
      ensures parked <==> old(task).Some? && old(task).value.leaseToken == Some(token)
      ensures task == if parked then Some(old(task).value.(payload := payload)) else old(task)
    {
      parked := task.Some? && task.value.leaseToken == Some(token);
      if parked { task := Some(task.value.(payload := payload)); }
    }

    /** Result, released lease and receipts land together; a lost lease lands nothing. */
    method CompleteExecution(runId: string, token: string, payload: TaskPayload, result: RunResult,
                             pending: map<string, ReceiptRow>)
      returns (committed: bool)
      modifies this
      ensures committed <==>
        && old(task).Some? && old(task).value.leaseToken == Some(token)
        && exists k | k in old(runs) ::
             old(runs)[k].id == runId && old(runs)[k].leaseToken == Some(token) && old(runs)[k].state == RunRunning
      ensures Rows() == if committed then Complete(old(Rows()), runId, token, payload, result, pending)
                        else old(Rows())
      ensures committed ==>
        && task == Some(TaskRow(None, None, old(task).value.generation, payload))
        && intents == old(intents)
        && receipts.Keys == old(receipts).Keys + pending.Keys
        && (forall i :: i in receipts ==> receipts[i] == if i in pending then pending[i] else old(receipts)[i])
        && OneRunClosed(old(runs), runs, runId, token, RunCompleted, Some(Persistable(result)), None)
    {
      if task.None? || task.value.leaseToken != Some(token) { return false; }
      if !exists k | k in runs :: runs[k].HeldBy(runId, token) { return false; }
      task := Some(task.value.(payload := payload, leaseToken := None, leaseExpires := None));
      ClosedRows(runs, runId, token, RunCompleted, Some(Persistable(result)), None);
      runs := CloseRuns(runs, runId, token, RunCompleted, Some(Persistable(result)), None);
      receipts := receipts + pending;
      committed := true;
    }

    method FailExecution(runId: string, token: string, error: string) returns (recorded: bool)
      modifies this`task, this`runs
      ensures Rows() == Fail(old(Rows()), runId, token, error)
      ensures task == if old(task).Some? && old(task).value.leaseToken == Some(token)
        then Some(TaskRow(None, None, old(task).value.generation, old(task).value.payload)) else old(task)
      ensures OneRunClosed(old(runs), runs, runId, token, RunFailed, None, Some(FailureText(error)))
      ensures recorded <==>
        && old(task).Some? && old(task).value.leaseToken == Some(token)
        && exists k | k in old(runs) ::
             old(runs)[k].id == runId && old(runs)[k].leaseToken == Some(token) && old(runs)[k].state == RunRunning
    {
      ClosedRows(runs, runId, token, RunFailed, None, Some(FailureText(error)));
      recorded := exists k | k in runs :: runs[k].HeldBy(runId, token);
      runs := CloseRuns(runs, runId, token, RunFailed, None, Some(FailureText(error)));
      if task.Some? && task.value.leaseToken == Some(token) {
        task := Some(task.value.(leaseToken := None, leaseExpires := None));
      } else {
        recorded := false;
      }
    }

    /** Editing or deleting a task is refused while a live execution owns it. */
    method SaveForMutation(now: int, payload: TaskPayload) returns (error: Option<Error>)
      modifies this`task
      ensures
        if old(task).None? then error == Some(UnknownTask)
        else if old(task).value.leaseToken.Some? && old(task).value.leaseExpires.Some?
                && now < old(task).value.leaseExpires.value then error == Some(Busy)
        else error.None?
      ensures error.Some? ==> task == old(task)
      ensures error.None? ==>
        && Rows() == Mutate(old(Rows()), payload)
        && task.Some? && task.value.payload == payload && task.value.generation == old(task).value.generation
        && task.value.leaseToken.None?
        && task.value.leaseExpires == if old(task).value.leaseToken.Some? then None else old(task).value.leaseExpires
    {
      if task.None? { return Some(UnknownTask); }
      if task.value.LiveLease(now) { return Some(Busy); }
      if task.value.leaseToken.Some? {
        task := Some(task.value.(leaseToken := None, leaseExpires := None));
      }
      task := Some(task.value.(payload := payload));
      error := None;
    }

    method DeleteOwned(now: int) returns (deleted: bool, busy: bool)
      modifies this
      ensures busy <==> old(task).Some? && old(task).value.leaseToken.Some? && old(task).value.leaseExpires.Some?
                        && now < old(task).value.leaseExpires.value
      ensures deleted <==> old(task).Some? && !busy
      ensures Rows() == if deleted then Deleted() else old(Rows())
      ensures deleted ==> task.None? && runs == map[] && intents == map[] && receipts == map[]
    {
      deleted, busy := false, false;
      if task.None? { return; }
      if task.value.LiveLease(now) { busy := true; return; }
      task := None;
      runs, intents, receipts := map[], map[], map[];
      deleted := true;
    }

    /** An intent is written only under the live token and generation. */
    method RecordIntent(intentId: string, call: EffectCall, key: string, token: string, generation: nat)
      returns (recorded: bool)
      requires intentId !in intents
      modifies this`intents
      ensures recorded <==>
        task.Some? && task.value.leaseToken == Some(token) && task.value.generation == generation
      ensures intents == if recorded then old(intents)[intentId := IntentRow(call, key, generation, token)]
                         else old(intents)
    {
      recorded := task.Some? && task.value.leaseToken == Some(token) && task.value.generation == generation;
      if recorded { intents := intents[intentId := IntentRow(call, key, generation, token)]; }
    }

    /** Every intent without a receipt, each once. */
    method FindOrphanIntents() returns (orphans: seq<string>)
      ensures forall id :: id in orphans <==> id in intents && id !in receipts
      ensures forall i, j | 0 <= i < j < |orphans| :: orphans[i] != orphans[j]
    {
      orphans := [];
      var received := receipts.Keys;
      var rows := intents.Keys;
      while rows != {}
        invariant rows <= intents.Keys
        invariant forall id :: id in orphans <==> Orphan(Rows(), id) && id !in rows
        invariant forall i, j | 0 <= i < j < |orphans| :: orphans[i] != orphans[j]
        decreases rows
      {
        var id :| id in rows;
        rows := rows - {id};
        if id !in received { orphans := orphans + [id]; }
      }
    }
  }

  /** Bound to one claim: intents are stored at once, receipts wait for the run to commit. */
  class LeasedEffectRecorder {
    const db: AgentTaskRepository
    const token: string
    const generation: nat
    var pending: map<string, ReceiptRow>

    constructor (db: AgentTaskRepository, token: string, generation: nat)
      ensures this.db == db && this.token == token && this.generation == generation && pending == map[]
    {
      this.db, this.token, this.generation, pending := db, token, generation, map[];
    }

    method BeginEffect(intentId: string, call: EffectCall, key: string) returns (error: Option<Error>)
      requires intentId !in db.intents
      modifies db`intents
      ensures error.None? <==>
        db.task.Some? && db.task.value.leaseToken == Some(token) && db.task.value.generation == generation
      ensures error.None? ==> db.intents == old(db.intents)[intentId := IntentRow(call, key, generation, token)]
      ensures error.Some? ==> error.value == FenceRefused && db.intents == old(db.intents)
    {
      var recorded := db.RecordIntent(intentId, call, key, token, generation);
      error := if recorded then None else Some(FenceRefused);
    }

    /** The receipt carries this claim's token and generation, and no approval credential. */
    method CompleteEffect(intentId: string, status: EffectStatus, providerReceiptId: string,
                          response: map<string, Json>)
      returns (error: Option<Error>)
      modifies this`pending
      ensures error == if db.task.None? || db.task.value.leaseToken != Some(token) || db.task.value.generation != generation
                       then Some(FenceRefused)
                       else if intentId !in db.intents then Some(UnknownIntent)
                       else if intentId in db.receipts || intentId in old(pending) then Some(DuplicateReceipt)
                       else None
      ensures error.Some? ==> pending == old(pending)
      ensures error.None? ==> pending == old(pending)[intentId :=
        ReceiptRow(status, providerReceiptId, Persistable(response), generation, token)]
    {
      if db.task.None? || db.task.value.leaseToken != Some(token) || db.task.value.generation != generation {
        return Some(FenceRefused);
      }
      if intentId !in db.intents { return Some(UnknownIntent); }
      if intentId in db.receipts || intentId in pending { return Some(DuplicateReceipt); }
      pending := pending[intentId :=
        ReceiptRow(status, providerReceiptId, Persistable(response), generation, token)];
      error := None;
    }
  }

  /** Executes the effects in order under a lease that stays held; every one gets its pending receipt. */
  method ExecuteEffects(db: AgentTaskRepository, recorder: LeasedEffectRecorder, key: string,
                        effects: seq<(string, EffectCall)>)
    requires recorder.db == db && db.Rows().Fenced(recorder.token, recorder.generation)
    requires db.intents.Keys == db.receipts.Keys && recorder.pending == map[]
    requires forall i | 0 <= i < |effects| :: effects[i].0 !in db.intents
    requires forall i, j | 0 <= i < j < |effects| :: effects[i].0 != effects[j].0
    modifies db`intents, recorder`pending
    ensures recorder.pending.Keys + db.receipts.Keys == db.intents.Keys
    ensures forall id :: id in old(db.intents) ==> id in db.intents && db.intents[id] == old(db.intents)[id]
    ensures forall i | 0 <= i < |effects| :: effects[i].0 in db.intents && db.intents[effects[i].0].call == effects[i].1
  {
    for n := 0 to |effects|
      invariant db.Rows() == old(db.Rows()).(intents := db.intents)
      invariant forall id :: id in old(db.intents) ==> id in db.intents && db.intents[id] == old(db.intents)[id]
      invariant forall i | 0 <= i < n :: effects[i].0 in db.intents && db.intents[effects[i].0].call == effects[i].1
      invariant forall i | n <= i < |effects| :: effects[i].0 !in db.intents
      invariant recorder.pending.Keys + db.receipts.Keys == db.intents.Keys
    {
      var error := recorder.BeginEffect(effects[n].0, effects[n].1, key);
      error := recorder.CompleteEffect(effects[n].0, Succeeded, "", map[]);
    }
  }

  /** Parks the task as failed unless it is done, then closes the run and releases the lease. */
  method RefuseOrphanedTask(db: AgentTaskRepository, key: string, runId: string, token: string,
                            payload: TaskPayload, orphan: string)
    requires db.Rows().OwnedBy(token) && key in db.runs && db.runs[key].HeldBy(runId, token)
    modifies db`task, db`runs
    ensures db.task == Some(Release(old(db.task).value).(
      payload := if payload.state == Completed || payload.state == Failed || payload.state == Cancelled
                 then old(db.task).value.payload
                 else payload.(state := Failed, failureReason := "ambiguous_external_effect")))
    ensures key in db.runs && db.runs[key] == old(db.runs)[key].(
      state := RunFailed, result := None, error := Some(FailureText(OrphanRefusal(orphan))), leaseToken := None)
  {
    hide OrphanRefusal, FailureText;
    if !payload.Done() {
      var parked := db.ParkIfLeased(token, payload.(state := Failed, failureReason := OrphanReason()));
    }
    var recorded := db.FailExecution(runId, token, OrphanRefusal(orphan));
  }

  /** Claims the task and only then scans for orphans. */
  method StartRun(db: AgentTaskRepository, now: int, key: string, maxSteps: int,
                  token: string, freshRunId: string, leaseSeconds: int)
    returns (reply: Acquired, orphans: seq<string>)
    requires UniqueRunIds(db.runs)
    modifies db
    ensures !reply.Granted? ==> db.Rows() == old(db.Rows())
    ensures db.intents == old(db.intents) && db.receipts == old(db.receipts)
    ensures reply.Granted? ==>
      && old(db.task).Some? && reply.generation == old(db.task).value.generation + 1
      && db.Rows().Fenced(token, reply.generation)
      && reply.payload == db.task.value.payload == old(db.task).value.payload
      && key in db.runs && db.runs[key].HeldBy(reply.runId, token)
      && (forall id :: id in orphans <==> Orphan(db.Rows(), id))
  {
    orphans := [];
    reply := db.AcquireExecution(now, key, maxSteps, token, freshRunId, leaseSeconds);
    if !reply.Granted? { return; }
    orphans := db.FindOrphanIntents();
  }

  /** Under a lease that stays held, and with no orphan: the effects in order, then the commit. */
  method FinishRun(db: AgentTaskRepository, key: string, runId: string, token: string, generation: nat,
                   effects: seq<(string, EffectCall)>, payload: TaskPayload, result: RunResult)
    requires db.Rows().Fenced(token, generation) && key in db.runs && db.runs[key].HeldBy(runId, token)
    requires db.intents.Keys == db.receipts.Keys
    requires forall i | 0 <= i < |effects| :: effects[i].0 !in db.intents
    requires forall i, j | 0 <= i < j < |effects| :: effects[i].0 != effects[j].0
    modifies db
    ensures db.task == Some(Release(old(db.task).value).(payload := payload))
    ensures key in db.runs && db.runs[key] == old(db.runs)[key].(
      state := RunCompleted, result := Some(Persistable(result)), error := None, leaseToken := None)
    ensures db.intents.Keys == db.receipts.Keys
    ensures forall id :: id in old(db.intents) ==> id in db.intents && db.intents[id] == old(db.intents)[id]
    ensures forall i | 0 <= i < |effects| :: effects[i].0 in db.intents && db.intents[effects[i].0].call == effects[i].1
  {
    hide Persistable;
    var recorder := new LeasedEffectRecorder(db, token, generation);
    ExecuteEffects(db, recorder, key, effects);
    var committed := db.CompleteExecution(runId, token, payload, result, recorder.pending);
  }

  /**
   One run on its own: claim, refuse on an orphan, execute the given effects in order, and
   commit. With no other worker in between, a run that is granted the lease and finds no
   orphan leaves the key completed, every intent receipted and the lease free.
   */
  method RunUntilBlocked(db: AgentTaskRepository, now: int, key: string, maxSteps: int,
                         token: string, freshRunId: string, leaseSeconds: int,
                         effects: seq<(string, EffectCall)>, payload: TaskPayload, result: RunResult)
    returns (reply: Acquired, refused: bool)
    requires forall i | 0 <= i < |effects| :: effects[i].0 !in db.intents
    requires forall i, j | 0 <= i < j < |effects| :: effects[i].0 != effects[j].0
    requires UniqueRunIds(db.runs)
    requires db.receipts.Keys <= db.intents.Keys
    modifies db
    ensures !reply.Granted? ==> db.Rows() == old(db.Rows())
    ensures reply.Granted? ==>
      && (refused <==> exists id :: Orphan(old(db.Rows()), id))
      && old(db.task).Some? && db.task.Some? && db.task.value.leaseToken.None?
      && db.task.value.generation == old(db.task).value.generation + 1
      && key in db.runs
    ensures reply.Granted? && refused ==>
      && (var before := old(db.task).value.payload;
          db.task.value.payload == if before.state == Completed || before.state == Failed || before.state == Cancelled then before
                                   else before.(state := Failed, failureReason := "ambiguous_external_effect"))
      && db.runs[key].state.RunFailed?
      && (exists id :: Orphan(old(db.Rows()), id) && db.runs[key].error == Some(FailureText(OrphanRefusal(id))))
      && db.intents == old(db.intents) && db.receipts == old(db.receipts)
    ensures reply.Granted? && !refused ==>
      && db.task.value.payload == payload
      && db.runs[key].state.RunCompleted? && db.runs[key].result == Some(Persistable(result))
      && db.intents.Keys == db.receipts.Keys
      && (forall id :: id in old(db.intents) ==> id in db.intents && db.intents[id] == old(db.intents)[id])
      && forall i | 0 <= i < |effects| :: effects[i].0 in db.intents && db.intents[effects[i].0].call == effects[i].1
  {
    hide OrphanRefusal, FailureText, Persistable;
    var orphans: seq<string>;
    reply, orphans := StartRun(db, now, key, maxSteps, token, freshRunId, leaseSeconds);
    refused := orphans != [];
    if !reply.Granted? { return; }
    assert forall id :: Orphan(db.Rows(), id) <==> Orphan(old(db.Rows()), id);
    if refused {
      assert orphans[0] in orphans;
      RefuseOrphanedTask(db, key, reply.runId, token, reply.payload, orphans[0]);
      return;
    }
    assert forall id :: id in db.intents ==> !Orphan(db.Rows(), id);
    FinishRun(db, key, reply.runId, token, reply.generation, effects, payload, result);
  }
}
