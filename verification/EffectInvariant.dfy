/**
 What every step of the protocol keeps, for every number of workers and every interleaving.

 The invariant has two halves. The effect half says that lease tokens stand for generations,
 that a claim's token is its own, that every intent was written by a token of its generation,
 that receipts cover all the effects of one claim or none, that what a worker holds in memory
 covers exactly its own intents, that a worker past the orphan scan knows every earlier on-time
 effect to be receipted, and that on-time orphans share one generation. The ledger half says
 that one run row at most is running and belongs to the current generation, that what a worker
 has read of a run row stays true, and that a claim's run row stays where its key put it.

 The two frames say which half looks at what; then there is a lemma for each kind of step, split
 where a step touches several parts. `StepKeeps` puts the steps together, `RunKeeps` the runs.
 */
module EffectInvariant {
  import opened Prelude
  import opened JsonValues
  import opened AgentRows
  import opened EffectProtocol

  /** Tokens stand for generations: no two share one, and the current token has the current one. */
  ghost predicate TokensOk(s: Sys) {
    && "" !in s.issued
    && (forall t, u :: t in s.issued && u in s.issued && s.issued[t] == s.issued[u] ==> t == u)
    && (s.db.task.Some? ==>
          && (forall t :: t in s.issued ==> s.issued[t] <= s.db.task.value.generation)
          && (s.db.task.value.leaseToken.Some? ==>
                && s.db.task.value.leaseToken.value in s.issued
                && s.issued[s.db.task.value.leaseToken.value] == s.db.task.value.generation))
    && (s.db.task.None? ==> s.db.intents == map[] && s.db.receipts == map[])
  }

  ghost predicate Has(s: Sys, w: nat) {
    s.At(w).HasClaim()
  }

  ghost predicate ClaimsOk(s: Sys) {
    && (forall w :: Has(s, w) ==>
          s.At(w).claim.token in s.issued && s.issued[s.At(w).claim.token] == s.At(w).claim.generation)
    && (forall w, v :: Has(s, w) && Has(s, v) && s.At(w).claim.token == s.At(v).claim.token ==> w == v)
  }

  /** An intent written while its own generation was still the task's. */
  ghost predicate OnTime(s: Sys, i: string) {
    i in s.db.intents && i in s.insertedAt && s.insertedAt[i] == s.db.intents[i].generation
  }

  ghost predicate IntentsOk(s: Sys) {
    forall i :: i in s.db.intents ==>
      && i != ""
      && s.db.intents[i].leaseToken in s.issued
      && s.issued[s.db.intents[i].leaseToken] == s.db.intents[i].generation
      && i in s.insertedAt
      && s.db.intents[i].generation <= s.insertedAt[i]
      && (s.db.task.Some? ==> s.insertedAt[i] <= s.db.task.value.generation)
  }

  ghost predicate ReceiptsOk(s: Sys) {
    && s.db.receipts.Keys <= s.db.intents.Keys
    && (forall i :: i in s.db.receipts ==>
          && s.db.receipts[i].leaseToken == s.db.intents[i].leaseToken
          && s.db.receipts[i].generation == s.db.intents[i].generation)
    // All the effects of one claim are receipted, or none is.
    && (forall i, j | i in s.db.receipts && j in s.db.intents ::
          s.db.intents[i].leaseToken == s.db.intents[j].leaseToken ==> j in s.db.receipts)
    && (forall w, i :: Has(s, w) && i in s.db.receipts ==> s.db.receipts[i].leaseToken != s.At(w).claim.token)
  }

  /** What an executing worker holds in memory covers exactly its own intents. */
  ghost predicate OwnEffectsOk(s: Sys, w: nat) {
    var me := s.At(w);
    && (me.Holding? || me.Scanned? || me.Refusing? ==>
          forall i :: i in s.db.intents ==> s.db.intents[i].leaseToken != me.claim.token)
    && (me.Executing? ==>
          && (forall i :: i in s.db.intents && s.db.intents[i].leaseToken == me.claim.token ==>
                i in me.pending || me.inFlight == Some(i))
          && (forall i :: i in me.pending ==>
                && me.pending[i].leaseToken == me.claim.token
                && me.pending[i].generation == me.claim.generation
                && (s.db.task.Some? ==> i in s.db.intents && s.db.intents[i].leaseToken == me.claim.token))
          && (me.fenced.Some? ==> me.inFlight.None?)
          && (me.inFlight.Some? && s.db.task.Some? ==>
                && me.inFlight.value in s.db.intents
                && s.db.intents[me.inFlight.value].leaseToken == me.claim.token))
  }

  /** The orphan scan: what a worker past it knows about every earlier generation. */
  ghost predicate ScanOk(s: Sys, w: nat) {
    var me := s.At(w);
    && (me.Scanned? ==> forall i :: OnTime(s, i) && s.db.intents[i].generation < me.claim.generation ==> i in me.seen)
    && (me.Executing? ==>
          forall i :: OnTime(s, i) && s.db.intents[i].generation < me.claim.generation ==> i in s.db.receipts)
  }

  ghost predicate OrphansOk(s: Sys) {
    forall i, j :: OnTime(s, i) && OnTime(s, j) && Orphan(s.db, i) && Orphan(s.db, j) ==>
      s.db.intents[i].generation == s.db.intents[j].generation
  }

  /** The run ledger: one running row at most, and it belongs to the current generation. */
  ghost predicate RunsOk(s: Sys) {
    RunIdsOk(s) && RunStatesOk(s)
  }

  ghost predicate RunIdsOk(s: Sys) {
    && (s.db.task.None? ==> s.db.runs == map[])
    && (forall k :: k in s.db.runs ==> s.db.runs[k].id in s.runIds && ValidRequest(k, s.db.runs[k].maxSteps))
    && (forall k, m :: k in s.db.runs && m in s.db.runs && s.db.runs[k].id == s.db.runs[m].id ==> k == m)
  }

  ghost predicate RunStatesOk(s: Sys) {
    && (forall k, m | k in s.db.runs && m in s.db.runs ::
          s.db.runs[k].state.RunRunning? && s.db.runs[m].state.RunRunning? ==> k == m)
    && (forall k :: k in s.db.runs && s.db.runs[k].state.RunRunning? ==> RunningOk(s, s.db.runs[k]))
    && (forall k :: k in s.db.runs && s.db.runs[k].state.RunCompleted? ==> ResultOk(s.db.runs[k].result))
  }

  ghost predicate RunningOk(s: Sys, run: RunRow) {
    && s.db.task.Some?
    && run.leaseToken.Some?
    && run.leaseToken.value in s.issued
    && s.issued[run.leaseToken.value] == s.db.task.value.generation
  }

  ghost predicate ResultOk(result: Option<RunResult>) {
    result.Some? && (APPROVAL_TOKEN in result.value ==> result.value[APPROVAL_TOKEN] == JNull)
  }

  ghost predicate LooksOk(s: Sys) {
    forall w :: s.At(w).Looked? ==> LookedOk(s, s.At(w))
  }

  // The run row a worker has read keeps its identity, and its request stays the one read.
  ghost predicate LookedOk(s: Sys, me: Worker)
    requires me.Looked?
  {
    && ValidRequest(me.key, me.maxSteps)
    && (me.existing.Some? && s.db.task.Some? ==>
          me.key in s.db.runs && s.db.runs[me.key].id == me.existing.value.id)
    && (me.existing.Some? ==> me.existing.value.id in s.runIds)
  }

  /** The part of the invariant about leases and effects. */
  ghost predicate EffectInv(s: Sys) {
    && TokensOk(s) && ClaimsOk(s) && IntentsOk(s) && ReceiptsOk(s) && OrphansOk(s)
    && (forall w :: OwnEffectsOk(s, w) && ScanOk(s, w))
  }

  // A claim's run row stays where its key put it.
  ghost predicate ClaimRowsOk(s: Sys) {
    forall w :: Has(s, w) && s.db.task.Some? ==>
      s.At(w).claim.key in s.db.runs && s.db.runs[s.At(w).claim.key].id == s.At(w).claim.runId
  }

  /** The part about the run ledger. */
  ghost predicate LedgerInv(s: Sys) {
    RunsOk(s) && LooksOk(s) && ClaimRowsOk(s)
  }

  ghost predicate Inv(s: Sys) {
    EffectInv(s) && LedgerInv(s)
  }

  lemma InitHolds(s: Sys)
    requires Init(s)
    ensures Inv(s)
  {
  }

  // ---- Frames: what each half of the invariant does not look at ----

  /** The effect half looks at a task row's token and generation, and at no run row. */
  lemma EffectFrame(s: Sys, s': Sys)
    requires EffectInv(s)
    requires s'.workers == s.workers && s'.issued == s.issued && s'.insertedAt == s.insertedAt
    requires s'.db.intents == s.db.intents && s'.db.receipts == s.db.receipts
    requires s'.db.task.Some? <==> s.db.task.Some?
    requires s.db.task.Some? ==>
      && s'.db.task.value.generation == s.db.task.value.generation
      && (s'.db.task.value.leaseToken.Some? ==> s'.db.task.value.leaseToken == s.db.task.value.leaseToken)
    ensures EffectInv(s')
  {
    assert forall w :: s'.At(w) == s.At(w);
    assert forall w :: Has(s', w) <==> Has(s, w);
    assert forall i :: OnTime(s', i) <==> OnTime(s, i);
    assert forall i :: Orphan(s'.db, i) <==> Orphan(s.db, i);
    forall w ensures OwnEffectsOk(s', w) && ScanOk(s', w) {
      assert OwnEffectsOk(s, w) && ScanOk(s, w);
    }
  }

  /** The ledger half looks at the task's generation and, in the workers, at reads and claims. */
  lemma LedgerFrame(s: Sys, s': Sys)
    requires LedgerInv(s)
    requires s'.db.runs == s.db.runs && s'.runIds == s.runIds && s'.issued == s.issued
    requires s'.db.task.Some? <==> s.db.task.Some?
    requires s.db.task.Some? ==> s'.db.task.value.generation == s.db.task.value.generation
    requires forall w :: s'.At(w).Looked? ==> s.At(w) == s'.At(w)
    requires forall w :: Has(s', w) ==> Has(s, w) && s'.At(w).claim == s.At(w).claim
    ensures LedgerInv(s')
  {
    forall k | k in s'.db.runs && s'.db.runs[k].state.RunRunning? ensures RunningOk(s', s'.db.runs[k]) {
      assert RunningOk(s, s.db.runs[k]);
    }
    forall w | s'.At(w).Looked? ensures LookedOk(s', s'.At(w)) {
      assert LookedOk(s, s.At(w));
    }
  }

  /** A worker may change its own memory as long as it keeps its claim and what it knows stays true. */
  lemma PutKeeps(s: Sys, w: nat, me: Worker)
    requires EffectInv(s)
    requires me.HasClaim() ==> Has(s, w) && me.claim == s.At(w).claim
    requires OwnEffectsOk(s.Put(w, me), w) && ScanOk(s.Put(w, me), w)
    ensures EffectInv(s.Put(w, me))
  {
    var s' := s.Put(w, me);
    assert forall v :: Has(s', v) ==> Has(s, v) && s.At(v).claim == s'.At(v).claim;
    assert forall i :: OnTime(s', i) <==> OnTime(s, i);
    assert forall i :: Orphan(s'.db, i) <==> Orphan(s.db, i);
    forall v | v != w ensures OwnEffectsOk(s', v) && ScanOk(s', v) {
      assert s'.At(v) == s.At(v);
      assert OwnEffectsOk(s, v) && ScanOk(s, v);
    }
  }

  /** A worker that gives up its claim, or never had one. */
  lemma DropKeeps(s: Sys, w: nat, me: Worker)
    requires Inv(s)
    requires me.Idle? || me.Ended? || (me.Failing? && Has(s, w) && me.claim == s.At(w).claim)
    ensures Inv(s.Put(w, me))
  {
    PutKeeps(s, w, me);
    LedgerFrame(s, s.Put(w, me));
  }

  // ---- One lemma for each kind of step ----

  /** Row by row, closing a run keeps the ledger in order. */
  lemma LedgerImage(s: Sys, s': Sys)
    requires LedgerInv(s)
    requires s'.db.task == s.db.task && s'.workers == s.workers && s'.issued == s.issued && s'.runIds == s.runIds
    requires s'.db.runs.Keys == s.db.runs.Keys
    requires forall k :: k in s.db.runs ==>
      && s'.db.runs[k].id == s.db.runs[k].id && s'.db.runs[k].maxSteps == s.db.runs[k].maxSteps
      && (s'.db.runs[k] == s.db.runs[k] || s'.db.runs[k].state.RunFailed?
          || (s'.db.runs[k].state.RunCompleted? && ResultOk(s'.db.runs[k].result)))
    ensures LedgerInv(s')
  {
    forall k | k in s'.db.runs && s'.db.runs[k].state.RunRunning? ensures RunningOk(s', s'.db.runs[k]) {
      assert RunningOk(s, s.db.runs[k]);
    }
    forall w | s'.At(w).Looked? ensures LookedOk(s', s'.At(w)) {
      assert s.At(w) == s'.At(w) && LookedOk(s, s.At(w));
    }
    forall w ensures Has(s', w) <==> Has(s, w) { assert s'.At(w) == s.At(w); }
  }

  lemma LookedKeeps(s: Sys, w: nat, me: Worker)
    requires Inv(s)
    requires me.Looked? && LookedOk(s, me)
    ensures Inv(s.Put(w, me))
  {
    var s' := s.Put(w, me);
    PutKeeps(s, w, me);
    assert forall v :: Has(s', v) ==> Has(s, v) && s'.At(v).claim == s.At(v).claim;
    forall v | s'.At(v).Looked? ensures LookedOk(s', s'.At(v)) {
      if v != w { assert s.At(v) == s'.At(v) && LookedOk(s, s.At(v)); }
    }
    forall k | k in s'.db.runs && s'.db.runs[k].state.RunRunning? ensures RunningOk(s', s'.db.runs[k]) {
      assert RunningOk(s, s.db.runs[k]);
    }
  }

  /** What the ledger read hands on is what the read rows say. */
  lemma ReadIsOk(s: Sys, key: string, maxSteps: int)
    requires RunsOk(s)
    ensures var reply := ReadLedger(s.db, key, maxSteps);
            reply.Proceed? ==> LookedOk(s, Looked(key, maxSteps, reply.existing))
  {
  }

  /** What a worker knows and holds, after it moved forward in memory under its claim. */
  ghost predicate MemoryOk(s: Sys, w: nat, me: Worker) {
    Has(s, w) && me.HasClaim() && me.claim == s.At(w).claim
    && OwnEffectsOk(s.Put(w, me), w) && ScanOk(s.Put(w, me), w)
  }

  lemma MemoryKeeps(s: Sys, w: nat, me: Worker)
    requires Inv(s) && MemoryOk(s, w, me)
    ensures Inv(s.Put(w, me))
  {
    PutKeeps(s, w, me);
    LedgerFrame(s, s.Put(w, me));
    hide OwnEffectsOk, ScanOk, LedgerInv;
  }

  lemma OwnIsOk(s: Sys, w: nat)
    requires Inv(s)
    ensures OwnEffectsOk(s, w) && ScanOk(s, w)
  {
  }

  lemma LostMemory(s: Sys, w: nat)
    requires OwnEffectsOk(s, w) && ScanOk(s, w) && s.At(w).Beating()
    ensures MemoryOk(s, w, s.At(w).(lost := true))
  {
    assert forall i :: OnTime(s.Put(w, s.At(w).(lost := true)), i) <==> OnTime(s, i);
  }

  lemma LostKeeps(s: Sys, w: nat)
    requires Inv(s) && s.At(w).Beating()
    ensures Inv(s.Put(w, s.At(w).(lost := true)))
  {
    OwnIsOk(s, w);
    hide Inv, OwnEffectsOk, ScanOk, MemoryOk;
    LostMemory(s, w);
    MemoryKeeps(s, w, s.At(w).(lost := true));
  }

  lemma ScanIntentsMemory(s: Sys, w: nat)
    requires OwnEffectsOk(s, w) && s.At(w).Holding?
    ensures MemoryOk(s, w, Scanned(s.At(w).claim, s.At(w).lost, s.db.intents.Keys))
  {
  }

  lemma ScanIntentsKeeps(s: Sys, w: nat)
    requires Inv(s) && s.At(w).Holding?
    ensures Inv(Do(s, ScanIntents(w)))
  {
    OwnIsOk(s, w);
    hide Inv, OwnEffectsOk, ScanOk, MemoryOk;
    ScanIntentsMemory(s, w);
    MemoryKeeps(s, w, Scanned(s.At(w).claim, s.At(w).lost, s.db.intents.Keys));
  }

  lemma ScanReceiptsMemory(s: Sys, w: nat)
    requires OwnEffectsOk(s, w) && ScanOk(s, w) && s.At(w).Scanned?
    ensures var s' := ScanReceiptsStep(s, w); s' == s.Put(w, s'.At(w)) && MemoryOk(s, w, s'.At(w))
  {
    assert forall i :: OnTime(ScanReceiptsStep(s, w), i) <==> OnTime(s, i);
  }

  lemma ScanReceiptsKeeps(s: Sys, w: nat)
    requires Inv(s) && s.At(w).Scanned?
    ensures Inv(ScanReceiptsStep(s, w))
  {
    OwnIsOk(s, w);
    hide Inv, OwnEffectsOk, ScanOk, MemoryOk, ScanReceiptsStep;
    ScanReceiptsMemory(s, w);
    MemoryKeeps(s, w, ScanReceiptsStep(s, w).At(w));
  }

  lemma CheckFenceMemory(s: Sys, w: nat, call: EffectCall)
    requires OwnEffectsOk(s, w) && ScanOk(s, w) && Enabled(s, CheckFence(w, call))
    ensures var s' := CheckFenceStep(s, w, call); s' == s.Put(w, s'.At(w)) && MemoryOk(s, w, s'.At(w))
  {
    assert forall i :: OnTime(CheckFenceStep(s, w, call), i) <==> OnTime(s, i);
  }

  lemma CheckFenceKeeps(s: Sys, w: nat, call: EffectCall)
    requires Inv(s) && Enabled(s, CheckFence(w, call))
    ensures Inv(CheckFenceStep(s, w, call))
  {
    OwnIsOk(s, w);
    hide Inv, OwnEffectsOk, ScanOk, MemoryOk, CheckFenceStep;
    CheckFenceMemory(s, w, call);
    MemoryKeeps(s, w, CheckFenceStep(s, w, call).At(w));
  }

  lemma FailingMemory(s: Sys, w: nat, error: Error)
    requires Has(s, w)
    ensures MemoryOk(s, w, Failing(s.At(w).claim, error))
  {
  }

  lemma RecordedMemory(s: Sys, w: nat, row: ReceiptRow)
    requires OwnEffectsOk(s, w) && ScanOk(s, w) && s.At(w).Executing? && s.At(w).inFlight.Some?
    requires row.leaseToken == s.At(w).claim.token && row.generation == s.At(w).claim.generation
    ensures var me := s.At(w); MemoryOk(s, w, me.(pending := me.pending[me.inFlight.value := row], inFlight := None))
  {
    var me := s.At(w).(pending := s.At(w).pending[s.At(w).inFlight.value := row], inFlight := None);
    assert forall i :: OnTime(s.Put(w, me), i) <==> OnTime(s, i);
  }

  /** Recording a receipt is refused or puts one row with the pending ones. */
  lemma RecordReceiptShape(s: Sys, w: nat, status: EffectStatus, provider: string, response: map<string, Json>)
    requires s.At(w).Executing? && s.At(w).inFlight.Some?
    ensures var s', me := RecordReceiptStep(s, w, status, provider, response), s.At(w);
      var row := ReceiptRow(status, provider, Persistable(response), me.claim.generation, me.claim.token);
      s' == s.Put(w, s'.At(w))
      && (s'.At(w) == me.(pending := me.pending[me.inFlight.value := row], inFlight := None)
          || exists error :: s'.At(w) == Failing(me.claim, error))
  {
    hide Persistable;
  }

  lemma RecordReceiptMemory(s: Sys, w: nat, status: EffectStatus, provider: string, response: map<string, Json>)
    requires OwnEffectsOk(s, w) && ScanOk(s, w) && s.At(w).Executing? && s.At(w).inFlight.Some?
    ensures var s' := RecordReceiptStep(s, w, status, provider, response); s' == s.Put(w, s'.At(w)) && MemoryOk(s, w, s'.At(w))
  {
    assert Has(s, w);
    hide OwnEffectsOk, ScanOk, MemoryOk, RecordReceiptStep, Persistable;
    var s', me := RecordReceiptStep(s, w, status, provider, response), s.At(w);
    RecordReceiptShape(s, w, status, provider, response);
    if error :| s'.At(w) == Failing(me.claim, error) {
      FailingMemory(s, w, error);
    } else {
      RecordedMemory(s, w, ReceiptRow(status, provider, Persistable(response), me.claim.generation, me.claim.token));
    }
  }

  lemma RecordReceiptKeeps(s: Sys, w: nat, status: EffectStatus, provider: string, response: map<string, Json>)
    requires Inv(s) && s.At(w).Executing? && s.At(w).inFlight.Some?
    ensures Inv(RecordReceiptStep(s, w, status, provider, response))
  {
    OwnIsOk(s, w);
    hide Inv, OwnEffectsOk, ScanOk, MemoryOk, RecordReceiptStep;
    RecordReceiptMemory(s, w, status, provider, response);
    MemoryKeeps(s, w, RecordReceiptStep(s, w, status, provider, response).At(w));
  }

  /** Renewing, releasing, parking or editing the task row. */
  lemma TaskRowKeeps(s: Sys, task: TaskRow)
    requires Inv(s) && s.db.task.Some?
    requires task.generation == s.db.task.value.generation
    requires task.leaseToken.Some? ==> task.leaseToken == s.db.task.value.leaseToken
    ensures Inv(s.(db := s.db.(task := Some(task))))
  {
    EffectFrame(s, s.(db := s.db.(task := Some(task))));
    LedgerFrame(s, s.(db := s.db.(task := Some(task))));
  }

  /** Closing the run row that a run id and token hold keeps the ledger in order; effects do not look at it. */
  lemma CloseRunKeeps(s: Sys, runId: string, token: string, state: RunState,
                      result: Option<RunResult>, error: Option<string>)
    requires LedgerInv(s)
    requires state.RunFailed? || (state.RunCompleted? && ResultOk(result))
    ensures LedgerInv(s.(db := s.db.(runs := CloseRuns(s.db.runs, runId, token, state, result, error))))
  {
    LedgerImage(s, s.(db := s.db.(runs := CloseRuns(s.db.runs, runId, token, state, result, error))));
  }

  lemma ParkKeeps(s: Sys, w: nat, payload: TaskPayload)
    requires Inv(s) && s.At(w).Refusing?
    ensures Inv(ParkStep(s, w, payload))
  {
    var s' := ParkStep(s, w, payload);
    assert Has(s, w);
    DropKeeps(s, w, s'.At(w));
    if s'.db != s.db { TaskRowKeeps(s.Put(w, s'.At(w)), s'.db.task.value); }
  }

  lemma FailureKeeps(s: Sys, w: nat, text: string)
    requires Inv(s) && s.At(w).Failing?
    ensures Inv(FailureStep(s, w, text))
  {
    var me := s.At(w);
    var s1 := s.Put(w, Ended(Refused(me.error)));
    DropKeeps(s, w, s1.At(w));
    CloseRunKeeps(s1, me.claim.runId, me.claim.token, RunFailed, None, Some(FailureText(text)));
    var s2 := s1.(db := s1.db.(runs := CloseRuns(s.db.runs, me.claim.runId, me.claim.token,
                                                 RunFailed, None, Some(FailureText(text)))));
    EffectFrame(s1, s2);
    if s.db.OwnedBy(me.claim.token) {
      TaskRowKeeps(s2, Release(s.db.task.value));
    }
  }

  ghost function LandReceipts(s: Sys, w: nat, outcome: Outcome): Sys
    requires s.At(w).Executing?
  {
    s.Put(w, Ended(outcome)).(db := s.db.(receipts := s.db.receipts + s.At(w).pending))
  }

  /** A run's receipts land together: all the intents of its token become receipted at once. */
  lemma LandReceiptsOk(s: Sys, w: nat, outcome: Outcome)
    requires ReceiptsOk(s) && ClaimsOk(s) && IntentsOk(s) && OwnEffectsOk(s, w) && s.db.task.Some?
    requires s.At(w).Executing? && s.At(w).inFlight.None?
    ensures ReceiptsOk(LandReceipts(s, w, outcome))
  {
    var s' := LandReceipts(s, w, outcome);
    assert Has(s, w);
    forall v, i | Has(s', v) && i in s'.db.receipts
      ensures s'.db.receipts[i].leaseToken != s'.At(v).claim.token
    {
      assert v != w && Has(s, v) && s'.At(v) == s.At(v);
    }
  }

  lemma LandReceiptsKeepsWorker(s: Sys, w: nat, outcome: Outcome, v: nat)
    requires s.At(w).Executing? && OwnEffectsOk(s, v) && ScanOk(s, v)
    ensures OwnEffectsOk(LandReceipts(s, w, outcome), v) && ScanOk(LandReceipts(s, w, outcome), v)
  {
    assert forall i :: OnTime(LandReceipts(s, w, outcome), i) <==> OnTime(s, i);
  }

  lemma LandReceiptsKeepsOrphans(s: Sys, w: nat, outcome: Outcome)
    requires s.At(w).Executing? && OrphansOk(s)
    ensures OrphansOk(LandReceipts(s, w, outcome))
  {
    assert forall i :: OnTime(LandReceipts(s, w, outcome), i) ==> OnTime(s, i);
    assert forall i :: Orphan(LandReceipts(s, w, outcome).db, i) ==> Orphan(s.db, i);
  }

  lemma LandReceiptsKeepsWorkers(s: Sys, w: nat, outcome: Outcome)
    requires s.At(w).Executing? && forall v :: OwnEffectsOk(s, v) && ScanOk(s, v)
    ensures forall v :: OwnEffectsOk(LandReceipts(s, w, outcome), v) && ScanOk(LandReceipts(s, w, outcome), v)
  {
    hide OwnEffectsOk, ScanOk, LandReceipts;
    forall v ensures OwnEffectsOk(LandReceipts(s, w, outcome), v) && ScanOk(LandReceipts(s, w, outcome), v) {
      assert OwnEffectsOk(s, v) && ScanOk(s, v);
      LandReceiptsKeepsWorker(s, w, outcome, v);
    }
  }

  /** Tokens, claims and intents do not look at receipts. */
  lemma LandReceiptsKeepsRest(s: Sys, w: nat, outcome: Outcome)
    requires TokensOk(s) && ClaimsOk(s) && IntentsOk(s) && s.db.task.Some? && s.At(w).Executing?
    ensures var s' := LandReceipts(s, w, outcome); TokensOk(s') && ClaimsOk(s') && IntentsOk(s')
  {
    var s' := LandReceipts(s, w, outcome);
    assert forall v :: Has(s', v) ==> Has(s, v) && s'.At(v) == s.At(v);
  }

  lemma LandReceiptsKeepsEffects(s: Sys, w: nat, outcome: Outcome)
    requires EffectInv(s) && s.db.task.Some?
    requires s.At(w).Executing? && s.At(w).inFlight.None?
    ensures EffectInv(LandReceipts(s, w, outcome))
  {
    assert OwnEffectsOk(s, w);
    hide TokensOk, ClaimsOk, IntentsOk, ReceiptsOk, OrphansOk, OwnEffectsOk, ScanOk, LandReceipts;
    LandReceiptsKeepsRest(s, w, outcome);
    LandReceiptsOk(s, w, outcome);
    LandReceiptsKeepsOrphans(s, w, outcome);
    LandReceiptsKeepsWorkers(s, w, outcome);
  }

  lemma LandReceiptsKeeps(s: Sys, w: nat, outcome: Outcome)
    requires Inv(s) && s.db.task.Some?
    requires s.At(w).Executing? && s.At(w).inFlight.None?
    ensures Inv(LandReceipts(s, w, outcome))
  {
    LandReceiptsKeepsEffects(s, w, outcome);
    LedgerFrame(s, LandReceipts(s, w, outcome));
  }

  lemma CommitRunKeeps(s: Sys, w: nat, payload: TaskPayload, result: RunResult)
    requires Inv(s) && Enabled(s, CommitRun(w, payload, result))
    ensures Inv(CommitRunStep(s, w, payload, result))
  {
    var me := s.At(w);
    var s' := CommitRunStep(s, w, payload, result);
    if s'.At(w).Failing? {
      assert Has(s, w);
      DropKeeps(s, w, s'.At(w));
    } else {
      LandReceiptsKeeps(s, w, Finished(result));
      var s1 := LandReceipts(s, w, Finished(result));
      CloseRunKeeps(s1, me.claim.runId, me.claim.token, RunCompleted, Some(Persistable(result)), None);
      EffectFrame(s1, s1.(db := s1.db.(runs := s'.db.runs)));
      TaskRowKeeps(s1.(db := s1.db.(runs := s'.db.runs)), s'.db.task.value);
    }
  }

  lemma FreshIntent(s: Sys, id: string)
    requires IntentsOk(s) && id !in s.insertedAt
    ensures id !in s.db.intents
  {
  }

  ghost function NewIntent(me: Worker): IntentRow
    requires me.Executing? && me.fenced.Some?
  {
    IntentRow(me.fenced.value, me.claim.key, me.claim.generation, me.claim.token)
  }

  /** What an insert writes. */
  lemma InsertStores(s: Sys, w: nat, id: string)
    requires Enabled(s, InsertIntent(w, id)) && s.db.task.Some?
    ensures var s' := InsertIntentStep(s, w, id); var me := s.At(w);
      && s'.db == s.db.(intents := s.db.intents[id := NewIntent(me)])
      && s'.insertedAt == s.insertedAt[id := s.db.task.value.generation]
      && s'.issued == s.issued && s'.runIds == s.runIds
      && s'.At(w) == me.(inFlight := Some(id), fenced := None)
      && forall v :: v != w ==> s'.At(v) == s.At(v)
  {
  }

  /** What an insert adds, and that it leaves every other intent as it was. */
  lemma InsertAddsOne(s: Sys, w: nat, id: string)
    requires IntentsOk(s) && Enabled(s, InsertIntent(w, id)) && s.db.task.Some?
    ensures var s' := InsertIntentStep(s, w, id);
      && id !in s.db.intents && s'.db.intents.Keys == s.db.intents.Keys + {id}
      && (forall i | i in s.db.intents :: s'.db.intents[i] == s.db.intents[i] && (OnTime(s', i) <==> OnTime(s, i)))
      && s'.db.intents[id].generation == s.At(w).claim.generation
      && (OnTime(s', id) <==> s.db.task.value.generation == s.At(w).claim.generation)
      && s'.db.receipts == s.db.receipts
  {
    FreshIntent(s, id);
    InsertStores(s, w, id);
    hide IntentsOk, InsertIntentStep;
  }

  lemma InsertIntentKeepsOthers(s: Sys, w: nat, id: string, v: nat)
    requires ClaimsOk(s) && s.db.task.Some? && id !in s.db.intents && v != w
    requires Enabled(s, InsertIntent(w, id)) && OwnEffectsOk(s, v)
    ensures OwnEffectsOk(InsertIntentStep(s, w, id), v)
  {
    InsertStores(s, w, id);
    assert Has(s, w);
    assert Has(s, v) ==> s.At(v).claim.token != s.At(w).claim.token;
    hide InsertIntentStep, ClaimsOk, Enabled;
    assert InsertIntentStep(s, w, id).At(v) == s.At(v);
  }

  lemma InsertIntentKeepsMine(s: Sys, w: nat, id: string)
    requires s.db.task.Some? && id !in s.db.intents
    requires Enabled(s, InsertIntent(w, id)) && OwnEffectsOk(s, w)
    ensures OwnEffectsOk(InsertIntentStep(s, w, id), w)
  {
    InsertStores(s, w, id);
    hide InsertIntentStep;
  }

  lemma ClaimsAreNotNewer(s: Sys, v: nat)
    requires ClaimsOk(s) && TokensOk(s) && s.db.task.Some? && Has(s, v)
    ensures s.At(v).claim.generation <= s.db.task.value.generation
  {
  }

  lemma InsertIntentKeepsScan(s: Sys, w: nat, id: string, v: nat)
    requires ClaimsOk(s) && TokensOk(s) && IntentsOk(s) && s.db.task.Some?
    requires Enabled(s, InsertIntent(w, id)) && ScanOk(s, v)
    ensures ScanOk(InsertIntentStep(s, w, id), v)
  {
    var s' := InsertIntentStep(s, w, id);
    InsertStores(s, w, id);
    InsertAddsOne(s, w, id);
    if Has(s', v) {
      assert Has(s, v) && s'.At(v).claim == s.At(v).claim;
      ClaimsAreNotNewer(s, v);
    }
    OnTimeIsStored(s);
    OnTimeIsStored(s');
    hide InsertIntentStep, IntentsOk, ClaimsOk, TokensOk, OnTime, Enabled;
    assert forall i :: i != id && OnTime(s', i) ==> OnTime(s, i);
  }

  lemma OnTimeIsStored(s: Sys)
    ensures forall i :: OnTime(s, i) ==> i in s.db.intents
  {
  }

  lemma InsertIntentKeepsRows(s: Sys, w: nat, id: string)
    requires IntentsOk(s) && ClaimsOk(s) && TokensOk(s) && s.db.task.Some?
    requires Enabled(s, InsertIntent(w, id))
    ensures IntentsOk(InsertIntentStep(s, w, id))
  {
    InsertStores(s, w, id);
    assert Has(s, w);
    hide InsertIntentStep;
  }

  lemma InsertIntentKeepsReceipts(s: Sys, w: nat, id: string)
    requires IntentsOk(s) && ReceiptsOk(s) && ClaimsOk(s) && s.db.task.Some?
    requires Enabled(s, InsertIntent(w, id))
    ensures ReceiptsOk(InsertIntentStep(s, w, id))
  {
    var s' := InsertIntentStep(s, w, id);
    FreshIntent(s, id);
    InsertStores(s, w, id);
    assert Has(s, w);
    hide InsertIntentStep, IntentsOk;
    forall v | Has(s', v) ensures Has(s, v) && s'.At(v).claim == s.At(v).claim {}
  }

  /** On time, an effect begins only when every earlier effect is receipted. */
  lemma InsertIntentKeepsOrphans(s: Sys, w: nat, id: string)
    requires IntentsOk(s) && OrphansOk(s) && ScanOk(s, w) && s.db.task.Some?
    requires Enabled(s, InsertIntent(w, id))
    ensures OrphansOk(InsertIntentStep(s, w, id))
  {
    var s' := InsertIntentStep(s, w, id);
    InsertAddsOne(s, w, id);
    assert forall i | i in s.db.intents :: s.db.intents[i].generation <= s.db.task.value.generation;
    OnTimeIsStored(s);
    OnTimeIsStored(s');
    hide IntentsOk, InsertIntentStep, OnTime, Enabled;
    assert forall i :: i != id && OnTime(s', i) && Orphan(s'.db, i) ==> OnTime(s, i) && Orphan(s.db, i);
    if OnTime(s', id) {
      assert forall i :: i != id && OnTime(s', i) && Orphan(s'.db, i) ==>
        s.db.intents[i].generation == s'.db.intents[id].generation;
    }
  }

  lemma InsertIntentKeepsEffects(s: Sys, w: nat, id: string)
    requires EffectInv(s) && Enabled(s, InsertIntent(w, id)) && s.db.task.Some?
    ensures EffectInv(InsertIntentStep(s, w, id))
  {
    var s' := InsertIntentStep(s, w, id);
    assert OwnEffectsOk(s, w) && ScanOk(s, w);
    FreshIntent(s, id);
    hide OwnEffectsOk, ScanOk, OrphansOk, IntentsOk, ReceiptsOk, InsertIntentStep;
    forall v ensures OwnEffectsOk(s', v) && ScanOk(s', v) {
      assert OwnEffectsOk(s, v) && ScanOk(s, v);
      if v == w { InsertIntentKeepsMine(s, w, id); } else { InsertIntentKeepsOthers(s, w, id, v); }
      InsertIntentKeepsScan(s, w, id, v);
    }
    InsertIntentKeepsOrphans(s, w, id);
    InsertIntentKeepsRows(s, w, id);
    InsertIntentKeepsReceipts(s, w, id);
    InsertStores(s, w, id);
    assert forall v :: Has(s', v) ==> Has(s, v) && s'.At(v).claim == s.At(v).claim;
  }

  lemma TakeKeepsWorker(s: Sys, w: nat, token: string, freshRunId: string, leaseSeconds: int, v: nat)
    requires Enabled(s, Take(w, token, freshRunId, leaseSeconds))
    requires TakeStep(s, w, token, freshRunId, leaseSeconds).At(w).Holding?
    requires IntentsOk(s) && OwnEffectsOk(s, v) && ScanOk(s, v)
    ensures OwnEffectsOk(TakeStep(s, w, token, freshRunId, leaseSeconds), v)
    ensures ScanOk(TakeStep(s, w, token, freshRunId, leaseSeconds), v)
  {
    var s' := TakeStep(s, w, token, freshRunId, leaseSeconds);
    assert forall i :: OnTime(s', i) <==> OnTime(s, i);
  }

  lemma TakeKeepsTokens(s: Sys, w: nat, token: string, freshRunId: string, leaseSeconds: int)
    requires TokensOk(s) && ClaimsOk(s) && Enabled(s, Take(w, token, freshRunId, leaseSeconds))
    requires TakeStep(s, w, token, freshRunId, leaseSeconds).At(w).Holding?
    ensures TokensOk(TakeStep(s, w, token, freshRunId, leaseSeconds))
    ensures ClaimsOk(TakeStep(s, w, token, freshRunId, leaseSeconds))
  {
    var s' := TakeStep(s, w, token, freshRunId, leaseSeconds);
    assert forall v :: v != w && Has(s', v) ==> Has(s, v) && s'.At(v).claim == s.At(v).claim;
  }

  lemma TakeKeepsRows(s: Sys, w: nat, token: string, freshRunId: string, leaseSeconds: int)
    requires IntentsOk(s) && ReceiptsOk(s) && OrphansOk(s)
    requires Enabled(s, Take(w, token, freshRunId, leaseSeconds))
    requires TakeStep(s, w, token, freshRunId, leaseSeconds).At(w).Holding?
    ensures IntentsOk(TakeStep(s, w, token, freshRunId, leaseSeconds))
    ensures ReceiptsOk(TakeStep(s, w, token, freshRunId, leaseSeconds))
    ensures OrphansOk(TakeStep(s, w, token, freshRunId, leaseSeconds))
  {
    var s' := TakeStep(s, w, token, freshRunId, leaseSeconds);
    assert forall v :: v != w && Has(s', v) ==> Has(s, v) && s'.At(v).claim == s.At(v).claim;
    assert forall i :: OnTime(s', i) <==> OnTime(s, i);
    assert forall i :: Orphan(s'.db, i) <==> Orphan(s.db, i);
  }

  lemma TakeKeepsEffects(s: Sys, w: nat, token: string, freshRunId: string, leaseSeconds: int)
    requires EffectInv(s) && Enabled(s, Take(w, token, freshRunId, leaseSeconds))
    requires TakeStep(s, w, token, freshRunId, leaseSeconds).At(w).Holding?
    ensures EffectInv(TakeStep(s, w, token, freshRunId, leaseSeconds))
  {
    TakeKeepsTokens(s, w, token, freshRunId, leaseSeconds);
    TakeKeepsRows(s, w, token, freshRunId, leaseSeconds);
    hide TokensOk, ClaimsOk, IntentsOk, ReceiptsOk, OrphansOk, TakeStep;
    forall v ensures OwnEffectsOk(TakeStep(s, w, token, freshRunId, leaseSeconds), v)
                  && ScanOk(TakeStep(s, w, token, freshRunId, leaseSeconds), v) {
      assert OwnEffectsOk(s, v) && ScanOk(s, v);
      TakeKeepsWorker(s, w, token, freshRunId, leaseSeconds, v);
    }
  }

  /** The ledger a claim leaves: its own row entered or retaken, no other row running. */
  ghost predicate Superseded(s: Sys, s': Sys, key: string, freshRunId: string) {
    && s'.db.runs.Keys == s.db.runs.Keys + {key}
    && (key in s.db.runs ==>
          && s'.db.runs[key].id == s.db.runs[key].id && s'.db.runs[key].maxSteps == s.db.runs[key].maxSteps
          && s'.db.runs[key].state == s.db.runs[key].state && s'.db.runs[key].result == s.db.runs[key].result)
    && (key !in s.db.runs ==>
          && s'.db.runs[key].id == freshRunId && s'.db.runs[key].state.RunRunning?
          && ValidRequest(key, s'.db.runs[key].maxSteps))
    && forall k :: k in s.db.runs && k != key ==>
         && !s'.db.runs[k].state.RunRunning?
         && s'.db.runs[k].id == s.db.runs[k].id && s'.db.runs[k].maxSteps == s.db.runs[k].maxSteps
         && (s'.db.runs[k].state.RunCompleted? ==> s'.db.runs[k] == s.db.runs[k])
  }

  lemma SupersededIdsOk(s: Sys, s': Sys, key: string, freshRunId: string)
    requires RunIdsOk(s) && freshRunId !in s.runIds && s'.runIds == s.runIds + {freshRunId}
    requires s'.db.task.Some? && Superseded(s, s', key, freshRunId)
    ensures RunIdsOk(s')
  {
    hide ValidRequest;
  }

  lemma SupersededStatesOk(s: Sys, s': Sys, key: string, freshRunId: string)
    requires RunStatesOk(s) && Superseded(s, s', key, freshRunId) && RunningOk(s', s'.db.runs[key])
    ensures RunStatesOk(s')
  {
    hide ValidRequest, RunningOk;
  }

  lemma TakeSupersedes(s: Sys, w: nat, token: string, freshRunId: string, leaseSeconds: int)
    requires RunIdsOk(s) && Enabled(s, Take(w, token, freshRunId, leaseSeconds))
    requires LookedOk(s, s.At(w))
    requires TakeStep(s, w, token, freshRunId, leaseSeconds).At(w).Holding?
    ensures Superseded(s, TakeStep(s, w, token, freshRunId, leaseSeconds), s.At(w).key, freshRunId)
    ensures TakeStep(s, w, token, freshRunId, leaseSeconds).db.runs[s.At(w).key].leaseToken == Some(token)
  {
    var me := s.At(w);
    assert forall k, m :: k in s.db.runs && m in s.db.runs && s.db.runs[k].id == s.db.runs[m].id ==> k == m;
    hide RunIdsOk, Supersede, Reclaim, Fresh, LeaseEnd, Claimable, ClaimLease;
    ClaimedRuns(s.db, s.now, me.key, me.maxSteps, me.existing, token, freshRunId, leaseSeconds);
  }

  lemma TakeKeepsRuns(s: Sys, w: nat, token: string, freshRunId: string, leaseSeconds: int)
    requires RunsOk(s) && Enabled(s, Take(w, token, freshRunId, leaseSeconds))
    requires LookedOk(s, s.At(w))
    requires TakeStep(s, w, token, freshRunId, leaseSeconds).At(w).Holding?
    ensures RunsOk(TakeStep(s, w, token, freshRunId, leaseSeconds))
  {
    hide RunIdsOk, RunStatesOk, Superseded, LookedOk, ClaimLease;
    var s' := TakeStep(s, w, token, freshRunId, leaseSeconds);
    TakeSupersedes(s, w, token, freshRunId, leaseSeconds);
    SupersededIdsOk(s, s', s.At(w).key, freshRunId);
    SupersededStatesOk(s, s', s.At(w).key, freshRunId);
  }

  /** What a claim leaves in place of every run row, whoever wrote it. */
  lemma TakeKeepsIdentity(s: Sys, w: nat, token: string, freshRunId: string, leaseSeconds: int)
    requires Enabled(s, Take(w, token, freshRunId, leaseSeconds))
    requires TakeStep(s, w, token, freshRunId, leaseSeconds).At(w).Holding?
    ensures var s' := TakeStep(s, w, token, freshRunId, leaseSeconds);
      && s'.db.task.Some? && s.db.task.Some?
      && s'.runIds == s.runIds + {freshRunId}
      && (forall k :: k in s.db.runs ==> k in s'.db.runs && s'.db.runs[k].id == s.db.runs[k].id)
      && (s.At(w).existing.None? ==>
            s.At(w).key in s'.db.runs && s'.db.runs[s.At(w).key].id == s'.At(w).claim.runId)
      && (s.At(w).existing.Some? ==> s'.At(w).claim.runId == s.At(w).existing.value.id)
      && s'.At(w).claim.key == s.At(w).key
  {
  }

  /** Reads and claims survive a claim that keeps every run row's identity. */
  lemma ClaimKeepsReads(s: Sys, s': Sys, w: nat)
    requires LooksOk(s) && ClaimRowsOk(s) && s.At(w).Looked? && s'.At(w).Holding?
    requires s.db.task.Some? && s'.db.task.Some? && s.runIds <= s'.runIds
    requires forall k :: k in s.db.runs ==> k in s'.db.runs && s'.db.runs[k].id == s.db.runs[k].id
    requires forall v :: v != w ==> s'.At(v) == s.At(v)
    requires s'.At(w).claim.key in s'.db.runs && s'.db.runs[s'.At(w).claim.key].id == s'.At(w).claim.runId
    ensures LooksOk(s') && ClaimRowsOk(s')
  {
    forall v | s'.At(v).Looked? ensures LookedOk(s', s'.At(v)) {
      assert LookedOk(s, s.At(v));
    }
    assert forall v :: v != w && Has(s', v) ==> Has(s, v);
  }

  lemma TakeKeepsLedger(s: Sys, w: nat, token: string, freshRunId: string, leaseSeconds: int)
    requires LedgerInv(s) && Enabled(s, Take(w, token, freshRunId, leaseSeconds))
    requires TakeStep(s, w, token, freshRunId, leaseSeconds).At(w).Holding?
    ensures LedgerInv(TakeStep(s, w, token, freshRunId, leaseSeconds))
  {
    var s' := TakeStep(s, w, token, freshRunId, leaseSeconds);
    assert LookedOk(s, s.At(w));
    TakeKeepsRuns(s, w, token, freshRunId, leaseSeconds);
    TakeKeepsIdentity(s, w, token, freshRunId, leaseSeconds);
    assert forall v :: v != w ==> s'.At(v) == s.At(v);
    hide RunsOk, TakeStep, LooksOk, ClaimRowsOk;
    ClaimKeepsReads(s, s', w);
  }

  lemma DeleteKeeps(s: Sys)
    requires Inv(s)
    ensures Inv(s.(db := Deleted()))
  {
    var s' := s.(db := Deleted());
    assert forall w :: s'.At(w) == s.At(w);
    assert forall w :: Has(s', w) <==> Has(s, w);
    forall w ensures OwnEffectsOk(s', w) && ScanOk(s', w) {
      assert OwnEffectsOk(s, w) && ScanOk(s, w);
    }
    forall w | s'.At(w).Looked? ensures LookedOk(s', s'.At(w)) {
      assert LookedOk(s, s.At(w));
    }
  }

  // What the two conditional inserts leave alone, and what they do when refused.

  lemma TakeRefused(s: Sys, w: nat, token: string, freshRunId: string, leaseSeconds: int)
    requires s.At(w).Looked? && !TakeStep(s, w, token, freshRunId, leaseSeconds).At(w).Holding?
    ensures var s' := TakeStep(s, w, token, freshRunId, leaseSeconds);
            s'.At(w).Ended? && s' == s.Put(w, s'.At(w))
  {
  }

  lemma InsertRefused(s: Sys, w: nat, id: string)
    requires s.At(w).Executing? && s.At(w).fenced.Some? && s.db.task.None?
    ensures Has(s, w) && InsertIntentStep(s, w, id) == s.Put(w, Failing(s.At(w).claim, UnknownTask))
  {
  }

  lemma InsertIntentFrame(s: Sys, w: nat, id: string)
    requires s.At(w).Executing? && s.At(w).fenced.Some? && s.db.task.Some?
    ensures var s' := InsertIntentStep(s, w, id);
            s'.db.runs == s.db.runs && s'.runIds == s.runIds && s'.issued == s.issued && s'.db.task == s.db.task
            && (forall v :: s'.At(v).Looked? ==> s.At(v) == s'.At(v))
            && forall v :: Has(s', v) ==> Has(s, v) && s'.At(v).claim == s.At(v).claim
  {
  }

  lemma LookKeeps(s: Sys, w: nat, key: string, maxSteps: int)
    requires Inv(s)
    ensures Inv(LookStep(s, w, key, maxSteps))
  {
    ReadIsOk(s, key, maxSteps);
    hide EffectInv, RunsOk, LooksOk, ClaimRowsOk, ReadLedger;
    match ReadLedger(s.db, key, maxSteps)
    case Proceed(existing) => LookedKeeps(s, w, Looked(key, maxSteps, existing));
    case Replay(result) => DropKeeps(s, w, Ended(Replayed(result)));
    case Refuse(error) => DropKeeps(s, w, Ended(Refused(error)));
  }

  lemma TakeKeeps(s: Sys, w: nat, token: string, freshRunId: string, leaseSeconds: int)
    requires Inv(s) && Enabled(s, Take(w, token, freshRunId, leaseSeconds))
    ensures Inv(TakeStep(s, w, token, freshRunId, leaseSeconds))
  {
    hide EffectInv, LedgerInv, TakeStep;
    if TakeStep(s, w, token, freshRunId, leaseSeconds).At(w).Holding? {
      TakeKeepsEffects(s, w, token, freshRunId, leaseSeconds);
      TakeKeepsLedger(s, w, token, freshRunId, leaseSeconds);
    } else {
      TakeRefused(s, w, token, freshRunId, leaseSeconds);
      DropKeeps(s, w, TakeStep(s, w, token, freshRunId, leaseSeconds).At(w));
    }
  }

  lemma BeatKeeps(s: Sys, w: nat, leaseSeconds: int)
    requires Inv(s) && s.At(w).Beating()
    ensures Inv(BeatStep(s, w, leaseSeconds))
  {
    hide Inv, RunHeld;
    if s.db.OwnedBy(s.At(w).claim.token) && RunHeld(s.db, s.At(w).claim) {
      TaskRowKeeps(s, Renew(s.db, s.now, s.At(w).claim.token, leaseSeconds).task.value);
    } else {
      LostKeeps(s, w);
    }
  }

  lemma InsertKeeps(s: Sys, w: nat, id: string)
    requires Inv(s) && Enabled(s, InsertIntent(w, id))
    ensures Inv(InsertIntentStep(s, w, id))
  {
    hide EffectInv, LedgerInv, InsertIntentStep;
    if s.db.task.None? {
      InsertRefused(s, w, id);
      DropKeeps(s, w, Failing(s.At(w).claim, UnknownTask));
    } else {
      InsertIntentKeepsEffects(s, w, id);
      InsertIntentFrame(s, w, id);
      LedgerFrame(s, InsertIntentStep(s, w, id));
    }
  }

  lemma TickKeeps(s: Sys, elapsed: nat)
    requires Inv(s)
    ensures Inv(s.(now := s.now + elapsed))
  {
    hide EffectInv, LedgerInv;
    EffectFrame(s, s.(now := s.now + elapsed));
    LedgerFrame(s, s.(now := s.now + elapsed));
  }

  /** Every step of every worker keeps the invariant. */
  lemma StepKeeps(s: Sys, l: Label)
    requires Inv(s) && Enabled(s, l)
    ensures Inv(Do(s, l))
  {
    hide Inv, LookStep, TakeStep, BeatStep, ScanReceiptsStep, ParkStep, CheckFenceStep, InsertIntentStep, RecordReceiptStep,
         CommitRunStep, FailureStep, Fresh;
    match l
    case Tick(elapsed) => TickKeeps(s, elapsed);
    case Look(w, key, maxSteps) => LookKeeps(s, w, key, maxSteps);
    case Take(w, token, freshRunId, leaseSeconds) => TakeKeeps(s, w, token, freshRunId, leaseSeconds);
    case Beat(w, leaseSeconds) => BeatKeeps(s, w, leaseSeconds);
    case BeatError(w) => LostKeeps(s, w);
    case ScanIntents(w) => ScanIntentsKeeps(s, w);
    case ScanReceipts(w) => ScanReceiptsKeeps(s, w);
    case ParkTask(w, payload) => ParkKeeps(s, w, payload);
    case CheckFence(w, call) => CheckFenceKeeps(s, w, call);
    case InsertIntent(w, id) => InsertKeeps(s, w, id);
    case RecordReceipt(w, status, provider, response) => RecordReceiptKeeps(s, w, status, provider, response);
    case CommitRun(w, payload, result) => CommitRunKeeps(s, w, payload, result);
    case RollBack(w, error) => assert Has(s, w); DropKeeps(s, w, Failing(s.At(w).claim, error));
    case CommitFailure(w, text) => FailureKeeps(s, w, text);
    case Crash(w) => DropKeeps(s, w, Idle);
    case MutateTask(payload) => TaskRowKeeps(s, Mutate(s.db, payload).task.value);
    case DeleteTask => DeleteKeeps(s);
  }

  lemma {:induction false} RunKeeps(s: Sys, labels: seq<Label>)
    requires Inv(s) && Runs(s, labels)
    ensures Inv(After(s, labels))
    decreases |labels|
  {
    if labels != [] {
      StepKeeps(s, labels[0]);
      RunKeeps(Do(s, labels[0]), labels[1..]);
    }
  }
}
