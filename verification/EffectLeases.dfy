/**
 Leases over whole runs: when a claim is granted, that a live lease keeps every other worker out,
 that an edit revokes the token it clears, and that receipts land as they were recorded.
 */
module EffectLeases {
  import opened Prelude
  import opened JsonValues
  import opened AgentRows
  import opened EffectProtocol
  import opened EffectInvariant
  import opened EffectGuarantees

  // ---- A live lease keeps others out ----

  /** A claim is granted if and only if the task is there, its lease free or over, and the key not entered since. */
  lemma ClaimIsGrantedExactly(s: Sys, l: Label)
    requires Enabled(s, l) && l.Take?
    ensures Do(s, l).At(l.w).Holding? <==>
      && s.db.task.Some?
      && (s.db.task.value.leaseToken.None? || s.db.task.value.leaseExpires.None? || s.db.task.value.leaseExpires.value <= s.now)
      && (s.At(l.w).existing.Some? || s.At(l.w).key !in s.db.runs)
    ensures Do(s, l).At(l.w).Holding? || Do(s, l).db == s.db
  {
    var me := s.At(l.w);
    ClaimAnswers(s.db, s.now, me.key, me.maxSteps, me.existing, l.token, l.freshRunId, l.leaseSeconds);
    hide ClaimLease;
  }

  /** The task is leased under the token, at least until then. */
  ghost predicate LeasedUntil(s: Sys, token: string, until: int) {
    && s.db.task.Some? && s.db.task.value.leaseToken == Some(token)
    && s.db.task.value.leaseExpires.Some? && until <= s.db.task.value.leaseExpires.value
  }

  /** The token's own worker ends its run here, which releases the lease. */
  ghost predicate Releases(s: Sys, l: Label, token: string) {
    (l.CommitRun? || l.CommitFailure?) && Has(s, l.w) && s.At(l.w).claim.token == token
  }

  /** No step of the run releases the lease, and no renewal of it ends before then. */
  ghost predicate Undisturbed(s: Sys, labels: seq<Label>, token: string, until: int)
    requires Runs(s, labels)
    decreases |labels|
  {
    labels != [] ==>
      && !Releases(s, labels[0], token)
      && (labels[0].Beat? && s.At(labels[0].w).claim.token == token ==>
            until <= s.now + if labels[0].leaseSeconds < 5 then 5 else labels[0].leaseSeconds)
      && Undisturbed(Do(s, labels[0]), labels[1..], token, until)
  }

  lemma ClockRuns(s: Sys, l: Label)
    requires Enabled(s, l)
    ensures s.now <= Do(s, l).now
  {
    hide ReadLedger, ClaimLease, Renew, Park, Complete, Fail, Mutate, Persistable, RunHeld;
  }

  lemma {:induction false} ClockRunsOn(s: Sys, labels: seq<Label>)
    requires Runs(s, labels)
    ensures s.now <= After(s, labels).now
    decreases |labels|
  {
    if labels != [] {
      ClockRuns(s, labels[0]);
      ClockRunsOn(Do(s, labels[0]), labels[1..]);
    }
  }

  lemma StepKeepsLease(s: Sys, l: Label, token: string, until: int)
    requires Enabled(s, l) && LeasedUntil(s, token, until) && s.now < until && !Releases(s, l, token)
    requires l.Beat? && s.At(l.w).claim.token == token ==> until <= s.now + if l.leaseSeconds < 5 then 5 else l.leaseSeconds
    ensures LeasedUntil(Do(s, l), token, until)
    ensures l.Take? ==> Do(s, l).At(l.w) == Ended(Refused(Busy)) && Do(s, l).db == s.db
    ensures Do(s, l).db.task.value.generation == s.db.task.value.generation
  {
    if l.Take? {
      var me := s.At(l.w);
      ClaimAnswers(s.db, s.now, me.key, me.maxSteps, me.existing, l.token, l.freshRunId, l.leaseSeconds);
    }
    hide ReadLedger, ClaimLease, Persistable, RunHeld, CloseRuns;
  }

  /**
   From a live lease on, along every run that does not release it and has not reached its end, the
   token keeps the task, and whoever tries to claim it is refused as busy.
   */
  lemma {:induction false} LiveLeaseKeepsOthersOut(s: Sys, labels: seq<Label>, token: string, until: int)
    requires Runs(s, labels) && Undisturbed(s, labels, token, until)
    requires LeasedUntil(s, token, until) && After(s, labels).now < until
    ensures LeasedUntil(After(s, labels), token, until)
    ensures After(s, labels).db.task.value.generation == s.db.task.value.generation
    ensures forall l :: Enabled(After(s, labels), l) && l.Take? ==>
      Do(After(s, labels), l).At(l.w) == Ended(Refused(Busy)) && Do(After(s, labels), l).db == After(s, labels).db
    decreases |labels|
  {
    if labels == [] {
      forall l | Enabled(s, l) && l.Take? ensures Do(s, l).At(l.w) == Ended(Refused(Busy)) && Do(s, l).db == s.db {
        StepKeepsLease(s, l, token, until);
      }
    } else {
      ClockRuns(s, labels[0]);
      ClockRunsOn(Do(s, labels[0]), labels[1..]);
      StepKeepsLease(s, labels[0], token, until);
      hide Enabled, Do, LeasedUntil, Releases;
      LiveLeaseKeepsOthersOut(Do(s, labels[0]), labels[1..], token, until);
    }
  }

  // ---- A revoked token ----

  /** A token that was issued and does not own the task. */
  ghost predicate Revoked(s: Sys, token: string) {
    token in s.issued && (s.db.task.Some? ==> s.db.task.value.leaseToken != Some(token))
  }

  lemma StepKeepsRevoked(s: Sys, l: Label, token: string)
    requires Enabled(s, l) && Revoked(s, token)
    ensures Revoked(Do(s, l), token)
  {
    hide ReadLedger, Persistable, RunHeld, CloseRuns, Supersede, Reclaim, LeaseEnd;
  }

  lemma {:induction false} RunKeepsRevoked(s: Sys, labels: seq<Label>, token: string)
    requires Runs(s, labels) && Revoked(s, token)
    ensures Revoked(After(s, labels), token)
    decreases |labels|
  {
    hide Enabled, Do, Revoked;
    if labels != [] {
      StepKeepsRevoked(s, labels[0], token);
      RunKeepsRevoked(Do(s, labels[0]), labels[1..], token);
    }
  }

  /**
   An edit goes through exactly when no lease is live, its payload is stored under the same
   generation, and in no continuation does the claim it cleared commit a run, whatever it holds.
   */
  lemma EditRevokesTheClaim(s: Sys, payload: TaskPayload, labels: seq<Label>, w: nat, later: TaskPayload, result: RunResult)
    requires Reachable(s) && Enabled(s, MutateTask(payload)) && Runs(Do(s, MutateTask(payload)), labels)
    requires Enabled(After(Do(s, MutateTask(payload)), labels), CommitRun(w, later, result))
    requires After(Do(s, MutateTask(payload)), labels).At(w).claim.token in s.issued
    ensures var end := After(Do(s, MutateTask(payload)), labels);
            Do(end, CommitRun(w, later, result)) == end.Put(w, Failing(end.At(w).claim, LeaseLost))
  {
    ReachableInv(s);
    var edited := Do(s, MutateTask(payload));
    var token := After(edited, labels).At(w).claim.token;
    assert Revoked(edited, token);
    RunKeepsRevoked(edited, labels, token);
    hide RunHeld;
  }

  /** Editing and deleting wait for the lease, and for nothing else. */
  lemma EditsWaitForTheLease(s: Sys, payload: TaskPayload)
    ensures Enabled(s, MutateTask(payload)) <==> Enabled(s, DeleteTask)
    ensures Enabled(s, DeleteTask) <==>
      && s.db.task.Some?
      && (s.db.task.value.leaseToken.None? || s.db.task.value.leaseExpires.None? || s.db.task.value.leaseExpires.value <= s.now)
    ensures Enabled(s, MutateTask(payload)) ==>
      && Do(s, MutateTask(payload)).db.task.Some?
      && Do(s, MutateTask(payload)).db.task.value.payload == payload
      && Do(s, MutateTask(payload)).db.task.value.generation == s.db.task.value.generation
      && Do(s, MutateTask(payload)).db.task.value.leaseToken.None?
      && Do(s, MutateTask(payload)).db.runs == s.db.runs
    ensures Enabled(s, DeleteTask) ==> Do(s, DeleteTask).db == Db(None, map[], map[], map[])
  {
  }

  // ---- Receipts land as recorded ----

  /** Wherever a receipt for the intent is, pending or durable, it is this one; none is still to be made. */
  ghost predicate OnlyReceipt(s: Sys, id: string, row: ReceiptRow) {
    && id in s.insertedAt
    && (id in s.db.receipts ==> s.db.receipts[id] == row)
    && (forall w :: s.At(w).Executing? && id in s.At(w).pending ==> s.At(w).pending[id] == row)
    && (forall w :: s.At(w).Executing? ==> s.At(w).inFlight != Some(id))
  }

  /** A receipt is durable because it was, or because its worker committed it. */
  lemma ReceiptOrigin(s: Sys, l: Label, id: string)
    requires Enabled(s, l) && id in Do(s, l).db.receipts
    ensures (id in s.db.receipts && Do(s, l).db.receipts[id] == s.db.receipts[id])
         || (l.CommitRun? && s.At(l.w).Executing? && id in s.At(l.w).pending
             && Do(s, l).db.receipts[id] == s.At(l.w).pending[id])
  {
    hide ReadLedger, ClaimLease, Renew, Park, Fail, Mutate, Persistable, RunHeld, CloseRuns;
  }

  /** It is pending because it was, or because its worker recorded it for the effect in flight. */
  lemma PendingOrigin(s: Sys, l: Label, w: nat, id: string)
    requires Enabled(s, l) && Do(s, l).At(w).Executing? && id in Do(s, l).At(w).pending
    ensures s.At(w).Executing? || s.At(w).Scanned?
    ensures (s.At(w).Executing? && id in s.At(w).pending && Do(s, l).At(w).pending[id] == s.At(w).pending[id])
         || (l.RecordReceipt? && l.w == w && s.At(w).Executing? && s.At(w).inFlight == Some(id))
  {
    hide ReadLedger, ClaimLease, Renew, Park, Fail, Mutate, Persistable, RunHeld, Complete;
  }

  lemma InFlightOrigin(s: Sys, l: Label, w: nat, id: string)
    requires Enabled(s, l) && Do(s, l).At(w).Executing? && Do(s, l).At(w).inFlight == Some(id)
    ensures (s.At(w).Executing? && s.At(w).inFlight == Some(id)) || (l.InsertIntent? && l.intentId == id)
  {
    hide ReadLedger, ClaimLease, Renew, Park, Fail, Mutate, Persistable, RunHeld, Complete;
  }

  lemma InsertedStays(s: Sys, l: Label, id: string)
    requires Enabled(s, l) && id in s.insertedAt
    ensures id in Do(s, l).insertedAt
  {
    hide ReadLedger, ClaimLease, Renew, Park, Fail, Mutate, Persistable, RunHeld, Complete;
  }

  lemma StepKeepsOnlyReceipt(s: Sys, l: Label, id: string, row: ReceiptRow)
    requires Enabled(s, l) && OnlyReceipt(s, id, row)
    ensures OnlyReceipt(Do(s, l), id, row)
  {
    var s' := Do(s, l);
    assert l.InsertIntent? ==> l.intentId != id;
    InsertedStays(s, l, id);
    if id in s'.db.receipts { ReceiptOrigin(s, l, id); }
    hide Do, Enabled;
    forall w | s'.At(w).Executing? ensures s'.At(w).inFlight != Some(id) && (id in s'.At(w).pending ==> s'.At(w).pending[id] == row) {
      if id in s'.At(w).pending { PendingOrigin(s, l, w, id); }
      if s'.At(w).inFlight == Some(id) { InFlightOrigin(s, l, w, id); }
    }
  }

  lemma {:induction false} RunKeepsOnlyReceipt(s: Sys, labels: seq<Label>, id: string, row: ReceiptRow)
    requires Runs(s, labels) && OnlyReceipt(s, id, row)
    ensures OnlyReceipt(After(s, labels), id, row)
    decreases |labels|
  {
    hide Enabled, Do, OnlyReceipt;
    if labels != [] {
      StepKeepsOnlyReceipt(s, labels[0], id, row);
      RunKeepsOnlyReceipt(Do(s, labels[0]), labels[1..], id, row);
    }
  }

  /**
   When a worker has recorded the outcome of its effect, then in every continuation the effect's
   durable receipt, if it has one, tells that outcome, provider and response, under that claim.
   */
  lemma ReceiptsTellTheOutcome(s: Sys, w: nat, status: EffectStatus, provider: string, response: map<string, Json>,
                               labels: seq<Label>)
    requires Reachable(s) && s.db.task.Some? && Enabled(s, RecordReceipt(w, status, provider, response))
    requires Do(s, RecordReceipt(w, status, provider, response)).At(w).Executing?
    requires Runs(Do(s, RecordReceipt(w, status, provider, response)), labels)
    ensures var id, claim := s.At(w).inFlight.value, s.At(w).claim;
            var end := After(Do(s, RecordReceipt(w, status, provider, response)), labels);
            id in end.db.receipts ==>
              end.db.receipts[id] == ReceiptRow(status, provider, Persistable(response), claim.generation, claim.token)
  {
    ReachableInv(s);
    var id, claim := s.At(w).inFlight.value, s.At(w).claim;
    var s1 := Do(s, RecordReceipt(w, status, provider, response));
    StepKeeps(s, RecordReceipt(w, status, provider, response));
    OwnReceiptIsTheOnlyOne(s1, w, id);
    RunKeepsOnlyReceipt(s1, labels, id, s1.At(w).pending[id]);
  }

  lemma OwnReceiptIsTheOnlyOne(s: Sys, w: nat, id: string)
    requires Inv(s) && s.db.task.Some? && s.At(w).Executing? && s.At(w).inFlight.None? && id in s.At(w).pending
    ensures OnlyReceipt(s, id, s.At(w).pending[id])
  {
    assert OwnEffectsOk(s, w) && Has(s, w);
    forall v | s.At(v).Executing? && (id in s.At(v).pending || s.At(v).inFlight == Some(id)) ensures v == w {
      assert OwnEffectsOk(s, v) && Has(s, v);
    }
  }

  // ---- The refusal of an orphan ----

  /**
   A worker that found an orphan parks the task as told while its lease holds, unless the task is over
   already; a lost lease writes nothing. Either way the run fails and no effect is begun.
   */
  lemma RefusalParks(s: Sys, w: nat, payload: TaskPayload)
    requires Enabled(s, ParkTask(w, payload))
    ensures var claim, after := s.At(w).claim, Do(s, ParkTask(w, payload));
            var over := claim.payload.state == Completed || claim.payload.state == Failed || claim.payload.state == Cancelled;
            var held := s.db.task.Some? && s.db.task.value.leaseToken == Some(claim.token);
            && after.At(w) == Failing(claim, if over || held then AmbiguousEffect else LeaseLost)
            && after.workers == s.workers[w := after.At(w)]
            && after.db.task == (if held && !over then Some(s.db.task.value.(payload := payload)) else s.db.task)
            && after.db.runs == s.db.runs && after.db.intents == s.db.intents && after.db.receipts == s.db.receipts
  {
  }
}
