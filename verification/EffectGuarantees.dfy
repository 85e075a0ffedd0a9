/**
 What the protocol promises over whole runs: effects begin on a receipted past, a left-behind one
 blocks the task, a stale worker is fenced off, a key keeps its first answer.
 */
module EffectGuarantees {
  import opened Prelude
  import opened JsonValues
  import opened AgentRows
  import opened EffectProtocol
  import opened EffectInvariant

  ghost predicate Reachable(s: Sys) {
    exists s0, labels :: Init(s0) && Runs(s0, labels) && After(s0, labels) == s
  }

  lemma ReachableInv(s: Sys)
    requires Reachable(s)
    ensures Inv(s)
  {
    var s0, labels :| Init(s0) && Runs(s0, labels) && After(s0, labels) == s;
    InitHolds(s0);
    RunKeeps(s0, labels);
  }

  // ---- Effects and orphans ----

  /**
   The decision of the orphan scan stays right for as long as the worker executes: every
   effect of an earlier generation that was recorded on time has a durable receipt.
   */
  lemma EffectsBeginOnAReceiptedPast(s: Sys, w: nat, i: string)
    requires Reachable(s) && s.At(w).Executing?
    requires OnTime(s, i) && s.db.intents[i].generation < s.At(w).claim.generation
    ensures i in s.db.receipts
  {
    ReachableInv(s);
    assert ScanOk(s, w);
  }

  lemma OrphansShareOneGeneration(s: Sys, i: string, j: string)
    requires Reachable(s) && OnTime(s, i) && OnTime(s, j) && Orphan(s.db, i) && Orphan(s.db, j)
    ensures s.db.intents[i].generation == s.db.intents[j].generation
  {
    ReachableInv(s);
  }

  /** The effects of one claim become receipted together or not at all. */
  lemma ReceiptsAreAllOrNothing(s: Sys, i: string, j: string)
    requires Reachable(s) && i in s.db.intents && j in s.db.intents
    requires s.db.intents[i].generation == s.db.intents[j].generation
    ensures i in s.db.receipts <==> j in s.db.receipts
  {
    ReachableInv(s);
    assert s.db.intents[i].leaseToken == s.db.intents[j].leaseToken;
  }

  /** An effect recorded on time, without a receipt, whose generation has been superseded. */
  ghost predicate LeftBehind(s: Sys, i: string) {
    && s.db.task.Some? && OnTime(s, i) && Orphan(s.db, i)
    && s.db.intents[i].generation < s.db.task.value.generation
  }

  lemma StepKeepsGeneration(s: Sys, l: Label)
    requires Enabled(s, l) && Do(s, l).db.task.Some?
    ensures s.db.task.Some?
    ensures s.db.task.value.generation <= Do(s, l).db.task.value.generation
  {
    hide ReadLedger, ClaimLease, Renew, Park, Complete, Fail, Mutate, Persistable, RunHeld;
  }

  lemma StepKeepsReceipts(s: Sys, l: Label)
    requires Enabled(s, l) && !l.CommitRun? && Do(s, l).db.task.Some?
    ensures Do(s, l).db.receipts == s.db.receipts
  {
    hide ReadLedger, ClaimLease, Renew, Park, Complete, Fail, Mutate, Persistable, RunHeld;
  }

  lemma StepKeepsIntents(s: Sys, l: Label)
    requires Enabled(s, l) && !l.InsertIntent? && Do(s, l).db.task.Some?
    ensures Do(s, l).db.intents == s.db.intents && Do(s, l).insertedAt == s.insertedAt
  {
    hide ReadLedger, ClaimLease, Renew, Park, Complete, Fail, Mutate, Persistable, RunHeld;
  }

  /** Which steps touch effect rows, and that none rewrites one. */
  lemma StepEffectRows(s: Sys, l: Label)
    requires Enabled(s, l) && Do(s, l).db.task.Some?
    ensures s.db.task.Some?
    ensures s.db.task.value.generation <= Do(s, l).db.task.value.generation
    ensures !l.InsertIntent? ==> Do(s, l).db.intents == s.db.intents && Do(s, l).insertedAt == s.insertedAt
    ensures !l.CommitRun? ==> Do(s, l).db.receipts == s.db.receipts
  {
    hide Do, Enabled;
    StepKeepsGeneration(s, l);
    if !l.InsertIntent? { StepKeepsIntents(s, l); }
    if !l.CommitRun? { StepKeepsReceipts(s, l); }
  }

  lemma {:induction false} IntentsAreFrozen(s: Sys, labels: seq<Label>)
    requires Runs(s, labels) && After(s, labels).db.task.Some?
    requires s.db.intents.Keys <= s.insertedAt.Keys
    ensures forall j :: j in s.db.intents ==>
      j in After(s, labels).db.intents && After(s, labels).db.intents[j] == s.db.intents[j]
    decreases |labels|
  {
    if labels != [] {
      var s1 := Do(s, labels[0]);
      if s1.db.task.None? { GoneStaysGone(s1, labels[1..]); }
      StepEffectRows(s, labels[0]);
      if labels[0].InsertIntent? {
        assert s1.db.intents.Keys <= s1.insertedAt.Keys;
        assert forall j :: j in s.db.intents ==> j in s1.db.intents && s1.db.intents[j] == s.db.intents[j];
      }
      IntentsAreFrozen(s1, labels[1..]);
    }
  }

  lemma LeftBehindStaysOnInsert(s: Sys, w: nat, id: string, i: string)
    requires Inv(s) && Enabled(s, InsertIntent(w, id)) && LeftBehind(s, i)
    ensures LeftBehind(InsertIntentStep(s, w, id), i)
    ensures InsertIntentStep(s, w, id).db.intents == s.db.intents[id := InsertIntentStep(s, w, id).db.intents[id]]
    ensures id !in s.db.intents
    ensures InsertIntentStep(s, w, id).db.intents[id].generation <= s.db.intents[i].generation
  {
    assert ScanOk(s, w);
  }

  lemma LeftBehindStaysOnCommit(s: Sys, w: nat, payload: TaskPayload, result: RunResult, i: string)
    requires Inv(s) && Enabled(s, CommitRun(w, payload, result)) && LeftBehind(s, i)
    ensures LeftBehind(CommitRunStep(s, w, payload, result), i)
  {
    assert Has(s, w) && OwnEffectsOk(s, w);
  }

  lemma LeftBehindStaysElsewhere(s: Sys, l: Label, i: string)
    requires Enabled(s, l) && LeftBehind(s, i) && Do(s, l).db.task.Some?
    requires !l.InsertIntent? && !l.CommitRun?
    ensures LeftBehind(Do(s, l), i) && Do(s, l).db.intents == s.db.intents
  {
    hide Do;
    StepEffectRows(s, l);
  }

  lemma LeftBehindStays(s: Sys, l: Label, i: string)
    requires Inv(s) && Enabled(s, l) && LeftBehind(s, i) && Do(s, l).db.task.Some?
    ensures LeftBehind(Do(s, l), i)
    ensures Do(s, l).db.intents[i] == s.db.intents[i]
    ensures forall j :: j in Do(s, l).db.intents && j !in s.db.intents ==>
      Do(s, l).db.intents[j].generation <= s.db.intents[i].generation
  {
    if l.InsertIntent? {
      LeftBehindStaysOnInsert(s, l.w, l.intentId, i);
    } else if l.CommitRun? {
      LeftBehindStaysOnCommit(s, l.w, l.payload, l.result, i);
      StepEffectRows(s, l);
    } else {
      LeftBehindStaysElsewhere(s, l, i);
    }
  }

  /**
   Once an effect is left behind, no later claim runs any effect until the task is
   deleted: along every run the orphan stays, and whatever intents appear are late ones
   of its own or an older generation.
   */
  lemma {:induction false} LeftBehindBlocksTheTask(s: Sys, labels: seq<Label>, i: string)
    requires Inv(s) && LeftBehind(s, i) && Runs(s, labels) && After(s, labels).db.task.Some?
    ensures LeftBehind(After(s, labels), i)
    ensures After(s, labels).db.intents[i] == s.db.intents[i]
    ensures forall j :: j in After(s, labels).db.intents && j !in s.db.intents ==>
      After(s, labels).db.intents[j].generation <= s.db.intents[i].generation
    ensures forall w :: After(s, labels).At(w).Executing? ==>
      After(s, labels).At(w).claim.generation <= s.db.intents[i].generation
    decreases |labels|
  {
    if labels == [] {
      forall w | s.At(w).Executing? ensures s.At(w).claim.generation <= s.db.intents[i].generation {
        assert ScanOk(s, w);
      }
    } else {
      var s1 := Do(s, labels[0]);
      StepKeeps(s, labels[0]);
      if s1.db.task.None? { GoneStaysGone(s1, labels[1..]); }
      LeftBehindStays(s, labels[0], i);
      assert s1.db.intents.Keys <= s1.insertedAt.Keys;
      IntentsAreFrozen(s1, labels[1..]);
      LeftBehindBlocksTheTask(s1, labels[1..], i);
    }
  }

  /** A deleted task never comes back. */
  lemma {:induction false} GoneStaysGone(s: Sys, labels: seq<Label>)
    requires s.db.task.None? && Runs(s, labels)
    ensures After(s, labels).db.task.None?
    decreases |labels|
  {
    if labels != [] {
      GoneStaysGone(Do(s, labels[0]), labels[1..]);
    }
  }

  // ---- Fencing ----

  /** The worker whose step a label is, if it is a worker's. */
  function ActorOf(l: Label): Option<nat> {
    match l
    case Tick(_) => None
    case MutateTask(_) => None
    case DeleteTask => None
    case _ => Some(l.w)
  }

  ghost predicate Stale(s: Sys, w: nat) {
    Has(s, w) && s.db.task.Some? && s.At(w).claim.generation < s.db.task.value.generation
  }

  /**
   After a newer claim, nothing an older worker does reaches the task row, the run ledger
   or the receipts: renewing, parking, completing and failing all miss.
   */
  lemma StaleWorkerIsFencedOff(s: Sys, l: Label, w: nat)
    requires Reachable(s) && Enabled(s, l) && ActorOf(l) == Some(w) && Stale(s, w)
    ensures Do(s, l).db.task == s.db.task
    ensures Do(s, l).db.runs == s.db.runs
    ensures Do(s, l).db.receipts == s.db.receipts
    ensures Do(s, l).At(w).HasClaim() ==> Stale(Do(s, l), w)
  {
    ReachableInv(s);
    StaleTokenHoldsNothing(s, s.At(w).claim.runId, s.At(w).claim.token, w);
    match l
    case CommitFailure(_, text) => StaleCloseIsIdle(s, w, text);
    case _ =>
  }

  lemma StaleTokenHoldsNothing(s: Sys, runId: string, token: string, w: nat)
    requires Inv(s) && Stale(s, w) && token == s.At(w).claim.token
    ensures !s.db.OwnedBy(token)
    ensures forall k :: k in s.db.runs ==> !s.db.runs[k].HeldBy(runId, token)
  {
    forall k | k in s.db.runs && s.db.runs[k].state.RunRunning? ensures !s.db.runs[k].HeldBy(runId, token) {
      assert RunningOk(s, s.db.runs[k]);
    }
  }

  lemma StaleCloseIsIdle(s: Sys, w: nat, text: string)
    requires s.At(w).Failing? && !s.db.OwnedBy(s.At(w).claim.token)
    requires forall k :: k in s.db.runs ==> !s.db.runs[k].HeldBy(s.At(w).claim.runId, s.At(w).claim.token)
    ensures FailureStep(s, w, text).db == s.db
  {
    assert FailureStep(s, w, text).db.runs == s.db.runs;
  }

  /** Generations only grow, and every claim made later in a run carries a larger one. */
  lemma {:induction false} ClaimsGrowTheGeneration(s: Sys, labels: seq<Label>)
    requires Inv(s) && Runs(s, labels) && After(s, labels).db.task.Some?
    ensures s.db.task.Some?
    ensures s.db.task.value.generation <= After(s, labels).db.task.value.generation
    ensures forall t :: t in s.issued ==> t in After(s, labels).issued && After(s, labels).issued[t] == s.issued[t]
    ensures forall t :: t in After(s, labels).issued && t !in s.issued ==>
      After(s, labels).issued[t] > s.db.task.value.generation
    decreases |labels|
  {
    if labels != [] {
      var s1 := Do(s, labels[0]);
      if s1.db.task.None? { GoneStaysGone(s1, labels[1..]); }
      StepEffectRows(s, labels[0]);
      StepKeeps(s, labels[0]);
      StepIssues(s, labels[0]);
      ClaimsGrowTheGeneration(s1, labels[1..]);
    }
  }

  lemma StepIssues(s: Sys, l: Label)
    requires Enabled(s, l) && s.db.task.Some?
    ensures forall t :: t in s.issued ==> t in Do(s, l).issued && Do(s, l).issued[t] == s.issued[t]
    ensures forall t :: t in Do(s, l).issued && t !in s.issued ==>
      l.Take? && t == l.token && Do(s, l).issued[t] == s.db.task.value.generation + 1
  {
  }

  lemma OneRunAtATime(s: Sys, k: string, m: string)
    requires Reachable(s) && k in s.db.runs && m in s.db.runs
    requires s.db.runs[k].state.RunRunning? && s.db.runs[m].state.RunRunning?
    ensures k == m
  {
    ReachableInv(s);
  }

  /**
   A receipt becomes durable only in the transaction that completes the run that recorded
   its intent, and that transaction leaves no intent of the run without a receipt.
   */
  lemma ReceiptsLandWithTheirRun(s: Sys, l: Label, i: string)
    requires Reachable(s) && Enabled(s, l)
    requires i in Do(s, l).db.receipts && i !in s.db.receipts
    ensures l.CommitRun? && s.At(l.w).Executing?
    ensures var claim := s.At(l.w).claim;
      && claim.key in s.db.runs && s.db.runs[claim.key].HeldBy(claim.runId, claim.token)
      && Do(s, l).db.runs[claim.key].state.RunCompleted?
      && i in s.db.intents && s.db.intents[i].leaseToken == claim.token
      && forall j :: j in s.db.intents && s.db.intents[j].leaseToken == claim.token ==> j in Do(s, l).db.receipts
  {
    ReachableInv(s);
    NewReceiptNeedsCommit(s, l, i);
    LandedReceipts(s, l.w, l.payload, l.result);
  }

  lemma NewReceiptNeedsCommit(s: Sys, l: Label, i: string)
    requires Enabled(s, l) && i in Do(s, l).db.receipts && i !in s.db.receipts
    ensures l.CommitRun? && s.At(l.w).Executing? && Do(s, l).At(l.w).Ended?
  {
    if Do(s, l).db.task.Some? { StepEffectRows(s, l); }
  }

  lemma LandedReceipts(s: Sys, w: nat, payload: TaskPayload, result: RunResult)
    requires Inv(s) && Enabled(s, CommitRun(w, payload, result))
    requires CommitRunStep(s, w, payload, result).At(w).Ended?
    ensures var claim := s.At(w).claim; var s' := CommitRunStep(s, w, payload, result);
      && claim.key in s.db.runs && s.db.runs[claim.key].HeldBy(claim.runId, claim.token)
      && s'.db.runs[claim.key].state.RunCompleted?
      && s'.db.runs[claim.key].result == Some(Persistable(result))
      && s'.db.runs[claim.key].maxSteps == s.db.runs[claim.key].maxSteps
      && (forall i :: i in s'.db.receipts && i !in s.db.receipts ==>
            i in s.db.intents && s.db.intents[i].leaseToken == claim.token)
      && forall j :: j in s.db.intents && s.db.intents[j].leaseToken == claim.token ==> j in s'.db.receipts
  {
    assert Has(s, w) && OwnEffectsOk(s, w);
  }

  // ---- The idempotency ledger ----

  /** A run row keeps its request; once completed or failed it keeps its state, result and error. */
  ghost predicate RowAdvances(before: RunRow, after: RunRow) {
    && after.id == before.id && after.maxSteps == before.maxSteps
    && (!before.state.RunRunning? ==>
          after.state == before.state && after.result == before.result && after.error == before.error)
  }

  lemma TakeAdvances(s: Sys, w: nat, token: string, freshRunId: string, leaseSeconds: int, k: string)
    requires Enabled(s, Take(w, token, freshRunId, leaseSeconds)) && k in s.db.runs
    ensures var s' := TakeStep(s, w, token, freshRunId, leaseSeconds);
            k in s'.db.runs && RowAdvances(s.db.runs[k], s'.db.runs[k])
  {
    hide LeaseEnd, Fresh;
  }

  lemma CommitAdvances(s: Sys, w: nat, payload: TaskPayload, result: RunResult, k: string)
    requires Enabled(s, CommitRun(w, payload, result)) && k in s.db.runs
    ensures var s' := CommitRunStep(s, w, payload, result);
            k in s'.db.runs && RowAdvances(s.db.runs[k], s'.db.runs[k])
  {
    hide Persistable, RunHeld;
  }

  lemma FailureAdvances(s: Sys, w: nat, text: string, k: string)
    requires Enabled(s, CommitFailure(w, text)) && k in s.db.runs
    ensures var s' := FailureStep(s, w, text);
            k in s'.db.runs && RowAdvances(s.db.runs[k], s'.db.runs[k])
  {
    hide FailureText;
  }

  lemma OtherStepKeepsRuns(s: Sys, l: Label)
    requires Enabled(s, l) && !l.Take? && !l.CommitRun? && !l.CommitFailure? && Do(s, l).db.task.Some?
    ensures Do(s, l).db.runs == s.db.runs
  {
    hide ReadLedger, TakeStep, CommitRunStep, FailureStep, Persistable, RunHeld, LeaseEnd;
  }

  lemma LedgerStep(s: Sys, l: Label, k: string)
    requires Enabled(s, l) && k in s.db.runs && Do(s, l).db.task.Some?
    ensures k in Do(s, l).db.runs && RowAdvances(s.db.runs[k], Do(s, l).db.runs[k])
  {
    if l.Take? {
      hide TakeStep, RowAdvances;
      TakeAdvances(s, l.w, l.token, l.freshRunId, l.leaseSeconds, k);
    } else if l.CommitRun? {
      hide CommitRunStep, RowAdvances;
      CommitAdvances(s, l.w, l.payload, l.result, k);
    } else if l.CommitFailure? {
      hide FailureStep, RowAdvances;
      FailureAdvances(s, l.w, l.text, k);
    } else {
      hide Do;
      OtherStepKeepsRuns(s, l);
    }
  }

  lemma {:induction false} LedgerOnlyAdvances(s: Sys, labels: seq<Label>, k: string)
    requires Runs(s, labels) && k in s.db.runs && After(s, labels).db.task.Some?
    ensures k in After(s, labels).db.runs && RowAdvances(s.db.runs[k], After(s, labels).db.runs[k])
    decreases |labels|
  {
    if labels != [] {
      var s1 := Do(s, labels[0]);
      if s1.db.task.None? { GoneStaysGone(s1, labels[1..]); }
      LedgerStep(s, labels[0], k);
      LedgerOnlyAdvances(s1, labels[1..], k);
    }
  }

  /**
   The answer a key was completed with is the answer every later request with the same
   parameters gets, with the approval token blanked, and that request changes no row.
   Between the completion and the request any run may happen.
   */
  lemma FirstAnswerIsReplayed(s: Sys, w: nat, payload: TaskPayload, result: RunResult,
                              labels: seq<Label>, v: nat)
    requires Reachable(s) && Enabled(s, CommitRun(w, payload, result))
    requires Do(s, CommitRun(w, payload, result)).At(w).Ended?
    requires Runs(Do(s, CommitRun(w, payload, result)), labels)
    requires After(Do(s, CommitRun(w, payload, result)), labels).db.task.Some?
    ensures var claim := s.At(w).claim;
      var later := After(Do(s, CommitRun(w, payload, result)), labels);
      && claim.key in s.db.runs
      && LookStep(later, v, claim.key, s.db.runs[claim.key].maxSteps)
         == later.Put(v, Ended(Replayed(Persistable(result))))
  {
    ReachableInv(s);
    LandedReceipts(s, w, payload, result);
    assert ValidRequest(s.At(w).claim.key, s.db.runs[s.At(w).claim.key].maxSteps);
    hide CommitRunStep, Inv;
    LedgerOnlyAdvances(Do(s, CommitRun(w, payload, result)), labels, s.At(w).claim.key);
  }

  /** A key that failed keeps refusing, and the parameters of a key never change. */
  lemma FailedKeyKeepsRefusing(s: Sys, labels: seq<Label>, k: string, maxSteps: int)
    requires Reachable(s) && Runs(s, labels) && After(s, labels).db.task.Some?
    requires k in s.db.runs && s.db.runs[k].state.RunFailed? && ValidRequest(k, maxSteps)
    ensures ReadLedger(After(s, labels).db, k, maxSteps)
         == Refuse(if maxSteps == s.db.runs[k].maxSteps then PreviouslyFailed else RunConflict)
  {
    LedgerOnlyAdvances(s, labels, k);
  }
}
