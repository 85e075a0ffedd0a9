/**
 What the evidence reader finds when it reads the rows the protocol leaves behind:
 it never refuses them, and its verdicts are the protocol's own facts.
 */
module EvidenceGuarantees {
  import opened Prelude
  import AgentRows
  import opened EffectProtocol
  import opened EffectInvariant
  import opened Evidence

  ghost predicate InPlan(steps: seq<RawStep>, call: AgentRows.EffectCall) {
    RawStep(Some(call.stepId), Some(call.toolName), Some(call.arguments)) in steps
  }

  /** The runtime only begins the effects of the stored plan. */
  ghost predicate FollowsPlan(labels: seq<Label>, steps: seq<RawStep>) {
    forall l :: l in labels && l.CheckFence? ==> InPlan(steps, l.call)
  }

  ghost predicate PlanKept(s: Sys, steps: seq<RawStep>) {
    && (forall i :: i in s.db.intents ==> InPlan(steps, s.db.intents[i].call))
    && (forall w :: s.At(w).Executing? && s.At(w).fenced.Some? ==> InPlan(steps, s.At(w).fenced.value))
  }

  /** An intent row appears with the call its worker was fenced for; a fenced call was asked for. */
  lemma IntentOrigin(s: Sys, l: Label, i: string)
    requires Enabled(s, l) && i in Do(s, l).db.intents
    ensures (i in s.db.intents && Do(s, l).db.intents[i] == s.db.intents[i])
         || (l.InsertIntent? && s.At(l.w).Executing? && s.At(l.w).fenced == Some(Do(s, l).db.intents[i].call))
  {
  }

  lemma FencedOrigin(s: Sys, l: Label, w: nat)
    requires Enabled(s, l) && Do(s, l).At(w).Executing? && Do(s, l).At(w).fenced.Some?
    ensures (s.At(w).Executing? && s.At(w).fenced == Do(s, l).At(w).fenced)
         || l == CheckFence(w, Do(s, l).At(w).fenced.value)
  {
    hide AgentRows.ReadLedger, AgentRows.ClaimLease, AgentRows.Complete, AgentRows.Fail, AgentRows.Park, AgentRows.Renew,
         AgentRows.Mutate, AgentRows.Persistable, AgentRows.Deleted, RunHeld, Fresh;
  }

  lemma StepKeepsPlan(s: Sys, l: Label, steps: seq<RawStep>)
    requires Enabled(s, l) && PlanKept(s, steps)
    requires l.CheckFence? ==> InPlan(steps, l.call)
    ensures PlanKept(Do(s, l), steps)
  {
    hide InPlan, Do;
    forall i | i in Do(s, l).db.intents ensures InPlan(steps, Do(s, l).db.intents[i].call) {
      IntentOrigin(s, l, i);
    }
    forall w | Do(s, l).At(w).Executing? && Do(s, l).At(w).fenced.Some?
      ensures InPlan(steps, Do(s, l).At(w).fenced.value)
    {
      FencedOrigin(s, l, w);
    }
  }

  lemma {:induction false} RunKeepsPlan(s: Sys, labels: seq<Label>, steps: seq<RawStep>)
    requires Runs(s, labels) && PlanKept(s, steps) && FollowsPlan(labels, steps)
    ensures PlanKept(After(s, labels), steps)
    decreases |labels|
  {
    if labels != [] {
      assert labels[0] in labels;
      assert forall l :: l in labels[1..] ==> l in labels;
      StepKeepsPlan(s, labels[0], steps);
      RunKeepsPlan(Do(s, labels[0]), labels[1..], steps);
    }
  }

  function RecordOf(owner: string, task: string, id: string, row: AgentRows.IntentRow): IntentRecord {
    IntentRecord(owner, task, id, row.call.stepId, StepCall(row.call.toolName, row.call.arguments),
                 row.generation, row.leaseToken)
  }

  function ReceiptRecordOf(owner: string, task: string, id: string, row: AgentRows.ReceiptRow): ReceiptRecord {
    ReceiptRecord(owner, task, id, row.status.Succeeded?, row.generation, row.leaseToken)
  }

  /** Both SELECTs return every row of the task once, in any order. */
  ghost predicate ReadsAll(db: AgentRows.Db, owner: string, task: string,
                           intents: seq<IntentRecord>, receipts: seq<ReceiptRecord>) {
    && DistinctIds(intents)
    && (forall r :: r in intents ==>
          r.intentId in db.intents && r == RecordOf(owner, task, r.intentId, db.intents[r.intentId]))
    && (forall id :: id in db.intents ==> RecordOf(owner, task, id, db.intents[id]) in intents)
    && (forall i, j | 0 <= i < j < |receipts| :: receipts[i].intentId != receipts[j].intentId)
    && (forall r :: r in receipts ==>
          r.intentId in db.receipts && r == ReceiptRecordOf(owner, task, r.intentId, db.receipts[r.intentId]))
    && (forall id :: id in db.receipts ==> ReceiptRecordOf(owner, task, id, db.receipts[id]) in receipts)
  }

  ghost predicate EffectOf(db: AgentRows.Db, sid: string, id: string) {
    id in db.intents && db.intents[id].call.stepId == sid
  }

  /** The step's only recorded effect is `id`, and its receipt says it succeeded. */
  ghost predicate OnlyEffectSucceeded(db: AgentRows.Db, sid: string, id: string) {
    && id in db.intents && db.intents[id].call.stepId == sid
    && (forall other :: other in db.intents && db.intents[other].call.stepId == sid ==> other == id)
    && id in db.receipts && db.receipts[id].status.Succeeded?
  }

  ghost predicate DistinctIds(intents: seq<IntentRecord>) {
    forall i, j | 0 <= i < j < |intents| :: intents[i].intentId != intents[j].intentId
  }

  lemma {:induction false} InvocationsAreDistinct(intents: seq<IntentRecord>, sid: string)
    requires DistinctIds(intents)
    ensures DistinctIds(Invocations(intents, sid))
  {
    if intents != [] {
      var last := intents[|intents| - 1];
      var before := intents[..|intents| - 1];
      assert DistinctIds(before);
      InvocationsAreDistinct(before, sid);
      var calls := Invocations(before, sid);
      forall i | 0 <= i < |calls| ensures calls[i].intentId != last.intentId {
        assert calls[i] in calls;
        var k :| 0 <= k < |before| && before[k] == calls[i];
        assert intents[k] == calls[i];
      }
    }
  }

  lemma ReceiptedNamesOneSuccess(s: Sys, owner: string, task: string,
                                 intents: seq<IntentRecord>, receipts: seq<ReceiptRecord>, sid: string)
    requires ReadsAll(s.db, owner, task, intents, receipts) && ReceiptedStep(sid, intents, receipts)
    ensures OnlyEffectSucceeded(s.db, sid, Invocations(intents, sid)[0].intentId)
  {
    var calls := Invocations(intents, sid);
    assert calls[0] in calls;
    var receipt :| receipt in receipts && Proves(receipt, calls[0]);
    forall other | other in s.db.intents && s.db.intents[other].call.stepId == sid
      ensures other == calls[0].intentId
    {
      assert RecordOf(owner, task, other, s.db.intents[other]) in calls;
    }
  }

  lemma OneSuccessIsReceipted(s: Sys, owner: string, task: string,
                              intents: seq<IntentRecord>, receipts: seq<ReceiptRecord>, sid: string, id: string)
    requires ReadsAll(s.db, owner, task, intents, receipts) && OnlyEffectSucceeded(s.db, sid, id)
    requires s.db.receipts[id].leaseToken == s.db.intents[id].leaseToken != ""
    requires s.db.receipts[id].generation == s.db.intents[id].generation
    ensures ReceiptedStep(sid, intents, receipts)
  {
    var calls := Invocations(intents, sid);
    InvocationsAreDistinct(intents, sid);
    var row := RecordOf(owner, task, id, s.db.intents[id]);
    assert row in intents && row.stepId == sid;
    assert row in calls && DistinctIds(calls);
    forall i | 0 <= i < |calls| ensures calls[i].intentId == id {
      assert calls[i] in calls && calls[i] in intents;
    }
    assert |calls| < 2 || calls[0].intentId != calls[1].intentId;
    assert Proves(ReceiptRecordOf(owner, task, id, s.db.receipts[id]), row);
  }

  lemma IntentRowIsAccepted(s: Sys, steps: seq<RawStep>, owner: string, task: string, r: IntentRecord)
    requires IntentsOk(s) && PlanKept(s, steps) && r.intentId in s.db.intents
    requires r == RecordOf(owner, task, r.intentId, s.db.intents[r.intentId])
    ensures IntentAccepted(owner, task, steps, r)
  {
    var call := s.db.intents[r.intentId].call;
    assert InPlan(steps, call);
    var at :| 0 <= at < |steps| && steps[at] == RawStep(Some(call.stepId), Some(call.toolName), Some(call.arguments));
    assert Calls(steps[at], r);
  }

  lemma ReceiptRowsAreAccepted(s: Sys, owner: string, task: string, intents: seq<IntentRecord>, receipts: seq<ReceiptRecord>)
    requires ReceiptsOk(s) && ReadsAll(s.db, owner, task, intents, receipts)
    ensures ReceiptsAccepted(owner, task, IdsOf(intents), receipts)
  {
    assert s.db.receipts.Keys <= s.db.intents.Keys;
    hide ReceiptsOk;
    forall i | 0 <= i < |receipts|
      ensures receipts[i].ownerId == owner && receipts[i].taskId == task && receipts[i].intentId in IdsOf(intents)
    {
      var r := receipts[i];
      assert r in receipts;
      assert RecordOf(owner, task, r.intentId, s.db.intents[r.intentId]) in intents;
    }
  }

  /** Rows of the protocol contradict neither the plan nor each other. */
  lemma RowsAreAccepted(s: Sys, steps: seq<RawStep>, owner: string, task: string,
                        intents: seq<IntentRecord>, receipts: seq<ReceiptRecord>)
    requires IntentsOk(s) && ReceiptsOk(s) && PlanKept(s, steps) && ReadsAll(s.db, owner, task, intents, receipts)
    ensures IntentsAccepted(owner, task, steps, intents)
    ensures ReceiptsAccepted(owner, task, IdsOf(intents), receipts)
  {
    ReceiptRowsAreAccepted(s, owner, task, intents, receipts);
    hide IntentsOk, ReceiptsOk, PlanKept, ReceiptsAccepted, IntentAccepted;
    forall i | 0 <= i < |intents| ensures IntentAccepted(owner, task, steps, intents[i]) {
      assert intents[i] in intents;
      IntentRowIsAccepted(s, steps, owner, task, intents[i]);
    }
  }

  /** A receipt row repeats its intent's token and generation, and no token is empty. */
  lemma ReceiptRepeatsIntent(s: Sys, id: string)
    requires TokensOk(s) && IntentsOk(s) && ReceiptsOk(s) && id in s.db.receipts
    ensures id in s.db.intents && s.db.receipts[id].leaseToken == s.db.intents[id].leaseToken != ""
    ensures s.db.receipts[id].generation == s.db.intents[id].generation
  {
  }

  lemma ReceiptedExactly(s: Sys, owner: string, task: string,
                         intents: seq<IntentRecord>, receipts: seq<ReceiptRecord>, sid: string)
    requires TokensOk(s) && IntentsOk(s) && ReceiptsOk(s) && ReadsAll(s.db, owner, task, intents, receipts)
    ensures ReceiptedStep(sid, intents, receipts) <==> exists id :: OnlyEffectSucceeded(s.db, sid, id)
  {
    hide TokensOk, IntentsOk, ReceiptsOk, ReadsAll, ReceiptedStep;
    if ReceiptedStep(sid, intents, receipts) {
      ReceiptedNamesOneSuccess(s, owner, task, intents, receipts, sid);
    }
    if id :| OnlyEffectSucceeded(s.db, sid, id) {
      ReceiptRepeatsIntent(s, id);
      OneSuccessIsReceipted(s, owner, task, intents, receipts, sid, id);
    }
  }

  lemma OrphanSpoilsItsStep(db: AgentRows.Db, id: string)
    requires AgentRows.Orphan(db, id)
    ensures EffectOf(db, db.intents[id].call.stepId, id)
    ensures forall other :: !OnlyEffectSucceeded(db, db.intents[id].call.stepId, other)
  {
  }

  /**
   Over every run that follows a well-formed plan, the reader accepts what it reads; a
   step is receipted exactly when its only effect succeeded; the steps with effects split
   into receipted and ambiguous ones; and an effect without a receipt makes its step
   ambiguous.
   */
  lemma ReaderAgreesWithTheProtocol(s0: Sys, labels: seq<Label>, steps: seq<RawStep>, owner: string, task: string,
                                    intents: seq<IntentRecord>, receipts: seq<ReceiptRecord>)
    requires Init(s0) && Runs(s0, labels) && PlanAccepted(steps) && FollowsPlan(labels, steps)
    requires ReadsAll(After(s0, labels).db, owner, task, intents, receipts)
    ensures IntentsAccepted(owner, task, steps, intents)
    ensures ReceiptsAccepted(owner, task, IdsOf(intents), receipts)
    ensures forall sid :: (ReceiptedStep(sid, intents, receipts) <==>
                           exists id :: OnlyEffectSucceeded(After(s0, labels).db, sid, id))
    ensures forall sid :: (InvokedStep(sid, intents) <==>
                           exists id :: EffectOf(After(s0, labels).db, sid, id))
    ensures forall id :: AgentRows.Orphan(After(s0, labels).db, id) ==>
      var sid := After(s0, labels).db.intents[id].call.stepId;
      InvokedStep(sid, intents) && !ReceiptedStep(sid, intents, receipts)
  {
    var s := After(s0, labels);
    RunIsInOrder(s0, labels, steps);
    RowsAreAccepted(s, steps, owner, task, intents, receipts);
    hide Init, Runs, After, FollowsPlan, PlanAccepted, TokensOk, IntentsOk, ReceiptsOk, PlanKept, ReceiptedStep, InvokedStep,
         ReadsAll, IntentsAccepted, ReceiptsAccepted, OnlyEffectSucceeded, EffectOf;
    forall sid ensures ReceiptedStep(sid, intents, receipts) <==> exists id :: OnlyEffectSucceeded(s.db, sid, id) {
      ReceiptedExactly(s, owner, task, intents, receipts, sid);
    }
    forall sid ensures InvokedStep(sid, intents) <==> exists id :: EffectOf(s.db, sid, id) {
      StepIsInvoked(s.db, owner, task, intents, receipts, sid);
    }
    forall id | AgentRows.Orphan(s.db, id)
      ensures var sid := s.db.intents[id].call.stepId; InvokedStep(sid, intents) && !ReceiptedStep(sid, intents, receipts) {
      OrphanSpoilsItsStep(s.db, id);
    }
  }

  lemma RunIsInOrder(s0: Sys, labels: seq<Label>, steps: seq<RawStep>)
    requires Init(s0) && Runs(s0, labels) && FollowsPlan(labels, steps)
    ensures var s := After(s0, labels); TokensOk(s) && IntentsOk(s) && ReceiptsOk(s) && PlanKept(s, steps)
  {
    InitHolds(s0);
    RunKeeps(s0, labels);
    RunKeepsPlan(s0, labels, steps);
    hide LedgerInv, PlanKept, TokensOk, IntentsOk, ReceiptsOk;
  }

  lemma StepIsInvoked(db: AgentRows.Db, owner: string, task: string,
                      intents: seq<IntentRecord>, receipts: seq<ReceiptRecord>, sid: string)
    requires ReadsAll(db, owner, task, intents, receipts)
    ensures InvokedStep(sid, intents) <==> exists id :: EffectOf(db, sid, id)
  {
    var calls := Invocations(intents, sid);
    if calls != [] {
      assert calls[0] in calls && EffectOf(db, sid, calls[0].intentId);
    }
    forall id | EffectOf(db, sid, id) ensures calls != [] {
      assert RecordOf(owner, task, id, db.intents[id]) in calls;
    }
  }
}
