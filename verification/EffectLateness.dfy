/**
 Late effects: `record_intent` checks its fence in one statement and inserts in another, so an
 intent can be written after a newer claim. Exactly when, and what it costs.
 */
module EffectLateness {
  import opened Prelude
  import opened AgentRows
  import opened EffectProtocol
  import opened EffectInvariant
  import opened EffectGuarantees

  // ---- When an intent is late ----

  /** How many claims are granted along a run. */
  ghost function Claims(s: Sys, labels: seq<Label>): nat
    requires Runs(s, labels)
    decreases |labels|
  {
    if labels == [] then 0
    else (if Grants(s, labels[0]) then 1 else 0) + Claims(Do(s, labels[0]), labels[1..])
  }

  ghost predicate Grants(s: Sys, l: Label)
    requires Enabled(s, l)
  {
    l.Take? && Do(s, l).At(l.w).Holding?
  }

  lemma StepCountsClaims(s: Sys, l: Label)
    requires Enabled(s, l) && Do(s, l).db.task.Some?
    ensures s.db.task.Some?
    ensures Do(s, l).db.task.value.generation == s.db.task.value.generation + (if Grants(s, l) then 1 else 0)
  {
  }

  /** The generation counts the granted claims. */
  lemma {:induction false} GenerationCountsClaims(s: Sys, labels: seq<Label>)
    requires Runs(s, labels) && After(s, labels).db.task.Some?
    ensures s.db.task.Some?
    ensures After(s, labels).db.task.value.generation == s.db.task.value.generation + Claims(s, labels)
    decreases |labels|
  {
    hide Enabled, Do, Grants;
    if labels != [] {
      var s1 := Do(s, labels[0]);
      GenerationCountsClaims(s1, labels[1..]);
      StepCountsClaims(s, labels[0]);
    }
  }

  ghost predicate AwaitsInsert(s: Sys, w: nat) {
    s.At(w).Executing? && s.At(w).fenced.Some?
  }

  predicate ChecksFence(l: Label, w: nat) {
    l.CheckFence? && l.w == w
  }

  lemma OnlyAFenceCheckAwaits(s: Sys, l: Label, w: nat)
    requires Enabled(s, l) && !ChecksFence(l, w) && AwaitsInsert(Do(s, l), w)
    ensures AwaitsInsert(s, w)
  {
    hide ReadLedger, ClaimLease, Complete, Fail, Park, Renew, Mutate, Persistable, RunHeld, Deleted;
  }

  lemma StepKeepsFencedClaim(s: Sys, l: Label, w: nat)
    requires Enabled(s, l) && !ChecksFence(l, w) && AwaitsInsert(Do(s, l), w)
    ensures AwaitsInsert(s, w) && Do(s, l).At(w).claim == s.At(w).claim
  {
    OnlyAFenceCheckAwaits(s, l, w);
    hide ReadLedger, ClaimLease, Complete, Fail, Park, Renew, Mutate, Persistable, RunHeld, Deleted, ChecksFence;
  }

  lemma {:induction false} RunKeepsFencedClaim(s: Sys, labels: seq<Label>, w: nat)
    requires Runs(s, labels) && AwaitsInsert(After(s, labels), w)
    requires forall l | l in labels :: !ChecksFence(l, w)
    ensures AwaitsInsert(s, w) && After(s, labels).At(w).claim == s.At(w).claim
    decreases |labels|
  {
    hide Enabled, Do, AwaitsInsert, ChecksFence;
    if labels != [] {
      assert labels[0] in labels;
      RunKeepsFencedClaim(Do(s, labels[0]), labels[1..], w);
      StepKeepsFencedClaim(s, labels[0], w);
    }
  }

  /**
   From a fence check that succeeds, along any run to the insert it stands for: the intent is
   stored with its claim's generation, the task has moved on by the claims granted in between,
   and so the intent is on time if and only if no claim was granted between check and insert.
   */
  lemma LateExactlyAfterANewerClaim(s: Sys, w: nat, call: EffectCall, between: seq<Label>, id: string)
    requires Enabled(s, CheckFence(w, call)) && s.db.Fenced(s.At(w).claim.token, s.At(w).claim.generation)
    requires Runs(Do(s, CheckFence(w, call)), between) && forall l | l in between :: !ChecksFence(l, w)
    requires Enabled(After(Do(s, CheckFence(w, call)), between), InsertIntent(w, id))
    requires After(Do(s, CheckFence(w, call)), between).db.task.Some?
    ensures var checked := Do(s, CheckFence(w, call));
      var inserted := Do(After(checked, between), InsertIntent(w, id));
      && id in inserted.db.intents && id in inserted.insertedAt
      && inserted.db.intents[id].generation == s.At(w).claim.generation
      && inserted.insertedAt[id] == s.At(w).claim.generation + Claims(checked, between)
      && (OnTime(inserted, id) <==> Claims(checked, between) == 0)
  {
    var checked := Do(s, CheckFence(w, call));
    RunKeepsFencedClaim(checked, between, w);
    GenerationCountsClaims(checked, between);
  }

  // ---- Late effects are never receipted ----

  ghost predicate ReceiptedOnTime(s: Sys) {
    forall i :: i in s.db.receipts ==> OnTime(s, i)
  }

  lemma CommitReceiptsOnTime(s: Sys, w: nat, payload: TaskPayload, result: RunResult)
    requires Inv(s) && Enabled(s, CommitRun(w, payload, result)) && ReceiptedOnTime(s)
    ensures ReceiptedOnTime(CommitRunStep(s, w, payload, result))
  {
    var s' := CommitRunStep(s, w, payload, result);
    assert Has(s, w) && OwnEffectsOk(s, w);
    forall i | i in s'.db.receipts ensures OnTime(s', i) {
      if i in s.db.receipts { assert OnTime(s, i); }
    }
  }

  lemma StepKeepsReceiptedOnTime(s: Sys, l: Label)
    requires Inv(s) && Enabled(s, l) && ReceiptedOnTime(s)
    ensures ReceiptedOnTime(Do(s, l))
  {
    if Do(s, l).db.task.None? {
      StepKeeps(s, l);
      hide Do, Enabled;
    } else if l.CommitRun? {
      CommitReceiptsOnTime(s, l.w, l.payload, l.result);
    } else {
      StepEffectRows(s, l);
      if l.InsertIntent? {
        InsertAddsOne(s, l.w, l.intentId);
        hide InsertIntentStep, Inv, Enabled, OnTime;
        assert forall i | i in s.db.receipts :: OnTime(s, i) && i in s.db.intents by { OnTimeIsStored(s); }
      } else {
        hide Do, Inv, Enabled;
        assert forall i :: OnTime(Do(s, l), i) <==> OnTime(s, i);
      }
    }
  }

  lemma {:induction false} RunKeepsReceiptedOnTime(s: Sys, labels: seq<Label>)
    requires Inv(s) && Runs(s, labels) && ReceiptedOnTime(s)
    ensures ReceiptedOnTime(After(s, labels))
    decreases |labels|
  {
    hide Inv, Enabled, Do, ReceiptedOnTime;
    if labels != [] {
      StepKeeps(s, labels[0]);
      StepKeepsReceiptedOnTime(s, labels[0]);
      RunKeepsReceiptedOnTime(Do(s, labels[0]), labels[1..]);
    }
  }

  /** In every reachable state, an effect recorded late has no receipt. */
  lemma LateEffectsAreNeverReceipted(s: Sys, i: string)
    requires Reachable(s) && i in s.db.receipts
    ensures OnTime(s, i)
  {
    var s0, labels :| Init(s0) && Runs(s0, labels) && After(s0, labels) == s;
    InitHolds(s0);
    RunKeepsReceiptedOnTime(s0, labels);
  }

  /** While a worker executes, an effect of an earlier generation has a receipt if and only if it is on time. */
  lemma ReceiptedExactlyWhenOnTime(s: Sys, w: nat, i: string)
    requires Reachable(s) && s.At(w).Executing?
    requires i in s.db.intents && s.db.intents[i].generation < s.At(w).claim.generation
    ensures i in s.db.receipts <==> OnTime(s, i)
  {
    if i in s.db.receipts {
      LateEffectsAreNeverReceipted(s, i);
    } else if OnTime(s, i) {
      EffectsBeginOnAReceiptedPast(s, w, i);
    }
  }

  ghost predicate ReceiptedBelow(s: Sys, generation: nat) {
    forall i | i in s.db.intents :: s.db.intents[i].generation < generation ==> i in s.db.receipts
  }

  ghost predicate OnTimeBelow(s: Sys, generation: nat) {
    forall i | i in s.db.intents :: s.db.intents[i].generation < generation ==> OnTime(s, i)
  }

  // ---- The receipted past, over runs ----

  /** Inserts by a claim of a smaller generation happen only while that generation is the task's. */
  ghost predicate TimelyInsert(s: Sys, l: Label, generation: nat)
    requires Enabled(s, l)
  {
    l.InsertIntent? && s.At(l.w).claim.generation < generation && s.db.task.Some? ==>
      s.db.task.value.generation == s.At(l.w).claim.generation
  }

  ghost predicate TimelyInserts(s: Sys, labels: seq<Label>, generation: nat)
    requires Runs(s, labels)
    decreases |labels|
  {
    labels == [] || (TimelyInsert(s, labels[0], generation) && TimelyInserts(Do(s, labels[0]), labels[1..], generation))
  }

  lemma InsertIsTimelyExactly(s: Sys, l: Label, generation: nat)
    requires Inv(s) && Enabled(s, l) && l.InsertIntent? && s.db.task.Some?
    ensures OnTimeBelow(Do(s, l), generation) <==> (OnTimeBelow(s, generation) && TimelyInsert(s, l, generation))
  {
    InsertAddsOne(s, l.w, l.intentId);
    var s' := Do(s, l);
    assert s' == InsertIntentStep(s, l.w, l.intentId);
    hide Inv, OnTime, Do, InsertIntentStep;
    if OnTimeBelow(s', generation) {
      assert l.intentId in s'.db.intents;
      forall i | i in s.db.intents && s.db.intents[i].generation < generation ensures OnTime(s, i) {
        assert i in s'.db.intents;
      }
    }
  }

  lemma StepIsTimelyExactly(s: Sys, l: Label, generation: nat)
    requires Inv(s) && Enabled(s, l) && Do(s, l).db.task.Some?
    ensures OnTimeBelow(Do(s, l), generation) <==> (OnTimeBelow(s, generation) && TimelyInsert(s, l, generation))
  {
    StepEffectRows(s, l);
    if l.InsertIntent? {
      InsertIsTimelyExactly(s, l, generation);
    } else {
      hide Do, Inv, Enabled;
      assert forall i :: OnTime(Do(s, l), i) <==> OnTime(s, i);
    }
  }

  lemma {:induction false} OnTimeExactlyByTimelyInserts(s: Sys, labels: seq<Label>, generation: nat)
    requires Inv(s) && Runs(s, labels) && After(s, labels).db.task.Some?
    ensures OnTimeBelow(After(s, labels), generation)
       <==> (OnTimeBelow(s, generation) && TimelyInserts(s, labels, generation))
    decreases |labels|
  {
    hide Inv, Enabled, Do, OnTimeBelow, TimelyInsert;
    if labels != [] {
      var s1 := Do(s, labels[0]);
      StepKeeps(s, labels[0]);
      if s1.db.task.None? { GoneStaysGone(s1, labels[1..]); }
      StepIsTimelyExactly(s, labels[0], generation);
      OnTimeExactlyByTimelyInserts(s1, labels[1..], generation);
    }
  }

  /**
   Over every run of a task that is still there: when a worker executes, all effects of earlier
   generations are receipted, if and only if all of them are on time, if and only if every
   insert by an earlier claim happened before the next claim was granted.
   */
  lemma ReceiptedPastExactlyByTimelyInserts(s0: Sys, labels: seq<Label>, w: nat)
    requires Init(s0) && Runs(s0, labels) && After(s0, labels).db.task.Some? && After(s0, labels).At(w).Executing?
    ensures var s := After(s0, labels); var generation := s.At(w).claim.generation;
      && (ReceiptedBelow(s, generation) <==> OnTimeBelow(s, generation))
      && (OnTimeBelow(s, generation) <==> TimelyInserts(s0, labels, generation))
  {
    var s := After(s0, labels);
    var generation := s.At(w).claim.generation;
    InitHolds(s0);
    OnTimeExactlyByTimelyInserts(s0, labels, generation);
    forall i | i in s.db.intents && s.db.intents[i].generation < generation
      ensures i in s.db.receipts <==> OnTime(s, i) {
      ReceiptedExactlyWhenOnTime(s, w, i);
    }
    assert OnTimeBelow(s0, generation);
  }

  /** All orphans share one generation if every insert of the run is timely. */
  lemma TimelyOrphansShareOneGeneration(s0: Sys, labels: seq<Label>, bound: nat, i: string, j: string)
    requires Init(s0) && Runs(s0, labels) && After(s0, labels).db.task.Some? && TimelyInserts(s0, labels, bound)
    requires Orphan(After(s0, labels).db, i) && After(s0, labels).db.intents[i].generation < bound
    requires Orphan(After(s0, labels).db, j) && After(s0, labels).db.intents[j].generation < bound
    ensures After(s0, labels).db.intents[i].generation == After(s0, labels).db.intents[j].generation
  {
    InitHolds(s0);
    OnTimeExactlyByTimelyInserts(s0, labels, bound);
    assert OnTimeBelow(s0, bound);
    OrphansShareOneGeneration(After(s0, labels), i, j);
  }

  // ---- The atomic reading of record_intent ----

  /** Every intent insert of the run happens while its worker's fence still holds. */
  ghost predicate FencedInserts(s: Sys, labels: seq<Label>)
    requires Runs(s, labels)
    decreases |labels|
  {
    labels == [] ||
    ((labels[0].InsertIntent? ==> s.db.Fenced(s.At(labels[0].w).claim.token, s.At(labels[0].w).claim.generation))
     && FencedInserts(Do(s, labels[0]), labels[1..]))
  }

  lemma {:induction false} FencedInsertsAreTimely(s: Sys, labels: seq<Label>, generation: nat)
    requires Runs(s, labels) && FencedInserts(s, labels)
    ensures TimelyInserts(s, labels, generation)
    decreases |labels|
  {
    hide Do;
    if labels != [] {
      FencedInsertsAreTimely(Do(s, labels[0]), labels[1..], generation);
    }
  }

  /**
   If the fence check and the insert are one atomic step, then whenever any worker is
   executing, every effect of every earlier generation has a durable receipt.
   */
  lemma AtomicFenceGivesAReceiptedPast(s0: Sys, labels: seq<Label>, w: nat)
    requires Init(s0) && Runs(s0, labels) && FencedInserts(s0, labels)
    requires After(s0, labels).db.task.Some? && After(s0, labels).At(w).Executing?
    ensures ReceiptedBelow(After(s0, labels), After(s0, labels).At(w).claim.generation)
  {
    FencedInsertsAreTimely(s0, labels, After(s0, labels).At(w).claim.generation);
    ReceiptedPastExactlyByTimelyInserts(s0, labels, w);
  }
}
