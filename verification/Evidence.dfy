/**
 The read-only evidence reader of `app/services/arf_evidence_source.py`: it takes the
 stored plan, intent and receipt rows and decides which plan steps are receipted and
 which are ambiguous, or refuses rows that contradict each other.
 */
module Evidence {
  import opened Prelude
  import opened JsonValues

  // A stored plan step; None stands for a field that is missing or of the wrong type.
  datatype RawStep = RawStep(stepId: Option<string>, toolName: Option<string>, arguments: Option<Json>)

  datatype StepCall = StepCall(toolName: string, arguments: Json)

  datatype IntentRecord = IntentRecord(
    ownerId: string, taskId: string, intentId: string, stepId: string,
    call: StepCall, generation: nat, leaseToken: string)

  datatype ReceiptRecord = ReceiptRecord(
    ownerId: string, taskId: string, intentId: string,
    succeeded: bool, generation: nat, leaseToken: string)

  datatype Reply =
    | Refused(reason: string)
    | Snapshot(receipted: set<string>, ambiguous: set<string>)

  // ---- What the reader accepts ----

  predicate StepWellFormed(step: RawStep) {
    step.stepId.Some? && step.stepId.value != "" && step.toolName.Some? && step.arguments.Some?
  }

  ghost predicate PlanAccepted(steps: seq<RawStep>) {
    && steps != []
    && (forall i | 0 <= i < |steps| :: StepWellFormed(steps[i]))
    && (forall i, j | 0 <= i < j < |steps| :: steps[i].stepId != steps[j].stepId)
  }

  predicate Calls(step: RawStep, intent: IntentRecord) {
    step == RawStep(Some(intent.stepId), Some(intent.call.toolName), Some(intent.call.arguments))
  }

  ghost predicate IntentAccepted(owner: string, task: string, steps: seq<RawStep>, intent: IntentRecord) {
    && intent.ownerId == owner && intent.taskId == task && intent.intentId != ""
    && exists i :: 0 <= i < |steps| && Calls(steps[i], intent)
  }

  ghost predicate IntentsAccepted(owner: string, task: string, steps: seq<RawStep>, intents: seq<IntentRecord>) {
    && (forall i | 0 <= i < |intents| :: IntentAccepted(owner, task, steps, intents[i]))
    && (forall i, j | 0 <= i < j < |intents| :: intents[i].intentId != intents[j].intentId)
  }

  ghost predicate ReceiptsAccepted(owner: string, task: string, ids: set<string>, receipts: seq<ReceiptRecord>) {
    && (forall i | 0 <= i < |receipts| ::
          receipts[i].ownerId == owner && receipts[i].taskId == task && receipts[i].intentId in ids)
    && (forall i, j | 0 <= i < j < |receipts| :: receipts[i].intentId != receipts[j].intentId)
  }

  // ---- What the two sets mean ----

  predicate Proves(receipt: ReceiptRecord, intent: IntentRecord) {
    && receipt.intentId == intent.intentId
    && receipt.generation == intent.generation
    && intent.leaseToken != "" && receipt.leaseToken == intent.leaseToken
    && receipt.succeeded
  }

  /** A step's invocations, in row order. */
  function Invocations(intents: seq<IntentRecord>, sid: string): (calls: seq<IntentRecord>)
    ensures forall c :: c in calls ==> c in intents && c.stepId == sid
    ensures forall c :: c in intents && c.stepId == sid ==> c in calls
  {
    if intents == [] then []
    else
      var last := intents[|intents| - 1];
      Invocations(intents[..|intents| - 1], sid) + if last.stepId == sid then [last] else []
  }

  /** The step was invoked once, and that one invocation has a matching successful receipt. */
  ghost predicate ReceiptedStep(sid: string, intents: seq<IntentRecord>, receipts: seq<ReceiptRecord>) {
    var calls := Invocations(intents, sid);
    |calls| == 1 && exists receipt :: receipt in receipts && Proves(receipt, calls[0])
  }

  predicate InvokedStep(sid: string, intents: seq<IntentRecord>) {
    Invocations(intents, sid) != []
  }

  // ---- The same by the records' fields ----

  lemma AcceptedByFields(owner: string, task: string, steps: seq<RawStep>,
                         intents: seq<IntentRecord>, receipts: seq<ReceiptRecord>)
    ensures PlanAccepted(steps) <==>
      && steps != []
      && (forall i | 0 <= i < |steps| ::
            steps[i].stepId.Some? && steps[i].stepId.value != "" && steps[i].toolName.Some? && steps[i].arguments.Some?)
      && (forall i, j | 0 <= i < j < |steps| :: steps[i].stepId != steps[j].stepId)
    ensures IntentsAccepted(owner, task, steps, intents) <==>
      && (forall r | r in intents ::
            && r.ownerId == owner && r.taskId == task && r.intentId != ""
            && RawStep(Some(r.stepId), Some(r.call.toolName), Some(r.call.arguments)) in steps)
      && (forall i, j | 0 <= i < j < |intents| :: intents[i].intentId != intents[j].intentId)
    ensures ReceiptsAccepted(owner, task, IdsOf(intents), receipts) <==>
      && (forall r | r in receipts ::
            r.ownerId == owner && r.taskId == task && exists c | c in intents :: c.intentId == r.intentId)
      && (forall i, j | 0 <= i < j < |receipts| :: receipts[i].intentId != receipts[j].intentId)
  {
    assert forall r :: IntentAccepted(owner, task, steps, r) <==>
      && r.ownerId == owner && r.taskId == task && r.intentId != ""
      && RawStep(Some(r.stepId), Some(r.call.toolName), Some(r.call.arguments)) in steps;
  }

  /** The only row of its step. */
  ghost predicate Alone(sid: string, intents: seq<IntentRecord>, i: nat) {
    i < |intents| && intents[i].stepId == sid && forall j | 0 <= j < |intents| && intents[j].stepId == sid :: j == i
  }

  lemma NotInvoked(sid: string, intents: seq<IntentRecord>)
    ensures Invocations(intents, sid) == [] <==> forall k | 0 <= k < |intents| :: intents[k].stepId != sid
  {
    var calls := Invocations(intents, sid);
    if calls != [] {
      assert calls[0] in calls && calls[0] in intents && calls[0].stepId == sid;
    } else {
      forall k | 0 <= k < |intents| ensures intents[k].stepId != sid { assert intents[k] in intents && intents[k] !in calls; }
    }
  }

  lemma {:induction false} AloneIsTheInvocation(sid: string, intents: seq<IntentRecord>, i: nat)
    requires Alone(sid, intents, i)
    ensures Invocations(intents, sid) == [intents[i]]
  {
    var before := intents[..|intents| - 1];
    if i == |intents| - 1 {
      NotInvoked(sid, before);
    } else {
      assert Alone(sid, before, i);
      AloneIsTheInvocation(sid, before, i);
    }
  }

  lemma {:induction false} OneInvocationIsAlone(sid: string, intents: seq<IntentRecord>) returns (i: nat)
    requires |Invocations(intents, sid)| == 1
    ensures Alone(sid, intents, i)
  {
    var before := intents[..|intents| - 1];
    if intents[|intents| - 1].stepId == sid {
      i := |intents| - 1;
      forall j | 0 <= j < |intents| && intents[j].stepId == sid ensures j == i {
        if j < i { NotInvoked(sid, before); }
      }
    } else {
      i := OneInvocationIsAlone(sid, before);
      assert forall j | 0 <= j < |before| :: before[j] == intents[j];
    }
  }

  lemma ReceiptedByFields(sid: string, intents: seq<IntentRecord>, receipts: seq<ReceiptRecord>)
    ensures ReceiptedStep(sid, intents, receipts) <==>
      exists i | 0 <= i < |intents| ::
        && intents[i].stepId == sid && (forall j | 0 <= j < |intents| && intents[j].stepId == sid :: j == i)
        && exists r | r in receipts ::
             && r.intentId == intents[i].intentId && r.succeeded && r.generation == intents[i].generation
             && r.leaseToken == intents[i].leaseToken && r.leaseToken != ""
  {
    if ReceiptedStep(sid, intents, receipts) {
      var i := OneInvocationIsAlone(sid, intents);
      AloneIsTheInvocation(sid, intents, i);
    }
    forall i: nat | Alone(sid, intents, i) ensures Invocations(intents, sid) == [intents[i]] {
      AloneIsTheInvocation(sid, intents, i);
    }
  }

  lemma StepsByFields(intents: seq<IntentRecord>, receipts: seq<ReceiptRecord>)
    ensures forall sid :: ReceiptedStep(sid, intents, receipts) <==>
      exists i | 0 <= i < |intents| ::
        && intents[i].stepId == sid && (forall j | 0 <= j < |intents| && intents[j].stepId == sid :: j == i)
        && exists r | r in receipts ::
             && r.intentId == intents[i].intentId && r.succeeded && r.generation == intents[i].generation
             && r.leaseToken == intents[i].leaseToken && r.leaseToken != ""
    ensures forall sid :: InvokedStep(sid, intents) <==> exists c | c in intents :: c.stepId == sid
  {
    forall sid {
      ReceiptedByFields(sid, intents, receipts);
    }
    forall sid ensures InvokedStep(sid, intents) <==> exists c | c in intents :: c.stepId == sid {
      if InvokedStep(sid, intents) { assert Invocations(intents, sid)[0] in Invocations(intents, sid); }
    }
  }

  /**
   Refuses exactly the rows that contradict each other or the plan, and otherwise splits
   the invoked steps into the receipted ones and the ambiguous ones.
   */
  method ReconcileRecords(owner: string, task: string, steps: seq<RawStep>,
                          intents: seq<IntentRecord>, receipts: seq<ReceiptRecord>)
    returns (reply: Reply)
    ensures reply.Snapshot? <==>
      PlanAccepted(steps) && IntentsAccepted(owner, task, steps, intents)
      && ReceiptsAccepted(owner, task, IdsOf(intents), receipts)
    ensures reply.Snapshot? ==>
      && (forall sid :: sid in reply.receipted <==> ReceiptedStep(sid, intents, receipts))
      && (forall sid :: sid in reply.ambiguous <==> InvokedStep(sid, intents) && !ReceiptedStep(sid, intents, receipts))
    // The same by the records' own fields.
    ensures reply.Snapshot? <==>
      && steps != []
      && (forall i | 0 <= i < |steps| ::
            steps[i].stepId.Some? && steps[i].stepId.value != "" && steps[i].toolName.Some? && steps[i].arguments.Some?)
      && (forall i, j | 0 <= i < j < |steps| :: steps[i].stepId != steps[j].stepId)
      && (forall r | r in intents ::
            && r.ownerId == owner && r.taskId == task && r.intentId != ""
            && RawStep(Some(r.stepId), Some(r.call.toolName), Some(r.call.arguments)) in steps)
      && (forall i, j | 0 <= i < j < |intents| :: intents[i].intentId != intents[j].intentId)
      && (forall r | r in receipts ::
            r.ownerId == owner && r.taskId == task && exists c | c in intents :: c.intentId == r.intentId)
      && (forall i, j | 0 <= i < j < |receipts| :: receipts[i].intentId != receipts[j].intentId)
    ensures reply.Snapshot? ==> forall sid :: sid in reply.receipted <==>
      exists i | 0 <= i < |intents| ::
        && intents[i].stepId == sid && (forall j | 0 <= j < |intents| && intents[j].stepId == sid :: j == i)
        && exists r | r in receipts ::
             && r.intentId == intents[i].intentId && r.succeeded && r.generation == intents[i].generation
             && r.leaseToken == intents[i].leaseToken && r.leaseToken != ""
    ensures reply.Snapshot? ==> forall sid :: sid in reply.ambiguous <==>
      sid !in reply.receipted && exists c | c in intents :: c.stepId == sid
  {
    AcceptedByFields(owner, task, steps, intents, receipts);
    StepsByFields(intents, receipts);
    hide PlanAccepted, IntentsAccepted, ReceiptsAccepted, ReceiptedStep, InvokedStep;
    reply := ReadRecords(owner, task, steps, intents, receipts);
  }

  /** The reading itself. */
  method ReadRecords(owner: string, task: string, steps: seq<RawStep>,
                     intents: seq<IntentRecord>, receipts: seq<ReceiptRecord>)
    returns (reply: Reply)
    ensures reply.Snapshot? <==>
      PlanAccepted(steps) && IntentsAccepted(owner, task, steps, intents)
      && ReceiptsAccepted(owner, task, IdsOf(intents), receipts)
    ensures reply.Snapshot? ==>
      && (forall sid :: sid in reply.receipted <==> ReceiptedStep(sid, intents, receipts))
      && (forall sid :: sid in reply.ambiguous <==> InvokedStep(sid, intents) && !ReceiptedStep(sid, intents, receipts))
  {
    var planOk, stepMap := ReadPlan(steps);
    if !planOk { return Refused("duplicate or incomplete persisted plan"); }
    var intentsOk, byStep, byId := ReadIntents(owner, task, steps, stepMap, intents);
    if !intentsOk { return Refused("effect intent refused"); }
    var receiptsOk, byIntent := ReadReceipts(owner, task, intents, byId, receipts);
    if !receiptsOk { return Refused("effect receipt refused"); }

    reply := Judge(intents, receipts, byStep, byIntent);
  }

  method Judge(intents: seq<IntentRecord>, receipts: seq<ReceiptRecord>,
               byStep: map<string, seq<IntentRecord>>, byIntent: map<string, ReceiptRecord>)
    returns (reply: Reply)
    requires GroupedBySteps(byStep, intents) && MapsReceipts(byIntent, receipts)
    ensures reply.Snapshot?
    ensures forall sid :: sid in reply.receipted <==> ReceiptedStep(sid, intents, receipts)
    ensures forall sid :: sid in reply.ambiguous <==> InvokedStep(sid, intents) && !ReceiptedStep(sid, intents, receipts)
  {
    var receipted: set<string>, ambiguous: set<string> := {}, {};
    var todo := byStep.Keys;
    while todo != {}
      invariant todo <= byStep.Keys
      invariant receipted + ambiguous == byStep.Keys - todo
      invariant forall sid :: sid in receipted ==> ReceiptedStep(sid, intents, receipts)
      invariant forall sid :: sid in ambiguous ==> !ReceiptedStep(sid, intents, receipts)
      decreases todo
    {
      var sid :| sid in todo;
      todo := todo - {sid};
      var ok := JudgeStep(byStep[sid], receipts, byIntent);
      if ok { receipted := receipted + {sid}; } else { ambiguous := ambiguous + {sid}; }
    }
    assert forall sid :: ReceiptedStep(sid, intents, receipts) ==> InvokedStep(sid, intents) && sid in byStep;
    reply := Snapshot(receipted, ambiguous);
  }

  /** The step map the reader builds out of an accepted plan. */
  ghost predicate MapsPlan(stepMap: map<string, StepCall>, steps: seq<RawStep>) {
    && (forall i | 0 <= i < |steps| :: StepWellFormed(steps[i])
          && steps[i].stepId.value in stepMap
          && stepMap[steps[i].stepId.value] == StepCall(steps[i].toolName.value, steps[i].arguments.value))
    && (forall sid :: sid in stepMap ==> NamesStep(steps, sid))
  }

  ghost predicate NamesStep(steps: seq<RawStep>, sid: string) {
    exists i :: 0 <= i < |steps| && steps[i].stepId == Some(sid)
  }

  ghost predicate DistinctSteps(steps: seq<RawStep>) {
    forall i, j | 0 <= i < j < |steps| :: steps[i].stepId != steps[j].stepId
  }

  /** Reading one more step: its name is new, or the plan repeats one. */
  lemma PlanStep(steps: seq<RawStep>, n: nat, stepMap: map<string, StepCall>)
    requires n < |steps| && StepWellFormed(steps[n]) && MapsPlan(stepMap, steps[..n]) && DistinctSteps(steps[..n])
    ensures steps[n].stepId.value in stepMap ==> !DistinctSteps(steps)
    ensures steps[n].stepId.value !in stepMap ==> DistinctSteps(steps[..n + 1])
  {
    var sid := steps[n].stepId.value;
    if sid in stepMap {
      assert NamesStep(steps[..n], sid);
      var i :| 0 <= i < n && steps[..n][i].stepId == Some(sid);
      assert steps[i].stepId == steps[n].stepId;
    } else {
      assert forall i | 0 <= i < n :: steps[..n][i] == steps[i] && steps[i].stepId != Some(sid);
      hide MapsPlan;
      assert steps[..n + 1] == steps[..n] + [steps[n]];
    }
  }

  method ReadPlan(steps: seq<RawStep>) returns (ok: bool, stepMap: map<string, StepCall>)
    ensures ok <==> PlanAccepted(steps)
    ensures ok ==> MapsPlan(stepMap, steps)
  {
    stepMap := map[];
    if steps == [] { return false, stepMap; }
    assert MapsPlan(stepMap, steps[..0]);
    assert PlanAccepted(steps) ==> DistinctSteps(steps);
    hide MapsPlan, DistinctSteps;
    for n := 0 to |steps|
      invariant forall i | 0 <= i < n :: StepWellFormed(steps[i])
      invariant DistinctSteps(steps[..n]) && MapsPlan(stepMap, steps[..n])
    {
      if steps[n].stepId.None? || steps[n].stepId.value == "" || steps[n].toolName.None? || steps[n].arguments.None? {
        return false, stepMap;
      }
      PlanStep(steps, n, stepMap);
      if steps[n].stepId.value in stepMap { return false, stepMap; }
      stepMap := MapOneStep(steps, n, stepMap);
    }
    assert steps[..|steps|] == steps;
    ok := true;
    AcceptedIfDistinct(steps);
  }

  lemma AcceptedIfDistinct(steps: seq<RawStep>)
    requires steps != [] && (forall i | 0 <= i < |steps| :: StepWellFormed(steps[i])) && DistinctSteps(steps)
    ensures PlanAccepted(steps)
  {
  }

  method MapOneStep(steps: seq<RawStep>, n: nat, stepMap: map<string, StepCall>) returns (next: map<string, StepCall>)
    requires n < |steps| && StepWellFormed(steps[n]) && MapsPlan(stepMap, steps[..n])
    requires steps[n].stepId.value !in stepMap
    ensures MapsPlan(next, steps[..n + 1])
  {
    var sid := steps[n].stepId.value;
    next := stepMap[sid := StepCall(steps[n].toolName.value, steps[n].arguments.value)];
    forall known | known in next ensures NamesStep(steps[..n + 1], known) {
      if known == sid {
        assert steps[..n + 1][n].stepId == Some(sid);
      } else {
        assert NamesStep(steps[..n], known);
        var i :| 0 <= i < n && steps[..n][i].stepId == Some(known);
        assert steps[..n + 1][i].stepId == Some(known);
      }
    }
  }

  /** The index the reader builds: for each invoked step, its invocations. */
  ghost predicate GroupedBySteps(byStep: map<string, seq<IntentRecord>>, intents: seq<IntentRecord>) {
    forall sid ::
      && (sid in byStep <==> InvokedStep(sid, intents))
      && (sid in byStep ==> byStep[sid] == Invocations(intents, sid))
  }

  lemma GroupOne(byStep: map<string, seq<IntentRecord>>, before: seq<IntentRecord>, intent: IntentRecord)
    requires GroupedBySteps(byStep, before)
    ensures var sid := intent.stepId;
      GroupedBySteps(byStep[sid := (if sid in byStep then byStep[sid] else []) + [intent]], before + [intent])
  {
    assert (before + [intent])[..|before|] == before;
  }

  method CheckIntent(owner: string, task: string, steps: seq<RawStep>, stepMap: map<string, StepCall>,
                     intent: IntentRecord)
    returns (ok: bool)
    requires MapsPlan(stepMap, steps)
    ensures ok <==> IntentAccepted(owner, task, steps, intent)
  {
    if intent.ownerId != owner || intent.taskId != task || intent.intentId == "" { return false; }
    if intent.stepId !in stepMap || stepMap[intent.stepId] != intent.call {
      forall i | 0 <= i < |steps| ensures !Calls(steps[i], intent) {
        assert StepWellFormed(steps[i]);
      }
      return false;
    }
    assert NamesStep(steps, intent.stepId);
    var at :| 0 <= at < |steps| && steps[at].stepId == Some(intent.stepId);
    assert Calls(steps[at], intent);
    return true;
  }

  function IdsOf(intents: seq<IntentRecord>): set<string> {
    set intent | intent in intents :: intent.intentId
  }

  /** Accepting row by row: the next row is in scope and its id is new, or the whole is refused. */
  lemma AcceptOne(owner: string, task: string, steps: seq<RawStep>, intents: seq<IntentRecord>, n: nat)
    requires n < |intents| && IntentsAccepted(owner, task, steps, intents[..n])
    ensures IdsOf(intents[..n + 1]) == IdsOf(intents[..n]) + {intents[n].intentId}
    ensures IntentAccepted(owner, task, steps, intents[n]) && intents[n].intentId !in IdsOf(intents[..n])
       ==> IntentsAccepted(owner, task, steps, intents[..n + 1])
    ensures IntentsAccepted(owner, task, steps, intents)
       ==> IntentAccepted(owner, task, steps, intents[n]) && intents[n].intentId !in IdsOf(intents[..n])
  {
    hide IntentAccepted;
    assert intents[..n + 1] == intents[..n] + [intents[n]];
    assert forall i | 0 <= i < n :: intents[..n][i] == intents[i] && intents[i] in intents[..n];
  }

  lemma NothingRead(owner: string, task: string, steps: seq<RawStep>)
    ensures GroupedBySteps(map[], []) && IntentsAccepted(owner, task, steps, []) && IdsOf([]) == {}
  {
  }

  method ReadIntents(owner: string, task: string, steps: seq<RawStep>, stepMap: map<string, StepCall>,
                     intents: seq<IntentRecord>)
    returns (ok: bool, byStep: map<string, seq<IntentRecord>>, byId: set<string>)
    requires MapsPlan(stepMap, steps)
    ensures ok <==> IntentsAccepted(owner, task, steps, intents)
    ensures ok ==> GroupedBySteps(byStep, intents) && byId == IdsOf(intents)
  {
    byStep, byId := map[], {};
    hide *;
    NothingRead(owner, task, steps);
    assert intents[..0] == [];
    for n := 0 to |intents|
      invariant IntentsAccepted(owner, task, steps, intents[..n])
      invariant GroupedBySteps(byStep, intents[..n]) && byId == IdsOf(intents[..n])
    {
      var intent := intents[n];
      AcceptOne(owner, task, steps, intents, n);
      var scoped := CheckIntent(owner, task, steps, stepMap, intent);
      if !scoped || intent.intentId in byId { return false, byStep, byId; }
      assert intents[..n + 1] == intents[..n] + [intent];
      GroupOne(byStep, intents[..n], intent);
      byStep := byStep[intent.stepId := (if intent.stepId in byStep then byStep[intent.stepId] else []) + [intent]];
      byId := byId + {intent.intentId};
    }
    assert intents[..|intents|] == intents;
    ok := true;
  }

  /** Every stored receipt, by the intent it answers. */
  ghost predicate MapsReceipts(byIntent: map<string, ReceiptRecord>, receipts: seq<ReceiptRecord>) {
    && (forall receipt :: receipt in receipts ==>
          receipt.intentId in byIntent && byIntent[receipt.intentId] == receipt)
    && (forall id :: id in byIntent ==> byIntent[id] in receipts && byIntent[id].intentId == id)
  }

  predicate InScope(owner: string, task: string, ids: set<string>, receipt: ReceiptRecord) {
    receipt.ownerId == owner && receipt.taskId == task && receipt.intentId in ids
  }

  /** Reading one more receipt: it is in scope and answers a new intent, or the whole is refused. */
  lemma ReceiptStep(owner: string, task: string, ids: set<string>, receipts: seq<ReceiptRecord>, n: nat,
                    byIntent: map<string, ReceiptRecord>)
    requires n < |receipts| && ReceiptsAccepted(owner, task, ids, receipts[..n]) && MapsReceipts(byIntent, receipts[..n])
    ensures InScope(owner, task, ids, receipts[n]) && receipts[n].intentId !in byIntent ==>
              ReceiptsAccepted(owner, task, ids, receipts[..n + 1])
    ensures ReceiptsAccepted(owner, task, ids, receipts) ==>
              InScope(owner, task, ids, receipts[n]) && receipts[n].intentId !in byIntent
  {
    assert forall i | 0 <= i < n :: receipts[..n][i] == receipts[i] && receipts[i] in receipts[..n];
    assert receipts[..n + 1] == receipts[..n] + [receipts[n]];
    if receipts[n].intentId in byIntent {
      var r :| 0 <= r < n && receipts[r] == byIntent[receipts[n].intentId];
    }
  }

  lemma MapOneReceipt(byIntent: map<string, ReceiptRecord>, before: seq<ReceiptRecord>, receipt: ReceiptRecord)
    requires MapsReceipts(byIntent, before) && receipt.intentId !in byIntent
    ensures MapsReceipts(byIntent[receipt.intentId := receipt], before + [receipt])
  {
  }

  method ReadReceipts(owner: string, task: string, intents: seq<IntentRecord>, byId: set<string>,
                      receipts: seq<ReceiptRecord>)
    returns (ok: bool, byIntent: map<string, ReceiptRecord>)
    requires byId == IdsOf(intents)
    ensures ok <==> ReceiptsAccepted(owner, task, byId, receipts)
    ensures ok ==> MapsReceipts(byIntent, receipts)
  {
    byIntent := map[];
    assert ReceiptsAccepted(owner, task, byId, receipts[..0]) && MapsReceipts(byIntent, receipts[..0]);
    hide ReceiptsAccepted, MapsReceipts;
    for n := 0 to |receipts|
      invariant ReceiptsAccepted(owner, task, byId, receipts[..n])
      invariant MapsReceipts(byIntent, receipts[..n])
    {
      var receipt := receipts[n];
      ReceiptStep(owner, task, byId, receipts, n, byIntent);
      if receipt.ownerId != owner || receipt.taskId != task || receipt.intentId !in byId {
        return false, byIntent;
      }
      if receipt.intentId in byIntent {
        return false, byIntent;
      }
      assert receipts[..n + 1] == receipts[..n] + [receipt];
      MapOneReceipt(byIntent, receipts[..n], receipt);
      byIntent := byIntent[receipt.intentId := receipt];
    }
    assert receipts[..|receipts|] == receipts;
    ok := true;
  }

  method JudgeStep(calls: seq<IntentRecord>, receipts: seq<ReceiptRecord>, byIntent: map<string, ReceiptRecord>)
    returns (ok: bool)
    requires calls != []
    requires MapsReceipts(byIntent, receipts)
    ensures ok <==> |calls| == 1 && exists receipt :: receipt in receipts && Proves(receipt, calls[0])
  {
    if |calls| != 1 { return false; }
    var intent := calls[0];
    if intent.intentId !in byIntent { return false; }
    var receipt := byIntent[intent.intentId];
    if receipt.generation != intent.generation || intent.leaseToken == ""
       || receipt.leaseToken != intent.leaseToken || !receipt.succeeded {
      return false;
    }
    assert Proves(receipt, intent);
    return true;
  }
}
