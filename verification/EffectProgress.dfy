/**
 What a worker can do from any reachable state, by the fields of the rows: run a free task to its end
 with every effect receipted, or stop it over an orphan, and how each single step may fail.
 */
module EffectProgress {
  import opened Prelude
  import opened JsonValues
  import opened AgentRows
  import opened EffectProtocol
  import opened EffectInvariant
  import opened EffectGuarantees
  import opened EffectLeases

  datatype Effect = Effect(id: string, call: EffectCall, status: EffectStatus, provider: string, response: map<string, Json>)

  ghost function OneEffect(w: nat, e: Effect): seq<Label> {
    [CheckFence(w, e.call), InsertIntent(w, e.id), RecordReceipt(w, e.status, e.provider, e.response)]
  }

  ghost function EffectSteps(w: nat, effects: seq<Effect>): seq<Label> {
    if effects == [] then [] else OneEffect(w, effects[0]) + EffectSteps(w, effects[1..])
  }

  // ---- Single steps ----

  /** A receipt is kept for the commit exactly while the fence holds and the stored intent has none. */
  lemma ReceiptAnswers(s: Sys, w: nat, status: EffectStatus, provider: string, response: map<string, Json>)
    requires s.At(w).Executing? && s.At(w).inFlight.Some?
    ensures Enabled(s, RecordReceipt(w, status, provider, response))
    ensures var me, id := s.At(w), s.At(w).inFlight.value;
            var fenced := s.db.task.Some? && s.db.task.value.leaseToken == Some(me.claim.token)
                          && s.db.task.value.generation == me.claim.generation;
      Do(s, RecordReceipt(w, status, provider, response)) == s.(workers := s.workers[w :=
        if !fenced then Failing(me.claim, FenceRefused)
        else if id !in s.db.intents then Failing(me.claim, UnknownIntent)
        else if id in s.db.receipts then Failing(me.claim, DuplicateReceipt)
        else Executing(me.claim, me.lost,
                       me.pending[id := ReceiptRow(status, provider, Persistable(response), me.claim.generation, me.claim.token)],
                       None, me.fenced)])
  {
    hide Persistable;
  }

  /** A worker passes the fence exactly while its token and generation are the task's; then its insert lands. */
  lemma FenceAnswers(s: Sys, w: nat, call: EffectCall)
    requires s.At(w).Executing? && s.At(w).fenced.None? && s.At(w).inFlight.None?
    ensures Enabled(s, CheckFence(w, call))
    ensures var me := s.At(w);
            var fenced := s.db.task.Some? && s.db.task.value.leaseToken == Some(me.claim.token)
                          && s.db.task.value.generation == me.claim.generation;
      Do(s, CheckFence(w, call)) == s.(workers := s.workers[w :=
        if fenced then Executing(me.claim, me.lost, me.pending, None, Some(call)) else Failing(me.claim, FenceRefused)])
  {
  }

  lemma InsertAnswers(s: Sys, w: nat, id: string)
    requires s.At(w).Executing? && s.At(w).fenced.Some? && id != "" && id !in s.insertedAt
    ensures Enabled(s, InsertIntent(w, id))
    ensures var me := s.At(w);
      Do(s, InsertIntent(w, id)) ==
        if s.db.task.None? then s.(workers := s.workers[w := Failing(me.claim, UnknownTask)])
        else s.(
          workers := s.workers[w := Executing(me.claim, me.lost, me.pending, Some(id), None)],
          db := Db(s.db.task, s.db.runs,
                   s.db.intents[id := IntentRow(me.fenced.value, me.claim.key, me.claim.generation, me.claim.token)],
                   s.db.receipts),
          insertedAt := s.insertedAt[id := s.db.task.value.generation])
  {
  }

  /** A heartbeat may come at any time from the claim to the end of the run, until one is refused. */
  lemma HeartbeatAnswers(s: Sys, w: nat, leaseSeconds: int)
    ensures Enabled(s, Beat(w, leaseSeconds)) <==>
      (s.At(w).Holding? || s.At(w).Scanned? || s.At(w).Refusing? || s.At(w).Executing?) && !s.At(w).lost
    ensures Enabled(s, BeatError(w)) <==> Enabled(s, Beat(w, leaseSeconds))
    ensures Enabled(s, Beat(w, leaseSeconds)) ==>
      var claim, after := s.At(w).claim, Do(s, Beat(w, leaseSeconds));
      var held := s.db.task.Some? && s.db.task.value.leaseToken == Some(claim.token)
                  && exists k | k in s.db.runs ::
                       s.db.runs[k].id == claim.runId && s.db.runs[k].leaseToken == Some(claim.token)
                       && s.db.runs[k].state == RunRunning;
      && (held ==> after == s.(db := s.db.(task := Some(s.db.task.value.(
                     leaseExpires := Some(s.now + if leaseSeconds < 5 then 5 else leaseSeconds))))))
      && (!held ==> after == Do(s, BeatError(w)))
    ensures Enabled(s, BeatError(w)) ==> Do(s, BeatError(w)) == s.(workers := s.workers[w := s.At(w).(lost := true)])
  {
  }

  /** A worker may crash at any time, which leaves the rows as they are; time passes at any time. */
  lemma CrashAnswers(s: Sys, w: nat, elapsed: nat)
    ensures Enabled(s, Crash(w)) && Do(s, Crash(w)) == s.(workers := s.workers[w := Idle])
    ensures Enabled(s, Tick(elapsed)) && Do(s, Tick(elapsed)) == s.(now := s.now + elapsed)
  {
  }

  /** The failure of a run closes its row and frees the lease, each only where it is still its own. */
  lemma FailureAnswers(s: Sys, w: nat, claim: Claim, error: Error, text: string)
    requires s.At(w) == Failing(claim, error)
    ensures Enabled(s, CommitFailure(w, text))
    ensures var end := Do(s, CommitFailure(w, text));
      && end.workers == s.workers[w := Ended(Refused(error))]
      && end.db.task == (if s.db.task.Some? && s.db.task.value.leaseToken == Some(claim.token)
                         then Some(s.db.task.value.(leaseToken := None, leaseExpires := None)) else s.db.task)
      && OneRunClosed(s.db.runs, end.db.runs, claim.runId, claim.token, RunFailed, None, Some(FailureText(text)))
      && end.db.intents == s.db.intents && end.db.receipts == s.db.receipts
  {
    ClosedRows(s.db.runs, claim.runId, claim.token, RunFailed, None, Some(FailureText(text)));
    hide FailureText, CloseRuns, OneRunClosed;
  }

  lemma RollBackAnswers(s: Sys, w: nat, error: Error)
    requires s.At(w).Holding? || s.At(w).Scanned? || s.At(w).Refusing? || s.At(w).Executing?
    ensures Enabled(s, RollBack(w, error))
    ensures Do(s, RollBack(w, error)) == s.(workers := s.workers[w := Failing(s.At(w).claim, error)])
  {
  }

  /** Whoever has a claim can give up, and the failure it then records closes its run and frees its lease. */
  lemma EveryRunCanEnd(s: Sys, w: nat, error: Error, text: string)
    requires s.At(w).Holding? || s.At(w).Scanned? || s.At(w).Refusing? || s.At(w).Executing?
    ensures var labels, claim := [RollBack(w, error), CommitFailure(w, text)], s.At(w).claim;
      && Runs(s, labels)
      && (var end := After(s, labels);
          && end.workers == s.workers[w := Ended(Refused(error))]
          && end.db.task == (if s.db.task.Some? && s.db.task.value.leaseToken == Some(claim.token)
                             then Some(s.db.task.value.(leaseToken := None, leaseExpires := None)) else s.db.task)
          && OneRunClosed(s.db.runs, end.db.runs, claim.runId, claim.token, RunFailed, None, Some(FailureText(text)))
          && end.db.intents == s.db.intents && end.db.receipts == s.db.receipts)
  {
    hide *;
    RollBackAnswers(s, w, error);
    var s1 := Do(s, RollBack(w, error));
    WorkerIs(s1, w);
    FailureAnswers(s1, w, s.At(w).claim, error, text);
    TwoSteps(s, RollBack(w, error), CommitFailure(w, text));
    var end := Do(s1, CommitFailure(w, text));
    assert end.workers == s.workers[w := Ended(Refused(error))];
  }

  lemma TwoSteps(s: Sys, a: Label, b: Label)
    requires Enabled(s, a) && Enabled(Do(s, a), b)
    ensures Runs(s, [a, b]) && After(s, [a, b]) == Do(Do(s, a), b)
  {
    hide Enabled, Do;
    var s1 := Do(s, a);
    assert [a, b][1..] == [b] && [b][1..] == [];
    assert Runs(Do(s1, b), []);
    assert Runs(s1, [b]) && After(s1, [b]) == Do(s1, b);
  }

  lemma {:induction false} RunsOn(s: Sys, first: seq<Label>, second: seq<Label>)
    requires Runs(s, first) && Runs(After(s, first), second)
    ensures Runs(s, first + second) && After(s, first + second) == After(After(s, first), second)
    decreases |first|
  {
    hide Enabled, Do;
    if first == [] {
      assert first + second == second;
    } else {
      assert (first + second)[1..] == first[1..] + second;
      RunsOn(Do(s, first[0]), first[1..], second);
    }
  }

  // ---- A list of effects ----

  ghost predicate Executes(s: Sys, w: nat, claim: Claim, pending: map<string, ReceiptRow>) {
    && s.At(w) == Executing(claim, false, pending, None, None)
    && s.db.task.Some? && s.db.task.value.leaseToken == Some(claim.token) && s.db.task.value.generation == claim.generation
  }

  ghost predicate NewEffects(s: Sys, effects: seq<Effect>) {
    && (forall n | 0 <= n < |effects| :: effects[n].id != "" && effects[n].id !in s.insertedAt && effects[n].id !in s.db.receipts)
    && Distinct(effects)
  }

  ghost predicate Distinct(effects: seq<Effect>) {
    forall m, n | 0 <= m < n < |effects| :: effects[m].id != effects[n].id
  }

  ghost predicate Names(effects: seq<Effect>, id: string) {
    exists n | 0 <= n < |effects| :: effects[n].id == id
  }

  /** Every effect has its row under its id, and the other rows are as before. */
  ghost predicate IntentsWritten(before: map<string, IntentRow>, after: map<string, IntentRow>, effects: seq<Effect>, claim: Claim) {
    && (forall id :: id in after <==> id in before || Names(effects, id))
    && (forall id | id in before && !Names(effects, id) :: after[id] == before[id])
    && forall n | 0 <= n < |effects| ::
         after[effects[n].id] == IntentRow(effects[n].call, claim.key, claim.generation, claim.token)
  }

  ghost predicate ReceiptsWritten(before: map<string, ReceiptRow>, after: map<string, ReceiptRow>, effects: seq<Effect>, claim: Claim) {
    && (forall id :: id in after <==> id in before || Names(effects, id))
    && (forall id | id in before && !Names(effects, id) :: after[id] == before[id])
    && forall n | 0 <= n < |effects| ::
         after[effects[n].id]
         == ReceiptRow(effects[n].status, effects[n].provider, Persistable(effects[n].response), claim.generation, claim.token)
  }

  ghost predicate OnlyEffectsChanged(s: Sys, end: Sys, w: nat) {
    && end.now == s.now && end.issued == s.issued && end.runIds == s.runIds
    && end.workers == s.workers[w := end.At(w)]
    && end.db.task == s.db.task && end.db.runs == s.db.runs && end.db.receipts == s.db.receipts
  }

  lemma OneEffectRuns(s: Sys, w: nat, claim: Claim, pending: map<string, ReceiptRow>, e: Effect)
    requires Executes(s, w, claim, pending) && e.id != "" && e.id !in s.insertedAt && e.id !in s.db.receipts
    ensures Runs(s, OneEffect(w, e))
    ensures var row := ReceiptRow(e.status, e.provider, Persistable(e.response), claim.generation, claim.token);
      After(s, OneEffect(w, e)) == s.(
        workers := s.workers[w := Executing(claim, false, pending[e.id := row], None, None)],
        db := Db(s.db.task, s.db.runs, s.db.intents[e.id := IntentRow(e.call, claim.key, claim.generation, claim.token)],
                 s.db.receipts),
        insertedAt := s.insertedAt[e.id := claim.generation])
  {
    hide *;
    ExecutesIs(s, w, claim, pending);
    FenceAnswers(s, w, e.call);
    var s1 := Do(s, CheckFence(w, e.call));
    WorkerIs(s1, w);
    InsertAnswers(s1, w, e.id);
    var s2 := Do(s1, InsertIntent(w, e.id));
    WorkerIs(s2, w);
    ReceiptAnswers(s2, w, e.status, e.provider, e.response);
    var s3 := Do(s2, RecordReceipt(w, e.status, e.provider, e.response));
    ThreeSteps(s, CheckFence(w, e.call), InsertIntent(w, e.id), RecordReceipt(w, e.status, e.provider, e.response));
    OneEffectIs(w, e);
    assert s3.workers == s.workers[w := s3.workers[w]];
  }

  lemma OneEffectIs(w: nat, e: Effect)
    ensures OneEffect(w, e) == [CheckFence(w, e.call), InsertIntent(w, e.id), RecordReceipt(w, e.status, e.provider, e.response)]
  {
  }

  lemma ExecutesIs(s: Sys, w: nat, claim: Claim, pending: map<string, ReceiptRow>)
    ensures Executes(s, w, claim, pending) <==>
      && s.At(w) == Executing(claim, false, pending, None, None)
      && s.db.task.Some? && s.db.task.value.leaseToken == Some(claim.token) && s.db.task.value.generation == claim.generation
  {
  }

  lemma WorkerIs(s: Sys, w: nat)
    ensures s.At(w) == if w in s.workers then s.workers[w] else Idle
  {
  }

  lemma ThreeSteps(s: Sys, a: Label, b: Label, c: Label)
    requires Enabled(s, a) && Enabled(Do(s, a), b) && Enabled(Do(Do(s, a), b), c)
    ensures Runs(s, [a, b, c]) && After(s, [a, b, c]) == Do(Do(Do(s, a), b), c)
  {
    hide *;
    OneStep(Do(s, a), b);
    TwoSteps(Do(s, a), b, c);
    OneStep(s, a);
    RunsOn(s, [a], [b, c]);
    assert [a] + [b, c] == [a, b, c];
  }

  lemma OneStep(s: Sys, a: Label)
    requires Enabled(s, a)
    ensures Runs(s, [a]) && After(s, [a]) == Do(s, a)
  {
    hide Enabled, Do;
    assert [a][1..] == [] && Runs(Do(s, a), []);
  }

  /** A worker under the fence runs its effects one after the other: each gets its row and its waiting receipt. */
  lemma {:induction false} EffectsRun(s: Sys, w: nat, claim: Claim, pending: map<string, ReceiptRow>, effects: seq<Effect>)
    returns (end: Sys)
    requires Executes(s, w, claim, pending) && NewEffects(s, effects)
    ensures Runs(s, EffectSteps(w, effects)) && end == After(s, EffectSteps(w, effects))
    ensures end.At(w).Executing? && Executes(end, w, claim, end.At(w).pending)
    ensures OnlyEffectsChanged(s, end, w)
    ensures IntentsWritten(s.db.intents, end.db.intents, effects, claim)
    ensures ReceiptsWritten(pending, end.At(w).pending, effects, claim)
    decreases |effects|
  {
    hide *;
    if effects == [] {
      end := s;
      NoEffects(s, w, claim, pending);
    } else {
      var e, rest := effects[0], effects[1..];
      FirstIsNew(s, effects);
      OneEffectRuns(s, w, claim, pending, e);
      var s1 := After(s, OneEffect(w, e));
      var row := ReceiptRow(e.status, e.provider, Persistable(e.response), claim.generation, claim.token);
      RestIsNew(s, w, claim, pending, effects, s1, pending[e.id := row]);
      end := EffectsRun(s1, w, claim, pending[e.id := row], rest);
      RunsOn(s, OneEffect(w, e), EffectSteps(w, rest));
      StepsUnfold(w, effects);
      Unchanged(s, s1, end, w);
      IntentsGrow(s.db.intents, end.db.intents, effects, claim);
      ReceiptsGrow(pending, end.At(w).pending, effects, claim);
    }
  }

  lemma NoEffects(s: Sys, w: nat, claim: Claim, pending: map<string, ReceiptRow>)
    requires Executes(s, w, claim, pending)
    ensures Runs(s, EffectSteps(w, [])) && After(s, EffectSteps(w, [])) == s && OnlyEffectsChanged(s, s, w)
    ensures s.At(w).Executing? && s.At(w).pending == pending
    ensures IntentsWritten(s.db.intents, s.db.intents, [], claim) && ReceiptsWritten(pending, pending, [], claim)
  {
    assert s.workers[w := s.At(w)] == s.workers;
  }

  lemma StepsUnfold(w: nat, effects: seq<Effect>)
    requires effects != []
    ensures EffectSteps(w, effects) == OneEffect(w, effects[0]) + EffectSteps(w, effects[1..])
  {
  }

  lemma FirstIsNew(s: Sys, effects: seq<Effect>)
    requires NewEffects(s, effects) && effects != []
    ensures effects[0].id != "" && effects[0].id !in s.insertedAt && effects[0].id !in s.db.receipts && Distinct(effects)
  {
  }

  lemma RestIsNew(s: Sys, w: nat, claim: Claim, pending: map<string, ReceiptRow>, effects: seq<Effect>, s1: Sys,
                  more: map<string, ReceiptRow>)
    requires Executes(s, w, claim, pending) && NewEffects(s, effects) && effects != []
    requires s1.insertedAt == s.insertedAt[effects[0].id := claim.generation] && s1.db.receipts == s.db.receipts
    requires s1.db.task == s.db.task && s1.workers == s.workers[w := Executing(claim, false, more, None, None)]
    ensures NewEffects(s1, effects[1..]) && Executes(s1, w, claim, more)
  {
  }

  lemma Unchanged(s: Sys, s1: Sys, end: Sys, w: nat)
    requires OnlyEffectsChanged(s1, end, w)
    requires s1.now == s.now && s1.issued == s.issued && s1.runIds == s.runIds && s1.workers == s.workers[w := s1.At(w)]
    requires s1.db.task == s.db.task && s1.db.runs == s.db.runs && s1.db.receipts == s.db.receipts
    ensures OnlyEffectsChanged(s, end, w)
  {
  }

  lemma NamesUnfold(effects: seq<Effect>, id: string)
    requires effects != []
    ensures Names(effects, id) <==> id == effects[0].id || Names(effects[1..], id)
  {
    if Names(effects[1..], id) {
      var n :| 0 <= n < |effects| - 1 && effects[1..][n].id == id;
      assert effects[n + 1].id == id;
    }
    if Names(effects, id) && id != effects[0].id {
      var n :| 0 <= n < |effects| && effects[n].id == id;
      assert effects[1..][n - 1].id == id;
    }
  }

  lemma FirstIsNotNamed(effects: seq<Effect>)
    requires effects != [] && Distinct(effects)
    ensures !Names(effects[1..], effects[0].id)
  {
  }

  lemma IntentsGrow(before: map<string, IntentRow>, after: map<string, IntentRow>, effects: seq<Effect>, claim: Claim)
    requires effects != [] && Distinct(effects)
    requires IntentsWritten(before[effects[0].id := IntentRow(effects[0].call, claim.key, claim.generation, claim.token)],
                            after, effects[1..], claim)
    ensures IntentsWritten(before, after, effects, claim)
  {
    FirstIsNotNamed(effects);
    forall id ensures Names(effects, id) <==> id == effects[0].id || Names(effects[1..], id) { NamesUnfold(effects, id); }
    forall n | 0 <= n < |effects|
      ensures effects[n].id in after
      ensures after[effects[n].id] == IntentRow(effects[n].call, claim.key, claim.generation, claim.token)
    {
      if n > 0 { assert effects[1..][n - 1] == effects[n]; }
    }
    hide Names, Distinct;
  }

  lemma ReceiptsGrow(before: map<string, ReceiptRow>, after: map<string, ReceiptRow>, effects: seq<Effect>, claim: Claim)
    requires effects != [] && Distinct(effects)
    requires ReceiptsWritten(
      before[effects[0].id := ReceiptRow(effects[0].status, effects[0].provider, Persistable(effects[0].response),
                                         claim.generation, claim.token)],
      after, effects[1..], claim)
    ensures ReceiptsWritten(before, after, effects, claim)
  {
    hide Persistable;
    FirstIsNotNamed(effects);
    forall id ensures Names(effects, id) <==> id == effects[0].id || Names(effects[1..], id) { NamesUnfold(effects, id); }
    forall n | 0 <= n < |effects|
      ensures effects[n].id in after
      ensures after[effects[n].id]
           == ReceiptRow(effects[n].status, effects[n].provider, Persistable(effects[n].response), claim.generation, claim.token)
    {
      if n > 0 { assert effects[1..][n - 1] == effects[n]; }
    }
  }

  // ---- From a free task to the end of a run ----

  /** The task has no live lease, and the key is new or its run was left running with these parameters. */
  ghost predicate Free(s: Sys, key: string, maxSteps: int) {
    && s.db.task.Some?
    && (s.db.task.value.leaseToken.None? || s.db.task.value.leaseExpires.None? || s.db.task.value.leaseExpires.value <= s.now)
    && 0 < |key| <= 200 && 1 <= maxSteps <= 100
    && (key in s.db.runs ==> s.db.runs[key].maxSteps == maxSteps && s.db.runs[key].state == RunRunning)
  }

  ghost predicate Unused(s: Sys, w: nat, token: string, runId: string) {
    && (s.At(w).Idle? || s.At(w).Ended?)
    && token != "" && token !in s.issued && runId != "" && runId !in s.runIds
  }

  ghost function ClaimOf(s: Sys, key: string, token: string, runId: string): Claim
    requires s.db.task.Some?
  {
    Claim(key, if key in s.db.runs then s.db.runs[key].id else runId, token, s.db.task.value.generation + 1, s.db.task.value.payload)
  }

  ghost function ClaimSteps(w: nat, key: string, maxSteps: int, token: string, runId: string, leaseSeconds: int): seq<Label> {
    [Look(w, key, maxSteps), Take(w, token, runId, leaseSeconds), ScanIntents(w), ScanReceipts(w)]
  }

  /** What looking and claiming leave: the lease, the run row, and nothing else. */
  ghost predicate ClaimLeaves(s: Sys, s2: Sys, w: nat, key: string, maxSteps: int, token: string, runId: string, leaseSeconds: int)
    requires s.db.task.Some?
  {
    var claim := ClaimOf(s, key, token, runId);
    && s2.workers == s.workers[w := s2.At(w)] && s2.now == s.now && s2.insertedAt == s.insertedAt
    && s2.issued == s.issued[token := claim.generation] && s2.runIds == s.runIds + {runId}
    && s2.db.intents == s.db.intents && s2.db.receipts == s.db.receipts
    && s2.db.task == Some(TaskRow(Some(token), Some(s.now + if leaseSeconds < 5 then 5 else leaseSeconds),
                                  claim.generation, claim.payload))
    && Entered(s.db.runs, s2.db.runs, key, maxSteps, token, runId, claim.runId,
               if key in s.db.runs then s.db.runs[key].attempt + 1 else 1)
  }

  lemma LookFinds(s: Sys, w: nat, key: string, maxSteps: int)
    requires Free(s, key, maxSteps) && (s.At(w).Idle? || s.At(w).Ended?)
    ensures Enabled(s, Look(w, key, maxSteps))
    ensures Do(s, Look(w, key, maxSteps)) == s.(workers := s.workers[w := Looked(key, maxSteps,
      if key in s.db.runs then Some(RunRef(s.db.runs[key].id, s.db.runs[key].attempt)) else None)])
  {
  }

  lemma TakeGrants(s: Sys, w: nat, key: string, maxSteps: int, token: string, runId: string, leaseSeconds: int)
    requires Inv(s) && Free(s, key, maxSteps) && Unused(s, w, token, runId)
    ensures var s1 := s.(workers := s.workers[w := Looked(key, maxSteps,
              if key in s.db.runs then Some(RunRef(s.db.runs[key].id, s.db.runs[key].attempt)) else None)]);
      && Enabled(s1, Take(w, token, runId, leaseSeconds))
      && (var s2 := Do(s1, Take(w, token, runId, leaseSeconds));
          && s2.At(w) == Holding(ClaimOf(s, key, token, runId), false)
          && ClaimLeaves(s, s2, w, key, maxSteps, token, runId, leaseSeconds))
  {
    hide ClaimLease, Entered, Enabled, Do, Inv, UniqueRunIds;
    var existing := if key in s.db.runs then Some(RunRef(s.db.runs[key].id, s.db.runs[key].attempt)) else None;
    var s1 := s.(workers := s.workers[w := Looked(key, maxSteps, existing)]);
    UniqueIds(s);
    ClaimAnswers(s.db, s.now, key, maxSteps, existing, token, runId, leaseSeconds);
    TakeIs(s1, w, key, maxSteps, existing, token, runId, leaseSeconds);
    var reply := ClaimLease(s.db, s.now, key, maxSteps, existing, token, runId, leaseSeconds);
    EnteredId(s.db.runs, reply.db.runs, key, maxSteps, token, runId, reply.runId,
              if existing.Some? then existing.value.attempt + 1 else 1);
    var s2 := Do(s1, Take(w, token, runId, leaseSeconds));
    assert s2.workers == s.workers[w := s2.At(w)];
  }

  lemma EnteredId(before: map<string, RunRow>, after: map<string, RunRow>, key: string, maxSteps: int, token: string,
                  freshRunId: string, runId: string, attempt: nat)
    requires Entered(before, after, key, maxSteps, token, freshRunId, runId, attempt)
    ensures runId == if key in before then before[key].id else freshRunId
  {
  }

  lemma UniqueIds(s: Sys)
    requires Inv(s)
    ensures UniqueRunIds(s.db.runs)
  {
    hide EffectInv, RunStatesOk, ClaimRowsOk, LooksOk;
  }

  lemma TakeIs(s: Sys, w: nat, key: string, maxSteps: int, existing: Option<RunRef>, token: string, runId: string,
               leaseSeconds: int)
    requires s.At(w) == Looked(key, maxSteps, existing)
    requires token != "" && token !in s.issued && runId != "" && runId !in s.runIds
    ensures Enabled(s, Take(w, token, runId, leaseSeconds))
    ensures var reply := ClaimLease(s.db, s.now, key, maxSteps, existing, token, runId, leaseSeconds);
      reply.Claimed? ==>
        Do(s, Take(w, token, runId, leaseSeconds)) == s.(
          workers := s.workers[w := Holding(Claim(key, reply.runId, token, reply.generation, reply.payload), false)],
          db := reply.db, issued := s.issued[token := reply.generation], runIds := s.runIds + {runId})
  {
    hide ClaimLease;
  }

  lemma ScanAnswers(s: Sys, w: nat, claim: Claim)
    requires s.At(w) == Holding(claim, false)
    ensures Enabled(s, ScanIntents(w)) && Enabled(Do(s, ScanIntents(w)), ScanReceipts(w))
    ensures Do(Do(s, ScanIntents(w)), ScanReceipts(w)) == s.(workers := s.workers[w :=
      if exists id | id in s.db.intents :: id !in s.db.receipts then Refusing(claim, false)
      else Executing(claim, false, map[], None, None)])
  {
    var s1 := Do(s, ScanIntents(w));
    assert s1 == s.(workers := s.workers[w := Scanned(claim, false, s.db.intents.Keys)]);
  }

  /** A free task is claimed and scanned; the worker refuses exactly when an effect has no receipt. */
  lemma ClaimAndScan(s: Sys, w: nat, key: string, maxSteps: int, token: string, runId: string, leaseSeconds: int) returns (end: Sys)
    requires Inv(s) && Free(s, key, maxSteps) && Unused(s, w, token, runId)
    ensures Runs(s, ClaimSteps(w, key, maxSteps, token, runId, leaseSeconds))
    ensures end == After(s, ClaimSteps(w, key, maxSteps, token, runId, leaseSeconds))
    ensures ClaimLeaves(s, end, w, key, maxSteps, token, runId, leaseSeconds)
    ensures end.At(w) == if exists id | id in s.db.intents :: id !in s.db.receipts then Refusing(ClaimOf(s, key, token, runId), false)
                         else Executing(ClaimOf(s, key, token, runId), false, map[], None, None)
  {
    hide *;
    FreeMeans(s, key, maxSteps, w, token, runId);
    LookFinds(s, w, key, maxSteps);
    TakeGrants(s, w, key, maxSteps, token, runId, leaseSeconds);
    var s1 := Do(s, Look(w, key, maxSteps));
    var s2 := Do(s1, Take(w, token, runId, leaseSeconds));
    ScanAnswers(s2, w, ClaimOf(s, key, token, runId));
    end := Do(Do(s2, ScanIntents(w)), ScanReceipts(w));
    TwoSteps(s, Look(w, key, maxSteps), Take(w, token, runId, leaseSeconds));
    TwoSteps(s2, ScanIntents(w), ScanReceipts(w));
    RunsOn(s, [Look(w, key, maxSteps), Take(w, token, runId, leaseSeconds)], [ScanIntents(w), ScanReceipts(w)]);
    ClaimStepsAre(w, key, maxSteps, token, runId, leaseSeconds);
    WorkerIs(end, w);
    LeavesStill(s, s2, end, w, key, maxSteps, token, runId, leaseSeconds);
  }

  lemma FreeMeans(s: Sys, key: string, maxSteps: int, w: nat, token: string, runId: string)
    requires Free(s, key, maxSteps) && Unused(s, w, token, runId)
    ensures s.db.task.Some? && (s.At(w).Idle? || s.At(w).Ended?)
  {
  }

  lemma ClaimStepsAre(w: nat, key: string, maxSteps: int, token: string, runId: string, leaseSeconds: int)
    ensures ClaimSteps(w, key, maxSteps, token, runId, leaseSeconds)
         == [Look(w, key, maxSteps), Take(w, token, runId, leaseSeconds)] + [ScanIntents(w), ScanReceipts(w)]
  {
  }

  lemma LeavesStill(s: Sys, s2: Sys, end: Sys, w: nat, key: string, maxSteps: int, token: string, runId: string, leaseSeconds: int)
    requires s.db.task.Some? && ClaimLeaves(s, s2, w, key, maxSteps, token, runId, leaseSeconds)
    requires end == s2.(workers := s2.workers[w := end.At(w)])
    ensures ClaimLeaves(s, end, w, key, maxSteps, token, runId, leaseSeconds)
    ensures s2.db.intents == s.db.intents && s2.db.receipts == s.db.receipts
  {
    hide Entered, ClaimOf;
  }

  /** A commit under the lease: the run is done, the task written and free, the receipts durable. */
  lemma CommitAnswers(s: Sys, w: nat, claim: Claim, pending: map<string, ReceiptRow>, payload: TaskPayload, result: RunResult)
    requires Executes(s, w, claim, pending) && claim.key in s.db.runs
    requires var run := s.db.runs[claim.key];
             run.id == claim.runId && run.leaseToken == Some(claim.token) && run.state == RunRunning
    ensures Enabled(s, CommitRun(w, payload, result))
    ensures var end := Do(s, CommitRun(w, payload, result));
      && end.workers == s.workers[w := Ended(Finished(result))]
      && end.db.task == Some(TaskRow(None, None, s.db.task.value.generation, payload))
      && OneRunClosed(s.db.runs, end.db.runs, claim.runId, claim.token, RunCompleted, Some(Persistable(result)), None)
      && end.db.intents == s.db.intents
      && end.db.receipts == s.db.receipts + pending
  {
    ClosedRows(s.db.runs, claim.runId, claim.token, RunCompleted, Some(Persistable(result)), None);
    hide Persistable, CloseRuns, OneRunClosed;
    assert RunHeld(s.db, claim);
  }

  ghost function WholeRun(w: nat, key: string, maxSteps: int, token: string, runId: string, leaseSeconds: int,
                          effects: seq<Effect>, payload: TaskPayload, result: RunResult): seq<Label>
  {
    ClaimSteps(w, key, maxSteps, token, runId, leaseSeconds) + EffectSteps(w, effects) + [CommitRun(w, payload, result)]
  }

  /**
   From every reachable state in which the task is free and nothing is left behind, any idle worker can
   claim it under a new token, run any list of new effects and commit: the task is written and free
   again, the run row completed, and every effect has its intent and its receipt, under the new generation.
   */
  lemma TaskCanBeRun(s: Sys, w: nat, key: string, maxSteps: int, token: string, runId: string, leaseSeconds: int,
                     effects: seq<Effect>, payload: TaskPayload, result: RunResult)
    requires Reachable(s) && Free(s, key, maxSteps) && Unused(s, w, token, runId) && NewEffects(s, effects)
    requires forall id | id in s.db.intents :: id in s.db.receipts
    ensures var labels := WholeRun(w, key, maxSteps, token, runId, leaseSeconds, effects, payload, result);
            var claim := ClaimOf(s, key, token, runId);
      && Runs(s, labels)
      && (var end := After(s, labels);
          && end.At(w) == Ended(Finished(result))
          && end.db.task == Some(TaskRow(None, None, s.db.task.value.generation + 1, payload))
          && key in end.db.runs && end.db.runs[key].id == claim.runId && end.db.runs[key].state == RunCompleted
          && end.db.runs[key].result == Some(Persistable(result)) && end.db.runs[key].maxSteps == maxSteps
          && IntentsWritten(s.db.intents, end.db.intents, effects, claim)
          && ReceiptsWritten(s.db.receipts, end.db.receipts, effects, claim))
  {
    hide *;
    ReachableInv(s);
    FreeMeans(s, key, maxSteps, w, token, runId);
    var claim := ClaimOf(s, key, token, runId);
    var s1 := ClaimAndScan(s, w, key, maxSteps, token, runId, leaseSeconds);
    ClaimedExecutes(s, s1, w, key, maxSteps, token, runId, leaseSeconds, effects);
    var s2 := EffectsRun(s1, w, claim, map[], effects);
    StillHeld(s1, s2, w);
    CommitAnswers(s2, w, claim, s2.At(w).pending, payload, result);
    OneStep(s2, CommitRun(w, payload, result));
    RunsOn(s, ClaimSteps(w, key, maxSteps, token, runId, leaseSeconds), EffectSteps(w, effects));
    RunsOn(s, ClaimSteps(w, key, maxSteps, token, runId, leaseSeconds) + EffectSteps(w, effects), [CommitRun(w, payload, result)]);
    WholeRunIs(w, key, maxSteps, token, runId, leaseSeconds, effects, payload, result);
    var end := Do(s2, CommitRun(w, payload, result));
    WorkerIs(end, w);
    CompletedRow(s2.db.runs, end.db.runs, key, claim.runId, token, RunCompleted, Some(Persistable(result)), None);
    ReceiptsLand(s, s2.At(w).pending, effects, claim);
  }

  lemma WholeRunIs(w: nat, key: string, maxSteps: int, token: string, runId: string, leaseSeconds: int,
                   effects: seq<Effect>, payload: TaskPayload, result: RunResult)
    ensures WholeRun(w, key, maxSteps, token, runId, leaseSeconds, effects, payload, result)
         == ClaimSteps(w, key, maxSteps, token, runId, leaseSeconds) + EffectSteps(w, effects) + [CommitRun(w, payload, result)]
  {
  }

  lemma ClaimedExecutes(s: Sys, s1: Sys, w: nat, key: string, maxSteps: int, token: string, runId: string, leaseSeconds: int,
                        effects: seq<Effect>)
    requires Free(s, key, maxSteps) && ClaimLeaves(s, s1, w, key, maxSteps, token, runId, leaseSeconds) && NewEffects(s, effects)
    requires s1.At(w).Executing? ==> s1.At(w) == Executing(ClaimOf(s, key, token, runId), false, map[], None, None)
    ensures s1.At(w).Executing? ==> Executes(s1, w, ClaimOf(s, key, token, runId), map[])
    ensures NewEffects(s1, effects) && s1.db.intents == s.db.intents && s1.db.receipts == s.db.receipts
    ensures s1.db.task.Some? && s1.db.task.value.generation == s.db.task.value.generation + 1
    ensures s1.db.task.value.leaseToken == Some(token) && s1.db.task.value.payload == s.db.task.value.payload
    ensures var claim := ClaimOf(s, key, token, runId);
      && claim.key == key && claim.token == token
      && key in s1.db.runs && s1.db.runs[key].id == claim.runId && s1.db.runs[key].maxSteps == maxSteps
      && s1.db.runs[key].leaseToken == Some(token) && s1.db.runs[key].state == RunRunning
  {
    assert s1.db.receipts == s.db.receipts && s1.insertedAt == s.insertedAt;
  }

  lemma StillHeld(s1: Sys, s2: Sys, w: nat)
    requires OnlyEffectsChanged(s1, s2, w)
    ensures s2.db.runs == s1.db.runs && s2.db.task == s1.db.task && s2.db.receipts == s1.db.receipts
    ensures s2.workers == s1.workers[w := s2.At(w)]
  {
  }

  lemma CompletedRow(before: map<string, RunRow>, after: map<string, RunRow>, key: string, runId: string, token: string,
                     state: RunState, result: Option<RunResult>, error: Option<string>)
    requires OneRunClosed(before, after, runId, token, state, result, error) && key in before
    requires before[key].id == runId && before[key].leaseToken == Some(token) && before[key].state == RunRunning
    ensures key in after && after[key] == RunRow(runId, before[key].maxSteps, state, None, before[key].attempt, result, error)
  {
  }

  lemma ReceiptsLand(s: Sys, pending: map<string, ReceiptRow>, effects: seq<Effect>, claim: Claim)
    requires ReceiptsWritten(map[], pending, effects, claim) && NewEffects(s, effects)
    ensures ReceiptsWritten(s.db.receipts, s.db.receipts + pending, effects, claim)
  {
    hide Persistable;
    forall id | id in s.db.receipts ensures !Names(effects, id) { }
  }

  // ---- An effect left behind ----

  /**
   From every reachable state in which the task is free but some effect has no receipt, a worker that
   claims it runs no effect: it can only refuse, parking the task unless that was over, and then its
   run is failed, the lease free, and the effects are as they were.
   */
  lemma OrphanStopsTheRun(s: Sys, w: nat, key: string, maxSteps: int, token: string, runId: string, leaseSeconds: int,
                          orphan: string, payload: TaskPayload, text: string)
    requires Reachable(s) && Free(s, key, maxSteps) && Unused(s, w, token, runId)
    requires orphan in s.db.intents && orphan !in s.db.receipts
    ensures var labels := ClaimSteps(w, key, maxSteps, token, runId, leaseSeconds) + [ParkTask(w, payload), CommitFailure(w, text)];
            var prior := s.db.task.value.payload;
            var over := prior.state == Completed || prior.state == Failed || prior.state == Cancelled;
      && Runs(s, labels)
      && (var end := After(s, labels);
          && end.At(w) == Ended(Refused(AmbiguousEffect))
          && end.db.task == Some(TaskRow(None, None, s.db.task.value.generation + 1, if over then prior else payload))
          && key in end.db.runs && end.db.runs[key].state == RunFailed && end.db.runs[key].error == Some(FailureText(text))
          && end.db.intents == s.db.intents && end.db.receipts == s.db.receipts)
  {
    hide *;
    ReachableInv(s);
    FreeMeans(s, key, maxSteps, w, token, runId);
    var claim := ClaimOf(s, key, token, runId);
    var s1 := ClaimAndScan(s, w, key, maxSteps, token, runId, leaseSeconds);
    NoneIsNew(s);
    ClaimedExecutes(s, s1, w, key, maxSteps, token, runId, leaseSeconds, []);
    RefusalEnds(s1, w, claim, payload, text);
    RunsOn(s, ClaimSteps(w, key, maxSteps, token, runId, leaseSeconds), [ParkTask(w, payload), CommitFailure(w, text)]);
    var end := After(s1, [ParkTask(w, payload), CommitFailure(w, text)]);
    WorkerIs(end, w);
    CompletedRow(s1.db.runs, end.db.runs, key, claim.runId, token, RunFailed, None, Some(FailureText(text)));
    ClaimPayload(s, key, token, runId);
  }

  lemma NoneIsNew(s: Sys)
    ensures NewEffects(s, [])
  {
  }

  lemma ClaimPayload(s: Sys, key: string, token: string, runId: string)
    requires s.db.task.Some?
    ensures ClaimOf(s, key, token, runId).payload == s.db.task.value.payload
  {
  }

  lemma RefusalEnds(s: Sys, w: nat, claim: Claim, payload: TaskPayload, text: string)
    requires s.At(w) == Refusing(claim, false) && s.db.task.Some? && s.db.task.value.leaseToken == Some(claim.token)
    ensures var labels := [ParkTask(w, payload), CommitFailure(w, text)];
            var over := claim.payload.state == Completed || claim.payload.state == Failed || claim.payload.state == Cancelled;
      && Runs(s, labels)
      && (var end := After(s, labels);
          && end.workers == s.workers[w := Ended(Refused(AmbiguousEffect))]
          && end.db.task == Some(TaskRow(None, None, s.db.task.value.generation,
                                         if over then s.db.task.value.payload else payload))
          && OneRunClosed(s.db.runs, end.db.runs, claim.runId, claim.token, RunFailed, None, Some(FailureText(text)))
          && end.db.intents == s.db.intents && end.db.receipts == s.db.receipts)
  {
    hide *;
    ParkIsOpen(s, w, claim, payload);
    RefusalParks(s, w, payload);
    var s1 := Do(s, ParkTask(w, payload));
    FailureAnswers(s1, w, claim, AmbiguousEffect, text);
    TwoSteps(s, ParkTask(w, payload), CommitFailure(w, text));
    var end := Do(s1, CommitFailure(w, text));
    assert end.workers == s.workers[w := Ended(Refused(AmbiguousEffect))];
  }

  lemma ParkIsOpen(s: Sys, w: nat, claim: Claim, payload: TaskPayload)
    requires s.At(w) == Refusing(claim, false)
    ensures Enabled(s, ParkTask(w, payload))
  {
  }
}
