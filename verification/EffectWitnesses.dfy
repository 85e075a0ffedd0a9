/** Two runs that show where separate statements matter: they are the reasons the guarantees carry conditions. */
module EffectWitnesses {
  import opened Prelude
  import opened JsonValues
  import opened AgentRows
  import opened EffectProtocol
  import opened EffectInvariant
  import opened EffectGuarantees

  lemma {:induction false} RunsThenOneMore(s: Sys, labels: seq<Label>, l: Label)
    requires Runs(s, labels) && Enabled(After(s, labels), l)
    ensures Runs(s, labels + [l]) && After(s, labels + [l]) == Do(After(s, labels), l)
    decreases |labels|
  {
    if labels == [] {
      assert labels + [l] == [l];
      assert Runs(Do(s, l), []);
    } else {
      assert (labels + [l])[1..] == labels[1..] + [l];
      RunsThenOneMore(Do(s, labels[0]), labels[1..], l);
    }
  }

  lemma ReachableStep(s: Sys, l: Label)
    requires Reachable(s) && Enabled(s, l)
    ensures Reachable(Do(s, l))
  {
    var s0, labels :| Init(s0) && Runs(s0, labels) && After(s0, labels) == s;
    RunsThenOneMore(s0, labels, l);
  }

  const PLANNED := TaskPayload(Planned, "", JNull)
  const NEW_TASK := TaskRow(None, None, 0, PLANNED)
  const NEW_SYS := Sys(Db(Some(NEW_TASK), map[], map[], map[]), 0, map[], map[], {}, map[])
  const WRITE := EffectCall("STEP-01", "repo.write", JNull)

  lemma NewIsReachable()
    ensures Reachable(NEW_SYS)
  {
    assert Init(NEW_SYS) && Runs(NEW_SYS, []) && After(NEW_SYS, []) == NEW_SYS;
  }

  /** With no effects on record, the orphan scan lets a worker execute. */
  lemma ScansClean(s: Sys, w: nat) returns (s': Sys)
    requires Reachable(s) && s.At(w).Holding? && !s.At(w).lost && s.db.intents == map[]
    ensures Reachable(s')
    ensures s' == s.Put(w, Executing(s.At(w).claim, false, map[], None, None))
  {
    var s1 := Do(s, ScanIntents(w));
    ReachableStep(s, ScanIntents(w));
    assert s1.At(w) == Scanned(s.At(w).claim, false, {});
    s' := Do(s1, ScanReceipts(w));
    ReachableStep(s1, ScanReceipts(w));
    assert s'.workers == s.workers[w := s'.At(w)];
  }

  /** A fresh key on a free task: the worker that looks and claims holds the lease. */
  lemma TakesFresh(s: Sys, w: nat, key: string, token: string, runId: string) returns (s': Sys)
    requires Reachable(s) && s.At(w).Idle? && |key| == 1 && key !in s.db.runs
    requires s.db.task.Some? && Claimable(s.db.task.value, s.now)
    requires Fresh(token, s.issued.Keys) && Fresh(runId, s.runIds)
    ensures Reachable(s')
    ensures s'.At(w) == Holding(Claim(key, runId, token, s.db.task.value.generation + 1, s.db.task.value.payload), false)
    ensures forall v :: v != w ==> s'.At(v) == s.At(v)
    ensures s'.db.task == Some(s.db.task.value.(leaseToken := Some(token), leaseExpires := Some(s.now + 15),
                                                generation := s.db.task.value.generation + 1))
    ensures s'.db.intents == s.db.intents && s'.db.receipts == s.db.receipts && s'.now == s.now
    ensures s'.insertedAt == s.insertedAt && s'.issued == s.issued[token := s.db.task.value.generation + 1]
    ensures s'.runIds == s.runIds + {runId} && s'.db.runs.Keys == s.db.runs.Keys + {key}
    ensures s'.db.runs[key] == RunRow(runId, 1, RunRunning, Some(token), 1, None, None)
  {
    var s1 := LooksFresh(s, w, key);
    s' := ClaimsFresh(s1, w, key, token, runId);
  }

  lemma LooksFresh(s: Sys, w: nat, key: string) returns (s': Sys)
    requires Reachable(s) && s.At(w).Idle? && |key| == 1 && key !in s.db.runs
    ensures Reachable(s') && s' == s.Put(w, Looked(key, 1, None))
  {
    s' := Do(s, Look(w, key, 1));
    ReachableStep(s, Look(w, key, 1));
  }

  lemma ClaimsFresh(s: Sys, w: nat, key: string, token: string, runId: string) returns (s': Sys)
    requires Reachable(s) && s.At(w) == Looked(key, 1, None) && key !in s.db.runs
    requires s.db.task.Some? && Claimable(s.db.task.value, s.now)
    requires Fresh(token, s.issued.Keys) && Fresh(runId, s.runIds)
    ensures Reachable(s')
    ensures s'.At(w) == Holding(Claim(key, runId, token, s.db.task.value.generation + 1, s.db.task.value.payload), false)
    ensures forall v :: v != w ==> s'.At(v) == s.At(v)
    ensures s'.db.task == Some(s.db.task.value.(leaseToken := Some(token), leaseExpires := Some(s.now + 15),
                                                generation := s.db.task.value.generation + 1))
    ensures s'.db.intents == s.db.intents && s'.db.receipts == s.db.receipts && s'.now == s.now
    ensures s'.insertedAt == s.insertedAt && s'.issued == s.issued[token := s.db.task.value.generation + 1]
    ensures s'.runIds == s.runIds + {runId} && s'.db.runs.Keys == s.db.runs.Keys + {key}
    ensures s'.db.runs[key] == RunRow(runId, 1, RunRunning, Some(token), 1, None, None)
  {
    s' := Do(s, Take(w, token, runId, 15));
    ReachableStep(s, Take(w, token, runId, 15));
    hide Reachable, Supersede, Reclaim, Fresh, Claimable;
  }

  /**
   With the fence check and the insert apart, a first worker can pass its fence check, lose
   its lease to a second one that scans a clean task, and only then write its intent: the
   second worker then executes on a past with an effect that has no receipt.
   */
  lemma LateInsertSpoilsThePast() returns (s: Sys)
    ensures Reachable(s)
    ensures s.At(2).Executing? && s.At(2).claim.generation == 2 && s.db.Fenced("t2", 2)
    ensures "i1" in s.db.intents && s.db.intents["i1"].generation == 1 && Orphan(s.db, "i1")
    ensures !OnTime(s, "i1")
  {
    var s3 := FirstWorkerStalls();
    var s4 := TakesFresh(s3, 2, "b", "t2", "r2");
    assert s4.At(1) == s3.At(1);
    var s5 := ScansClean(s4, 2);
    s := InsertsLate(s5);
  }

  lemma FirstWorkerStalls() returns (s: Sys)
    ensures Reachable(s) && s.At(2).Idle? && s.now == 20
    ensures s.At(1).Executing? && s.At(1).fenced.Some? && s.At(1).claim.generation == 1
    ensures s.db.task == Some(NEW_TASK.(leaseToken := Some("t1"), leaseExpires := Some(15), generation := 1))
    ensures s.db.runs.Keys == {"a"} && s.db.intents == map[] && s.db.receipts == map[]
    ensures s.issued == map["t1" := 1] && s.runIds == {"r1"} && s.insertedAt == map[]
  {
    var s0 := FirstWorkerClaims();
    hide Reachable;
    var s1 := ScansClean(s0, 1);
    s := ChecksFenceAndStalls(s1);
  }

  lemma FirstWorkerClaims() returns (s: Sys)
    ensures Reachable(s) && s.At(2).Idle? && s.now == 0
    ensures s.At(1) == Holding(Claim("a", "r1", "t1", 1, PLANNED), false)
    ensures s.db.task == Some(NEW_TASK.(leaseToken := Some("t1"), leaseExpires := Some(15), generation := 1))
    ensures s.db.runs.Keys == {"a"} && s.db.intents == map[] && s.db.receipts == map[]
    ensures s.issued == map["t1" := 1] && s.runIds == {"r1"} && s.insertedAt == map[]
  {
    NewIsReachable();
    hide Reachable;
    s := TakesFresh(NEW_SYS, 1, "a", "t1", "r1");
    assert s.At(2) == NEW_SYS.At(2);
  }

  lemma ChecksFenceAndStalls(s: Sys) returns (s': Sys)
    requires Reachable(s) && Enabled(s, CheckFence(1, WRITE)) && s.At(2).Idle?
    requires s.db.Fenced(s.At(1).claim.token, s.At(1).claim.generation)
    ensures Reachable(s') && s'.db == s.db && s'.now == s.now + 20
    ensures s'.issued == s.issued && s'.runIds == s.runIds && s'.insertedAt == s.insertedAt
    ensures s'.At(2).Idle? && s'.At(1) == s.At(1).(fenced := Some(WRITE))
  {
    var s1 := Do(s, CheckFence(1, WRITE));
    ReachableStep(s, CheckFence(1, WRITE));
    s' := Do(s1, Tick(20));
    ReachableStep(s1, Tick(20));
  }

  lemma InsertsLate(s: Sys) returns (s': Sys)
    requires Reachable(s) && s.At(1).Executing? && s.At(1).fenced.Some? && s.At(1).claim.generation == 1
    requires s.db.task.Some? && s.db.task.value.generation == 2 && s.db.task.value.leaseToken == Some("t2")
    requires s.insertedAt == map[] && s.db.receipts == map[]
    ensures Reachable(s') && s'.At(2) == s.At(2) && s'.db.task == s.db.task
    ensures "i1" in s'.db.intents && s'.db.intents["i1"].generation == 1 && Orphan(s'.db, "i1") && !OnTime(s', "i1")
  {
    s' := Do(s, InsertIntent(1, "i1"));
    ReachableStep(s, InsertIntent(1, "i1"));
  }

  /**
   With the ledger read and the claim apart, a key can be executed again after it was
   completed; the second execution can never complete, so the recorded answer stands.
   */
  lemma CompletedKeyCanExecuteAgain() returns (s: Sys)
    ensures Reachable(s)
    ensures "a" in s.db.runs && s.db.runs["a"].state.RunCompleted?
    ensures s.At(2).Executing? && s.At(2).claim.key == "a" && s.db.Fenced(s.At(2).claim.token, s.At(2).claim.generation)
  {
    NewIsReachable();
    var s0 := TakesFresh(NEW_SYS, 1, "a", "t1", "r1");
    assert s0.At(2) == NEW_SYS.At(2);
    var s1 := ScansClean(s0, 1);
    var s2 := Do(s1, Look(2, "a", 1));
    ReachableStep(s1, Look(2, "a", 1));
    assert s2.At(2) == Looked("a", 1, Some(RunRef("r1", 1)));
    var s3 := CompletesUnder(s2);
    var s4 := TakesStale(s3);
    s := ScansClean(s4, 2);
  }

  lemma CompletesUnder(s: Sys) returns (s': Sys)
    requires Reachable(s) && s.db.task.Some? && s.db.OwnedBy("t1") && s.db.intents == map[]
    requires s.At(1).Executing? && !s.At(1).lost && s.At(1).fenced.None? && s.At(1).inFlight.None?
    requires s.At(1).claim.runId == "r1" && s.At(1).claim.token == "t1"
    requires "a" in s.db.runs && s.db.runs["a"].HeldBy("r1", "t1")
    ensures Reachable(s') && s'.At(2) == s.At(2) && s'.db.task.Some? && s'.db.task.value.leaseToken.None?
    ensures "a" in s'.db.runs && s'.db.runs["a"].state.RunCompleted? && s'.db.runs["a"].id == "r1"
    ensures s'.db.intents == map[] && s'.issued == s.issued && s'.runIds == s.runIds
  {
    s' := Do(s, CommitRun(1, PLANNED, map[]));
    ReachableStep(s, CommitRun(1, PLANNED, map[]));
  }

  lemma TakesStale(s: Sys) returns (s': Sys)
    requires Reachable(s) && s.At(2) == Looked("a", 1, Some(RunRef("r1", 1))) && s.db.intents == map[]
    requires s.db.task.Some? && s.db.task.value.leaseToken.None?
    requires "a" in s.db.runs && s.db.runs["a"].state.RunCompleted? && s.db.runs["a"].id == "r1"
    requires "t2" !in s.issued && "r2" !in s.runIds
    ensures Reachable(s') && s'.At(2).Holding? && !s'.At(2).lost && s'.At(2).claim.key == "a"
    ensures s'.db.Fenced(s'.At(2).claim.token, s'.At(2).claim.generation)
    ensures "a" in s'.db.runs && s'.db.runs["a"].state.RunCompleted? && s'.db.intents == map[]
  {
    s' := Do(s, Take(2, "t2", "r2", 15));
    ReachableStep(s, Take(2, "t2", "r2", 15));
  }

  /** A worker whose run row is no longer running cannot complete, at any time later. */
  lemma OnlyARunningRowCompletes(s: Sys, w: nat, payload: TaskPayload, result: RunResult)
    requires Reachable(s) && Enabled(s, CommitRun(w, payload, result)) && s.db.task.Some?
    ensures var claim := s.At(w).claim;
      claim.key in s.db.runs
      && (Do(s, CommitRun(w, payload, result)).At(w) == Ended(Finished(result))
          <==> !s.At(w).lost && s.db.OwnedBy(claim.token) && s.db.runs[claim.key].HeldBy(claim.runId, claim.token))
  {
    ReachableInv(s);
    assert Has(s, w);
  }
}
