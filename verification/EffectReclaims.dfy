/**
 Closed keys. The ledger read and the claim are two statements, so a key can be claimed after it
 was completed or failed: exactly when, and that such a claim never completes.
 */
module EffectReclaims {
  import opened Prelude
  import opened AgentRows
  import opened EffectProtocol
  import opened EffectInvariant
  import opened EffectGuarantees

  /** The key's run row is completed or failed. */
  ghost predicate Closed(s: Sys, k: string) {
    s.db.task.Some? && k in s.db.runs && !s.db.runs[k].state.RunRunning?
  }

  /** A worker still holds a read of the key's row from when it was running. */
  ghost predicate HeldRead(s: Sys, k: string) {
    exists w :: ReadRunning(s.At(w), k)
  }

  predicate ReadRunning(me: Worker, k: string) {
    me.Looked? && me.key == k && me.existing.Some?
  }

  ghost predicate Reclaims(s: Sys, l: Label, k: string) {
    Enabled(s, l) && l.Take? && s.At(l.w).key == k && Do(s, l).At(l.w).Holding?
  }

  /** Some continuation grants a claim on the key. */
  ghost predicate CanBeReclaimed(s: Sys, k: string) {
    exists labels, l :: Runs(s, labels) && Reclaims(After(s, labels), l, k)
  }

  // ---- Without such a read ----

  /** The key stays out of reach: its row is closed and unread, or the task is gone. */
  ghost predicate OutOfReach(s: Sys, k: string) {
    s.db.task.None? || (Closed(s, k) && !HeldRead(s, k))
  }

  /** Only a ledger read makes a reading worker. */
  lemma ReadComesFromLook(s: Sys, l: Label, w: nat)
    requires Enabled(s, l) && Do(s, l).At(w).Looked?
    ensures Do(s, l).At(w) == s.At(w) || (l.Look? && l.w == w)
  {
    hide ReadLedger, ClaimLease, Complete, Fail, Park, Renew, Mutate, Persistable, RunHeld, Deleted;
  }

  /** A ledger read of a closed key is answered or refused. */
  lemma ClosedKeyIsNotRead(s: Sys, w: nat, key: string, maxSteps: int, k: string)
    requires Closed(s, k)
    ensures !ReadRunning(LookStep(s, w, key, maxSteps).At(w), k)
  {
  }

  lemma StepKeepsClosed(s: Sys, l: Label, k: string)
    requires Enabled(s, l) && Closed(s, k) && Do(s, l).db.task.Some?
    ensures Closed(Do(s, l), k)
  {
    hide Do, Enabled;
    LedgerStep(s, l, k);
  }

  lemma StepKeepsOutOfReach(s: Sys, l: Label, k: string)
    requires Enabled(s, l) && OutOfReach(s, k)
    ensures OutOfReach(Do(s, l), k)
  {
    var s' := Do(s, l);
    if s'.db.task.Some? {
      StepKeepsGeneration(s, l);
      StepKeepsClosed(s, l, k);
      forall w ensures !ReadRunning(s'.At(w), k) {
        if s'.At(w).Looked? {
          ReadComesFromLook(s, l, w);
          if s'.At(w) != s.At(w) { ClosedKeyIsNotRead(s, w, l.key, l.maxSteps, k); }
        }
        hide Do, Enabled, LookStep;
        assert s'.At(w) == s.At(w) ==> !ReadRunning(s'.At(w), k);
      }
    }
  }

  lemma {:induction false} RunKeepsOutOfReach(s: Sys, labels: seq<Label>, k: string)
    requires Runs(s, labels) && OutOfReach(s, k)
    ensures OutOfReach(After(s, labels), k)
    decreases |labels|
  {
    hide Enabled, Do, OutOfReach;
    if labels != [] {
      StepKeepsOutOfReach(s, labels[0], k);
      RunKeepsOutOfReach(Do(s, labels[0]), labels[1..], k);
    }
  }

  lemma OutOfReachIsRefused(s: Sys, l: Label, k: string)
    requires OutOfReach(s, k)
    ensures !Reclaims(s, l, k)
  {
    hide Supersede, Reclaim, LeaseEnd;
    if l.Take? && Enabled(s, l) && s.At(l.w).key == k && s.db.task.Some? {
      assert !ReadRunning(s.At(l.w), k);
    }
  }

  // ---- With such a read ----

  /** A name longer than all used ones is fresh. */
  lemma {:induction false} FreshName(used: set<string>) returns (name: string)
    ensures Fresh(name, used) && forall other | other in used :: |other| < |name|
  {
    name := "t";
    if used != {} {
      var one :| one in used;
      var longer := FreshName(used - {one});
      name := longer + one;
      forall other | other in used ensures |other| < |name| {
        assert other == one || other in used - {one};
      }
    }
  }

  lemma HeldReadCanClaim(s: Sys, w: nat, k: string)
    requires s.db.task.Some? && ReadRunning(s.At(w), k)
    ensures CanBeReclaimed(s, k)
  {
    var task := s.db.task.value;
    var wait: nat := if task.leaseExpires.Some? && task.leaseExpires.value > s.now then task.leaseExpires.value - s.now else 0;
    var later := Do(s, Tick(wait));
    var token := FreshName(s.issued.Keys);
    var runId := FreshName(s.runIds);
    assert Runs(later, []) && After(later, []) == later;
    assert [Tick(wait)][1..] == [];
    assert Runs(s, [Tick(wait)]) && After(s, [Tick(wait)]) == later;
    ExpiredIsClaimed(later, w, k, token, runId);
  }

  lemma ExpiredIsClaimed(s: Sys, w: nat, k: string, token: string, runId: string)
    requires s.db.task.Some? && Claimable(s.db.task.value, s.now) && ReadRunning(s.At(w), k)
    requires Fresh(token, s.issued.Keys) && Fresh(runId, s.runIds)
    ensures Reclaims(s, Take(w, token, runId, 15), k)
  {
    hide Supersede, Reclaim, LeaseEnd, Fresh;
  }

  /**
   A completed or failed key is claimed again in some continuation if and only if some worker
   still holds a read of its row from when it was running.
   */
  lemma ClosedKeyIsReclaimedExactly(s: Sys, k: string)
    requires Closed(s, k)
    ensures CanBeReclaimed(s, k) <==> HeldRead(s, k)
  {
    if w :| ReadRunning(s.At(w), k) {
      HeldReadCanClaim(s, w, k);
    } else {
      forall labels, l | Runs(s, labels) ensures !Reclaims(After(s, labels), l, k) {
        RunKeepsOutOfReach(s, labels, k);
        OutOfReachIsRefused(After(s, labels), l, k);
      }
    }
  }

  // ---- Such a claim never completes ----

  lemma {:induction false} RunKeepsClosed(s: Sys, labels: seq<Label>, k: string)
    requires Runs(s, labels) && Closed(s, k) && After(s, labels).db.task.Some?
    ensures Closed(After(s, labels), k)
    decreases |labels|
  {
    hide Enabled, Do, Closed;
    if labels != [] {
      var s1 := Do(s, labels[0]);
      if s1.db.task.None? { GoneStaysGone(s1, labels[1..]); }
      StepKeepsClosed(s, labels[0], k);
      RunKeepsClosed(s1, labels[1..], k);
    }
  }

  lemma ClosedRowIsNotCompleted(s: Sys, w: nat, payload: TaskPayload, result: RunResult)
    requires RunsOk(s) && ClaimRowsOk(s) && Enabled(s, CommitRun(w, payload, result))
    requires s.db.task.Some? ==> Closed(s, s.At(w).claim.key)
    ensures CommitRunStep(s, w, payload, result) == s.Put(w, Failing(s.At(w).claim, LeaseLost))
  {
    var claim := s.At(w).claim;
    assert Has(s, w);
    assert forall k | k in s.db.runs && s.db.runs[k].HeldBy(claim.runId, claim.token) ::
      s.db.runs[k].id == s.db.runs[claim.key].id;
  }

  /**
   However a claim on a closed key came about, over every continuation its commit fails: it ends
   with the lease lost and changes no row, so the first answer stands.
   */
  lemma ClosedKeyNeverCompletesAgain(s: Sys, labels: seq<Label>, k: string, w: nat, payload: TaskPayload, result: RunResult)
    requires Reachable(s) && Closed(s, k) && Runs(s, labels)
    requires Enabled(After(s, labels), CommitRun(w, payload, result)) && After(s, labels).At(w).claim.key == k
    ensures var later := After(s, labels);
            Do(later, CommitRun(w, payload, result)) == later.Put(w, Failing(later.At(w).claim, LeaseLost))
  {
    ReachableInv(s);
    RunKeeps(s, labels);
    if After(s, labels).db.task.Some? { RunKeepsClosed(s, labels, k); }
    hide EffectInv, RunsOk, LooksOk, ClaimRowsOk, Closed, CommitRunStep;
    ClosedRowIsNotCompleted(After(s, labels), w, payload, result);
  }
}
