/**
 Scheduled goals of one owner (`app/services/hermes_expansion_persistence.py`) with the missed-run
 rule of `services/agent_runtime/schedule_policy.py`. Times are seconds.
 */
module Schedules {
  import opened Prelude
  import opened Strings

  datatype State = Pending | Due | Running | Completed | Cancelled | Failed

  // The policy stored with the row; the original slot is bound when the row is created.
  datatype Policy = CatchUp | Skip(maxLateness: nat, originalRunAt: int)

  datatype Row = Row(goal: string, runAt: int, state: State, policy: Policy, taskId: Option<string>, failureReason: string)

  type Rows = map<string, Row>

  const BACKOFF := 15 * 60
  const REASON_LIMIT := 2000
  const MISSED := "missed_run_skipped: original slot exceeded max_lateness_seconds"

  datatype Outcome = Done(row: Row) | UnknownSchedule | NotRunnable

  predicate IsRunnable(state: State) {
    state == Pending || state == Due
  }

  predicate IsFinal(state: State) {
    state == Completed || state == Cancelled
  }

  predicate Expired(row: Row, now: int) {
    row.policy.Skip? && now - row.policy.originalRunAt > row.policy.maxLateness
  }

  /** A due row that no task has claimed. */
  predicate Unclaimed(row: Row, now: int) {
    IsRunnable(row.state) && row.runAt <= now && row.taskId.None?
  }

  function Shortened(reason: string): string {
    var stripped := Strip(reason, Blank);
    if |stripped| > REASON_LIMIT then stripped[..REASON_LIMIT] else stripped
  }

  /** A reason is stripped and kept up to its first 2000 characters. */
  lemma ShortenedIs(reason: string, full: string)
    requires Stripped(reason, Blank, full)
    ensures Shortened(reason) == if |full| <= 2000 then full else full[..2000]
  {
    StripIs(reason, Blank, full);
  }

  // ---- Row updates ----

  function NewRow(goal: string, runAt: int, policy: Policy, now: int): Row {
    Row(goal, runAt, if runAt <= now then Due else Pending, policy, None, "")
  }

  function DueRow(row: Row, now: int): Row {
    if !Unclaimed(row, now) then row
    else if Expired(row, now) then row.(state := Cancelled, failureReason := MISSED)
    else row.(state := Due)
  }

  function CancelledRow(row: Row, reason: string): Row {
    if IsFinal(row.state) then row
    else
      var text := Shortened(reason);
      row.(state := Cancelled, failureReason := if text == "" then "cancelled by operator" else text)
  }

  function DeferredRow(row: Row, now: int, until: int, reason: string): Row {
    if Unclaimed(row, now) then row.(runAt := until, failureReason := Shortened(reason)) else row
  }

  function MarkedRow(row: Row, completed: bool, reason: string): Row {
    if IsFinal(row.state) then row
    else row.(state := if completed then Completed else Failed, failureReason := if completed then "" else reason)
  }

  // ---- Tables ----

  function AfterDue(rows: Rows, now: int): Rows {
    map id | id in rows :: DueRow(rows[id], now)
  }

  /** The schedules handed to the materializer. */
  function Listed(rows: Rows, now: int): set<string> {
    set id | id in rows && Unclaimed(rows[id], now) && !Expired(rows[id], now)
  }

  function AfterDefer(rows: Rows, now: int, until: int, reason: string): Rows {
    map id | id in rows :: DeferredRow(rows[id], now, until, reason)
  }

  function Attach(rows: Rows, id: string, task: string): Outcome {
    if id !in rows then UnknownSchedule
    else if rows[id].taskId.Some? || !IsRunnable(rows[id].state) then NotRunnable
    else Done(rows[id].(taskId := Some(task), state := Running))
  }

  function AfterMark(rows: Rows, task: string, completed: bool, reason: string): Rows {
    map id | id in rows :: if rows[id].taskId == Some(task) then MarkedRow(rows[id], completed, reason) else rows[id]
  }

  /** The rows while those in `todo` are still to be visited. */
  ghost function DueExcept(rows: Rows, now: int, todo: set<string>): Rows {
    map id | id in rows :: if id in todo then rows[id] else DueRow(rows[id], now)
  }

  lemma ListedAreRows(rows: Rows, now: int)
    ensures Listed(rows, now) <= rows.Keys
  {
  }

  /** Row by row, by its fields: what the due scan does to it and whether it is listed. */
  lemma DueRows(rows: Rows, now: int)
    ensures AfterDue(rows, now).Keys == rows.Keys
    ensures forall id | id in rows ::
      var row := rows[id];
      if (row.state != Pending && row.state != Due) || now < row.runAt || row.taskId.Some?
      then AfterDue(rows, now)[id] == row && id !in Listed(rows, now)
      else if row.policy.Skip? && row.policy.originalRunAt + row.policy.maxLateness < now
      then AfterDue(rows, now)[id] == row.(state := Cancelled, failureReason := MISSED) && id !in Listed(rows, now)
      else AfterDue(rows, now)[id] == row.(state := Due) && id in Listed(rows, now)
  {
  }

  lemma DueEnds(rows: Rows, now: int)
    ensures DueExcept(rows, now, rows.Keys) == rows
    ensures DueExcept(rows, now, {}) == AfterDue(rows, now)
  {
    hide DueRow;
  }

  /** A row still to be visited is as it was. */
  lemma DueTodo(rows: Rows, now: int, todo: set<string>, id: string)
    requires id in todo && id in rows
    ensures id in DueExcept(rows, now, todo) && DueExcept(rows, now, todo)[id] == rows[id]
  {
  }

  lemma DueStep(rows: Rows, now: int, todo: set<string>, id: string)
    requires id in todo && id in rows
    ensures DueExcept(rows, now, todo - {id}) == DueExcept(rows, now, todo)[id := DueRow(rows[id], now)]
    ensures DueExcept(rows, now, todo)[id := rows[id]] == DueExcept(rows, now, todo)
    ensures Listed(rows, now) - (todo - {id})
         == Listed(rows, now) - todo + (if Unclaimed(rows[id], now) && !Expired(rows[id], now) then {id} else {})
  {
    hide DueRow, Unclaimed, Expired;
  }

  /** Stripping leaves something exactly when there is a character that is not blank. */
  lemma NonBlank(text: string)
    ensures Strip(text, Blank) != "" <==> exists c | c in text :: !Blank(c)
    ensures Shortened(text) != "" <==> exists c | c in text :: !Blank(c)
  {
    StripIs(text, Blank, Strip(text, Blank));
  }

  // ---- The repository ----

  class HermesExpansionRepository {
    var rows: Rows

    constructor ()
      ensures rows == map[]
    {
      rows := map[];
    }

    /** A blank goal is refused; the id is fresh. */
    method CreateSchedule(id: string, goal: string, runAt: int, policy: Policy, now: int) returns (created: bool)
      requires id !in rows
      modifies this
      ensures created <==> exists c | c in goal :: !Blank(c)
      ensures !created ==> rows == old(rows)
      ensures created ==>
        && rows.Keys == old(rows).Keys + {id} && (forall i | i in old(rows) :: rows[i] == old(rows)[i])
        && Stripped(goal, Blank, rows[id].goal)
        && rows[id] == Row(rows[id].goal, runAt, if now < runAt then Pending else Due, policy, None, "")
    {
      NonBlank(goal);
      StripIs(goal, Blank, Strip(goal, Blank));
      var clean := Strip(goal, Blank);
      created := clean != "";
      if created {
        rows := rows[id := NewRow(clean, runAt, policy, now)];
      }
    }

    /** The loop over the locked rows: skip the claimed, cancel the missed, promote the rest. */
    method DueSchedules(now: int) returns (out: set<string>)
      modifies this
      ensures rows == AfterDue(old(rows), now)
      ensures out == Listed(old(rows), now)
      ensures rows.Keys == old(rows).Keys
      ensures forall id | id in rows ::
        var row := old(rows)[id];
        if (row.state != Pending && row.state != Due) || now < row.runAt || row.taskId.Some?
        then rows[id] == row && id !in out
        else if row.policy.Skip? && row.policy.originalRunAt + row.policy.maxLateness < now
        then rows[id] == row.(state := Cancelled, failureReason := MISSED) && id !in out
        else rows[id] == row.(state := Due) && id in out
    {
      DueEnds(rows, now);
      DueRows(rows, now);
      ListedAreRows(rows, now);
      hide Expired, Unclaimed, Listed, DueExcept, AfterDue;
      out := {};
      ghost var before := rows;
      var todo := rows.Keys;
      while todo != {}
        invariant todo <= before.Keys
        invariant rows == DueExcept(before, now, todo)
        invariant out == Listed(before, now) - todo
        decreases |todo|
      {
        var id :| id in todo;
        DueTodo(before, now, todo, id);
        var row := rows[id];
        DueStep(before, now, todo, id);
        todo := todo - {id};
        if Unclaimed(row, now) {
          if Expired(row, now) {
            rows := rows[id := row.(state := Cancelled, failureReason := MISSED)];
          } else {
            rows := rows[id := row.(state := Due)];
            out := out + {id};
          }
        }
      }
    }

    method CancelSchedule(id: string, reason: string) returns (outcome: Outcome)
      modifies this
      ensures outcome == if id in old(rows) then Done(CancelledRow(old(rows)[id], reason)) else UnknownSchedule
      ensures rows == if id in old(rows) then old(rows)[id := CancelledRow(old(rows)[id], reason)] else old(rows)
      ensures id in old(rows) ==> outcome.Done? && rows[id] == outcome.row
      ensures id in old(rows) && (old(rows)[id].state == Completed || old(rows)[id].state == Cancelled) ==>
        rows[id] == old(rows)[id]
      ensures id in old(rows) && old(rows)[id].state != Completed && old(rows)[id].state != Cancelled ==>
        && rows[id] == old(rows)[id].(state := Cancelled, failureReason := rows[id].failureReason)
        && rows[id].failureReason == if forall c | c in reason :: Blank(c) then "cancelled by operator" else Shortened(reason)
    {
      if id !in rows {
        return UnknownSchedule;
      }
      var row := rows[id];
      NonBlank(reason);
      if row.state != Completed && row.state != Cancelled {
        var text := Shortened(reason);
        row := row.(state := Cancelled, failureReason := if text == "" then "cancelled by operator" else text);
      }
      rows := rows[id := row];
      outcome := Done(row);
    }

    method DeferDueSchedules(now: int, until: int, reason: string) returns (moved: nat)
      modifies this
      ensures rows == AfterDefer(old(rows), now, until, reason)
      ensures rows.Keys == old(rows).Keys
      ensures forall id | id in rows ::
        var row := old(rows)[id];
        rows[id] == if (row.state == Pending || row.state == Due) && row.runAt <= now && row.taskId.None?
                    then row.(runAt := until, failureReason := Shortened(reason)) else row
      ensures moved == |set id | id in old(rows) && (old(rows)[id].state == Pending || old(rows)[id].state == Due)
                                 && old(rows)[id].runAt <= now && old(rows)[id].taskId.None?|
    {
      ghost var before := rows;
      var due := set id | id in rows && Unclaimed(rows[id], now);
      moved := |due|;
      assert due == set id | id in rows && (rows[id].state == Pending || rows[id].state == Due)
                             && rows[id].runAt <= now && rows[id].taskId.None?;
      var todo := due;
      while todo != {}
        invariant todo <= due
        invariant rows == map id | id in before :: if id in todo then before[id] else DeferredRow(before[id], now, until, reason)
        decreases |todo|
      {
        var id :| id in todo;
        rows := rows[id := rows[id].(runAt := until, failureReason := Shortened(reason))];
        todo := todo - {id};
      }
    }

    method AttachTask(id: string, task: string) returns (outcome: Outcome)
      modifies this
      ensures outcome == Attach(old(rows), id, task)
      ensures
        if id !in old(rows) then outcome == UnknownSchedule
        else if old(rows)[id].taskId.Some? || (old(rows)[id].state != Pending && old(rows)[id].state != Due)
        then outcome == NotRunnable
        else outcome == Done(old(rows)[id].(taskId := Some(task), state := Running))
      ensures rows == if outcome.Done? then old(rows)[id := outcome.row] else old(rows)
    {
      if id !in rows {
        return UnknownSchedule;
      }
      var row := rows[id];
      if row.taskId.Some? || (row.state != Pending && row.state != Due) {
        return NotRunnable;
      }
      row := row.(taskId := Some(task), state := Running);
      rows := rows[id := row];
      outcome := Done(row);
    }

    /** At most one row bears the task: two would be an error of the query, and no run has them. */
    method MarkFromTaskOutcome(task: string, completed: bool, reason: string)
      requires forall i, j | i in rows && j in rows && rows[i].taskId == Some(task) && rows[j].taskId == Some(task) :: i == j
      modifies this
      ensures rows == AfterMark(old(rows), task, completed, reason)
      ensures rows.Keys == old(rows).Keys
      ensures forall id | id in rows ::
        var row := old(rows)[id];
        if row.taskId != Some(task) || row.state == Completed || row.state == Cancelled then rows[id] == row
        else if completed then rows[id] == row.(state := Completed, failureReason := "")
        else rows[id] == row.(state := Failed, failureReason := reason)
    {
      var linked := set id | id in rows && rows[id].taskId == Some(task);
      assert forall j | j in rows && rows[j].taskId == Some(task) :: j in linked;
      if linked != {} {
        var id :| id in linked;
        var row := rows[id];
        if row.state != Completed && row.state != Cancelled {
          rows := rows[id := row.(state := if completed then Completed else Failed,
                                  failureReason := if completed then "" else reason)];
        }
      }
    }
  }
}
