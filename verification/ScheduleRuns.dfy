/**
 The life of scheduled goals over every run: the row updates as steps, together with the
 ticks of `app/services/agent_scheduler.py`.
 */
module ScheduleRuns {
  import opened Prelude
  import opened Schedules

  datatype Sys = Sys(
    rows: Rows,
    clock: int,
    tasks: set<string>,
    // The moment of the failed tick whose deferral has not been tried yet.
    deferring: Option<int>,
    // The moments of the failed ticks in which the runner had planned a schedule. History only.
    failures: map<string, seq<int>>)

  // A tick that fails is rolled back whole and then tries to defer, under one advisory lock, so no
  // other tick comes in between. It reads two clocks: its own moment before the lock is taken, by
  // which it defers, and later the time by which the due scan lists rows.
  datatype Label =
    | Create(id: string, goal: string, runAt: int, policy: Policy, now: int)
    | Cancel(id: string, reason: string)
    | Mark(task: string, completed: bool, reason: string)
    // The materializer commits: every listed schedule gets a task. `byRunner` tells tick from manual route.
    | Materialize(byRunner: bool, now: int, made: map<string, string>)
    // A tick of that moment fails after planning some of the schedules listed at `now`; all is rolled back.
    | FailTick(moment: int, now: int, planned: set<string>)
    | DeferLands(reason: string)
    | DeferLost

  predicate FreshTasks(made: map<string, string>, used: set<string>) {
    (forall id | id in made :: made[id] !in used)
    && forall i, j | i in made && j in made && made[i] == made[j] :: i == j
  }

  predicate Enabled(s: Sys, l: Label) {
    match l
    case Create(id, _, _, _, now) => id !in s.rows && now >= s.clock
    case Cancel(id, _) => id in s.rows
    case Mark(_, _, _) => true
    case Materialize(byRunner, now, made) =>
      now >= s.clock && (byRunner ==> s.deferring.None?)
      && made.Keys == Listed(s.rows, now) && FreshTasks(made, s.tasks)
    case FailTick(moment, now, planned) =>
      moment <= now && s.clock <= now && s.deferring.None? && planned <= Listed(s.rows, now)
    case DeferLands(_) => s.deferring.Some?
    case DeferLost => s.deferring.Some?
  }

  /** The due scan, then a task attached to each schedule it listed. */
  function Materialized(rows: Rows, now: int, made: map<string, string>): Rows {
    map id | id in rows ::
      var row := DueRow(rows[id], now);
      if id in made then (var attached := Attach(map[id := row], id, made[id]); if attached.Done? then attached.row else row)
      else row
  }

  /** The rows while the listed schedules in `todo` are still without their task. */
  ghost function MaterializedExcept(rows: Rows, now: int, made: map<string, string>, todo: set<string>): Rows {
    Materialized(rows, now, map id | id in made && id !in todo :: made[id])
  }

  lemma MaterializeOne(rows: Rows, now: int, made: map<string, string>, todo: set<string>, id: string)
    requires made.Keys == Listed(rows, now) && todo <= made.Keys && id in todo
    ensures var before := MaterializedExcept(rows, now, made, todo);
            var outcome := Attach(before, id, made[id]);
            outcome.Done? && MaterializedExcept(rows, now, made, todo - {id}) == before[id := outcome.row]
  {
    hide Expired;
  }

  lemma NothingMadeYet(rows: Rows, now: int, made: map<string, string>)
    requires made.Keys == Listed(rows, now)
    ensures MaterializedExcept(rows, now, made, made.Keys) == AfterDue(rows, now)
    ensures MaterializedExcept(rows, now, made, {}) == Materialized(rows, now, made)
  {
    hide DueRow, Listed;
    assert (map id | id in made && id !in {} :: made[id]) == made;
  }

  /** Row by row, by its fields: a due row without a task gets its own, unless its slot was missed. */
  lemma MaterializedFields(rows: Rows, now: int, made: map<string, string>)
    requires made.Keys == Listed(rows, now)
    ensures Materialized(rows, now, made).Keys == rows.Keys
    ensures forall id | id in rows ::
      var row := rows[id];
      Materialized(rows, now, made)[id] ==
        if (row.state != Pending && row.state != Due) || now < row.runAt || row.taskId.Some? then row
        else if row.policy.Skip? && row.policy.originalRunAt + row.policy.maxLateness < now
        then row.(state := Cancelled, failureReason := MISSED)
        else row.(state := Running, taskId := Some(if id in made then made[id] else ""))
  {
    DueRows(rows, now);
  }

  /** `materialize_due_schedules`, when every plan succeeds: scan, then attach task by task. */
  method MaterializeDueSchedules(repository: HermesExpansionRepository, now: int, made: map<string, string>)
    requires made.Keys == Listed(repository.rows, now)
    modifies repository
    ensures repository.rows == Materialized(old(repository.rows), now, made)
    ensures repository.rows.Keys == old(repository.rows).Keys
    ensures forall id | id in repository.rows ::
      var row := old(repository.rows)[id];
      repository.rows[id] ==
        if (row.state != Pending && row.state != Due) || now < row.runAt || row.taskId.Some? then row
        else if row.policy.Skip? && row.policy.originalRunAt + row.policy.maxLateness < now
        then row.(state := Cancelled, failureReason := MISSED)
        else row.(state := Running, taskId := Some(if id in made then made[id] else ""))
  {
    hide DueRow, Materialized, MaterializedExcept, Attach, Listed;
    ghost var before := repository.rows;
    NothingMadeYet(before, now, made);
    var todo := repository.DueSchedules(now);
    while todo != {}
      invariant todo <= made.Keys
      invariant repository.rows == MaterializedExcept(before, now, made, todo)
      decreases |todo|
    {
      var id :| id in todo;
      MaterializeOne(before, now, made, todo, id);
      var outcome := repository.AttachTask(id, made[id]);
      todo := todo - {id};
    }
    MaterializedFields(before, now, made);
  }

  function Noted(failures: map<string, seq<int>>, planned: set<string>, moment: int): map<string, seq<int>> {
    map id | id in failures.Keys + planned ::
      (if id in failures then failures[id] else []) + (if id in planned then [moment] else [])
  }

  function Do(s: Sys, l: Label): Sys {
    match l
    case Create(id, goal, runAt, policy, now) => s.(rows := s.rows[id := NewRow(goal, runAt, policy, now)], clock := now)
    case Cancel(id, reason) =>
      if id in s.rows then s.(rows := s.rows[id := CancelledRow(s.rows[id], reason)]) else s
    case Mark(task, completed, reason) => s.(rows := AfterMark(s.rows, task, completed, reason))
    case Materialize(_, now, made) =>
      s.(rows := Materialized(s.rows, now, made), clock := now, tasks := s.tasks + made.Values)
    case FailTick(moment, now, planned) =>
      s.(clock := now, deferring := Some(moment), failures := Noted(s.failures, planned, moment))
    case DeferLands(reason) =>
      if s.deferring.Some?
      then s.(rows := AfterDefer(s.rows, s.deferring.value, s.deferring.value + BACKOFF, reason), deferring := None)
      else s
    case DeferLost => s.(deferring := None)
  }

  predicate Runs(s: Sys, trace: seq<Label>)
    decreases |trace|
  {
    trace == [] || (Enabled(s, trace[0]) && Runs(Do(s, trace[0]), trace[1..]))
  }

  function After(s: Sys, trace: seq<Label>): Sys
    decreases |trace|
  {
    if trace == [] then s else After(Do(s, trace[0]), trace[1..])
  }

  const Start := Sys(map[], 0, {}, None, map[])

  // ---- What every reachable state keeps ----

  /** A task is attached exactly to the rows that left pending and due other than by cancellation. */
  ghost predicate TaskMatchesState(s: Sys) {
    forall id | id in s.rows ::
      (s.rows[id].taskId.Some? ==> !IsRunnable(s.rows[id].state) && s.rows[id].taskId.value in s.tasks)
      && (s.rows[id].taskId.None? ==> IsRunnable(s.rows[id].state) || s.rows[id].state == Cancelled)
  }

  ghost predicate OneScheduleEach(s: Sys) {
    forall i, j | i in s.rows && j in s.rows && s.rows[i].taskId.Some? && s.rows[i].taskId == s.rows[j].taskId :: i == j
  }

  ghost predicate Inv(s: Sys) {
    TaskMatchesState(s) && OneScheduleEach(s)
  }

  lemma MaterializedRow(s: Sys, now: int, made: map<string, string>, id: string)
    requires id in s.rows && made.Keys == Listed(s.rows, now)
    ensures var row := Materialized(s.rows, now, made)[id];
            if id in made then row == s.rows[id].(state := Running, taskId := Some(made[id])) && s.rows[id].taskId.None?
            else row == s.rows[id]
                 || (row == DueRow(s.rows[id], now) && row.taskId == s.rows[id].taskId && !IsRunnable(row.state))
  {
  }

  /** The made tasks are attached, and nothing else happens but cancellations. */
  ghost predicate Reassigned(before: Rows, after: Rows, made: map<string, string>) {
    after.Keys == before.Keys
    && forall id | id in before ::
         if id in made then after[id].taskId == Some(made[id]) && after[id].state == Running
         else after[id].taskId == before[id].taskId
              && (after[id].state == before[id].state || after[id].state == Cancelled)
  }

  lemma MaterializeReassigns(s: Sys, now: int, made: map<string, string>)
    requires made.Keys == Listed(s.rows, now)
    ensures Reassigned(s.rows, Materialized(s.rows, now, made), made)
  {
    MaterializedKeys(s.rows, now, made);
    hide Materialized, Listed, Expired;
    forall id | id in s.rows
      ensures var row := Materialized(s.rows, now, made)[id];
              if id in made then row.taskId == Some(made[id]) && row.state == Running
              else row.taskId == s.rows[id].taskId && (row.state == s.rows[id].state || row.state == Cancelled) {
      MaterializedRow(s, now, made, id);
    }
  }

  lemma ReassignKeepsInv(s: Sys, after: Rows, made: map<string, string>, clock: int)
    requires Inv(s) && Reassigned(s.rows, after, made) && FreshTasks(made, s.tasks)
    ensures Inv(s.(rows := after, clock := clock, tasks := s.tasks + made.Values))
  {
    assert forall id | id in made :: made[id] in made.Values;
    forall i, j | i in after && j in after && after[i].taskId.Some? && after[i].taskId == after[j].taskId ensures i == j {
      assert i in s.rows && j in s.rows;
    }
  }

  lemma MaterializeKeepsInv(s: Sys, l: Label)
    requires l.Materialize? && Enabled(s, l) && Inv(s)
    ensures Inv(Do(s, l))
  {
    MaterializeReassigns(s, l.now, l.made);
    ReassignKeepsInv(s, Materialized(s.rows, l.now, l.made), l.made, l.now);
    hide Materialized, Listed, Reassigned, Inv;
  }

  lemma MaterializedKeys(rows: Rows, now: int, made: map<string, string>)
    ensures Materialized(rows, now, made).Keys == rows.Keys
  {
  }

  lemma DueRowStates(row: Row, now: int)
    ensures var due := DueRow(row, now);
            due.taskId == row.taskId && (due == row || due.state == Cancelled || due.state == Due)
  {
  }

  lemma StepKeepsInv(s: Sys, l: Label)
    requires Enabled(s, l) && Inv(s)
    ensures Inv(Do(s, l))
  {
    if l.Materialize? {
      MaterializeKeepsInv(s, l);
    } else {
      hide Shortened, Expired, Listed;
    }
  }

  lemma {:induction false} RunKeepsInv(s: Sys, trace: seq<Label>)
    requires Runs(s, trace) && Inv(s)
    ensures Inv(After(s, trace))
    decreases |trace|
  {
    hide Inv, Enabled, Do;
    if trace != [] {
      StepKeepsInv(s, trace[0]);
      RunKeepsInv(Do(s, trace[0]), trace[1..]);
    }
  }

  // ---- One row over one step ----

  /** Final rows stay as they are; a row off the runnable states never comes back; a task stays. */
  ghost predicate RowMovesOn(before: Row, after: Row) {
    && (IsFinal(before.state) ==> after == before)
    && (!IsRunnable(before.state) ==> !IsRunnable(after.state) && after.taskId == before.taskId)
    && (before.taskId.Some? ==> after.taskId == before.taskId)
    && after.policy == before.policy && after.runAt >= before.runAt
  }

  lemma StepMovesOn(s: Sys, l: Label, id: string)
    requires Enabled(s, l) && Inv(s) && id in s.rows
    requires s.deferring.Some? ==> s.deferring.value <= s.clock
    ensures id in Do(s, l).rows && RowMovesOn(s.rows[id], Do(s, l).rows[id])
  {
    hide Shortened, Expired;
    if l.Materialize? {
      MaterializedRow(s, l.now, l.made, id);
      DueRowStates(s.rows[id], l.now);
    }
  }

  ghost predicate TimesInOrder(s: Sys) {
    s.deferring.Some? ==> s.deferring.value <= s.clock
  }

  lemma StepKeepsTime(s: Sys, l: Label)
    requires Enabled(s, l) && TimesInOrder(s)
    ensures TimesInOrder(Do(s, l)) && Do(s, l).clock >= s.clock
  {
  }

  lemma MovesOnTwice(a: Row, b: Row, c: Row)
    requires RowMovesOn(a, b) && RowMovesOn(b, c)
    ensures RowMovesOn(a, c)
  {
  }

  lemma {:induction false} RunMovesOn(s: Sys, trace: seq<Label>, id: string)
    requires Runs(s, trace) && Inv(s) && TimesInOrder(s) && id in s.rows
    ensures id in After(s, trace).rows && RowMovesOn(s.rows[id], After(s, trace).rows[id])
    decreases |trace|
  {
    hide Inv, Enabled, Do;
    if trace != [] {
      StepMovesOn(s, trace[0], id);
      StepKeepsInv(s, trace[0]);
      StepKeepsTime(s, trace[0]);
      RunMovesOn(Do(s, trace[0]), trace[1..], id);
      MovesOnTwice(s.rows[id], Do(s, trace[0]).rows[id], After(s, trace).rows[id]);
    }
  }

  lemma {:induction false} RunKeepsTime(s: Sys, trace: seq<Label>)
    requires Runs(s, trace) && TimesInOrder(s)
    ensures TimesInOrder(After(s, trace))
    decreases |trace|
  {
    hide Enabled, Do;
    if trace != [] {
      StepKeepsTime(s, trace[0]);
      RunKeepsTime(Do(s, trace[0]), trace[1..]);
    }
  }

  ghost predicate Reachable(s: Sys) {
    exists trace :: Runs(Start, trace) && After(Start, trace) == s
  }

  lemma ReachableKeeps(s: Sys)
    requires Reachable(s)
    ensures Inv(s) && TimesInOrder(s)
  {
    var trace :| Runs(Start, trace) && After(Start, trace) == s;
    RunKeepsInv(Start, trace);
    RunKeepsTime(Start, trace);
  }

  /**
   The outcome of its task closes a schedule: success completes it, and it stays completed in every
   continuation; failure marks it failed for the reason given. Schedules of other tasks are untouched.
   */
  lemma OutcomeClosesTheSchedule(s: Sys, task: string, completed: bool, reason: string, id: string, trace: seq<Label>)
    requires Reachable(s) && id in s.rows && Runs(Do(s, Mark(task, completed, reason)), trace)
    ensures var marked := Do(s, Mark(task, completed, reason));
            id in marked.rows && id in After(marked, trace).rows
    ensures var row, marked := s.rows[id], Do(s, Mark(task, completed, reason));
            if row.taskId != Some(task) || row.state == Completed || row.state == Cancelled then marked.rows[id] == row
            else if completed then
              marked.rows[id] == row.(state := Completed, failureReason := "") == After(marked, trace).rows[id]
            else marked.rows[id] == row.(state := Failed, failureReason := reason)
  {
    ReachableKeeps(s);
    var marked := Do(s, Mark(task, completed, reason));
    StepKeepsInv(s, Mark(task, completed, reason));
    RunMovesOn(marked, trace, id);
    hide Inv;
  }

  /**
   From every state the schedules that are due can each get a new task, and the outcome of
   one task then completes its own schedule and no other.
   */
  lemma DueScheduleCanComplete(s: Sys, byRunner: bool, now: int, made: map<string, string>, id: string)
    requires s.clock <= now && (byRunner ==> s.deferring.None?) && id in made
    requires forall k :: k in made <==>
      && k in s.rows && (s.rows[k].state == Pending || s.rows[k].state == Due)
      && s.rows[k].runAt <= now && s.rows[k].taskId.None?
      && !(s.rows[k].policy.Skip? && s.rows[k].policy.originalRunAt + s.rows[k].policy.maxLateness < now)
    requires forall k | k in made :: made[k] !in s.tasks && forall j | j in made && j != k :: made[j] != made[k]
    ensures var trace := [Materialize(byRunner, now, made), Mark(made[id], true, "")];
      && Runs(s, trace)
      && (var rows := After(s, trace).rows;
          && rows.Keys == s.rows.Keys
          && rows[id] == s.rows[id].(state := Completed, taskId := Some(made[id]), failureReason := "")
          && forall k | k in made && k != id :: rows[k] == s.rows[k].(state := Running, taskId := Some(made[k])))
  {
    hide *;
    var first, second := Materialize(byRunner, now, made), Mark(made[id], true, "");
    DueCanBeMaterialized(s, byRunner, now, made);
    var s1 := Do(s, first);
    SuccessMarks(s1, made[id]);
    TraceOfTwo(s, first, second);
  }

  lemma TraceOfTwo(s: Sys, a: Label, b: Label)
    requires Enabled(s, a) && Enabled(Do(s, a), b)
    ensures Runs(s, [a, b]) && After(s, [a, b]) == Do(Do(s, a), b)
  {
    hide Enabled, Do;
    assert [a, b][1..] == [b] && [b][1..] == [];
    assert Runs(Do(Do(s, a), b), []);
    assert Runs(Do(s, a), [b]) && After(Do(s, a), [b]) == Do(Do(s, a), b);
  }

  lemma DueCanBeMaterialized(s: Sys, byRunner: bool, now: int, made: map<string, string>)
    requires s.clock <= now && (byRunner ==> s.deferring.None?)
    requires forall k :: k in made <==>
      && k in s.rows && (s.rows[k].state == Pending || s.rows[k].state == Due)
      && s.rows[k].runAt <= now && s.rows[k].taskId.None?
      && !(s.rows[k].policy.Skip? && s.rows[k].policy.originalRunAt + s.rows[k].policy.maxLateness < now)
    requires forall k | k in made :: made[k] !in s.tasks && forall j | j in made && j != k :: made[j] != made[k]
    ensures Enabled(s, Materialize(byRunner, now, made))
    ensures var after := Do(s, Materialize(byRunner, now, made));
      && after.rows.Keys == s.rows.Keys
      && forall k | k in made :: k in s.rows && after.rows[k] == s.rows[k].(state := Running, taskId := Some(made[k]))
  {
    assert Listed(s.rows, now) == made.Keys;
    MaterializedFields(s.rows, now, made);
    hide Listed, Materialized;
  }

  lemma SuccessMarks(s: Sys, task: string)
    ensures Enabled(s, Mark(task, true, ""))
    ensures Do(s, Mark(task, true, "")).rows.Keys == s.rows.Keys
    ensures forall k | k in s.rows ::
      Do(s, Mark(task, true, "")).rows[k] ==
        if s.rows[k].taskId == Some(task) && s.rows[k].state != Completed && s.rows[k].state != Cancelled
        then s.rows[k].(state := Completed, failureReason := "") else s.rows[k]
  {
  }

  /** A skipping schedule found too late is cancelled: it has no task in any continuation. */
  lemma MissedSlotNeverRuns(s: Sys, l: Label, id: string, trace: seq<Label>)
    requires Reachable(s) && l.Materialize? && Enabled(s, l) && Runs(Do(s, l), trace) && id in s.rows
    requires s.rows[id].taskId.None? && (s.rows[id].state == Pending || s.rows[id].state == Due)
    requires s.rows[id].runAt <= l.now
    ensures id in After(Do(s, l), trace).rows && id in Do(s, l).rows
    ensures s.rows[id].policy.Skip? && s.rows[id].policy.originalRunAt + s.rows[id].policy.maxLateness < l.now ==>
      After(Do(s, l), trace).rows[id] == s.rows[id].(state := Cancelled, failureReason := MISSED)
    ensures !(s.rows[id].policy.Skip? && s.rows[id].policy.originalRunAt + s.rows[id].policy.maxLateness < l.now) ==>
      id in l.made && Do(s, l).rows[id] == s.rows[id].(state := Running, taskId := Some(l.made[id]))
      && After(Do(s, l), trace).rows[id].taskId == Some(l.made[id])
  {
    ReachableKeeps(s);
    MaterializedFields(s.rows, l.now, l.made);
    DueRows(s.rows, l.now);
    StepKeepsInv(s, l);
    StepKeepsTime(s, l);
    RunMovesOn(Do(s, l), trace, id);
    hide Inv, Materialized, Listed;
  }

  /**
   Completed and cancelled are absorbing, nothing returns to pending or due, and a task, once
   attached, is the schedule's only task, over every continuation of every run.
   */
  lemma ScheduleLifeCycle(s: Sys, trace: seq<Label>, id: string)
    requires Reachable(s) && Runs(s, trace) && id in s.rows
    ensures id in After(s, trace).rows
    ensures var before, after := s.rows[id], After(s, trace).rows[id];
            (IsFinal(before.state) ==> after == before)
            && (!IsRunnable(before.state) ==> !IsRunnable(after.state))
            && (before.taskId.Some? ==> after.taskId == before.taskId)
            && (before.state == Cancelled && before.taskId.None? ==> after.taskId.None?)
  {
    ReachableKeeps(s);
    RunMovesOn(s, trace, id);
  }

  /** No task serves two schedules. */
  lemma NoTaskServesTwo(s: Sys, i: string, j: string)
    requires Reachable(s) && i in s.rows && j in s.rows
    requires s.rows[i].taskId.Some? && s.rows[i].taskId == s.rows[j].taskId
    ensures i == j
  {
    ReachableKeeps(s);
  }

  // ---- Failed plannings are spaced ----

  predicate Spaced(times: seq<int>) {
    forall i | 0 <= i < |times| - 1 :: times[i + 1] - times[i] >= BACKOFF
  }

  /** A schedule that was planned in vain is out of reach for the back-off, or its deferral is next. */
  ghost predicate HeldBack(s: Sys, id: string) {
    id in s.failures ==>
      var times := s.failures[id];
      times != [] && Spaced(times) && times[|times| - 1] <= s.clock && id in s.rows
      && (!IsRunnable(s.rows[id].state)
          || s.rows[id].runAt >= times[|times| - 1] + BACKOFF
          || (s.deferring == Some(times[|times| - 1]) && s.rows[id].runAt <= times[|times| - 1]))
  }

  /** The planned schedule was due at the tick's own moment, so the deferral will reach it. */
  predicate DueAtItsMoment(s: Sys, l: Label, id: string) {
    l.FailTick? && id in l.planned && id in s.rows ==> s.rows[id].runAt <= l.moment
  }

  predicate AlwaysDueAtItsMoment(s: Sys, trace: seq<Label>, id: string)
    decreases |trace|
  {
    trace == [] || (DueAtItsMoment(s, trace[0], id) && AlwaysDueAtItsMoment(Do(s, trace[0]), trace[1..], id))
  }

  lemma SpacedSnoc(times: seq<int>, moment: int)
    requires Spaced(times) && (times != [] ==> moment - times[|times| - 1] >= BACKOFF)
    ensures Spaced(times + [moment])
  {
  }

  lemma FailTickHoldsBack(s: Sys, l: Label, id: string)
    requires l.FailTick? && Enabled(s, l) && HeldBack(s, id) && DueAtItsMoment(s, l, id)
    ensures HeldBack(Do(s, l), id)
  {
    var before := if id in s.failures then s.failures[id] else [];
    if id in l.planned {
      assert Unclaimed(s.rows[id], l.now);
      SpacedSnoc(before, l.moment);
      assert Do(s, l).failures[id] == before + [l.moment];
    } else if id in s.failures {
      assert Do(s, l).failures[id] == before + [];
      assert before + [] == before;
    }
  }

  lemma DeferHoldsBack(s: Sys, l: Label, id: string)
    requires l.DeferLands? && Enabled(s, l) && Inv(s) && HeldBack(s, id)
    ensures HeldBack(Do(s, l), id)
  {
    hide Shortened, Spaced;
  }

  lemma OtherStepHoldsBack(s: Sys, l: Label, id: string)
    requires !l.FailTick? && !l.DeferLands? && !l.DeferLost? && Enabled(s, l) && Inv(s) && TimesInOrder(s) && HeldBack(s, id)
    ensures HeldBack(Do(s, l), id)
  {
    hide Spaced;
    if id in s.failures {
      StepMovesOn(s, l, id);
      StepKeepsRunAt(s, l, id);
      StepKeepsTime(s, l);
      hide Inv;
    }
  }

  /** Only a deferral moves a run time. */
  lemma StepKeepsRunAt(s: Sys, l: Label, id: string)
    requires Enabled(s, l) && id in s.rows && !l.DeferLands?
    ensures id in Do(s, l).rows && Do(s, l).rows[id].runAt == s.rows[id].runAt
  {
    hide Shortened, Expired;
    if l.Materialize? { MaterializedRow(s, l.now, l.made, id); }
  }

  lemma StepHoldsBack(s: Sys, l: Label, id: string)
    requires Enabled(s, l) && !l.DeferLost? && Inv(s) && TimesInOrder(s) && HeldBack(s, id) && DueAtItsMoment(s, l, id)
    ensures HeldBack(Do(s, l), id)
  {
    if l.FailTick? {
      FailTickHoldsBack(s, l, id);
    } else if l.DeferLands? {
      DeferHoldsBack(s, l, id);
    } else {
      OtherStepHoldsBack(s, l, id);
    }
  }

  lemma {:induction false} RunHoldsBack(s: Sys, trace: seq<Label>, id: string)
    requires Runs(s, trace) && Inv(s) && TimesInOrder(s) && HeldBack(s, id)
    requires AlwaysDueAtItsMoment(s, trace, id)
    requires forall l | l in trace :: !l.DeferLost?
    ensures HeldBack(After(s, trace), id)
    decreases |trace|
  {
    hide Enabled, Do, Inv, TimesInOrder, HeldBack, DueAtItsMoment;
    if trace != [] {
      assert trace[0] in trace;
      StepHoldsBack(s, trace[0], id);
      StepKeepsInv(s, trace[0]);
      StepKeepsTime(s, trace[0]);
      RunHoldsBack(Do(s, trace[0]), trace[1..], id);
    }
  }

  lemma {:induction false} SpacedSpan(times: seq<int>)
    requires Spaced(times) && times != []
    ensures times[|times| - 1] - times[0] >= (|times| - 1) * BACKOFF
  {
    if |times| > 1 { SpacedSpan(times[..|times| - 1]); }
  }

  /**
   In every run whose deferrals land and whose failed ticks planned the schedule only when it
   was due at their own moment, the failed ticks lie at least 15 minutes apart, and n of them
   span at least (n - 1) * 15 minutes, whatever cancellations, manual runs and outcomes lie
   between.
   */
  lemma FailedPlanningsAreSpaced(trace: seq<Label>, id: string)
    requires Runs(Start, trace) && forall l | l in trace :: !l.DeferLost?
    requires AlwaysDueAtItsMoment(Start, trace, id)
    requires id in After(Start, trace).failures
    ensures var times := After(Start, trace).failures[id];
            Spaced(times) && |times| > 0 && times[|times| - 1] - times[0] >= (|times| - 1) * BACKOFF
  {
    RunHoldsBack(Start, trace, id);
    SpacedSpan(After(Start, trace).failures[id]);
  }

  predicate Plans(l: Label, id: string) {
    l.FailTick? && id in l.planned
  }

  /** Some continuation has a tick that plans the schedule by a clock still short of `bound`. */
  ghost predicate CanBePlannedBefore(s: Sys, id: string, bound: int) {
    exists trace, l :: Runs(s, trace) && Enabled(After(s, trace), l) && Plans(l, id) && l.now < bound
  }

  lemma NotPlannedBeforeItsTime(s: Sys, id: string)
    requires Inv(s) && TimesInOrder(s) && id in s.rows
    ensures !CanBePlannedBefore(s, id, s.rows[id].runAt)
  {
    hide Inv, TimesInOrder, Runs;
    forall trace, l | Runs(s, trace) && Enabled(After(s, trace), l) && Plans(l, id) ensures s.rows[id].runAt <= l.now {
      RunMovesOn(s, trace, id);
      assert id in Listed(After(s, trace).rows, l.now);
    }
  }

  /** Nothing but the missed-run rule can keep the tick's clock from planning the row again. */
  lemma PlannedAgainAtOnce(s: Sys, now: int, id: string)
    requires s.deferring.None? && s.clock <= now && id in Listed(s.rows, now)
    ensures Enabled(After(s, []), FailTick(now, now, {id}))
    ensures forall bound | now < bound :: CanBePlannedBefore(s, id, bound)
  {
    var l := FailTick(now, now, {id});
    assert After(s, []) == s && Runs(s, []) && Enabled(After(s, []), l) && Plans(l, id);
  }

  /**
   The condition is exact. When a tick has failed after planning a schedule and its deferral
   has landed, a later tick can plan the schedule within the back-off if and only if the
   schedule was not yet due at the failed tick's moment and its due scan was not itself later
   than that.
   */
  lemma PlannedAgainTooSoonExactly(s: Sys, moment: int, now: int, planned: set<string>, reason: string, id: string)
    requires Reachable(s) && Enabled(s, FailTick(moment, now, planned)) && id in planned
    ensures var failed := Do(s, FailTick(moment, now, planned));
            Enabled(failed, DeferLands(reason))
            && (CanBePlannedBefore(Do(failed, DeferLands(reason)), id, moment + BACKOFF)
                <==> (s.rows[id].runAt > moment && now < moment + BACKOFF))
  {
    ReachableKeeps(s);
    var failed := Do(s, FailTick(moment, now, planned));
    var after := Do(failed, DeferLands(reason));
    StepKeepsInv(s, FailTick(moment, now, planned));
    StepKeepsTime(s, FailTick(moment, now, planned));
    StepKeepsInv(failed, DeferLands(reason));
    StepKeepsTime(failed, DeferLands(reason));
    assert id in Listed(s.rows, now);
    hide Shortened, Inv, CanBePlannedBefore;
    if s.rows[id].runAt <= moment {
      assert after.rows[id].runAt == moment + BACKOFF;
      NotPlannedBeforeItsTime(after, id);
    } else {
      assert after.rows[id] == s.rows[id];
      if now < moment + BACKOFF {
        PlannedAgainAtOnce(after, now, id);
      } else {
        ClockBoundsPlanning(after, id, moment + BACKOFF);
      }
    }
  }

  /**
   When the deferral is lost, the condition is the due scan's own clock alone: the schedule can be
   planned again within the back-off if and only if that scan was not itself later.
   */
  lemma LostDeferralSpinsExactly(s: Sys, moment: int, now: int, planned: set<string>, id: string)
    requires Reachable(s) && Enabled(s, FailTick(moment, now, planned)) && id in planned
    ensures var failed := Do(s, FailTick(moment, now, planned));
            Enabled(failed, DeferLost)
            && (CanBePlannedBefore(Do(failed, DeferLost), id, moment + BACKOFF) <==> now < moment + BACKOFF)
  {
    ReachableKeeps(s);
    var after := Do(Do(s, FailTick(moment, now, planned)), DeferLost);
    assert id in Listed(s.rows, now) && after.rows == s.rows;
    hide Inv, CanBePlannedBefore;
    if now < moment + BACKOFF {
      PlannedAgainAtOnce(after, now, id);
    } else {
      ClockBoundsPlanning(after, id, moment + BACKOFF);
    }
  }

  lemma {:induction false} RunKeepsClock(s: Sys, trace: seq<Label>)
    requires Runs(s, trace) && TimesInOrder(s)
    ensures After(s, trace).clock >= s.clock
    decreases |trace|
  {
    hide Enabled, Do, TimesInOrder;
    if trace != [] {
      StepKeepsTime(s, trace[0]);
      RunKeepsClock(Do(s, trace[0]), trace[1..]);
    }
  }

  lemma ClockBoundsPlanning(s: Sys, id: string, bound: int)
    requires TimesInOrder(s) && bound <= s.clock
    ensures !CanBePlannedBefore(s, id, bound)
  {
    hide TimesInOrder, Runs;
    forall trace, l | Runs(s, trace) && Enabled(After(s, trace), l) && Plans(l, id) ensures bound <= l.now {
      RunKeepsClock(s, trace);
    }
  }

  /** The rows and failures after the deferral of a tick that lists A and B but defers only A. */
  lemma DeferralMissesLateRow(s: Sys)
    requires s.rows == map["A" := Row("goal", 0, Due, CatchUp, None, ""), "B" := Row("goal", 1, Pending, CatchUp, None, "")]
    requires s.clock == 0 && s.deferring.None? && s.failures == map[]
    ensures var failed := Do(s, FailTick(0, 1, {"B"}));
            var after := Do(failed, DeferLands(""));
            Enabled(s, FailTick(0, 1, {"B"})) && Enabled(failed, DeferLands(""))
            && "B" in after.rows && after.rows["B"] == s.rows["B"]
            && "A" in after.rows && after.rows["A"].runAt == BACKOFF
            && after.clock == 1 && after.deferring.None? && after.failures == map["B" := [0]]
  {
    hide Shortened;
    assert Listed(s.rows, 1) == {"A", "B"};
    assert Do(s, FailTick(0, 1, {"B"})).failures["B"] == [] + [0] == [0];
  }

  lemma BothCreated()
    ensures var s1 := Do(Start, Create("A", "goal", 0, CatchUp, 0)); var s2 := Do(s1, Create("B", "goal", 1, CatchUp, 0));
            Enabled(Start, Create("A", "goal", 0, CatchUp, 0)) && Enabled(s1, Create("B", "goal", 1, CatchUp, 0))
            && s2.rows == map["A" := Row("goal", 0, Due, CatchUp, None, ""), "B" := Row("goal", 1, Pending, CatchUp, None, "")]
            && s2.clock == 0 && s2.deferring.None? && s2.failures == map[]
  {
  }

  lemma PlansAgain(s: Sys, id: string, now: int)
    requires id in s.rows && Unclaimed(s.rows[id], now) && s.rows[id].policy.CatchUp?
    requires s.clock <= now && s.deferring.None? && s.failures == map[id := [0]]
    ensures Enabled(s, FailTick(now, now, {id})) && Do(s, FailTick(now, now, {id})).failures == map[id := [0, now]]
  {
    assert [0] + [now] == [0, now];
  }

  /** The two rows, the failed tick, its deferral, and a later tick that plans B again. */
  function LateRowTrace(later: int): seq<Label> {
    [Create("A", "goal", 0, CatchUp, 0), Create("B", "goal", 1, CatchUp, 0),
     FailTick(0, 1, {"B"}), DeferLands(""), FailTick(later, later, {"B"})]
  }

  /**
   Row A is due at the tick's moment 0, row B one second later, when the due scan reads its
   clock. The tick plans B and fails; the deferral lands, moves A and misses B. From then on B
   can be planned again at any time.
   */
  lemma LateRowIsPlannedAgain(later: int)
    requires later >= 1
    ensures var trace := LateRowTrace(later);
            Runs(Start, trace) && After(Start, trace).failures == map["B" := [0, later]]
            && !AlwaysDueAtItsMoment(Start, trace, "B")
  {
    hide Do, Enabled, Unclaimed;
    var trace := LateRowTrace(later);
    BothCreated();
    var s1 := Do(Start, trace[0]);
    var s2 := Do(s1, trace[1]);
    DeferralMissesLateRow(s2);
    var s3 := Do(s2, trace[2]);
    var s4 := Do(s3, trace[3]);
    assert Unclaimed(s4.rows["B"], later) by { LateRowIsUnclaimed(s4.rows["B"], later); }
    PlansAgain(s4, "B", later);
    OneStep(s4, trace[4], []);
    OneStep(s3, trace[3], trace[4..]);
    OneStep(s2, trace[2], trace[3..]);
    OneStep(s1, trace[1], trace[2..]);
    OneStep(Start, trace[0], trace[1..]);
    assert !DueAtItsMoment(s2, trace[2], "B");
    OneDue(s2, trace[2], trace[3..], "B");
    OneDue(s1, trace[1], trace[2..], "B");
    OneDue(Start, trace[0], trace[1..], "B");
  }

  lemma LateRowIsUnclaimed(row: Row, now: int)
    requires row == Row("goal", 1, Pending, CatchUp, None, "") && now >= 1
    ensures Unclaimed(row, now)
  {
  }

  lemma OneDue(s: Sys, l: Label, rest: seq<Label>, id: string)
    ensures AlwaysDueAtItsMoment(s, [l] + rest, id) <==> (DueAtItsMoment(s, l, id) && AlwaysDueAtItsMoment(Do(s, l), rest, id))
  {
    assert ([l] + rest)[1..] == rest;
  }

  lemma OneStep(s: Sys, l: Label, rest: seq<Label>)
    ensures Runs(s, [l] + rest) <==> (Enabled(s, l) && Runs(Do(s, l), rest))
    ensures After(s, [l] + rest) == After(Do(s, l), rest)
  {
    assert ([l] + rest)[1..] == rest;
  }

  lemma FirstTickIsLost()
    ensures var s1 := Do(Start, Create("S", "goal", 0, CatchUp, 0));
            var s2 := Do(s1, FailTick(0, 0, {"S"})); var s3 := Do(s2, DeferLost);
            Enabled(Start, Create("S", "goal", 0, CatchUp, 0)) && Enabled(s1, FailTick(0, 0, {"S"})) && Enabled(s2, DeferLost)
            && s3.rows == map["S" := Row("goal", 0, Due, CatchUp, None, "")]
            && s3.clock == 0 && s3.deferring.None? && s3.failures == map["S" := [0]]
  {
    var s1 := Do(Start, Create("S", "goal", 0, CatchUp, 0));
    assert Listed(s1.rows, 0) == {"S"};
    assert Do(s1, FailTick(0, 0, {"S"})).failures["S"] == [] + [0] == [0];
  }

  /** Without the deferral the next tick plans the same schedule again at once. */
  lemma LostDeferralSpins()
    ensures var trace := [Create("S", "goal", 0, CatchUp, 0), FailTick(0, 0, {"S"}), DeferLost, FailTick(1, 1, {"S"})];
            Runs(Start, trace) && After(Start, trace).failures == map["S" := [0, 1]]
  {
    hide Do, Enabled;
    var trace := [Create("S", "goal", 0, CatchUp, 0), FailTick(0, 0, {"S"}), DeferLost, FailTick(1, 1, {"S"})];
    FirstTickIsLost();
    var s1 := Do(Start, trace[0]);
    var s2 := Do(s1, trace[1]);
    var s3 := Do(s2, trace[2]);
    PlansAgain(s3, "S", 1);
    OneStep(s3, trace[3], []);
    OneStep(s2, trace[2], trace[3..]);
    OneStep(s1, trace[1], trace[2..]);
    OneStep(Start, trace[0], trace[1..]);
  }
}
