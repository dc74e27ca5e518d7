/** Bounded automatic recovery: src/stagemesh/blocked_recovery.py and src/stagemesh/block_kinds.py.

    Two mechanisms unblock tasks by themselves. Each counts what it did in the audit log, and takes an unblock that none
    of its own events follows within five seconds for an operator's, which grants a fresh budget. The log is in time order;
    why a task is blocked, and whether somebody works on it, are parameters.
 */
module Recovery {
  import opened Prelude

  type Task = string

  const MAX_REENTRIES := 3
  const DEFAULT_MAX_AUTO_RETRIES := 2
  const REENTRY_ROWS := 200

  datatype Event =
    | Unblocked(task: Task, at: real)                     // task.unblocked, whoever did it
    | Retried(task: Task, at: real)                       // task.auto_retried_provider_failure
    | Reentered(task: Task, at: real, runtime: string)    // task.block_reentered
    | Exhausted(task: Task, at: real)                     // task.auto_retry_exhausted
    | Other(at: real)

  datatype Mechanism = Retry | Reentry

  predicate IsOwn(m: Mechanism, task: Task, e: Event) {
    match m
    case Retry => e.Retried? && e.task == task
    case Reentry => e.Reentered? && e.task == task
  }

  ghost predicate InOrder(log: seq<Event>) {
    && (forall i :: 0 <= i < |log| ==> 0.0 < log[i].at)
    && (forall i, j :: 0 <= i < j < |log| ==> log[i].at <= log[j].at)
  }

  // ---------------------------------------------------------------------------------------------------------------
  // The budget
  // ---------------------------------------------------------------------------------------------------------------

  function OwnTimes(m: Mechanism, log: seq<Event>, task: Task): seq<real> {
    if log == [] then []
    else if IsOwn(m, task, log[0]) then [log[0].at] + OwnTimes(m, log[1..], task)
    else OwnTimes(m, log[1..], task)
  }

  /** One of our events follows an unblock at `at` within five seconds. */
  predicate LooksOwn(times: seq<real>, at: real) {
    exists when :: when in times && at <= when <= at + 5.0
  }

  /** The last unblock that does not look like ours; 0 when there is none. */
  function LastReset(times: seq<real>, log: seq<Event>, task: Task): real {
    if log == [] then 0.0
    else
      var rest := LastReset(times, log[1..], task);
      if log[0].Unblocked? && log[0].task == task && !LooksOwn(times, log[0].at) && log[0].at > rest
      then log[0].at else rest
  }

  function CountAfter(times: seq<real>, reset: real): nat {
    if times == [] then 0 else (if times[0] > reset then 1 else 0) + CountAfter(times[1..], reset)
  }

  /** `auto_retries_used` and `reentries_used`. */
  function Used(m: Mechanism, log: seq<Event>, task: Task): nat {
    var times := OwnTimes(m, log, task);
    CountAfter(times, LastReset(times, log, task))
  }

  lemma {:induction false} OwnTimesAppend(m: Mechanism, log: seq<Event>, more: seq<Event>, task: Task)
    ensures OwnTimes(m, log + more, task) == OwnTimes(m, log, task) + OwnTimes(m, more, task)
  {
    if log == [] {
      assert log + more == more;
    } else {
      assert (log + more)[1..] == log[1..] + more;
      OwnTimesAppend(m, log[1..], more, task);
    }
  }

  lemma {:induction false} CountAppend(times: seq<real>, more: seq<real>, reset: real)
    ensures CountAfter(times + more, reset) == CountAfter(times, reset) + CountAfter(more, reset)
  {
    if times == [] {
      assert times + more == more;
    } else {
      assert (times + more)[1..] == times[1..] + more;
      CountAppend(times[1..], more, reset);
    }
  }

  lemma {:induction false} EarlierResetCountsMore(times: seq<real>, reset: real, earlier: real)
    requires earlier <= reset
    ensures CountAfter(times, earlier) >= CountAfter(times, reset)
  {
    if times != [] {
      EarlierResetCountsMore(times[1..], reset, earlier);
    }
  }

  /** The reset is one of the unblocks that do not look like ours, and none of those is later. */
  lemma {:induction false} LastResetMeans(times: seq<real>, log: seq<Event>, task: Task)
    requires forall i :: 0 <= i < |log| ==> 0.0 < log[i].at
    ensures LastReset(times, log, task) == 0.0
         || (exists e :: e in log && e == Unblocked(task, LastReset(times, log, task)) && !LooksOwn(times, e.at))
    ensures forall e :: e in log && e.Unblocked? && e.task == task && !LooksOwn(times, e.at) ==>
      e.at <= LastReset(times, log, task)
    ensures LastReset(times, log, task) >= 0.0
  {
    if log != [] {
      LastResetMeans(times, log[1..], task);
      assert log[0] in log;
    }
  }

  method CollectOwnTimes(m: Mechanism, log: seq<Event>, task: Task) returns (ours: seq<real>)
    ensures ours == OwnTimes(m, log, task)
  {
    ours := [];
    for i := 0 to |log|
      invariant ours + OwnTimes(m, log[i..], task) == OwnTimes(m, log, task)
    {
      assert log[i..][1..] == log[i + 1..];
      if IsOwn(m, task, log[i]) {
        ours := ours + [log[i].at];
      }
    }
  }

  function Later(a: real, b: real): real {
    if a > b then a else b
  }

  lemma {:induction false} LastResetIsPositive(times: seq<real>, log: seq<Event>, task: Task)
    ensures LastReset(times, log, task) >= 0.0
  {
    if log != [] {
      LastResetIsPositive(times, log[1..], task);
    }
  }

  method FindLastReset(ours: seq<real>, log: seq<Event>, task: Task) returns (manual: real)
    ensures manual == LastReset(ours, log, task)
  {
    manual := 0.0;
    LastResetIsPositive(ours, log, task);
    for i := 0 to |log|
      invariant Later(manual, LastReset(ours, log[i..], task)) == LastReset(ours, log, task)
      invariant manual >= 0.0
    {
      assert log[i..][1..] == log[i + 1..];
      if log[i].Unblocked? && log[i].task == task && !LooksOwn(ours, log[i].at) {
        manual := Later(manual, log[i].at);
      }
    }
  }

  method CountUsed(m: Mechanism, log: seq<Event>, task: Task) returns (used: nat)
    ensures used == Used(m, log, task)
  {
    var ours := CollectOwnTimes(m, log, task);
    var manual := FindLastReset(ours, log, task);
    used := 0;
    for i := 0 to |ours|
      invariant used + CountAfter(ours[i..], manual) == CountAfter(ours, manual)
    {
      assert ours[i..][1..] == ours[i + 1..];
      if ours[i] > manual {
        used := used + 1;
      }
    }
  }

  /** Events that neither unblock the task nor are the mechanism's own do not touch its budget. */
  predicate Unrelated(m: Mechanism, task: Task, e: Event) {
    !(e.Unblocked? && e.task == task) && !IsOwn(m, task, e)
  }

  lemma {:induction false} ResetIgnores(times: seq<real>, log: seq<Event>, e: Event, task: Task)
    requires !(e.Unblocked? && e.task == task)
    ensures LastReset(times, log + [e], task) == LastReset(times, log, task)
  {
    if log == [] {
      assert LastReset(times, [], task) == 0.0;
      assert (log + [e])[1..] == [];
    } else {
      assert (log + [e])[1..] == log[1..] + [e];
      ResetIgnores(times, log[1..], e, task);
    }
  }

  lemma {:induction false} UnrelatedKeepsUsed(m: Mechanism, log: seq<Event>, e: Event, task: Task)
    requires Unrelated(m, task, e)
    ensures Used(m, log + [e], task) == Used(m, log, task)
  {
    OwnTimesAppend(m, log, [e], task);
    assert OwnTimes(m, [e], task) == [];
    assert OwnTimes(m, log, task) + [] == OwnTimes(m, log, task);
    ResetIgnores(OwnTimes(m, log, task), log, e, task);
  }

  /** What a mechanism writes when it unblocks a task. */
  function OwnEvent(m: Mechanism, task: Task, at: real, runtime: string): Event {
    match m
    case Retry => Retried(task, at)
    case Reentry => Reentered(task, at, runtime)
  }

  lemma {:induction false} PairTimes(m: Mechanism, log: seq<Event>, task: Task, at: real, logged: real, runtime: string)
    ensures OwnTimes(m, log + [Unblocked(task, at), OwnEvent(m, task, logged, runtime)], task)
         == OwnTimes(m, log, task) + [logged]
  {
    var pair := [Unblocked(task, at), OwnEvent(m, task, logged, runtime)];
    OwnTimesAppend(m, log, pair, task);
    assert pair[1..] == [OwnEvent(m, task, logged, runtime)] && pair[1..][1..] == [];
    assert OwnTimes(m, pair[1..][1..], task) == [];
    assert OwnTimes(m, pair[1..], task) == [logged];
  }

  /** The reset only moves on as long as none of our events is added. */
  lemma {:induction false} ResetGrows(times: seq<real>, log: seq<Event>, e: Event, task: Task)
    ensures LastReset(times, log + [e], task) >= LastReset(times, log, task)
  {
    if log == [] {
      LastResetIsPositive(times, [e], task);
      assert log + [e] == [e];
    } else {
      assert (log + [e])[1..] == log[1..] + [e];
      ResetGrows(times, log[1..], e, task);
    }
  }

  /** No event that is not our own raises the count. */
  lemma {:induction false} OthersNeverRaiseUsed(m: Mechanism, log: seq<Event>, e: Event, task: Task)
    requires !IsOwn(m, task, e)
    ensures Used(m, log + [e], task) <= Used(m, log, task)
  {
    var times := OwnTimes(m, log, task);
    OwnTimesAppend(m, log, [e], task);
    assert OwnTimes(m, [e], task) == [];
    assert times + [] == times;
    ResetGrows(times, log, e, task);
    EarlierResetCountsMore(times, LastReset(times, log + [e], task), LastReset(times, log, task));
  }

  ghost predicate NoneOwn(m: Mechanism, log: seq<Event>, task: Task) {
    forall e :: e in log ==> !IsOwn(m, task, e)
  }

  lemma {:induction false} NoOwnTimes(m: Mechanism, log: seq<Event>, task: Task)
    requires NoneOwn(m, log, task)
    ensures OwnTimes(m, log, task) == []
  {
    if log != [] {
      assert log[0] in log && forall e :: e in log[1..] ==> e in log;
      NoOwnTimes(m, log[1..], task);
    }
  }

  /** From an unblock to the event that logs it, with anything of others between them. */
  lemma {:induction false} TimesAfterLogging(
    m: Mechanism, log: seq<Event>, mid: seq<Event>, task: Task, at: real, logged: real, runtime: string)
    requires NoneOwn(m, mid, task)
    ensures OwnTimes(m, log + [Unblocked(task, at)] + mid + [OwnEvent(m, task, logged, runtime)], task)
         == OwnTimes(m, log, task) + [logged]
  {
    var first, last := [Unblocked(task, at)], [OwnEvent(m, task, logged, runtime)];
    OwnTimesAppend(m, log + first + mid, last, task);
    OwnTimesAppend(m, log + first, mid, task);
    OwnTimesAppend(m, log, first, task);
    NoOwnTimes(m, mid, task);
    NoOwnTimes(m, first, task);
    assert OwnTimes(m, last[1..], task) == [];
    assert OwnTimes(m, last, task) == [logged];
  }

  /** Whatever looks like a foreign unblock after our event was logged in time, was logged before our unblock and looked like
      one then. */
  lemma {:induction false} NoNewReset(
    m: Mechanism, log: seq<Event>, mid: seq<Event>, task: Task, at: real, logged: real, runtime: string)
    requires at <= logged <= at + 5.0 && NoneOwn(m, mid, task)
    requires InOrder(log + [Unblocked(task, at)] + mid + [OwnEvent(m, task, logged, runtime)])
    ensures var all := log + [Unblocked(task, at)] + mid + [OwnEvent(m, task, logged, runtime)];
      var times := OwnTimes(m, log, task);
      LastReset(times + [logged], all, task) <= LastReset(times, log, task)
      && LastReset(times + [logged], all, task) < logged
  {
    var all := log + [Unblocked(task, at)] + mid + [OwnEvent(m, task, logged, runtime)];
    var times := OwnTimes(m, log, task);
    var longer := times + [logged];
    assert logged in longer && forall when :: when in times ==> when in longer;
    var after := LastReset(longer, all, task);
    LastResetMeans(longer, all, task);
    assert forall i :: 0 <= i < |log| ==> log[i] == all[i];
    LastResetMeans(times, log, task);
    assert all[|log|].at == at && all[|all| - 1].at == logged;
    if after > 0.0 {
      var e :| e in all && e == Unblocked(task, after) && !LooksOwn(longer, e.at);
      var i :| 0 <= i < |all| && all[i] == e;
      assert i < |log|;
      assert e in log && !LooksOwn(times, e.at);
    }
  }

  /** An unblock that is logged within five seconds always costs budget: whatever was or was not taken for an operator's
      unblock before, and whatever others did in between, the count grows. */
  lemma {:induction false} TimelyUnblockRaisesUsed(
    m: Mechanism, log: seq<Event>, mid: seq<Event>, task: Task, at: real, logged: real, runtime: string)
    requires at <= logged <= at + 5.0 && NoneOwn(m, mid, task)
    requires InOrder(log + [Unblocked(task, at)] + mid + [OwnEvent(m, task, logged, runtime)])
    ensures Used(m, log + [Unblocked(task, at)] + mid + [OwnEvent(m, task, logged, runtime)], task) > Used(m, log, task)
  {
    var all := log + [Unblocked(task, at)] + mid + [OwnEvent(m, task, logged, runtime)];
    var times := OwnTimes(m, log, task);
    TimesAfterLogging(m, log, mid, task, at, logged, runtime);
    NoNewReset(m, log, mid, task, at, logged, runtime);
    var before, after := LastReset(times, log, task), LastReset(times + [logged], all, task);
    EarlierResetCountsMore(times, before, after);
    CountAppend(times, [logged], after);
  }

  /** Logging later than that is not enough: the unblock looks like an operator's, and the budget starts again at one
      used, however often this happens. */
  lemma {:induction false} LateUnblockNeverSpendsTheBudget(
    m: Mechanism, log: seq<Event>, task: Task, at: real, logged: real, runtime: string)
    requires at + 5.0 < logged
    requires InOrder(log + [Unblocked(task, at), OwnEvent(m, task, logged, runtime)])
    requires forall when :: when in OwnTimes(m, log, task) ==> when < at
    ensures Used(m, log + [Unblocked(task, at), OwnEvent(m, task, logged, runtime)], task) == 1
  {
    var pair := [Unblocked(task, at), OwnEvent(m, task, logged, runtime)];
    var times, longer := OwnTimes(m, log, task), OwnTimes(m, log + pair, task);
    PairTimes(m, log, task, at, logged, runtime);
    var reset := LastReset(longer, log + pair, task);
    LastResetMeans(longer, log + pair, task);
    assert (log + pair)[|log|] == Unblocked(task, at);
    assert reset >= at;
    if reset > 0.0 {
      var e :| e in log + pair && e == Unblocked(task, reset) && !LooksOwn(longer, e.at);
      var i :| 0 <= i < |log + pair| && (log + pair)[i] == e;
      assert i != |log| + 1;
      assert (log + pair)[i].at <= (log + pair)[|log|].at;
    }
    NoneAfter(times, reset);
    CountAppend(times, [logged], reset);
  }

  /** An unblock of somebody else's, when none of our events is at that time, grants a fresh budget. */
  lemma {:induction false} ForeignUnblockGrantsFreshBudget(m: Mechanism, log: seq<Event>, task: Task, at: real)
    requires InOrder(log + [Unblocked(task, at)])
    requires forall when :: when in OwnTimes(m, log, task) ==> when < at
    ensures Used(m, log + [Unblocked(task, at)], task) == 0
  {
    var longer := log + [Unblocked(task, at)];
    OwnTimesAppend(m, log, [Unblocked(task, at)], task);
    assert OwnTimes(m, [Unblocked(task, at)], task) == [];
    var times := OwnTimes(m, longer, task);
    assert times == OwnTimes(m, log, task);
    LastResetMeans(times, longer, task);
    assert longer[|log|] == Unblocked(task, at);
    NoneAfter(times, LastReset(times, longer, task));
  }

  lemma {:induction false} NoneAfter(times: seq<real>, reset: real)
    requires forall when :: when in times ==> when <= reset
    ensures CountAfter(times, reset) == 0
  {
    if times != [] {
      assert times[0] in times && forall when :: when in times[1..] ==> when in times;
      NoneAfter(times[1..], reset);
    }
  }

  // ---------------------------------------------------------------------------------------------------------------
  // The runtime fingerprint of the last re-entry
  // ---------------------------------------------------------------------------------------------------------------

  predicate IsReentry(e: Event) {
    e.Reentered?
  }

  function ReentryRows(log: seq<Event>): seq<Event> {
    Filter(log, IsReentry)
  }

  /** The newest of the task's rows among the last `limit` ones. */
  function NewestRuntime(rows: seq<Event>, task: Task, limit: nat): Option<string> {
    if rows == [] || limit == 0 then None
    else
      var e := rows[|rows| - 1];
      if e.Reentered? && e.task == task then Some(e.runtime)
      else NewestRuntime(rows[..|rows| - 1], task, limit - 1)
  }

  function LastReentryRuntime(log: seq<Event>, task: Task): Option<string> {
    NewestRuntime(ReentryRows(log), task, REENTRY_ROWS)
  }

  /** Only the last `limit` rows are looked at: the fingerprint of the task's last re-entry is found if and only if fewer
      than that many re-entries of other tasks follow it. */
  lemma {:induction false} RuntimeIsFoundExactlyWhen(
    rows: seq<Event>, own: Event, others: seq<Event>, task: Task, limit: nat)
    requires IsOwn(Reentry, task, own) && forall e :: e in others ==> !IsOwn(Reentry, task, e)
    ensures NewestRuntime(rows + [own] + others, task, limit) ==
      if |others| < limit then Some(own.runtime) else None
    decreases |others|
  {
    var all := rows + [own] + others;
    if others == [] {
      assert all == rows + [own];
    } else if limit > 0 {
      var n := |others| - 1;
      assert others[n] in others;
      assert all[..|all| - 1] == rows + [own] + others[..n];
      RuntimeIsFoundExactlyWhen(rows, own, others[..n], task, limit - 1);
    }
  }

  lemma {:induction false} ReentryRowsAppend(log: seq<Event>, more: seq<Event>)
    ensures ReentryRows(log + more) == ReentryRows(log) + ReentryRows(more)
  {
    FilterAppend(log, more, IsReentry);
  }

  lemma {:induction false} RowsOfOne(e: Event)
    ensures ReentryRows([e]) == if IsReentry(e) then [e] else []
  {
    assert ReentryRows([e][1..]) == [];
  }

  /** How many rows follow the task's newest one; None when it has none. */
  function RowsSinceOwn(rows: seq<Event>, task: Task): Option<nat> {
    if rows == [] then None
    else if IsOwn(Reentry, task, rows[|rows| - 1]) then Some(0)
    else
      match RowsSinceOwn(rows[..|rows| - 1], task)
      case None => None
      case Some(n) => Some(n + 1)
  }

  /** The fingerprint of the task's last re-entry, however long ago. */
  function OwnRuntime(rows: seq<Event>, task: Task): Option<string> {
    NewestRuntime(rows, task, |rows|)
  }

  lemma {:induction false} NewestRuntimeExactlyWhen(rows: seq<Event>, task: Task, limit: nat)
    ensures NewestRuntime(rows, task, limit) ==
      if RowsSinceOwn(rows, task).Some? && RowsSinceOwn(rows, task).value < limit then OwnRuntime(rows, task) else None
    ensures RowsSinceOwn(rows, task).Some? ==> RowsSinceOwn(rows, task).value < |rows|
  {
    if rows != [] {
      NewestRuntimeExactlyWhen(rows[..|rows| - 1], task, if limit > 0 then limit - 1 else 0);
    }
  }

  /** In every log, however it came about: the last fingerprint is found if and only if fewer than 200 re-entries of other
      tasks follow the task's last one. */
  lemma {:induction false} RuntimeIsRemembered(log: seq<Event>, task: Task)
    ensures var since := RowsSinceOwn(ReentryRows(log), task);
      LastReentryRuntime(log, task) ==
        if since.Some? && since.value < 200 then OwnRuntime(ReentryRows(log), task) else None
    ensures RowsSinceOwn(ReentryRows(log), task).Some? <==> OwnRuntime(ReentryRows(log), task).Some?
  {
    NewestRuntimeExactlyWhen(ReentryRows(log), task, REENTRY_ROWS);
    FoundMeansOwn(ReentryRows(log), task);
  }

  lemma {:induction false} FoundMeansOwn(rows: seq<Event>, task: Task)
    ensures RowsSinceOwn(rows, task).Some? <==> OwnRuntime(rows, task).Some?
  {
    if rows != [] {
      FoundMeansOwn(rows[..|rows| - 1], task);
    }
  }

  // ---------------------------------------------------------------------------------------------------------------
  // The two mechanisms
  // ---------------------------------------------------------------------------------------------------------------

  datatype Status = Open | Blocked | Elsewhere

  /** What the store and the project say about a task, apart from its status and its log. */
  datatype TaskFacts = TaskFacts(
    id: Task,
    implementing: bool,            // its stage is IMPLEMENT
    busy: bool,                    // an active claim or a running execution
    selected: bool,                // not excluded, inside the label selector and the requested task
    recoverable: bool)             // recoverable_cause is not None

  /** When the unblock of a task is committed and when its own event is. */
  datatype Times = Times(at: real, logged: real)

  /** An unblock and the event that logs it. */
  function Pair(m: Mechanism, task: Task, times: Times, runtime: string): seq<Event> {
    [Unblocked(task, times.at), OwnEvent(m, task, times.logged, runtime)]
  }

  /** Eligible, and with budget left. */
  ghost predicate MayRetry(status: map<Task, Status>, t: TaskFacts, used: nat, maxRetries: nat) {
    && t.selected && t.id in status && status[t.id] == Blocked && t.implementing
    && !t.busy && t.recoverable && used < maxRetries
  }

  class AuditStore {
    var log: seq<Event>
    var status: map<Task, Status>

    /** BLOCKED to OPEN, with the event that says so. */
    method UnblockTask(task: Task, at: real) returns (done: bool)
      modifies this
      ensures done <==> task in old(status) && old(status)[task] == Blocked
      ensures done ==> status == old(status)[task := Open] && log == old(log) + [Unblocked(task, at)]
      ensures !done ==> status == old(status) && log == old(log)
    {
      done := task in status && status[task] == Blocked;
      if done {
        status := status[task := Open];
        log := log + [Unblocked(task, at)];
      }
    }

    /** `reenter_blocked_task`. `operational` says that the block is of the recoverable-operational kind; `blockRuntime`
        is the fingerprint recorded with it. The attempt number is counted before the unblock, which looks like an
        operator's until our own event follows. */
    method ReenterBlockedTask(
      task: Task, fingerprint: string, operational: bool, busy: bool, blockRuntime: Option<string>, times: Times)
      returns (attempt: Option<nat>)
      modifies this
      ensures attempt.Some? <==>
        && task in old(status) && old(status)[task] == Blocked && operational && !busy
        && Used(Reentry, old(log), task) < 3
        && blockRuntime != Some(fingerprint) && LastReentryRuntime(old(log), task) != Some(fingerprint)
      ensures attempt.Some? ==>
        && attempt.value == Used(Reentry, old(log), task) + 1 <= 3
        && status == old(status)[task := Open]
        && log == old(log) + Pair(Reentry, task, times, fingerprint)
      ensures attempt.None? ==> log == old(log) && status == old(status)
    {
      if task !in status || status[task] != Blocked || !operational || busy {
        return None;
      }
      var used := CountUsed(Reentry, log, task);
      if used >= MAX_REENTRIES {
        return None;
      }
      if Some(fingerprint) == blockRuntime || Some(fingerprint) == LastReentryRuntime(log, task) {
        return None;
      }
      var done := UnblockTask(task, times.at);
      log := log + [Reentered(task, times.logged, fingerprint)];
      return Some(used + 1);
    }

    /** `_note_exhausted`: once per task. */
    method NoteExhausted(task: Task, at: real)
      modifies this`log
      ensures log == if exists e :: e in old(log) && e.Exhausted? && e.task == task then old(log)
                     else old(log) + [Exhausted(task, at)]
    {
      if exists e :: e in log && e.Exhausted? && e.task == task {
        return;
      }
      log := log + [Exhausted(task, at)];
    }

    /** One task of the loop of `auto_retry_blocked_provider_failures`. */
    method RetryOne(t: TaskFacts, maxRetries: nat, times: Times) returns (done: bool)
      modifies this
      ensures done <==>
        && t.selected && t.id in old(status) && old(status)[t.id] == Blocked && t.implementing
        && !t.busy && t.recoverable && Used(Retry, old(log), t.id) < maxRetries
      ensures status == if done then old(status)[t.id := Open] else old(status)
      ensures done ==> log == old(log) + Pair(Retry, t.id, times, "")
      ensures !done ==> log == old(log) || log == old(log) + [Exhausted(t.id, times.at)]
    {
      if !t.selected {
        return false;
      }
      if t.id !in status || status[t.id] != Blocked || !t.implementing {
        return false;
      }
      if t.busy {
        return false;
      }
      if !t.recoverable {
        return false;
      }
      var used := CountUsed(Retry, log, t.id);
      if used >= maxRetries {
        NoteExhausted(t.id, times.at);
        return false;
      }
      done := UnblockTask(t.id, times.at);
      log := log + [Retried(t.id, times.logged)];
    }

    /** `auto_retry_blocked_provider_failures`: at most `limit` tasks, each within its budget, none of them twice; and
        when the limit is not reached, every eligible task that has budget left. */
    method AutoRetry(tasks: seq<TaskFacts>, limit: int, maxRetries: nat, clock: seq<Times>)
      returns (recovered: seq<Task>)
      requires |clock| == |tasks| && forall i, j :: 0 <= i < j < |tasks| ==> tasks[i].id != tasks[j].id
      modifies this
      ensures |recovered| <= if limit > 0 then limit else 0
      ensures forall i, j :: 0 <= i < j < |recovered| ==> recovered[i] != recovered[j]
      ensures forall id :: id in recovered ==>
        && id in status && status[id] == Open
        && id in old(status) && old(status)[id] == Blocked && Used(Retry, old(log), id) < maxRetries
        && exists t :: t in tasks && t.id == id && t.selected && t.implementing && !t.busy && t.recoverable
      ensures |recovered| < limit ==> forall t :: t in tasks ==>
        (t.selected && t.id in old(status) && old(status)[t.id] == Blocked && t.implementing
         && !t.busy && t.recoverable && Used(Retry, old(log), t.id) < maxRetries) ==> t.id in recovered
      ensures status.Keys == old(status).Keys
      ensures forall id :: id in status && id !in recovered ==> status[id] == old(status)[id]
      ensures forall id :: id !in recovered ==> Used(Retry, log, id) == Used(Retry, old(log), id)
      ensures old(log) <= log && forall id ::
        RetriesIn(log, id) == RetriesIn(old(log), id) + if id in recovered then 1 else 0
    {
      recovered := [];
      if limit < 1 {
        return;
      }
      ghost var log0, status0 := log, status;
      for i := 0 to |tasks|
        invariant |recovered| < limit
        invariant Progressed(tasks, i, maxRetries, status0, log0, status, log, recovered)
      {
        ghost var was, before := status, log;
        var done := RetryOne(tasks[i], maxRetries, clock[i]);
        if !done {
          SkippedGoesOn(tasks, i, maxRetries, status0, log0, was, before, log, recovered, clock[i].at);
          continue;
        }
        RetriedGoesOn(tasks, i, maxRetries, status0, log0, was, before, recovered, clock[i]);
        recovered := recovered + [tasks[i].id];
        if |recovered| >= limit {
          break;
        }
      }
    }
  }

  /** The retries of a task in the log. */
  function RetriesIn(log: seq<Event>, task: Task): nat {
    |OwnTimes(Retry, log, task)|
  }

  lemma {:induction false} NoteIsNoRetry(before: seq<Event>, after: seq<Event>, task: Task, at: real)
    requires after == before || after == before + [Exhausted(task, at)]
    ensures forall id :: RetriesIn(after, id) == RetriesIn(before, id)
  {
    forall id
      ensures RetriesIn(after, id) == RetriesIn(before, id)
    {
      OwnTimesAppend(Retry, before, [Exhausted(task, at)], id);
      NoOwnTimes(Retry, [Exhausted(task, at)], id);
    }
  }

  lemma {:induction false} PairIsOneRetry(before: seq<Event>, task: Task, times: Times)
    ensures forall id ::
      RetriesIn(before + Pair(Retry, task, times, ""), id) == RetriesIn(before, id) + if id == task then 1 else 0
  {
    forall id
      ensures RetriesIn(before + Pair(Retry, task, times, ""), id)
           == RetriesIn(before, id) + if id == task then 1 else 0
    {
      if id == task {
        PairTimes(Retry, before, task, times.at, times.logged, "");
      } else {
        OwnTimesAppend(Retry, before, Pair(Retry, task, times, ""), id);
        NoOwnTimes(Retry, Pair(Retry, task, times, ""), id);
      }
    }
  }

  /** The retries that each task has used. */
  function Budgets(log: seq<Event>): Task -> nat {
    (id: Task) => Used(Retry, log, id)
  }

  /** What the loop has done after `i` tasks. */
  ghost predicate Progress(
    tasks: seq<TaskFacts>, i: nat, maxRetries: nat, status0: map<Task, Status>, used0: Task -> nat,
    status: map<Task, Status>, used: Task -> nat, recovered: seq<Task>)
    requires i <= |tasks|
  {
    && (forall k, j :: 0 <= k < j < |recovered| ==> recovered[k] != recovered[j])
    && (forall id :: id in recovered ==>
         && id in status && status[id] == Open
         && exists k :: 0 <= k < i && tasks[k].id == id && MayRetry(status0, tasks[k], used0(id), maxRetries))
    && (forall k :: 0 <= k < i && MayRetry(status0, tasks[k], used0(tasks[k].id), maxRetries) ==>
         tasks[k].id in recovered)
    && status.Keys == status0.Keys
    && (forall id :: id in status && id !in recovered ==> status[id] == status0[id])
    && (forall id :: id !in recovered ==> used(id) == used0(id))
  }

  /** The same, with the log. */
  ghost predicate Progressed(
    tasks: seq<TaskFacts>, i: nat, maxRetries: nat, status0: map<Task, Status>, log0: seq<Event>,
    status: map<Task, Status>, log: seq<Event>, recovered: seq<Task>)
    requires i <= |tasks|
  {
    && Progress(tasks, i, maxRetries, status0, Budgets(log0), status, Budgets(log), recovered)
    && log0 <= log
    && forall id :: RetriesIn(log, id) == RetriesIn(log0, id) + if id in recovered then 1 else 0
  }

  lemma {:induction false} SkippedGoesOn(
    tasks: seq<TaskFacts>, i: nat, maxRetries: nat, status0: map<Task, Status>, log0: seq<Event>,
    status: map<Task, Status>, log: seq<Event>, after: seq<Event>, recovered: seq<Task>, at: real)
    requires i < |tasks| && (forall k, j :: 0 <= k < j < |tasks| ==> tasks[k].id != tasks[j].id)
    requires Progressed(tasks, i, maxRetries, status0, log0, status, log, recovered)
    requires !MayRetry(status, tasks[i], Used(Retry, log, tasks[i].id), maxRetries)
    requires after == log || after == log + [Exhausted(tasks[i].id, at)]
    ensures Progressed(tasks, i + 1, maxRetries, status0, log0, status, after, recovered)
  {
    NoteKeepsUsed(log, after, tasks[i].id, at);
    NoteIsNoRetry(log, after, tasks[i].id, at);
    SkippedKeepsProgress(
      tasks, i, maxRetries, status0, Budgets(log0), status, Budgets(log), Budgets(after), recovered);
  }

  lemma {:induction false} RetriedGoesOn(
    tasks: seq<TaskFacts>, i: nat, maxRetries: nat, status0: map<Task, Status>, log0: seq<Event>,
    status: map<Task, Status>, log: seq<Event>, recovered: seq<Task>, times: Times)
    requires i < |tasks| && (forall k, j :: 0 <= k < j < |tasks| ==> tasks[k].id != tasks[j].id)
    requires Progressed(tasks, i, maxRetries, status0, log0, status, log, recovered)
    requires MayRetry(status, tasks[i], Used(Retry, log, tasks[i].id), maxRetries)
    ensures Progressed(tasks, i + 1, maxRetries, status0, log0, status[tasks[i].id := Open],
                       log + Pair(Retry, tasks[i].id, times, ""), recovered + [tasks[i].id])
  {
    var after := log + Pair(Retry, tasks[i].id, times, "");
    OthersKeepUsed(log, tasks[i].id, times);
    PairIsOneRetry(log, tasks[i].id, times);
    assert tasks[i].id !in recovered;
    RetriedKeepsProgress(
      tasks, i, maxRetries, status0, Budgets(log0), status, Budgets(log), Budgets(after), recovered);
  }

  lemma {:induction false} SkippedKeepsProgress(
    tasks: seq<TaskFacts>, i: nat, maxRetries: nat, status0: map<Task, Status>, used0: Task -> nat,
    status: map<Task, Status>, used: Task -> nat, after: Task -> nat, recovered: seq<Task>)
    requires i < |tasks| && (forall k, j :: 0 <= k < j < |tasks| ==> tasks[k].id != tasks[j].id)
    requires Progress(tasks, i, maxRetries, status0, used0, status, used, recovered)
    requires !MayRetry(status, tasks[i], used(tasks[i].id), maxRetries)
    requires forall id :: after(id) == used(id)
    ensures Progress(tasks, i + 1, maxRetries, status0, used0, status, after, recovered)
  {
    assert tasks[i].id !in recovered;
  }

  lemma {:induction false} RetriedKeepsProgress(
    tasks: seq<TaskFacts>, i: nat, maxRetries: nat, status0: map<Task, Status>, used0: Task -> nat,
    status: map<Task, Status>, used: Task -> nat, after: Task -> nat, recovered: seq<Task>)
    requires i < |tasks| && (forall k, j :: 0 <= k < j < |tasks| ==> tasks[k].id != tasks[j].id)
    requires Progress(tasks, i, maxRetries, status0, used0, status, used, recovered)
    requires MayRetry(status, tasks[i], used(tasks[i].id), maxRetries)
    requires forall id :: id != tasks[i].id ==> after(id) == used(id)
    ensures Progress(tasks, i + 1, maxRetries, status0, used0, status[tasks[i].id := Open], after,
                     recovered + [tasks[i].id])
  {
    var id, more := tasks[i].id, recovered + [tasks[i].id];
    assert id !in recovered;
    assert forall x :: x in more <==> x in recovered || x == id;
    assert MayRetry(status0, tasks[i], used0(id), maxRetries);
  }

  lemma {:induction false} NoteKeepsUsed(before: seq<Event>, after: seq<Event>, task: Task, at: real)
    requires after == before || after == before + [Exhausted(task, at)]
    ensures forall id :: Used(Retry, after, id) == Used(Retry, before, id)
  {
    forall id
      ensures Used(Retry, after, id) == Used(Retry, before, id)
    {
      UnrelatedKeepsUsed(Retry, before, Exhausted(task, at), id);
    }
  }

  /** Unblocking one task does not touch the budget of another. */
  lemma {:induction false} OthersKeepUsed(before: seq<Event>, task: Task, times: Times)
    ensures forall id :: id != task ==>
      Used(Retry, before + Pair(Retry, task, times, ""), id) == Used(Retry, before, id)
  {
    var first, second := Unblocked(task, times.at), Retried(task, times.logged);
    assert before + [first, second] == before + [first] + [second];
    forall id | id != task
      ensures Used(Retry, before + [first, second], id) == Used(Retry, before, id)
    {
      UnrelatedKeepsUsed(Retry, before, first, id);
      UnrelatedKeepsUsed(Retry, before + [first], second, id);
    }
  }
}
