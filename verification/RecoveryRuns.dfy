/** Every run of the two automatic recoveries on one task: any number of processes, each of which first tests, then unblocks,
    and then logs what it did, while operators and other tasks are active in between.
 */
module RecoveryRuns {
  import opened Prelude
  import opened Recovery

  type Process = nat

  /** What a process is about to do to the task. */
  datatype Attempt =
    | Checked(m: Mechanism, runtime: string)                           // the tests were passed
    | Unlogged(m: Mechanism, runtime: string, at: real, before: nat)   // the task was unblocked behind log[..before]

  datatype State = State(log: seq<Event>, blocked: bool, attempts: map<Process, Attempt>)

  datatype Step =
    | Check(p: Process, m: Mechanism, runtime: string)
    | Unblock(p: Process, at: real)
    | Log(p: Process, logged: real)
    | GiveUp(p: Process)      // the task is not blocked any more, or the process ends
    | Operator(at: real)      // anybody else unblocks the task
    | Blocks(at: real)        // the task is blocked again
    | Background(e: Event)    // anything else that is logged

  /** The states before, between and after the steps. */
  datatype Run = Run(states: seq<State>, steps: seq<Step>)

  datatype Config = Config(task: Task, maxRetries: nat)

  function BudgetOf(c: Config, m: Mechanism): nat {
    if m == Retry then c.maxRetries else MAX_REENTRIES
  }

  /** The tests that both mechanisms make. Whether the block is of a kind that may be retried is left open. */
  ghost predicate Passes(c: Config, log: seq<Event>, m: Mechanism, runtime: string) {
    && Used(m, log, c.task) < BudgetOf(c, m)
    && (m == Reentry ==> LastReentryRuntime(log, c.task) != Some(runtime))
  }

  ghost predicate Enabled(c: Config, s: State, step: Step) {
    match step
    case Check(p, m, runtime) => p !in s.attempts && Passes(c, s.log, m, runtime)
    case Unblock(p, _) => p in s.attempts && s.attempts[p].Checked? && s.blocked
    case Log(p, _) => p in s.attempts && s.attempts[p].Unlogged?
    case GiveUp(p) => p in s.attempts
    case Operator(_) => s.blocked
    case Blocks(_) => !s.blocked
    case Background(e) => Unrelated(Retry, c.task, e) && Unrelated(Reentry, c.task, e)
  }

  /** What a step logs. */
  ghost function Logged(c: Config, s: State, step: Step): seq<Event>
    requires Enabled(c, s, step)
  {
    match step
    case Check(_, _, _) => []
    case Unblock(_, at) => [Unblocked(c.task, at)]
    case Log(p, logged) => [OwnEvent(s.attempts[p].m, c.task, logged, s.attempts[p].runtime)]
    case GiveUp(_) => []
    case Operator(at) => [Unblocked(c.task, at)]
    case Blocks(at) => [Other(at)]
    case Background(e) => [e]
  }

  ghost function Attempts(s: State, step: Step): map<Process, Attempt> {
    match step
    case Check(p, m, runtime) => s.attempts[p := Checked(m, runtime)]
    case Unblock(p, at) =>
      if p in s.attempts then s.attempts[p := Unlogged(s.attempts[p].m, s.attempts[p].runtime, at, |s.log|)]
      else s.attempts
    case Log(p, _) => s.attempts - {p}
    case GiveUp(p) => s.attempts - {p}
    case _ => s.attempts
  }

  ghost function After(c: Config, s: State, step: Step): State
    requires Enabled(c, s, step)
  {
    State(s.log + Logged(c, s, step),
          if step.Blocks? then true else if step.Unblock? || step.Operator? then false else s.blocked,
          Attempts(s, step))
  }

  ghost predicate StepAt(c: Config, run: Run, i: nat)
    requires i < |run.steps| && |run.states| == |run.steps| + 1
  {
    && Enabled(c, run.states[i], run.steps[i])
    && run.states[i + 1] == After(c, run.states[i], run.steps[i])
    && InOrder(run.states[i + 1].log)
  }

  /** From any log, with no attempt under way. */
  ghost predicate IsRun(c: Config, run: Run) {
    && |run.states| == |run.steps| + 1
    && InOrder(run.states[0].log) && run.states[0].attempts == map[]
    && forall i: nat :: i < |run.steps| ==> StepAt(c, run, i)
  }

  ghost predicate UnderWay(s: State, m: Mechanism) {
    exists p :: p in s.attempts && s.attempts[p].m == m
  }

  /** Attempts of one mechanism at the task do not overlap: each is tested when the one before is finished. */
  ghost predicate Serial(s: State, step: Step) {
    step.Check? ==> !UnderWay(s, step.m)
  }

  /** The mechanism's own event is logged within five seconds of its unblock. */
  ghost predicate InTime(s: State, step: Step) {
    step.Log? && step.p in s.attempts && s.attempts[step.p].Unlogged? ==>
      s.attempts[step.p].at <= step.logged <= s.attempts[step.p].at + 5.0
  }

  ghost predicate OrderlyAt(run: Run, i: nat)
    requires i < |run.steps| && |run.states| == |run.steps| + 1
  {
    Serial(run.states[i], run.steps[i]) && InTime(run.states[i], run.steps[i])
  }

  /** The hypotheses under which unblocks are attributed and counted correctly. */
  ghost predicate IsOrderlyRun(c: Config, run: Run) {
    IsRun(c, run) && forall i: nat :: i < |run.steps| ==> OrderlyAt(run, i)
  }

  // ---------------------------------------------------------------------------------------------------------------
  // One attempt, undisturbed
  // ---------------------------------------------------------------------------------------------------------------

  /** Test, unblock and log without anything in between do to log and task what the methods of the store do. */
  lemma {:induction false} UndisturbedAttempt(
    c: Config, s: State, p: Process, m: Mechanism, runtime: string, times: Times)
    requires p !in s.attempts && s.blocked && Passes(c, s.log, m, runtime)
    ensures Enabled(c, s, Check(p, m, runtime))
    ensures var s1 := After(c, s, Check(p, m, runtime));
      Enabled(c, s1, Unblock(p, times.at)) &&
      var s2 := After(c, s1, Unblock(p, times.at));
      Enabled(c, s2, Log(p, times.logged)) &&
      After(c, s2, Log(p, times.logged)) == State(s.log + Pair(m, c.task, times, runtime), false, s.attempts)
  {
    var s1 := After(c, s, Check(p, m, runtime));
    var s2 := After(c, s1, Unblock(p, times.at));
    var s3 := After(c, s2, Log(p, times.logged));
    assert s3.log == s.log + Pair(m, c.task, times, runtime);
    assert s3.attempts == s.attempts;
  }

  // ---------------------------------------------------------------------------------------------------------------
  // What every orderly run keeps
  // ---------------------------------------------------------------------------------------------------------------

  /** An attempt was within budget when it was tested, still is while it waits, and is not logged yet. */
  ghost predicate Sound(c: Config, log: seq<Event>, a: Attempt) {
    match a
    case Checked(m, _) => Used(m, log, c.task) < BudgetOf(c, m)
    case Unlogged(m, _, at, before) =>
      && before < |log| && log[before] == Unblocked(c.task, at)
      && NoneOwn(m, log[before..], c.task)
      && Used(m, log[..before], c.task) < BudgetOf(c, m)
  }

  ghost predicate Invariant(c: Config, s: State) {
    && InOrder(s.log)
    && (forall p :: p in s.attempts ==> Sound(c, s.log, s.attempts[p]))
    && (forall p, q :: p in s.attempts && q in s.attempts && s.attempts[p].m == s.attempts[q].m ==> p == q)
  }

  /** An event that is not its mechanism's own leaves an attempt sound. */
  lemma {:induction false} StaysSound(c: Config, log: seq<Event>, e: Event, a: Attempt)
    requires Sound(c, log, a) && !IsOwn(a.m, c.task, e)
    ensures Sound(c, log + [e], a)
  {
    match a
    case Checked(m, _) =>
      OthersNeverRaiseUsed(m, log, e, c.task);
    case Unlogged(m, _, at, before) =>
      assert (log + [e])[before..] == log[before..] + [e];
      assert (log + [e])[..before] == log[..before];
  }

  lemma {:induction false} UnblockIsSound(c: Config, log: seq<Event>, m: Mechanism, runtime: string, at: real)
    requires Sound(c, log, Checked(m, runtime))
    ensures Sound(c, log + [Unblocked(c.task, at)], Unlogged(m, runtime, at, |log|))
  {
    var longer := log + [Unblocked(c.task, at)];
    assert longer[|log|..] == [Unblocked(c.task, at)] && longer[..|log|] == log;
  }

  lemma {:induction false} OthersStaySound(c: Config, s: State, step: Step)
    requires Invariant(c, s) && Enabled(c, s, step) && Serial(s, step)
    ensures forall p :: p in s.attempts && p in Attempts(s, step) && Attempts(s, step)[p] == s.attempts[p] ==>
      Sound(c, s.log + Logged(c, s, step), s.attempts[p])
  {
    var after := Attempts(s, step);
    if Logged(c, s, step) == [] {
      assert s.log + [] == s.log;
    } else {
      var e := Logged(c, s, step)[0];
      assert Logged(c, s, step) == [e];
      forall p | p in s.attempts && p in after && after[p] == s.attempts[p]
        ensures Sound(c, s.log + [e], s.attempts[p])
      {
        StaysSound(c, s.log, e, s.attempts[p]);
      }
    }
  }

  lemma {:induction false} StepKeepsInvariant(c: Config, s: State, step: Step)
    requires Invariant(c, s) && Enabled(c, s, step) && Serial(s, step)
    requires InOrder(After(c, s, step).log)
    ensures Invariant(c, After(c, s, step))
  {
    OthersStaySound(c, s, step);
    match step
    case Check(p, m, runtime) =>
      assert s.log + [] == s.log;
    case Unblock(p, at) =>
      UnblockIsSound(c, s.log, s.attempts[p].m, s.attempts[p].runtime, at);
    case _ =>
  }

  lemma {:induction false} RunKeepsInvariant(c: Config, run: Run, i: nat)
    requires IsOrderlyRun(c, run) && i <= |run.steps|
    ensures Invariant(c, run.states[i])
  {
    if i > 0 {
      RunKeepsInvariant(c, run, i - 1);
      assert StepAt(c, run, i - 1) && OrderlyAt(run, i - 1);
      StepKeepsInvariant(c, run.states[i - 1], run.steps[i - 1]);
    }
  }

  // ---------------------------------------------------------------------------------------------------------------
  // The budget over a whole run
  // ---------------------------------------------------------------------------------------------------------------

  predicate IsUnblockBy(m: Mechanism, s: State, step: Step) {
    step.Unblock? && step.p in s.attempts && s.attempts[step.p].m == m
  }

  /** How many of the first `n` steps are unblocks that the mechanism made. */
  function Unblocks(m: Mechanism, run: Run, n: nat): nat
    requires n <= |run.steps| < |run.states|
  {
    if n == 0 then 0
    else Unblocks(m, run, n - 1) + if IsUnblockBy(m, run.states[n - 1], run.steps[n - 1]) then 1 else 0
  }

  /** A process ends between its unblock and its log entry. */
  predicate IsCut(m: Mechanism, s: State, step: Step) {
    step.GiveUp? && step.p in s.attempts && s.attempts[step.p].Unlogged? && s.attempts[step.p].m == m
  }

  /** What grants the mechanism a fresh budget: an unblock that it did not make, or one that it never logs. */
  predicate IsReset(m: Mechanism, s: State, step: Step) {
    step.Operator? || (step.Unblock? && !IsUnblockBy(m, s, step)) || IsCut(m, s, step)
  }

  function Resets(m: Mechanism, run: Run, n: nat): nat
    requires n <= |run.steps| < |run.states|
  {
    if n == 0 then 0
    else Resets(m, run, n - 1) + if IsReset(m, run.states[n - 1], run.steps[n - 1]) then 1 else 0
  }

  /** Some attempt of the mechanism has unblocked the task and is not logged. */
  ghost predicate Pending(s: State, m: Mechanism) {
    exists p :: p in s.attempts && s.attempts[p].m == m && s.attempts[p].Unlogged?
  }

  function UsedBehind(c: Config, m: Mechanism, log: seq<Event>, before: nat): nat {
    if before <= |log| then Used(m, log[..before], c.task) else 0
  }

  /** What the log shows of the current budget: all of it, or what was used before an unblock that is not logged yet. */
  ghost predicate Shows(c: Config, s: State, m: Mechanism, n: int) {
    && (forall p :: p in s.attempts && s.attempts[p].m == m && s.attempts[p].Unlogged? ==>
         n <= UsedBehind(c, m, s.log, s.attempts[p].before) + 1)
    && (!Pending(s, m) ==> n <= Used(m, s.log, c.task))
    && n <= BudgetOf(c, m)
  }

  /** A step that neither unblocks the task nor ends an attempt changes nothing of that. */
  lemma {:induction false} QuietStepShows(c: Config, s: State, step: Step, m: Mechanism, n: int)
    requires Invariant(c, s) && Shows(c, s, m, n) && Enabled(c, s, step) && Serial(s, step)
    requires step.Check? || step.Blocks? || step.Background? || (step.Log? && s.attempts[step.p].m != m)
          || (step.GiveUp? && !IsCut(m, s, step))
    ensures Shows(c, After(c, s, step), m, n)
  {
    var t := After(c, s, step);
    if Logged(c, s, step) == [] {
      assert t.log == s.log;
    } else {
      var e := Logged(c, s, step)[0];
      assert t.log == s.log + [e] && Unrelated(m, c.task, e);
      UnrelatedKeepsUsed(m, s.log, e, c.task);
    }
    NoNewAttempts(c, s, step, m);
    if Pending(s, m) {
      PendingStays(c, s, step, m);
    }
  }

  /** No other unlogged attempt of the mechanism appears. */
  lemma {:induction false} NoNewAttempts(c: Config, s: State, step: Step, m: Mechanism)
    requires Invariant(c, s) && Enabled(c, s, step) && !IsUnblockBy(m, s, step)
    ensures var t := After(c, s, step);
      forall p :: p in t.attempts && t.attempts[p].m == m && t.attempts[p].Unlogged? ==>
        && p in s.attempts && s.attempts[p] == t.attempts[p]
        && t.log[..t.attempts[p].before] == s.log[..s.attempts[p].before]
  {
    var t := After(c, s, step);
    forall p | p in t.attempts && t.attempts[p].m == m && t.attempts[p].Unlogged?
      ensures p in s.attempts && s.attempts[p] == t.attempts[p]
      ensures t.log[..t.attempts[p].before] == s.log[..s.attempts[p].before]
    {
      assert Sound(c, s.log, s.attempts[p]);
    }
  }

  /** It stays as it is until it is logged or cut. */
  lemma {:induction false} PendingStays(c: Config, s: State, step: Step, m: Mechanism)
    requires Enabled(c, s, step) && Pending(s, m)
    requires !(step.Log? && s.attempts[step.p].m == m) && !IsCut(m, s, step)
    ensures Pending(After(c, s, step), m)
  {
    var t := After(c, s, step);
    var p :| p in s.attempts && s.attempts[p].m == m && s.attempts[p].Unlogged?;
    assert p in t.attempts && t.attempts[p] == s.attempts[p];
  }

  /** The mechanism's own unblock shows one more. */
  lemma {:induction false} UnblockShows(c: Config, s: State, step: Step, m: Mechanism, n: int)
    requires Invariant(c, s) && Shows(c, s, m, n) && Enabled(c, s, step) && IsUnblockBy(m, s, step)
    ensures Shows(c, After(c, s, step), m, n + 1)
  {
    var t, p := After(c, s, step), step.p;
    assert t.log[..|s.log|] == s.log;
    assert Sound(c, s.log, s.attempts[p]);
    assert t.attempts[p].Unlogged?;
    assert !Pending(s, m);
    assert forall q :: q in t.attempts && t.attempts[q].m == m ==> q == p;
  }

  /** Logging it in time keeps what was shown. */
  lemma {:induction false} LogShows(c: Config, s: State, step: Step, m: Mechanism, n: int)
    requires Invariant(c, s) && Shows(c, s, m, n) && Enabled(c, s, step) && InTime(s, step)
    requires step.Log? && s.attempts[step.p].m == m && InOrder(After(c, s, step).log)
    ensures Shows(c, After(c, s, step), m, n)
  {
    var t, a := After(c, s, step), s.attempts[step.p];
    assert Sound(c, s.log, a);
    var earlier, mid := s.log[..a.before], s.log[a.before + 1..];
    assert s.log == earlier + [Unblocked(c.task, a.at)] + mid;
    assert forall e :: e in mid ==> e in s.log[a.before..];
    TimelyUnblockRaisesUsed(m, earlier, mid, c.task, a.at, step.logged, a.runtime);
    assert t.log == earlier + [Unblocked(c.task, a.at)] + mid + [OwnEvent(m, c.task, step.logged, a.runtime)];
    assert forall q :: q in t.attempts ==> t.attempts[q].m != m;
  }

  /** After a reset nothing has to be shown. */
  lemma {:induction false} ResetShows(c: Config, s: State, step: Step, m: Mechanism)
    requires Invariant(c, s) && Enabled(c, s, step) && IsReset(m, s, step)
    ensures Shows(c, After(c, s, step), m, 0)
  {
  }

  lemma {:induction false} LessIsShown(c: Config, s: State, m: Mechanism, n: int, k: int)
    requires Shows(c, s, m, n) && k <= n
    ensures Shows(c, s, m, k)
  {
  }

  lemma {:induction false} StepShows(c: Config, s: State, step: Step, m: Mechanism, n: int)
    requires Invariant(c, s) && Shows(c, s, m, n) && Enabled(c, s, step) && Serial(s, step) && InTime(s, step)
    requires InOrder(After(c, s, step).log)
    ensures Shows(c, After(c, s, step), m,
                  n + (if IsUnblockBy(m, s, step) then 1 else 0) - if IsReset(m, s, step) then BudgetOf(c, m) else 0)
  {
    if IsReset(m, s, step) {
      ResetShows(c, s, step, m);
      LessIsShown(c, After(c, s, step), m, 0, n - BudgetOf(c, m));
    } else if IsUnblockBy(m, s, step) {
      UnblockShows(c, s, step, m, n);
    } else if step.Log? && s.attempts[step.p].m == m {
      LogShows(c, s, step, m, n);
    } else {
      QuietStepShows(c, s, step, m, n);
    }
  }

  /** Unblocks, less a budget for every reset. */
  function Balance(c: Config, m: Mechanism, run: Run, n: nat): int
    requires n <= |run.steps| < |run.states|
  {
    if n == 0 then 0
    else
      Balance(c, m, run, n - 1)
      + (if IsUnblockBy(m, run.states[n - 1], run.steps[n - 1]) then 1 else 0)
      - if IsReset(m, run.states[n - 1], run.steps[n - 1]) then BudgetOf(c, m) else 0
  }

  lemma {:induction false} OneMoreTime(budget: nat, resets: nat)
    ensures budget * (resets + 1) == budget * resets + budget
  {
  }

  lemma {:induction false} BalanceIs(c: Config, m: Mechanism, run: Run, n: nat)
    requires n <= |run.steps| < |run.states|
    ensures Balance(c, m, run, n)
         == Unblocks(m, run, n) - BudgetOf(c, m) * Resets(m, run, n)
  {
    if n > 0 {
      BalanceIs(c, m, run, n - 1);
      OneMoreTime(BudgetOf(c, m), Resets(m, run, n - 1));
    }
  }

  lemma {:induction false} RunShows(c: Config, run: Run, m: Mechanism, n: nat)
    requires IsOrderlyRun(c, run) && n <= |run.steps|
    ensures Shows(c, run.states[n], m, Balance(c, m, run, n))
  {
    if n > 0 {
      RunShows(c, run, m, n - 1);
      RunKeepsInvariant(c, run, n - 1);
      assert StepAt(c, run, n - 1) && OrderlyAt(run, n - 1);
      StepShows(c, run.states[n - 1], run.steps[n - 1], m, Balance(c, m, run, n - 1));
    }
  }

  /** In every orderly run, from any log: a mechanism unblocks the task at most its budget times for every reset, and once
      more its budget. Unblocks that it did not make may fall anywhere, also between its own tests, unblocks and log
      entries, and however they are read. */
  lemma {:induction false} UnblocksStayWithinBudgets(c: Config, run: Run, m: Mechanism)
    requires IsOrderlyRun(c, run)
    ensures Unblocks(m, run, |run.steps|) <= BudgetOf(c, m) * (Resets(m, run, |run.steps|) + 1)
  {
    RunShows(c, run, m, |run.steps|);
    BalanceIs(c, m, run, |run.steps|);
    OneMoreTime(BudgetOf(c, m), Resets(m, run, |run.steps|));
  }

  // ---------------------------------------------------------------------------------------------------------------
  // Fingerprints, and the end of recovery
  // ---------------------------------------------------------------------------------------------------------------

  function LastOwn(c: Config, log: seq<Event>): Option<string> {
    OwnRuntime(ReentryRows(log), c.task)
  }

  /** When a re-entry is tested, the task's previous one is among the rows that are looked at. */
  ghost predicate WindowReaches(c: Config, s: State, step: Step) {
    step.Check? && step.m == Reentry ==>
      match RowsSinceOwn(ReentryRows(s.log), c.task)
      case None => true
      case Some(n) => n < REENTRY_ROWS
  }

  ghost predicate WindowAlwaysReaches(c: Config, run: Run)
    requires |run.states| == |run.steps| + 1
  {
    forall i: nat :: i < |run.steps| ==> WindowReaches(c, run.states[i], run.steps[i])
  }

  lemma {:induction false} OthersKeepLastOwn(c: Config, log: seq<Event>, e: Event)
    requires !IsOwn(Reentry, c.task, e)
    ensures LastOwn(c, log + [e]) == LastOwn(c, log)
  {
    ReentryRowsAppend(log, [e]);
    RowsOfOne(e);
    var rows := ReentryRows(log);
    assert rows + [] == rows && (rows + [e])[..|rows|] == rows;
  }

  lemma {:induction false} OwnBecomesLast(c: Config, log: seq<Event>, logged: real, runtime: string)
    ensures LastOwn(c, log + [Reentered(c.task, logged, runtime)]) == Some(runtime)
  {
    ReentryRowsAppend(log, [Reentered(c.task, logged, runtime)]);
    RowsOfOne(Reentered(c.task, logged, runtime));
  }

  predicate IsReentryLog(s: State, step: Step) {
    step.Log? && step.p in s.attempts && s.attempts[step.p].m == Reentry
  }

  lemma {:induction false} LastOwnAfter(c: Config, s: State, step: Step)
    requires Enabled(c, s, step)
    ensures LastOwn(c, After(c, s, step).log) ==
      if IsReentryLog(s, step) then Some(s.attempts[step.p].runtime) else LastOwn(c, s.log)
  {
    if IsReentryLog(s, step) {
      OwnBecomesLast(c, s.log, step.logged, s.attempts[step.p].runtime);
    } else if Logged(c, s, step) == [] {
      assert s.log + [] == s.log;
    } else {
      OthersKeepLastOwn(c, s.log, Logged(c, s, step)[0]);
    }
  }

  /** No re-entry that is under way repeats the last fingerprint. */
  ghost predicate Fresh(c: Config, s: State) {
    forall p :: p in s.attempts && s.attempts[p].m == Reentry ==> LastOwn(c, s.log) != Some(s.attempts[p].runtime)
  }

  lemma {:induction false} StepKeepsFresh(c: Config, s: State, step: Step)
    requires Invariant(c, s) && Fresh(c, s) && Enabled(c, s, step)
    requires Serial(s, step) && WindowReaches(c, s, step)
    ensures Fresh(c, After(c, s, step))
  {
    LastOwnAfter(c, s, step);
    RuntimeIsRemembered(s.log, c.task);
  }

  lemma {:induction false} RunKeepsFresh(c: Config, run: Run, i: nat)
    requires IsOrderlyRun(c, run) && WindowAlwaysReaches(c, run) && i <= |run.steps|
    ensures Fresh(c, run.states[i])
  {
    if i > 0 {
      RunKeepsFresh(c, run, i - 1);
      RunKeepsInvariant(c, run, i - 1);
      assert StepAt(c, run, i - 1) && OrderlyAt(run, i - 1);
      assert WindowReaches(c, run.states[i - 1], run.steps[i - 1]);
      StepKeepsFresh(c, run.states[i - 1], run.steps[i - 1]);
    }
  }

  /** Consecutive re-entries of a task never carry the same fingerprint, while fewer than 200 rows of other tasks lie between
      the one and the tests of the other. */
  lemma {:induction false} ConsecutiveReentriesDiffer(c: Config, run: Run, i: nat)
    requires IsOrderlyRun(c, run) && WindowAlwaysReaches(c, run)
    requires i < |run.steps| && IsReentryLog(run.states[i], run.steps[i])
    ensures var runtime := run.states[i].attempts[run.steps[i].p].runtime;
      LastOwn(c, run.states[i].log) != Some(runtime) && LastOwn(c, run.states[i + 1].log) == Some(runtime)
  {
    RunKeepsFresh(c, run, i);
    assert StepAt(c, run, i);
    LastOwnAfter(c, run.states[i], run.steps[i]);
  }

  /** No operator, no process that ends before it logs, and one fingerprint. */
  ghost predicate Unattended(s: State, step: Step, fingerprint: string) {
    && !step.Operator? && !IsCut(Retry, s, step) && !IsCut(Reentry, s, step)
    && (step.Check? && step.m == Reentry ==> step.runtime == fingerprint)
  }

  ghost predicate AlwaysUnattended(run: Run, fingerprint: string)
    requires |run.states| == |run.steps| + 1
  {
    forall i: nat :: i < |run.steps| ==> Unattended(run.states[i], run.steps[i], fingerprint)
  }

  /** There was no re-entry yet; or it is not logged yet, or it is the last one in the log. */
  ghost predicate AtMostOne(c: Config, s: State, fingerprint: string, reentries: nat) {
    && (forall p :: p in s.attempts && s.attempts[p].m == Reentry ==> s.attempts[p].runtime == fingerprint)
    && (reentries == 0 || (reentries == 1 && (Pending(s, Reentry) || LastOwn(c, s.log) == Some(fingerprint))))
  }

  lemma {:induction false} StepKeepsAtMostOne(c: Config, s: State, step: Step, fingerprint: string, reentries: nat)
    requires Invariant(c, s) && Fresh(c, s) && Enabled(c, s, step)
    requires Unattended(s, step, fingerprint) && AtMostOne(c, s, fingerprint, reentries)
    ensures AtMostOne(c, After(c, s, step), fingerprint,
                      reentries + if IsUnblockBy(Reentry, s, step) then 1 else 0)
  {
    var t := After(c, s, step);
    LastOwnAfter(c, s, step);
    if IsUnblockBy(Reentry, s, step) {
      assert reentries == 0;
      assert t.attempts[step.p].Unlogged?;
    } else if reentries == 1 && Pending(s, Reentry) && !IsReentryLog(s, step) {
      PendingStays(c, s, step, Reentry);
    }
  }

  lemma {:induction false} RunKeepsAtMostOne(c: Config, run: Run, fingerprint: string, n: nat)
    requires IsOrderlyRun(c, run) && WindowAlwaysReaches(c, run) && AlwaysUnattended(run, fingerprint)
    requires n <= |run.steps|
    ensures AtMostOne(c, run.states[n], fingerprint, Unblocks(Reentry, run, n))
  {
    if n > 0 {
      RunKeepsAtMostOne(c, run, fingerprint, n - 1);
      RunKeepsInvariant(c, run, n - 1);
      RunKeepsFresh(c, run, n - 1);
      assert StepAt(c, run, n - 1);
      assert Unattended(run.states[n - 1], run.steps[n - 1], fingerprint);
      StepKeepsAtMostOne(c, run.states[n - 1], run.steps[n - 1], fingerprint, Unblocks(Reentry, run, n - 1));
    }
  }

  /** Unattended, only re-entries grant the retries a fresh budget. */
  lemma {:induction false} RetriesAreResetByReentries(c: Config, run: Run, fingerprint: string, n: nat)
    requires IsRun(c, run) && AlwaysUnattended(run, fingerprint) && n <= |run.steps|
    ensures Resets(Retry, run, n) == Unblocks(Reentry, run, n)
  {
    if n > 0 {
      RetriesAreResetByReentries(c, run, fingerprint, n - 1);
      assert StepAt(c, run, n - 1);
      assert Unattended(run.states[n - 1], run.steps[n - 1], fingerprint);
    }
  }

  /** Recovery terminates while the runtime does not change: unattended, both mechanisms together unblock the task at most
      2 * maxRetries + 1 times, five times with the default, in every orderly run in which the previous re-entry is always
      found. */
  lemma {:induction false} RecoveryTerminates(c: Config, run: Run, fingerprint: string)
    requires IsOrderlyRun(c, run) && WindowAlwaysReaches(c, run) && AlwaysUnattended(run, fingerprint)
    ensures Unblocks(Retry, run, |run.steps|) + Unblocks(Reentry, run, |run.steps|) <= 2 * c.maxRetries + 1
    ensures c.maxRetries == DEFAULT_MAX_AUTO_RETRIES ==>
      Unblocks(Retry, run, |run.steps|) + Unblocks(Reentry, run, |run.steps|) <= 5
  {
    RunKeepsAtMostOne(c, run, fingerprint, |run.steps|);
    RetriesAreResetByReentries(c, run, fingerprint, |run.steps|);
    UnblocksStayWithinBudgets(c, run, Retry);
    if Unblocks(Reentry, run, |run.steps|) == 0 {
      assert c.maxRetries * 1 == c.maxRetries;
    } else {
      assert c.maxRetries * 2 == 2 * c.maxRetries;
    }
  }

  // ---------------------------------------------------------------------------------------------------------------
  // None of the hypotheses can be dropped
  // ---------------------------------------------------------------------------------------------------------------

  function Last(run: Run): State
    requires run.states != []
  {
    run.states[|run.states| - 1]
  }

  /** Which of the hypotheses about steps a run keeps to. */
  datatype Habits = Habits(serial: bool, inTime: bool, uncut: bool)

  ghost predicate KeepsTo(h: Habits, s: State, step: Step) {
    && !step.Operator?
    && (h.serial ==> Serial(s, step))
    && (h.inTime ==> InTime(s, step))
    && (h.uncut ==> !IsCut(Retry, s, step) && !IsCut(Reentry, s, step))
  }

  /** A run without an operator, its last state, and how often the mechanism unblocked the task. */
  ghost predicate RunsTo(c: Config, h: Habits, run: Run, m: Mechanism, s: State, unblocks: nat) {
    && IsRun(c, run) && Last(run) == s && Unblocks(m, run, |run.steps|) == unblocks
    && forall i: nat :: i < |run.steps| ==> KeepsTo(h, run.states[i], run.steps[i])
  }

  lemma {:induction false} SamePrefixSameUnblocks(m: Mechanism, run: Run, longer: Run, n: nat)
    requires n <= |run.steps| < |run.states| && |longer.steps| < |longer.states|
    requires |run.steps| <= |longer.steps| && run.steps == longer.steps[..|run.steps|]
    requires |run.states| <= |longer.states| && run.states == longer.states[..|run.states|]
    ensures Unblocks(m, longer, n) == Unblocks(m, run, n)
  {
    if n > 0 {
      SamePrefixSameUnblocks(m, run, longer, n - 1);
    }
  }

  /** The steps of a run are still steps when one is added. */
  lemma {:induction false} StepsStay(c: Config, h: Habits, run: Run, step: Step, i: nat)
    requires IsRun(c, run) && Enabled(c, Last(run), step) && i < |run.steps| && KeepsTo(h, run.states[i], run.steps[i])
    ensures var longer := Run(run.states + [After(c, Last(run), step)], run.steps + [step]);
      StepAt(c, longer, i) && KeepsTo(h, longer.states[i], longer.steps[i])
  {
    assert StepAt(c, run, i);
  }

  lemma {:induction false} StepAdded(c: Config, h: Habits, run: Run, step: Step)
    requires IsRun(c, run) && Enabled(c, Last(run), step)
    requires KeepsTo(h, Last(run), step) && InOrder(After(c, Last(run), step).log)
    ensures var longer := Run(run.states + [After(c, Last(run), step)], run.steps + [step]);
      StepAt(c, longer, |run.steps|) && KeepsTo(h, longer.states[|run.steps|], longer.steps[|run.steps|])
  {
  }

  lemma {:induction false} RunExtends(
    c: Config, h: Habits, run: Run, m: Mechanism, s: State, unblocks: nat, step: Step) returns (longer: Run)
    requires RunsTo(c, h, run, m, s, unblocks)
    requires Enabled(c, s, step) && KeepsTo(h, s, step) && InOrder(After(c, s, step).log)
    ensures RunsTo(c, h, longer, m, After(c, s, step), unblocks + if IsUnblockBy(m, s, step) then 1 else 0)
  {
    longer := Run(run.states + [After(c, s, step)], run.steps + [step]);
    forall i: nat | i < |longer.steps|
      ensures StepAt(c, longer, i) && KeepsTo(h, longer.states[i], longer.steps[i])
    {
      if i < |run.steps| {
        StepsStay(c, h, run, step, i);
      } else {
        StepAdded(c, h, run, step);
      }
    }
    SamePrefixSameUnblocks(m, run, longer, |run.steps|);
  }

  ghost predicate NothingAfter(log: seq<Event>, at: real) {
    InOrder(log) && forall i :: 0 <= i < |log| ==> log[i].at <= at
  }

  lemma {:induction false} OneMoreInOrder(log: seq<Event>, e: Event)
    requires NothingAfter(log, e.at) && e.at > 0.0
    ensures NothingAfter(log + [e], e.at)
  {
  }

  lemma {:induction false} OwnTimesAreLogged(m: Mechanism, log: seq<Event>, task: Task, when: real)
    requires when in OwnTimes(m, log, task)
    ensures exists e :: e in log && e.at == when
  {
    if IsOwn(m, task, log[0]) && log[0].at == when {
      assert log[0] in log;
    } else {
      OwnTimesAreLogged(m, log[1..], task, when);
      var e :| e in log[1..] && e.at == when;
      assert e in log;
    }
  }

  lemma {:induction false} OwnTimesAreOver(m: Mechanism, log: seq<Event>, task: Task, at: real)
    requires NothingAfter(log, at)
    ensures forall when :: when in OwnTimes(m, log, task) ==> when <= at
  {
    forall when | when in OwnTimes(m, log, task)
      ensures when <= at
    {
      OwnTimesAreLogged(m, log, task, when);
    }
  }

  // Three ways to retry without an end. A round begins ten seconds after the one before.

  function RoundAt(n: nat): real {
    10.0 * n as real + 10.0
  }

  /** The start of a round: blocked, nothing under way, and budget left. */
  ghost predicate RoundStarts(c: Config, s: State, n: nat) {
    && s.blocked && s.attempts == map[]
    && NothingAfter(s.log, RoundAt(n) - 4.0)
    && Used(Retry, s.log, c.task) <= 1
  }

  lemma {:induction false} CheckBegins(
    c: Config, h: Habits, run: Run, s: State, m: Mechanism, runtime: string, n: nat) returns (longer: Run, t: State)
    requires RunsTo(c, h, run, m, s, n) && s.attempts == map[] && InOrder(s.log) && Passes(c, s.log, m, runtime)
    ensures t == State(s.log, s.blocked, map[0 := Checked(m, runtime)])
    ensures RunsTo(c, h, longer, m, t, n)
  {
    t := After(c, s, Check(0, m, runtime));
    assert t.log == s.log;
    longer := RunExtends(c, h, run, m, s, n, Check(0, m, runtime));
  }

  lemma {:induction false} UnblockBegins(
    c: Config, h: Habits, run: Run, s: State, p: Process, m: Mechanism, runtime: string, n: nat, at: real)
    returns (longer: Run, t: State)
    requires RunsTo(c, h, run, m, s, n) && s.blocked && s.attempts == map[p := Checked(m, runtime)]
    requires 4.0 < at && NothingAfter(s.log, at - 4.0)
    ensures t == State(s.log + [Unblocked(c.task, at)], false, map[p := Unlogged(m, runtime, at, |s.log|)])
    ensures RunsTo(c, h, longer, m, t, n + 1) && NothingAfter(t.log, at)
    ensures Used(m, t.log, c.task) == 0
  {
    t := After(c, s, Unblock(p, at));
    OneMoreInOrder(s.log, Unblocked(c.task, at));
    longer := RunExtends(c, h, run, m, s, n, Unblock(p, at));
    OwnTimesAreOver(m, s.log, c.task, at - 4.0);
    ForeignUnblockGrantsFreshBudget(m, s.log, c.task, at);
  }

  /** Test, unblock, and what comes of it. */
  lemma {:induction false} AttemptBegins(
    c: Config, h: Habits, run: Run, s: State, m: Mechanism, runtime: string, n: nat, at: real)
    returns (longer: Run, t: State)
    requires RunsTo(c, h, run, m, s, n) && s.blocked && s.attempts == map[] && Passes(c, s.log, m, runtime)
    requires 4.0 < at && NothingAfter(s.log, at - 4.0)
    ensures t == State(s.log + [Unblocked(c.task, at)], false, map[0 := Unlogged(m, runtime, at, |s.log|)])
    ensures RunsTo(c, h, longer, m, t, n + 1) && NothingAfter(t.log, at)
    ensures Used(m, t.log, c.task) == 0
  {
    var run1, s1 := CheckBegins(c, h, run, s, m, runtime, n);
    longer, t := UnblockBegins(c, h, run1, s1, 0, m, runtime, n, at);
  }

  /** The event that logs it, in time or not. */
  lemma {:induction false} AttemptIsLogged(
    c: Config, h: Habits, run: Run, s: State, m: Mechanism, runtime: string, n: nat, at: real, logged: real)
    returns (longer: Run, t: State)
    requires RunsTo(c, h, run, m, s, n) && at <= logged && (h.inTime ==> logged <= at + 5.0)
    requires s.log != [] && s.attempts == map[0 := Unlogged(m, runtime, at, |s.log| - 1)]
    requires NothingAfter(s.log, at) && at > 0.0
    ensures t == State(s.log + [OwnEvent(m, c.task, logged, runtime)], s.blocked, map[])
    ensures RunsTo(c, h, longer, m, t, n) && NothingAfter(t.log, logged)
  {
    t := After(c, s, Log(0, logged));
    assert t.attempts == map[];
    OneMoreInOrder(s.log, OwnEvent(m, c.task, logged, runtime));
    longer := RunExtends(c, h, run, m, s, n, Log(0, logged));
  }

  /** The task blocks again. */
  lemma {:induction false} RoundEnds(c: Config, h: Habits, run: Run, s: State, n: nat, at: real)
    returns (longer: Run, t: State)
    requires RunsTo(c, h, run, Retry, s, n) && !s.blocked && s.attempts == map[]
    requires 0.0 < at <= RoundAt(n) - 4.0 && NothingAfter(s.log, at) && Used(Retry, s.log, c.task) <= 1
    ensures RunsTo(c, h, longer, Retry, t, n) && RoundStarts(c, t, n)
  {
    t := After(c, s, Blocks(at));
    OneMoreInOrder(s.log, Other(at));
    UnrelatedKeepsUsed(Retry, s.log, Other(at), c.task);
    longer := RunExtends(c, h, run, Retry, s, n, Blocks(at));
  }

  /** A retry that is logged six seconds after its unblock. */
  lemma {:induction false} LateRound(c: Config, run: Run, s: State, n: nat) returns (longer: Run, t: State)
    requires RunsTo(c, Habits(true, false, true), run, Retry, s, n) && RoundStarts(c, s, n) && c.maxRetries >= 2
    ensures RunsTo(c, Habits(true, false, true), longer, Retry, t, n + 1) && RoundStarts(c, t, n + 1)
  {
    var h, at, logged := Habits(true, false, true), RoundAt(n), RoundAt(n) + 6.0;
    var run1, s1 := AttemptBegins(c, h, run, s, Retry, "", n, at);
    var run2, s2 := AttemptIsLogged(c, h, run1, s1, Retry, "", n + 1, at, logged);
    assert s2.log == s.log + [Unblocked(c.task, at), OwnEvent(Retry, c.task, logged, "")];
    OwnTimesAreOver(Retry, s.log, c.task, at - 4.0);
    LateUnblockNeverSpendsTheBudget(Retry, s.log, c.task, at, logged, "");
    longer, t := RoundEnds(c, h, run2, s2, n + 1, logged);
  }

  /** A retry whose process ends before it logs. */
  lemma {:induction false} CutRound(c: Config, run: Run, s: State, n: nat) returns (longer: Run, t: State)
    requires RunsTo(c, Habits(true, true, false), run, Retry, s, n) && RoundStarts(c, s, n) && c.maxRetries >= 2
    ensures RunsTo(c, Habits(true, true, false), longer, Retry, t, n + 1) && RoundStarts(c, t, n + 1)
  {
    var h := Habits(true, true, false);
    var run1, s1 := AttemptBegins(c, h, run, s, Retry, "", n, RoundAt(n));
    var s2 := After(c, s1, GiveUp(0));
    assert s2 == State(s1.log, false, map[]);
    var run2 := RunExtends(c, h, run1, Retry, s1, n + 1, GiveUp(0));
    longer, t := RoundEnds(c, h, run2, s2, n + 1, RoundAt(n));
  }

  lemma {:induction false} StartOfRounds(c: Config, h: Habits) returns (run: Run, s: State)
    ensures RunsTo(c, h, run, Retry, s, 0) && RoundStarts(c, s, 0)
  {
    s := State([], true, map[]);
    run := Run([s], []);
  }

  /** Logged late, retries never stop. */
  lemma {:induction false} LateRetriesNeverStop(c: Config, n: nat) returns (run: Run, s: State)
    requires c.maxRetries >= 2
    ensures RunsTo(c, Habits(true, false, true), run, Retry, s, n) && RoundStarts(c, s, n)
  {
    if n == 0 {
      run, s := StartOfRounds(c, Habits(true, false, true));
    } else {
      run, s := LateRetriesNeverStop(c, n - 1);
      run, s := LateRound(c, run, s, n - 1);
    }
  }

  /** Nor do they when the process always ends between its unblock and its log entry. */
  lemma {:induction false} CutRetriesNeverStop(c: Config, n: nat) returns (run: Run, s: State)
    requires c.maxRetries >= 2
    ensures RunsTo(c, Habits(true, true, false), run, Retry, s, n) && RoundStarts(c, s, n)
  {
    if n == 0 {
      run, s := StartOfRounds(c, Habits(true, true, false));
    } else {
      run, s := CutRetriesNeverStop(c, n - 1);
      run, s := CutRound(c, run, s, n - 1);
    }
  }

  /** The start of a round with two processes: one of them has passed its tests. */
  ghost predicate PairStarts(c: Config, s: State, p: Process, n: nat) {
    s.blocked && s.attempts == map[p := Checked(Retry, "")] && NothingAfter(s.log, RoundAt(n) - 4.0)
  }

  /** While the unblock of one process is not logged, the task blocks again and the other process passes its tests. */
  lemma {:induction false} OtherChecks(c: Config, run: Run, s: State, p: Process, q: Process, n: nat, at: real)
    returns (longer: Run, t: State)
    requires RunsTo(c, Habits(false, true, true), run, Retry, s, n) && !s.blocked && p != q && c.maxRetries >= 1
    requires s.attempts.Keys == {p} && NothingAfter(s.log, at) && at > 0.0 && Used(Retry, s.log, c.task) == 0
    ensures RunsTo(c, Habits(false, true, true), longer, Retry, t, n)
    ensures t == State(s.log + [Other(at)], true, s.attempts[q := Checked(Retry, "")]) && NothingAfter(t.log, at)
  {
    var h := Habits(false, true, true);
    var s1 := After(c, s, Blocks(at));
    OneMoreInOrder(s.log, Other(at));
    var run1 := RunExtends(c, h, run, Retry, s, n, Blocks(at));
    UnrelatedKeepsUsed(Retry, s.log, Other(at), c.task);
    t := After(c, s1, Check(q, Retry, ""));
    assert t.log == s1.log;
    longer := RunExtends(c, h, run1, Retry, s1, n, Check(q, Retry, ""));
  }

  lemma {:induction false} OverlappingRound(c: Config, run: Run, s: State, p: Process, q: Process, n: nat)
    returns (longer: Run, t: State)
    requires RunsTo(c, Habits(false, true, true), run, Retry, s, n) && PairStarts(c, s, p, n)
    requires p != q && c.maxRetries >= 1
    ensures RunsTo(c, Habits(false, true, true), longer, Retry, t, n + 1) && PairStarts(c, t, q, n + 1)
  {
    var h, at := Habits(false, true, true), RoundAt(n);
    var run1, s1 := UnblockBegins(c, h, run, s, p, Retry, "", n, at);
    var run2, s2 := OtherChecks(c, run1, s1, p, q, n + 1, at);
    var log := Log(p, at + 1.0);
    t := After(c, s2, log);
    OneMoreInOrder(s2.log, Retried(c.task, at + 1.0));
    longer := RunExtends(c, h, run2, Retry, s2, n + 1, log);
    assert t.attempts == map[q := Checked(Retry, "")];
  }

  lemma {:induction false} StartOfPairs(c: Config) returns (run: Run, s: State)
    requires c.maxRetries >= 1
    ensures RunsTo(c, Habits(false, true, true), run, Retry, s, 0) && PairStarts(c, s, 0, 0)
  {
    var start := State([], true, map[]);
    NothingUsed(c.task);
    run, s := CheckBegins(c, Habits(false, true, true), Run([start], []), start, Retry, "", 0);
  }

  /** Nor do they when two processes test the task in turns, each while the unblock of the other is not logged. */
  lemma {:induction false} OverlappingRetriesNeverStop(c: Config, n: nat) returns (run: Run, s: State, p: Process)
    requires c.maxRetries >= 1
    ensures RunsTo(c, Habits(false, true, true), run, Retry, s, n) && PairStarts(c, s, p, n)
  {
    if n == 0 {
      run, s := StartOfPairs(c);
      p := 0;
    } else {
      var run1, s1, q := OverlappingRetriesNeverStop(c, n - 1);
      p := if q == 0 then 1 else 0;
      run, s := OverlappingRound(c, run1, s1, q, p, n - 1);
    }
  }

  lemma {:induction false} NothingUsed(task: Task)
    ensures Used(Retry, [], task) == 0 && Used(Reentry, [], task) == 0
    ensures LastReentryRuntime([], task) == None
  {
    assert ReentryRows([]) == [];
  }

  // Behind 200 re-entries of other tasks.

  /** One re-entry of the task, and then `n` of another one. */
  ghost predicate BehindOthers(c: Config, s: State, fingerprint: string, n: nat) {
    && !s.blocked && s.attempts == map[] && NothingAfter(s.log, 20.0)
    && |OwnTimes(Reentry, s.log, c.task)| == 1
    && LastOwn(c, s.log) == Some(fingerprint) && RowsSinceOwn(ReentryRows(s.log), c.task) == Some(n)
  }

  lemma {:induction false} OneReentryRun(c: Config, fingerprint: string) returns (run: Run, s: State)
    ensures RunsTo(c, Habits(true, true, true), run, Reentry, s, 1) && BehindOthers(c, s, fingerprint, 0)
  {
    var h, start := Habits(true, true, true), State([], true, map[]);
    NothingUsed(c.task);
    var run1, s1 := AttemptBegins(c, h, Run([start], []), start, Reentry, fingerprint, 0, 10.0);
    run, s := AttemptIsLogged(c, h, run1, s1, Reentry, fingerprint, 1, 10.0, 11.0);
    OneOwnReentry(c, fingerprint);
    assert s.log == [Unblocked(c.task, 10.0), Reentered(c.task, 11.0, fingerprint)];
  }

  lemma {:induction false} OneOwnReentry(c: Config, fingerprint: string)
    ensures var log := [Unblocked(c.task, 10.0), Reentered(c.task, 11.0, fingerprint)];
      && |OwnTimes(Reentry, log, c.task)| == 1
      && LastOwn(c, log) == Some(fingerprint) && RowsSinceOwn(ReentryRows(log), c.task) == Some(0)
  {
    var first, second := Unblocked(c.task, 10.0), Reentered(c.task, 11.0, fingerprint);
    assert [first, second] == [first] + [second];
    OwnBecomesLast(c, [first], 11.0, fingerprint);
    ReentryRowsAppend([first], [second]);
    RowsOfOne(first);
    RowsOfOne(second);
    OwnTimesAppend(Reentry, [first], [second], c.task);
    assert OwnTimes(Reentry, [first][1..], c.task) == [] && OwnTimes(Reentry, [second][1..], c.task) == [];
  }

  lemma {:induction false} OneMoreOther(c: Config, log: seq<Event>, e: Event, n: nat)
    requires e.Reentered? && e.task != c.task && RowsSinceOwn(ReentryRows(log), c.task) == Some(n)
    ensures RowsSinceOwn(ReentryRows(log + [e]), c.task) == Some(n + 1)
    ensures OwnTimes(Reentry, log + [e], c.task) == OwnTimes(Reentry, log, c.task)
    ensures LastOwn(c, log + [e]) == LastOwn(c, log)
  {
    OthersKeepLastOwn(c, log, e);
    ReentryRowsAppend(log, [e]);
    RowsOfOne(e);
    assert (ReentryRows(log) + [e])[..|ReentryRows(log)|] == ReentryRows(log);
    OwnTimesAppend(Reentry, log, [e], c.task);
    assert OwnTimes(Reentry, [e], c.task) == [];
  }

  lemma {:induction false} ReentryAndOthers(c: Config, other: Task, fingerprint: string, n: nat)
    returns (run: Run, s: State)
    requires other != c.task
    ensures RunsTo(c, Habits(true, true, true), run, Reentry, s, 1) && BehindOthers(c, s, fingerprint, n)
  {
    if n == 0 {
      run, s := OneReentryRun(c, fingerprint);
    } else {
      var e := Reentered(other, 20.0, "");
      var run1, s1 := ReentryAndOthers(c, other, fingerprint, n - 1);
      s := After(c, s1, Background(e));
      OneMoreOther(c, s1.log, e, n - 1);
      OneMoreInOrder(s1.log, e);
      run := RunExtends(c, Habits(true, true, true), run1, Reentry, s1, 1, Background(e));
    }
  }

  /** The last re-entry is forgotten, and the task blocks again. */
  lemma {:induction false} BlockedBehindOthers(c: Config, other: Task, fingerprint: string)
    returns (run: Run, s: State)
    requires other != c.task
    ensures RunsTo(c, Habits(true, true, true), run, Reentry, s, 1)
    ensures s.blocked && s.attempts == map[] && NothingAfter(s.log, 20.0) && Passes(c, s.log, Reentry, fingerprint)
    ensures LastOwn(c, s.log) == Some(fingerprint)
    ensures RowsSinceOwn(ReentryRows(s.log), c.task) == Some(REENTRY_ROWS)
  {
    var run1, s1 := ReentryAndOthers(c, other, fingerprint, REENTRY_ROWS);
    s := After(c, s1, Blocks(20.0));
    OneMoreInOrder(s1.log, Other(20.0));
    run := RunExtends(c, Habits(true, true, true), run1, Reentry, s1, 1, Blocks(20.0));
    RuntimeIsRemembered(s.log, c.task);
    UsedAtMostOwn(Reentry, s1.log, c.task);
    UnrelatedKeepsUsed(Reentry, s1.log, Other(20.0), c.task);
    OtherKeepsRows(s1.log, Other(20.0));
  }

  /** Behind 200 re-entries of other tasks the task is re-entered with the fingerprint it was last re-entered with: `before`
      is the log when it passes its tests, and the run, which keeps to everything else, ends when it is logged. */
  lemma {:induction false} ReentriesCanRepeat(c: Config, other: Task, fingerprint: string)
    returns (run: Run, before: seq<Event>, s: State)
    requires other != c.task
    ensures RunsTo(c, Habits(true, true, true), run, Reentry, s, 2)
    ensures LastOwn(c, before) == Some(fingerprint)
    ensures RowsSinceOwn(ReentryRows(before), c.task) == Some(REENTRY_ROWS)
    ensures s.log == before + [Unblocked(c.task, 30.0), Reentered(c.task, 31.0, fingerprint)]
  {
    var h := Habits(true, true, true);
    var run1, s1 := BlockedBehindOthers(c, other, fingerprint);
    before := s1.log;
    var run2, s2 := AttemptBegins(c, h, run1, s1, Reentry, fingerprint, 1, 30.0);
    run, s := AttemptIsLogged(c, h, run2, s2, Reentry, fingerprint, 2, 30.0, 31.0);
  }

  lemma {:induction false} OtherKeepsRows(log: seq<Event>, e: Event)
    requires !e.Reentered?
    ensures ReentryRows(log + [e]) == ReentryRows(log)
  {
    ReentryRowsAppend(log, [e]);
    RowsOfOne(e);
    assert ReentryRows(log) + [] == ReentryRows(log);
  }

  lemma {:induction false} UsedAtMostOwn(m: Mechanism, log: seq<Event>, task: Task)
    ensures Used(m, log, task) <= |OwnTimes(m, log, task)|
  {
    CountAtMostAll(OwnTimes(m, log, task), LastReset(OwnTimes(m, log, task), log, task));
  }

  lemma {:induction false} CountAtMostAll(times: seq<real>, reset: real)
    ensures CountAfter(times, reset) <= |times|
  {
    if times != [] {
      CountAtMostAll(times[1..], reset);
    }
  }
}
