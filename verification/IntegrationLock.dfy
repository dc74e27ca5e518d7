/** The two-level integration lock of src/stagemesh/concurrency.py as a state machine.

    Each process has IntegrationLock objects, each with a thread lock and a `heldBy` field; all of them lock one file. A
    call of `hold` is one actor. The kernel gives the file lock to one open handle at a time, and takes it back when the
    handle is closed or its process dies.
 */
module IntegrationLock {
  import opened Prelude

  /** One IntegrationLock object. */
  datatype Lock = Lock(process: nat, index: nat)

  /** One call of `hold` on a lock. */
  datatype Call = Call(lock: Lock, id: nat)

  /** Where a call is. A call that is not under way has no entry. */
  datatype Pc =
    | WaitThread   // in _thread_lock.acquire
    | HasThread    // before open()
    | Polling      // in _lock_file, between two attempts
    | HasFile      // _lock_file returned, held_by not set yet
    | Inside       // the caller's body
    | Unlocking    // held_by is None again, before _unlock_file
    | Closing      // in the outer finally, before handle.close()
    | Releasing    // before _thread_lock.release()

  /** `stuck` are the calls whose handle.close() raised, so that their last statement was skipped. */
  datatype State = State(
    pc: map<Call, Pc>,
    threadLock: map<Lock, Call>,
    fileLock: Option<Call>,
    heldBy: map<Lock, Call>,
    stuck: set<Call>)

  datatype Step =
    | Enter(c: Call)
    | TakeThreadLock(c: Call)
    | ThreadTimeout(c: Call)
    | Open(c: Call)
    | Abort(c: Call)            // mkdir, open or the wait for the file lock raises, or its deadline passes
    | TakeFileLock(c: Call)
    | SetHeldBy(c: Call)
    | LeaveBody(c: Call)        // the body returns or raises
    | Unlock(c: Call)
    | UnlockFails(c: Call)      // the OSError is swallowed
    | Close(c: Call)
    | CloseFails(c: Call)
    | ReleaseThreadLock(c: Call)
    | Crash(process: nat)

  predicate At(s: State, c: Call, pc: Pc) {
    c in s.pc && s.pc[c] == pc
  }

  function Without<K, V>(m: map<K, V>, k: K): map<K, V> {
    map x | x in m && x != k :: m[x]
  }

  function Unlocked(fileLock: Option<Call>, c: Call): Option<Call> {
    if fileLock == Some(c) then None else fileLock
  }

  predicate Enabled(s: State, e: Step) {
    match e
    case Enter(c) => c !in s.pc && c !in s.stuck
    case TakeThreadLock(c) => At(s, c, WaitThread) && c.lock !in s.threadLock
    case ThreadTimeout(c) => At(s, c, WaitThread)
    case Open(c) => At(s, c, HasThread)
    case Abort(c) => At(s, c, HasThread) || At(s, c, Polling) || At(s, c, HasFile)
    case TakeFileLock(c) => At(s, c, Polling) && s.fileLock == None
    case SetHeldBy(c) => At(s, c, HasFile)
    case LeaveBody(c) => At(s, c, Inside)
    case Unlock(c) => At(s, c, Unlocking)
    case UnlockFails(c) => At(s, c, Unlocking)
    case Close(c) => At(s, c, Closing)
    case CloseFails(c) => At(s, c, Closing)
    case ReleaseThreadLock(c) => At(s, c, Releasing)
    case Crash(_) => true
  }

  function Next(s: State, e: Step): State
    requires Enabled(s, e)
  {
    match e
    case Enter(c) => s.(pc := s.pc[c := WaitThread])
    case TakeThreadLock(c) => s.(pc := s.pc[c := HasThread], threadLock := s.threadLock[c.lock := c])
    case ThreadTimeout(c) => s.(pc := Without(s.pc, c))
    case Open(c) => s.(pc := s.pc[c := Polling])
    case Abort(c) => s.(pc := s.pc[c := if At(s, c, HasThread) then Releasing else Closing])
    case TakeFileLock(c) => s.(pc := s.pc[c := HasFile], fileLock := Some(c))
    case SetHeldBy(c) => s.(pc := s.pc[c := Inside], heldBy := s.heldBy[c.lock := c])
    case LeaveBody(c) => s.(pc := s.pc[c := Unlocking], heldBy := Without(s.heldBy, c.lock))
    case Unlock(c) => s.(pc := s.pc[c := Closing], fileLock := Unlocked(s.fileLock, c))
    case UnlockFails(c) => s.(pc := s.pc[c := Closing])
    case Close(c) => s.(pc := s.pc[c := Releasing], fileLock := Unlocked(s.fileLock, c))
    case CloseFails(c) => s.(pc := Without(s.pc, c), fileLock := Unlocked(s.fileLock, c), stuck := s.stuck + {c})
    case ReleaseThreadLock(c) => s.(pc := Without(s.pc, c), threadLock := Without(s.threadLock, c.lock))
    case Crash(p) =>
      State(
        map c | c in s.pc && c.lock.process != p :: s.pc[c],
        map l | l in s.threadLock && l.process != p :: s.threadLock[l],
        if s.fileLock.Some? && s.fileLock.value.lock.process == p then None else s.fileLock,
        map l | l in s.heldBy && l.process != p :: s.heldBy[l],
        set c | c in s.stuck && c.lock.process != p)
  }

  const INITIAL := State(map[], map[], None, map[], {})

  ghost predicate IsRun(states: seq<State>, steps: seq<Step>) {
    && |states| == |steps| + 1
    && states[0] == INITIAL
    && forall i :: 0 <= i < |steps| ==> Enabled(states[i], steps[i]) && states[i + 1] == Next(states[i], steps[i])
  }

  // ---------------------------------------------------------------------------------------------------------------
  // Safety
  // ---------------------------------------------------------------------------------------------------------------

  /** The call is past `_thread_lock.acquire` and before `_thread_lock.release`. */
  predicate HoldsThreadLock(s: State, c: Call) {
    c in s.pc && s.pc[c] != WaitThread
  }

  predicate NeedsFileLock(s: State, c: Call) {
    At(s, c, HasFile) || At(s, c, Inside) || At(s, c, Unlocking)
  }

  /** Who owns a thread lock. */
  ghost predicate ThreadLocksOwned(s: State) {
    && (forall c :: HoldsThreadLock(s, c) || c in s.stuck ==> c.lock in s.threadLock && s.threadLock[c.lock] == c)
    && (forall l :: l in s.threadLock ==>
          s.threadLock[l].lock == l && (HoldsThreadLock(s, s.threadLock[l]) || s.threadLock[l] in s.stuck))
    && (forall c :: c in s.stuck ==> c !in s.pc)
  }

  /** Who owns the file lock. */
  ghost predicate FileLockOwned(s: State) {
    && (forall c :: NeedsFileLock(s, c) ==> s.fileLock == Some(c))
    && (forall c :: s.fileLock == Some(c) ==> NeedsFileLock(s, c) || At(s, c, Closing))
  }

  /** `held_by` is the call in the body. */
  ghost predicate HeldByIsTruthful(s: State) {
    && (forall c :: At(s, c, Inside) ==> c.lock in s.heldBy && s.heldBy[c.lock] == c)
    && (forall l :: l in s.heldBy ==> s.heldBy[l].lock == l && At(s, s.heldBy[l], Inside))
  }

  ghost predicate Invariant(s: State) {
    ThreadLocksOwned(s) && FileLockOwned(s) && HeldByIsTruthful(s)
  }

  lemma {:induction false} CrashKeepsThreadLocks(s: State, p: nat)
    requires ThreadLocksOwned(s)
    ensures ThreadLocksOwned(Next(s, Crash(p)))
  {
    var t := Next(s, Crash(p));
    forall c | HoldsThreadLock(t, c) || c in t.stuck
      ensures c.lock in t.threadLock && t.threadLock[c.lock] == c
    {
      assert HoldsThreadLock(s, c) || c in s.stuck;
    }
    forall l | l in t.threadLock
      ensures t.threadLock[l].lock == l && (HoldsThreadLock(t, t.threadLock[l]) || t.threadLock[l] in t.stuck)
    {
      assert l in s.threadLock;
    }
  }

  lemma {:induction false} TakingKeepsThreadLocks(s: State, c: Call)
    requires ThreadLocksOwned(s) && Enabled(s, TakeThreadLock(c))
    ensures ThreadLocksOwned(Next(s, TakeThreadLock(c)))
  {
  }

  /** A call gives its thread lock back, or keeps it for ever because handle.close() raised. */
  lemma {:induction false} LeavingKeepsThreadLocks(s: State, e: Step)
    requires ThreadLocksOwned(s) && Enabled(s, e) && (e.ReleaseThreadLock? || e.CloseFails?)
    ensures ThreadLocksOwned(Next(s, e))
  {
  }

  /** Every other step of a call leaves it with or without its thread lock, as it was. */
  lemma {:induction false} StayingKeepsThreadLocks(s: State, e: Step)
    requires ThreadLocksOwned(s) && Enabled(s, e)
    requires !e.Crash? && !e.TakeThreadLock? && !e.ReleaseThreadLock? && !e.CloseFails?
    ensures ThreadLocksOwned(Next(s, e))
  {
    var t := Next(s, e);
    assert t.threadLock == s.threadLock && t.stuck == s.stuck;
    assert forall c :: HoldsThreadLock(t, c) <==> HoldsThreadLock(s, c);
  }

  lemma {:induction false} StepKeepsThreadLocks(s: State, e: Step)
    requires ThreadLocksOwned(s) && Enabled(s, e)
    ensures ThreadLocksOwned(Next(s, e))
  {
    match e
    case Crash(p) => CrashKeepsThreadLocks(s, p);
    case TakeThreadLock(c) => TakingKeepsThreadLocks(s, c);
    case ReleaseThreadLock(_) => LeavingKeepsThreadLocks(s, e);
    case CloseFails(_) => LeavingKeepsThreadLocks(s, e);
    case _ => StayingKeepsThreadLocks(s, e);
  }

  lemma {:induction false} StepKeepsFileLock(s: State, e: Step)
    requires FileLockOwned(s) && Enabled(s, e)
    ensures FileLockOwned(Next(s, e))
  {
  }

  /** Entering and leaving the body: no other call of the lock can be inside, because it would hold the thread lock. */
  lemma {:induction false} BodyKeepsHeldBy(s: State, e: Step)
    requires ThreadLocksOwned(s) && HeldByIsTruthful(s) && Enabled(s, e) && (e.SetHeldBy? || e.LeaveBody?)
    ensures HeldByIsTruthful(Next(s, e))
  {
    assert forall c :: At(s, c, Inside) ==> HoldsThreadLock(s, c);
  }

  lemma {:induction false} OthersKeepHeldBy(s: State, e: Step)
    requires HeldByIsTruthful(s) && Enabled(s, e) && !e.SetHeldBy? && !e.LeaveBody? && !e.Crash?
    ensures HeldByIsTruthful(Next(s, e))
  {
    var t := Next(s, e);
    assert t.heldBy == s.heldBy;
    assert forall c :: At(t, c, Inside) <==> At(s, c, Inside);
  }

  lemma {:induction false} StepKeepsHeldBy(s: State, e: Step)
    requires ThreadLocksOwned(s) && HeldByIsTruthful(s) && Enabled(s, e)
    ensures HeldByIsTruthful(Next(s, e))
  {
    match e
    case SetHeldBy(_) => BodyKeepsHeldBy(s, e);
    case LeaveBody(_) => BodyKeepsHeldBy(s, e);
    case Crash(_) =>
    case _ => OthersKeepHeldBy(s, e);
  }

  lemma {:induction false} RunKeepsInvariant(states: seq<State>, steps: seq<Step>, i: nat)
    requires IsRun(states, steps) && i < |states|
    ensures Invariant(states[i])
  {
    if i > 0 {
      RunKeepsInvariant(states, steps, i - 1);
      StepKeepsThreadLocks(states[i - 1], steps[i - 1]);
      StepKeepsFileLock(states[i - 1], steps[i - 1]);
      StepKeepsHeldBy(states[i - 1], steps[i - 1]);
    }
  }

  /** Mutual exclusion across threads, lock objects and processes, whatever times out, raises or crashes. */
  lemma {:induction false} AtMostOneInside(states: seq<State>, steps: seq<Step>, i: nat, c: Call, d: Call)
    requires IsRun(states, steps) && i < |states|
    requires At(states[i], c, Inside) && At(states[i], d, Inside)
    ensures c == d
  {
    RunKeepsInvariant(states, steps, i);
    assert NeedsFileLock(states[i], c) && NeedsFileLock(states[i], d);
  }

  /** `held_by` names a call exactly while that call is in the body, and then it owns both locks. */
  lemma {:induction false} HeldByMeansBothLocks(states: seq<State>, steps: seq<Step>, i: nat, l: Lock)
    requires IsRun(states, steps) && i < |states| && l in states[i].heldBy
    ensures var c := states[i].heldBy[l];
      && c.lock == l && At(states[i], c, Inside)
      && l in states[i].threadLock && states[i].threadLock[l] == c && states[i].fileLock == Some(c)
  {
    RunKeepsInvariant(states, steps, i);
  }

  /** Every way out of `hold` releases both locks, except that a handle.close() that raises keeps the thread lock. */
  lemma {:induction false} FinishedCallsOwnNothing(states: seq<State>, steps: seq<Step>, i: nat, c: Call)
    requires IsRun(states, steps) && i < |states| && c !in states[i].pc
    ensures states[i].fileLock != Some(c)
    ensures (c.lock in states[i].threadLock && states[i].threadLock[c.lock] == c) <==> c in states[i].stuck
  {
    RunKeepsInvariant(states, steps, i);
  }

  /** One call that goes all the way, and whose handle.close() raises at the end. */
  function FailingCloseSteps(c: Call): seq<Step> {
    [Enter(c), TakeThreadLock(c), Open(c), TakeFileLock(c), SetHeldBy(c), LeaveBody(c), Unlock(c), CloseFails(c)]
  }

  lemma {:induction false} RunOneMore(states: seq<State>, steps: seq<Step>, e: Step)
    requires IsRun(states, steps) && Enabled(states[|steps|], e)
    ensures IsRun(states + [Next(states[|steps|], e)], steps + [e])
  {
  }

  /** The exception is real: such a call ends with its thread lock locked. */
  lemma {:induction false} FailingCloseKeepsThreadLock(c: Call) returns (states: seq<State>, steps: seq<Step>)
    ensures IsRun(states, steps) && steps == FailingCloseSteps(c)
    ensures var s := states[|steps|];
      c !in s.pc && c in s.stuck && c.lock in s.threadLock && s.threadLock[c.lock] == c && s.fileLock.None?
  {
    states, steps := [INITIAL], [];
    for k := 0 to 8
      invariant |steps| == k && steps == FailingCloseSteps(c)[..k] && IsRun(states, steps)
      invariant states[k] == DuringFailingClose(c, k)
    {
      var e := FailingCloseSteps(c)[k];
      FailingCloseStep(c, k);
      RunOneMore(states, steps, e);
      states, steps := states + [Next(states[k], e)], steps + [e];
    }
  }

  /** The states of that call. */
  function DuringFailingClose(c: Call, k: nat): State
    requires k <= 8
  {
    State(
      if k == 0 || k == 8 then map[]
      else map[c := [WaitThread, HasThread, Polling, HasFile, Inside, Unlocking, Closing][k - 1]],
      if k < 2 then map[] else map[c.lock := c],
      if 4 <= k < 7 then Some(c) else None,
      if k == 5 then map[c.lock := c] else map[],
      if k == 8 then {c} else {})
  }

  lemma {:induction false} FailingCloseStep(c: Call, k: nat)
    requires k < 8
    ensures var s, e := DuringFailingClose(c, k), FailingCloseSteps(c)[k];
      Enabled(s, e) && Next(s, e) == DuringFailingClose(c, k + 1)
  {
  }

  /** And it stays locked: no other call of the lock gets past its thread lock again, until the process ends. */
  lemma {:induction false} StuckLockNeverComesFree(
    states: seq<State>, steps: seq<Step>, i: nat, j: nat, c: Call, d: Call)
    requires IsRun(states, steps) && i <= j < |states| && c in states[i].stuck
    requires forall k :: i <= k < j ==> steps[k] != Crash(c.lock.process)
    requires d.lock == c.lock && d != c
    ensures c in states[j].stuck && !HoldsThreadLock(states[j], d)
    decreases j
  {
    if i < j {
      StuckLockNeverComesFree(states, steps, i, j - 1, c, d);
    }
    RunKeepsInvariant(states, steps, j);
  }

  /** A crash never leaves a stale lock: once the owner's process is gone, any polling call of another process can take
      the file lock at once. */
  lemma {:induction false} CrashFreesTheFileLock(states: seq<State>, steps: seq<Step>, i: nat, owner: Call, other: Call)
    requires IsRun(states, steps) && i < |states|
    requires states[i].fileLock == Some(owner) && other.lock.process != owner.lock.process && At(states[i], other, Polling)
    ensures var after := Next(states[i], Crash(owner.lock.process));
      Enabled(after, TakeFileLock(other))
      && NeedsFileLock(Next(after, TakeFileLock(other)), other)
  {
    RunKeepsInvariant(states, steps, i);
  }

  /** The steps that take a waiting call into its body when nothing stands in its way. */
  function EntrySteps(c: Call): seq<Step> {
    [TakeThreadLock(c), Open(c), TakeFileLock(c), SetHeldBy(c)]
  }

  function AfterEntry(s: State, c: Call): seq<State>
    requires At(s, c, WaitThread) && c.lock !in s.threadLock && s.fileLock.None?
  {
    var s1 := Next(s, TakeThreadLock(c));
    var s2 := Next(s1, Open(c));
    var s3 := Next(s2, TakeFileLock(c));
    [s1, s2, s3, Next(s3, SetHeldBy(c))]
  }

  lemma {:induction false} RunContinues(states: seq<State>, steps: seq<Step>, c: Call)
    requires IsRun(states, steps) && At(states[|steps|], c, WaitThread)
    requires c.lock !in states[|steps|].threadLock && states[|steps|].fileLock.None?
    ensures IsRun(states + AfterEntry(states[|steps|], c), steps + EntrySteps(c))
  {
    var longer, more := states + AfterEntry(states[|steps|], c), steps + EntrySteps(c);
    forall i | 0 <= i < |more|
      ensures Enabled(longer[i], more[i]) && longer[i + 1] == Next(longer[i], more[i])
    {
      if i < |steps| {
        assert longer[i] == states[i] && longer[i + 1] == states[i + 1] && more[i] == steps[i];
      }
    }
  }

  /** Nothing stays locked for ever: once every other call has finished without its handle.close() raising, a waiting
      call can go all the way into its body. */
  lemma {:induction false} WaitingCallCanEnter(states: seq<State>, steps: seq<Step>, c: Call)
    returns (longer: seq<State>)
    requires IsRun(states, steps) && At(states[|steps|], c, WaitThread)
    requires states[|steps|].stuck == {} && forall d :: d in states[|steps|].pc ==> d == c
    ensures IsRun(longer, steps + EntrySteps(c)) && At(longer[|steps| + 4], c, Inside)
  {
    RunKeepsInvariant(states, steps, |steps|);
    var s := states[|steps|];
    assert forall d :: s.fileLock == Some(d) ==> At(s, d, Closing) || NeedsFileLock(s, d);
    assert s.fileLock.None?;
    RunContinues(states, steps, c);
    longer := states + AfterEntry(s, c);
  }
}
