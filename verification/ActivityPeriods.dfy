/** Lifecycle intervals and the opened/completed series of src/stagemesh/activity_periods.py.

    Instants are whole units of time. The rows of a task come in the order of their time stamps.
 */
module ActivityPeriods {
  import opened Prelude
  import opened Pages

  const OPEN := "OPEN"
  const DONE := "DONE"
  const PLAN := "PLAN"
  const STATUSES := {"OPEN", "CLAIMED", "BLOCKED", "DONE"}

  /** A row of the audit log about a task; a payload that is not an object is None. */
  datatype Row =
    | Created(at: int, created: Option<Creation>)
    | Changed(at: int, changed: Option<Change>)

  datatype Creation = Creation(status: string, stage: string)

  datatype Change = Change(task: string, previous: string, current: string)

  /** `end` is None for an interval that is still open. */
  datatype Interval = Interval(start: int, end: Option<int>)

  datatype Lifecycle = Lifecycle(intervals: seq<Interval>, openings: seq<int>, completions: seq<int>)

  ghost predicate InTimeOrder(rows: seq<Row>) {
    forall i, j :: 0 <= i < j < |rows| ==> rows[i].at <= rows[j].at
  }

  // ---------------------------------------------------------------------------------------------------------------
  // Which logs are accepted
  // ---------------------------------------------------------------------------------------------------------------

  predicate GoodStart(row: Row) {
    row.Created? && row.created == Some(Creation(OPEN, PLAN))
  }

  /** The status after a row of an accepted log. */
  function StatusAfter(row: Row): string {
    match row
    case Created(_, _) => OPEN
    case Changed(_, None) => OPEN
    case Changed(_, Some(c)) => c.current
  }

  predicate Continues(task: string, before: Row, row: Row) {
    && row.Changed? && row.changed.Some? && row.changed.value.task == task
    && row.changed.value.previous == StatusAfter(before)
    && row.changed.value.current in STATUSES
  }

  ghost predicate ContinuesAt(rows: seq<Row>, task: string, i: nat)
    requires 0 < i < |rows|
  {
    Continues(task, rows[i - 1], rows[i])
  }

  ghost predicate Accepted(rows: seq<Row>, task: string, durable: string) {
    && rows != [] && GoodStart(rows[0])
    && (forall i: nat :: 0 < i < |rows| ==> ContinuesAt(rows, task, i))
    && StatusAfter(rows[|rows| - 1]) == durable
  }

  predicate Completes(before: Row, row: Row) {
    StatusAfter(before) != DONE && StatusAfter(row) == DONE
  }

  predicate Reopens(before: Row, row: Row) {
    StatusAfter(before) == DONE && StatusAfter(row) != DONE
  }

  // ---------------------------------------------------------------------------------------------------------------
  // The replay
  // ---------------------------------------------------------------------------------------------------------------

  /** When the task was created or reopened, in the first `k` rows. */
  function OpeningsIn(rows: seq<Row>, k: nat): seq<int>
    requires 1 <= k <= |rows|
  {
    if k == 1 then [rows[0].at]
    else OpeningsIn(rows, k - 1) + if Reopens(rows[k - 2], rows[k - 1]) then [rows[k - 1].at] else []
  }

  /** When it was completed, in the first `k` rows. */
  function CompletionsIn(rows: seq<Row>, k: nat): seq<int>
    requires 1 <= k <= |rows|
  {
    if k == 1 then []
    else CompletionsIn(rows, k - 1) + if Completes(rows[k - 2], rows[k - 1]) then [rows[k - 1].at] else []
  }

  /** Opening i together with completion i, when there is one. */
  function Paired(openings: seq<int>, completions: seq<int>): seq<Interval>
    requires |completions| <= |openings|
  {
    seq(|openings|, i requires 0 <= i < |openings| =>
      Interval(openings[i], if i < |completions| then Some(completions[i]) else None))
  }

  /** Completion `i` comes after opening `i` and before the next one. */
  ghost predicate InTurn(os: seq<int>, cs: seq<int>, i: nat)
    requires i < |cs| <= |os|
  {
    os[i] <= cs[i] && (i + 1 < |os| ==> cs[i] <= os[i + 1])
  }

  /** Openings and completions alternate, between two instants, and one opening is not yet completed unless `done`. */
  ghost predicate Alternate(os: seq<int>, cs: seq<int>, done: bool, first: int, last: int) {
    && |os| == |cs| + (if done then 0 else 1)
    && (forall i: nat :: i < |cs| ==> InTurn(os, cs, i))
    && (forall i :: 0 <= i < |os| ==> first <= os[i] <= last)
    && (forall i :: 0 <= i < |cs| ==> cs[i] <= last)
  }

  lemma {:induction false} AlternateWithCompletion(
    os: seq<int>, cs: seq<int>, first: int, last: int, at: int)
    requires Alternate(os, cs, false, first, last) && last <= at
    ensures Alternate(os, cs + [at], true, first, at)
  {
    forall i: nat | i < |cs + [at]|
      ensures InTurn(os, cs + [at], i)
    {
      assert i < |cs| ==> InTurn(os, cs, i);
    }
  }

  lemma {:induction false} AlternateWithOpening(os: seq<int>, cs: seq<int>, first: int, last: int, at: int)
    requires Alternate(os, cs, true, first, last) && first <= last <= at
    ensures Alternate(os + [at], cs, false, first, at)
  {
    forall i: nat | i < |cs|
      ensures InTurn(os + [at], cs, i)
    {
      assert InTurn(os, cs, i);
    }
  }

  lemma {:induction false} AlternateLater(
    os: seq<int>, cs: seq<int>, done: bool, first: int, last: int, at: int)
    requires Alternate(os, cs, done, first, last) && last <= at
    ensures Alternate(os, cs, done, first, at)
  {
  }

  /** The bookkeeping of the first `k` rows: openings and completions alternate, in time order, and one opening is not
      yet completed exactly while the task is not DONE. */
  lemma {:induction false} OpeningsAndCompletionsAlternate(rows: seq<Row>, k: nat)
    requires InTimeOrder(rows) && 1 <= k <= |rows| && GoodStart(rows[0])
    ensures Alternate(
      OpeningsIn(rows, k), CompletionsIn(rows, k), StatusAfter(rows[k - 1]) == DONE, rows[0].at, rows[k - 1].at)
  {
    if k > 1 {
      OpeningsAndCompletionsAlternate(rows, k - 1);
      var os, cs := OpeningsIn(rows, k - 1), CompletionsIn(rows, k - 1);
      var first, last, at := rows[0].at, rows[k - 2].at, rows[k - 1].at;
      assert first <= last <= at;
      if Completes(rows[k - 2], rows[k - 1]) {
        AlternateWithCompletion(os, cs, first, last, at);
        assert os + [] == os;
      } else if Reopens(rows[k - 2], rows[k - 1]) {
        AlternateWithOpening(os, cs, first, last, at);
        assert cs + [] == cs;
      } else {
        AlternateLater(os, cs, StatusAfter(rows[k - 1]) == DONE, first, last, at);
        assert os + [] == os && cs + [] == cs;
      }
    }
  }

  /** The local variables of the replay after `k` rows. */
  ghost predicate Tracks(
    rows: seq<Row>, k: nat, intervals: seq<Interval>, start: Option<int>, openings: seq<int>, completions: seq<int>)
  {
    && 1 <= k <= |rows|
    && openings == OpeningsIn(rows, k) && completions == CompletionsIn(rows, k)
    && |openings| == |completions| + (if start.None? then 0 else 1)
    && (start.None? <==> StatusAfter(rows[k - 1]) == DONE)
    && (start.Some? ==> start.value == openings[|completions|] && start.value <= rows[k - 1].at)
    && |intervals| == |completions|
    && forall i :: 0 <= i < |intervals| ==> intervals[i] == Interval(openings[i], Some(completions[i]))
  }

  /** How the local variables follow one more row. */
  lemma {:induction false} TracksOneMore(
    rows: seq<Row>, k: nat, intervals: seq<Interval>, start: Option<int>, openings: seq<int>, completions: seq<int>)
    requires InTimeOrder(rows) && k < |rows| && Tracks(rows, k, intervals, start, openings, completions)
    ensures Completes(rows[k - 1], rows[k]) ==>
      && start.Some? && start.value <= rows[k].at
      && Tracks(rows, k + 1, intervals + [Interval(start.value, Some(rows[k].at))], None, openings,
                completions + [rows[k].at])
    ensures Reopens(rows[k - 1], rows[k]) ==>
      && start.None?
      && Tracks(rows, k + 1, intervals, Some(rows[k].at), openings + [rows[k].at], completions)
    ensures !Completes(rows[k - 1], rows[k]) && !Reopens(rows[k - 1], rows[k]) ==>
      Tracks(rows, k + 1, intervals, start, openings, completions)
  {
  }

  /** The log of a task: its creation as OPEN in PLAN, and then changes of its own status, each from the status before it to
      one of the four, the last of which is the durable one. */
  ghost predicate IsLog(rows: seq<Row>, task: string, durable: string) {
    && rows != [] && rows[0].Created? && rows[0].created == Some(Creation("OPEN", "PLAN"))
    && (forall i: nat :: 0 < i < |rows| ==> ChangesFrom(rows[i], task, if i == 1 then "OPEN" else To(rows[i - 1])))
    && durable == if |rows| == 1 then "OPEN" else To(rows[|rows| - 1])
  }

  ghost predicate ChangesFrom(row: Row, task: string, previous: string) {
    && row.Changed? && row.changed.Some? && row.changed.value.task == task && row.changed.value.previous == previous
    && row.changed.value.current in {"OPEN", "CLAIMED", "BLOCKED", "DONE"}
  }

  /** The status that a row changes to. */
  function To(row: Row): string {
    if row.Changed? && row.changed.Some? then row.changed.value.current else ""
  }

  lemma {:induction false} AcceptedIsLog(rows: seq<Row>, task: string, durable: string)
    ensures Accepted(rows, task, durable) <==> IsLog(rows, task, durable)
  {
    if Accepted(rows, task, durable) {
      forall i: nat | 0 < i < |rows|
        ensures ChangesFrom(rows[i], task, if i == 1 then "OPEN" else To(rows[i - 1]))
      {
        assert ContinuesAt(rows, task, i);
        assert i > 1 ==> ContinuesAt(rows, task, i - 1);
      }
      assert |rows| > 1 ==> ContinuesAt(rows, task, |rows| - 1);
    }
    if IsLog(rows, task, durable) {
      forall i: nat | 0 < i < |rows|
        ensures ContinuesAt(rows, task, i)
      {
        assert ChangesFrom(rows[i], task, if i == 1 then "OPEN" else To(rows[i - 1]));
        assert i > 1 ==> ChangesFrom(rows[i - 1], task, if i - 1 == 1 then "OPEN" else To(rows[i - 2]));
      }
      assert |rows| > 1 ==> ContinuesAt(rows, task, |rows| - 1);
    }
  }

  method Replay(rows: seq<Row>, task: string, durable: string) returns (r: Option<Lifecycle>)
    requires InTimeOrder(rows)
    ensures r.Some? <==> IsLog(rows, task, durable)
    ensures r.Some? ==>
      && |CompletionsIn(rows, |rows|)| <= |OpeningsIn(rows, |rows|)|
      && r.value.openings == OpeningsIn(rows, |rows|)
      && r.value.completions == CompletionsIn(rows, |rows|)
      && r.value.intervals == Paired(r.value.openings, r.value.completions)
  {
    r := ReplayRows(rows, task, durable);
    AcceptedIsLog(rows, task, durable);
  }

  /** The loop over the rows. */
  method ReplayRows(rows: seq<Row>, task: string, durable: string) returns (r: Option<Lifecycle>)
    requires InTimeOrder(rows)
    ensures r.Some? <==> Accepted(rows, task, durable)
    ensures r.Some? ==>
      && |CompletionsIn(rows, |rows|)| <= |OpeningsIn(rows, |rows|)|
      && r.value.openings == OpeningsIn(rows, |rows|)
      && r.value.completions == CompletionsIn(rows, |rows|)
      && r.value.intervals == Paired(r.value.openings, r.value.completions)
  {
    if rows == [] || !GoodStart(rows[0]) {
      return None;
    }
    var current := OPEN;
    var intervalStart := Some(rows[0].at);
    var intervals: seq<Interval> := [];
    var openings, completions := [rows[0].at], [];
    for i := 1 to |rows|
      invariant forall k: nat :: 0 < k < i ==> ContinuesAt(rows, task, k)
      invariant current == StatusAfter(rows[i - 1])
      invariant Tracks(rows, i, intervals, intervalStart, openings, completions)
    {
      var row := rows[i];
      if !row.Changed? || row.changed.None? || row.changed.value.task != task {
        assert !ContinuesAt(rows, task, i);
        return None;
      }
      var previous, next := row.changed.value.previous, row.changed.value.current;
      if previous != current || next !in STATUSES {
        assert !ContinuesAt(rows, task, i);
        return None;
      }
      assert ContinuesAt(rows, task, i);
      TracksOneMore(rows, i, intervals, intervalStart, openings, completions);
      if previous != DONE && next == DONE {
        if intervalStart.None? || row.at < intervalStart.value {
          assert false;  // the source refuses the log here; that never happens
        }
        intervals := intervals + [Interval(intervalStart.value, Some(row.at))];
        intervalStart := None;
        completions := completions + [row.at];
      } else if previous == DONE && next != DONE {
        if intervalStart.Some? {
          assert false;  // and neither does the refusal here
        }
        intervalStart := Some(row.at);
        openings := openings + [row.at];
      }
      current := next;
    }
    if current != durable {
      return None;
    }
    if intervalStart.Some? {
      intervals := intervals + [Interval(intervalStart.value, None)];
    }
    return Some(Lifecycle(intervals, openings, completions));
  }

  // ---------------------------------------------------------------------------------------------------------------
  // The intervals are the truth of the log
  // ---------------------------------------------------------------------------------------------------------------

  /** The status at an instant: that of the last row that is not later. */
  function StatusAt(rows: seq<Row>, k: nat, x: int): string
    requires 1 <= k <= |rows|
  {
    if k == 1 || rows[k - 1].at <= x then StatusAfter(rows[k - 1]) else StatusAt(rows, k - 1, x)
  }

  /** Half-open: an interval contains its start and not its end. */
  predicate Contains(i: Interval, x: int) {
    i.start <= x && (i.end.Some? ==> x < i.end.value)
  }

  ghost predicate Covered(intervals: seq<Interval>, x: int) {
    exists i :: 0 <= i < |intervals| && Contains(intervals[i], x)
  }

  /** An instant that is not before the last row lies in no completed interval, and in the open one if there is one. */
  lemma {:induction false} LateInstant(os: seq<int>, cs: seq<int>, x: int)
    requires |cs| <= |os| <= |cs| + 1
    requires (forall i :: 0 <= i < |cs| ==> cs[i] <= x) && (forall i :: 0 <= i < |os| ==> os[i] <= x)
    ensures Covered(Paired(os, cs), x) <==> |os| == |cs| + 1
  {
    var p := Paired(os, cs);
    if |os| == |cs| + 1 {
      assert Contains(p[|cs|], x);
    }
  }

  /** What happens after an instant does not change whether it is covered. */
  lemma {:induction false} EarlyInstant(
    os: seq<int>, cs: seq<int>, newOpening: seq<int>, newCompletion: seq<int>, x: int)
    requires |cs| <= |os| && |cs + newCompletion| <= |os + newOpening|
    requires newCompletion == [] || newOpening == []
    requires (forall i :: 0 <= i < |newOpening| ==> x < newOpening[i])
    requires (forall i :: 0 <= i < |newCompletion| ==> x < newCompletion[i])
    ensures Covered(Paired(os + newOpening, cs + newCompletion), x) <==> Covered(Paired(os, cs), x)
  {
    var p, q := Paired(os, cs), Paired(os + newOpening, cs + newCompletion);
    forall i | 0 <= i < |p|
      ensures Contains(p[i], x) <==> Contains(q[i], x)
    {
    }
    if i :| 0 <= i < |p| && Contains(p[i], x) {
      assert Contains(q[i], x);
    }
    if i :| 0 <= i < |q| && Contains(q[i], x) {
      assert i < |p|;
      assert Contains(p[i], x);
    }
  }

  lemma {:induction false} PrefixIsTruthful(rows: seq<Row>, k: nat, x: int)
    requires InTimeOrder(rows) && 1 <= k <= |rows| && GoodStart(rows[0])
    requires rows[0].at <= x
    ensures |CompletionsIn(rows, k)| <= |OpeningsIn(rows, k)|
    ensures Covered(Paired(OpeningsIn(rows, k), CompletionsIn(rows, k)), x) <==> StatusAt(rows, k, x) != DONE
    decreases k
  {
    OpeningsAndCompletionsAlternate(rows, k);
    if k == 1 || rows[k - 1].at <= x {
      LastRowDecides(rows, k, x);
    } else {
      PrefixIsTruthful(rows, k - 1, x);
      LaterRowCoversNothing(rows, k, x);
    }
  }

  /** At an instant that is not before the last row, its status is the status. */
  lemma {:induction false} LastRowDecides(rows: seq<Row>, k: nat, x: int)
    requires InTimeOrder(rows) && 1 <= k <= |rows| && GoodStart(rows[0])
    requires rows[k - 1].at <= x
    ensures |CompletionsIn(rows, k)| <= |OpeningsIn(rows, k)|
    ensures Covered(Paired(OpeningsIn(rows, k), CompletionsIn(rows, k)), x) <==> StatusAfter(rows[k - 1]) != DONE
  {
    OpeningsAndCompletionsAlternate(rows, k);
    LateInstant(OpeningsIn(rows, k), CompletionsIn(rows, k), x);
  }

  /** A row after an instant does not change whether it is covered. */
  lemma {:induction false} LaterRowCoversNothing(rows: seq<Row>, k: nat, x: int)
    requires 2 <= k <= |rows| && x < rows[k - 1].at
    requires |CompletionsIn(rows, k - 1)| <= |OpeningsIn(rows, k - 1)| && |CompletionsIn(rows, k)| <= |OpeningsIn(rows, k)|
    ensures Covered(Paired(OpeningsIn(rows, k), CompletionsIn(rows, k)), x)
       <==> Covered(Paired(OpeningsIn(rows, k - 1), CompletionsIn(rows, k - 1)), x)
  {
    EarlyInstant(
      OpeningsIn(rows, k - 1), CompletionsIn(rows, k - 1),
      if Reopens(rows[k - 2], rows[k - 1]) then [rows[k - 1].at] else [],
      if Completes(rows[k - 2], rows[k - 1]) then [rows[k - 1].at] else [], x);
  }

  /** The intervals do not overlap, in order, and only the last can be open. */
  ghost predicate InSequence(p: seq<Interval>) {
    forall i, j :: 0 <= i < j < |p| ==> EndsBefore(p[i], p[j])
  }

  predicate EndsBefore(a: Interval, b: Interval) {
    a.end.Some? && a.start <= a.end.value <= b.start
  }

  ghost predicate LastIsOpen(p: seq<Interval>) {
    p != [] && p[|p| - 1].end.None?
  }

  lemma {:induction false} PairedInTurn(os: seq<int>, cs: seq<int>)
    requires |cs| <= |os| <= |cs| + 1 && forall i: nat :: i < |cs| ==> InTurn(os, cs, i)
    ensures InSequence(Paired(os, cs))
    ensures LastIsOpen(Paired(os, cs)) <==> |cs| < |os|
  {
    var p := Paired(os, cs);
    forall i, j | 0 <= i < j < |p|
      ensures EndsBefore(p[i], p[j])
    {
      CompletionBeforeLaterOpening(os, cs, i, j);
    }
  }

  /** For every accepted log: interval i is opening i with completion i; the intervals are ordered and do not overlap;
      only the last can be open, and it is open exactly when the durable status is not DONE. */
  lemma {:induction false} IntervalsAreOrdered(rows: seq<Row>, task: string, durable: string)
    requires InTimeOrder(rows) && Accepted(rows, task, durable)
    ensures var os, cs := OpeningsIn(rows, |rows|), CompletionsIn(rows, |rows|);
      |cs| <= |os| && InSequence(Paired(os, cs)) && (LastIsOpen(Paired(os, cs)) <==> durable != "DONE")
  {
    OpeningsAndCompletionsAlternate(rows, |rows|);
    PairedInTurn(OpeningsIn(rows, |rows|), CompletionsIn(rows, |rows|));
  }

  lemma {:induction false} CompletionBeforeLaterOpening(os: seq<int>, cs: seq<int>, i: nat, j: nat)
    requires |cs| <= |os| <= |cs| + 1 && i < j < |os|
    requires forall k: nat :: k < |cs| ==> InTurn(os, cs, k)
    ensures i < |cs| && os[i] <= cs[i] <= os[j]
    decreases j - i
  {
    assert InTurn(os, cs, i);
    if i + 1 < j {
      CompletionBeforeLaterOpening(os, cs, i + 1, j);
    }
  }

  /** An instant since the creation lies in an interval if and only if the task was not DONE at that instant. */
  lemma {:induction false} ReplayIsTruthful(rows: seq<Row>, task: string, durable: string, x: int)
    requires InTimeOrder(rows) && Accepted(rows, task, durable) && rows[0].at <= x
    ensures |CompletionsIn(rows, |rows|)| <= |OpeningsIn(rows, |rows|)|
    ensures Covered(Paired(OpeningsIn(rows, |rows|), CompletionsIn(rows, |rows|)), x)
       <==> StatusAt(rows, |rows|, x) != "DONE"
  {
    PrefixIsTruthful(rows, |rows|, x);
  }

  // ---------------------------------------------------------------------------------------------------------------
  // The report: which intervals, and the pages
  // ---------------------------------------------------------------------------------------------------------------

  predicate Reported(i: Interval, since: int, until: int) {
    i.start < until && (i.end.None? || i.end.value > since)
  }

  /** An interval that is not empty is reported exactly when it shares an instant with the requested window. An empty one
      (completed at the time stamp of its opening) is reported when it lies strictly inside the window, although it
      shares none. */
  lemma {:induction false} ReportedExactlyWhenItMeetsTheWindow(i: Interval, since: int, until: int)
    requires since < until && (i.end.Some? ==> i.start <= i.end.value)
    ensures i.end != Some(i.start) ==>
      (Reported(i, since, until) <==> exists x :: since <= x < until && Contains(i, x))
    ensures i.end == Some(i.start) ==>
      (Reported(i, since, until) <==> since < i.start < until) && !exists x :: Contains(i, x)
  {
    if Reported(i, since, until) && i.end != Some(i.start) {
      var x := if i.start < since then since else i.start;
      assert since <= x < until && Contains(i, x);
    }
  }

  const MAX_LIMIT := 200
  const MAX_OFFSET := 999

  /** The next offset of a report can be one that the next query refuses: it is always accepted if and only if there
      are at most 1000 intervals. */
  lemma {:induction false} NextOffsetIsAcceptedExactlyWhen(intervals: seq<Interval>)
    ensures (forall limit: nat, offset: nat | 1 <= limit <= MAX_LIMIT && offset <= MAX_OFFSET ::
               var next := NextOffset(intervals, limit, offset);
               next.Some? ==> next.value <= MAX_OFFSET)
       <==> |intervals| <= 1000
  {
    if |intervals| > MAX_OFFSET + 1 {
      assert NextOffset(intervals, 1, MAX_OFFSET) == Some(MAX_OFFSET + 1);
    }
  }

  /** Following the next offsets from the start visits each interval once, in order, up to the refusal: that is, the first
      1000 of them, rounded up to full pages. It visits all of them if and only if there are no more than that. */
  lemma {:induction false} WalkCoversIntervals(intervals: seq<Interval>, limit: nat) returns (pages: nat)
    requires 1 <= limit <= MAX_LIMIT
    ensures MAX_OFFSET < limit * pages <= MAX_OFFSET + limit
    ensures Walked(intervals, limit, 0, MAX_OFFSET + 1) == Stretch(intervals, 0, limit * pages)
    ensures Walked(intervals, limit, 0, MAX_OFFSET + 1) == intervals <==> |intervals| <= limit * pages
  {
    assert limit * 0 == 0;
    pages := WalkEndIsRoundedUp(limit, 0, MAX_OFFSET + 1);
    WalkIsStretch(intervals, limit, 0, MAX_OFFSET + 1);
  }

  // ---------------------------------------------------------------------------------------------------------------
  // The series
  // ---------------------------------------------------------------------------------------------------------------

  /** An opening or a completion of a task. */
  datatype Occurrence = Occurrence(at: int, task: string)

  datatype Bucket = Bucket(
    start: int, end: int, openedOccurrences: nat, openedTasks: nat, completedOccurrences: nat, completedTasks: nat)

  /** `midnight` is the instant at which a local day begins. Days may share their beginning (a zone can skip a day), but
      two days later it is later. */
  ghost predicate DayPasses(midnight: int -> int, d: int) {
    midnight(d) <= midnight(d + 1) && midnight(d) < midnight(d + 2)
  }

  ghost predicate DaysPass(midnight: int -> int) {
    forall d: int :: DayPasses(midnight, d)
  }

  function InWindow(start: int, end: int): Occurrence -> bool {
    (e: Occurrence) => start <= e.at < end
  }

  function Within(events: seq<Occurrence>, start: int, end: int): seq<Occurrence> {
    Filter(events, InWindow(start, end))
  }

  function TasksOf(events: seq<Occurrence>): set<string> {
    set e | e in events :: e.task
  }

  function MakeBucket(start: int, end: int, openings: seq<Occurrence>, completions: seq<Occurrence>): Bucket {
    var o, c := Within(openings, start, end), Within(completions, start, end);
    Bucket(start, end, |o|, |TasksOf(o)|, |c|, |TasksOf(c)|)
  }

  /** The positions below `n` of what happens between two instants. */
  ghost function Positions(events: seq<Occurrence>, start: int, end: int, n: nat): set<nat>
    requires n <= |events|
  {
    set i: nat | i < n && start <= events[i].at < end
  }

  /** What a count has to be: the openings or completions by position, and their tasks. */
  ghost predicate CountsThose(events: seq<Occurrence>, start: int, end: int, occurrences: nat, tasks: nat) {
    && occurrences == |Positions(events, start, end, |events|)|
    && tasks == |set e | e in events && start <= e.at < end :: e.task|
  }

  lemma {:induction false} WithinCounts(events: seq<Occurrence>, start: int, end: int)
    ensures CountsThose(events, start, end, |Within(events, start, end)|, |TasksOf(Within(events, start, end))|)
  {
    assert TasksOf(Within(events, start, end)) == set e | e in events && start <= e.at < end :: e.task;
    PositionsCount(events, start, end, |events|);
    assert events[..|events|] == events;
  }

  lemma {:induction false} OneMorePosition(events: seq<Occurrence>, start: int, end: int, n: nat)
    requires n < |events|
    ensures |Positions(events, start, end, n + 1)|
         == |Positions(events, start, end, n)| + if start <= events[n].at < end then 1 else 0
  {
    var fewer := Positions(events, start, end, n);
    if start <= events[n].at < end {
      assert Positions(events, start, end, n + 1) == fewer + {n} && n !in fewer;
    } else {
      assert Positions(events, start, end, n + 1) == fewer;
    }
  }

  lemma {:induction false} WithinOneMore(events: seq<Occurrence>, start: int, end: int, n: nat)
    requires n < |events|
    ensures |Within(events[..n + 1], start, end)|
         == |Within(events[..n], start, end)| + if start <= events[n].at < end then 1 else 0
  {
    assert events[..n + 1] == events[..n] + [events[n]];
    FilterAppend(events[..n], [events[n]], InWindow(start, end));
    assert [events[n]][1..] == [];
  }

  lemma {:induction false} PositionsCount(events: seq<Occurrence>, start: int, end: int, n: nat)
    requires n <= |events|
    ensures |Within(events[..n], start, end)| == |Positions(events, start, end, n)|
  {
    if n > 0 {
      PositionsCount(events, start, end, n - 1);
      OneMorePosition(events, start, end, n - 1);
      WithinOneMore(events, start, end, n - 1);
    }
  }

  /** The bucket counts what happened in it. */
  ghost predicate Counts(b: Bucket, openings: seq<Occurrence>, completions: seq<Occurrence>) {
    b == MakeBucket(b.start, b.end, openings, completions)
  }

  lemma {:induction false} MidnightsAscend(midnight: int -> int, d: int, n: nat)
    requires DaysPass(midnight)
    ensures midnight(d) <= midnight(d + n)
    ensures n >= 2 ==> midnight(d) < midnight(d + n)
    decreases n
  {
    if n > 0 {
      MidnightsAscend(midnight, d, n - 1);
      assert DayPasses(midnight, d + n - 1);
      if n >= 2 {
        MidnightsAscend(midnight, d, n - 2);
        assert DayPasses(midnight, d + n - 2);
      }
    }
  }

  /** How far a day is from the end of the window; 0 from then on. */
  function Left(midnight: int -> int, until: int, d: int): nat {
    if midnight(d) < until then until - midnight(d) else 0
  }

  /** A bucket that is not inverted, starts inside the window and ends where the next one starts. */
  ghost predicate Follows(buckets: seq<Bucket>, until: int, i: nat)
    requires i < |buckets|
  {
    && buckets[i].start <= buckets[i].end && buckets[i].start < until
    && (i + 1 < |buckets| ==> buckets[i].end == buckets[i + 1].start)
  }

  /** The buckets follow each other without a gap and cover the window. */
  ghost predicate IsPartition(buckets: seq<Bucket>, since: int, until: int) {
    && buckets != []
    && buckets[0].start <= since < buckets[0].end && until <= buckets[|buckets| - 1].end
    && forall i: nat :: i < |buckets| ==> Follows(buckets, until, i)
  }

  /** Where a bucket ends: where the next one starts, or at the cursor. */
  function EndOf(starts: seq<int>, last: int, i: nat): int
    requires i < |starts|
  {
    if i + 1 < |starts| then starts[i + 1] else last
  }

  /** The day `n` steps later. */
  function DayAfter(day: int, step: nat, n: nat): int {
    if n == 0 then day else DayAfter(day, step, n - 1) + step
  }

  /** Bucket `i` starts where its day begins, inside the window, and ends no earlier than it starts. */
  ghost predicate StartsWell(starts: seq<int>, last: int, until: int, days: seq<int>, midnight: int -> int, i: nat)
    requires i < |starts| == |days|
  {
    starts[i] == midnight(days[i]) && starts[i] < until && starts[i] <= EndOf(starts, last, i)
  }

  lemma {:induction false} OneMoreStart(
    starts: seq<int>, start: int, last: int, until: int, days: seq<int>, day: int, midnight: int -> int)
    requires |starts| == |days|
    requires forall i: nat :: i < |starts| ==> StartsWell(starts, start, until, days, midnight, i)
    requires start == midnight(day) && start < until && start <= last
    ensures forall i: nat :: i < |starts + [start]| ==>
      StartsWell(starts + [start], last, until, days + [day], midnight, i)
  {
    forall i: nat | i < |starts + [start]|
      ensures StartsWell(starts + [start], last, until, days + [day], midnight, i)
    {
      assert i < |starts| ==> StartsWell(starts, start, until, days, midnight, i);
    }
  }

  /** The first `n` days of a walk that goes `step` days at a time. */
  function Days(day: int, step: nat, n: nat): (r: seq<int>)
    ensures |r| == n && (n > 0 ==> r[0] == day)
  {
    if n == 0 then [] else Days(day, step, n - 1) + [DayAfter(day, step, n - 1)]
  }

  lemma {:induction false} DaysAt(day: int, step: nat, n: nat, i: nat)
    requires i < n
    ensures Days(day, step, n)[i] == DayAfter(day, step, i)
  {
    if i < n - 1 {
      DaysAt(day, step, n - 1, i);
    }
  }

  /** Why the loop ends: the cursor's day or the day after it comes closer to the end of the window. */
  lemma {:induction false} CursorAdvances(midnight: int -> int, until: int, cursor: int, step: nat)
    requires DaysPass(midnight) && midnight(cursor) < until && step >= 1
    ensures midnight(cursor) <= midnight(cursor + step)
    ensures Left(midnight, until, cursor + step) + Left(midnight, until, cursor + step + 1)
          < Left(midnight, until, cursor) + Left(midnight, until, cursor + 1)
  {
    MidnightsAscend(midnight, cursor, step);
    MidnightsAscend(midnight, cursor + 1, step);
    MidnightsAscend(midnight, cursor, step + 1);
    assert cursor + 1 + step == cursor + (step + 1) == cursor + step + 1;
  }

  /** The starts of the buckets, and the cursor behind the last of them. */
  method BucketStarts(since: int, until: int, startDay: int, step: int, midnight: int -> int)
    returns (starts: seq<int>, last: int)
    requires DaysPass(midnight) && since < until && midnight(startDay) <= since && step >= 1
    ensures starts != [] && until <= last == midnight(DayAfter(startDay, step, |starts|))
    ensures forall i: nat :: i < |starts| ==>
      StartsWell(starts, last, until, Days(startDay, step, |starts|), midnight, i)
  {
    starts := [];
    var cursor := startDay;
    while midnight(cursor) < until
      invariant cursor == DayAfter(startDay, step, |starts|)
      invariant forall i: nat :: i < |starts| ==>
        StartsWell(starts, midnight(cursor), until, Days(startDay, step, |starts|), midnight, i)
      decreases Left(midnight, until, cursor) + Left(midnight, until, cursor + 1)
    {
      CursorAdvances(midnight, until, cursor, step);
      OneMoreStart(
        starts, midnight(cursor), midnight(cursor + step), until, Days(startDay, step, |starts|), cursor, midnight);
      starts := starts + [midnight(cursor)];
      cursor := cursor + step;
    }
    last := midnight(cursor);
  }

  /** The day of the first bucket: `day` itself, or the Monday before it. Day 1 was a Monday. */
  function FirstDay(weekly: bool, day: int): (first: int)
    ensures if weekly then day - 7 < first <= day && first % 7 == 1 else first == day
  {
    if weekly then day - (day + 6) % 7 else day
  }

  ghost predicate Spans(b: Bucket, starts: seq<int>, last: int, i: nat)
    requires i < |starts|
  {
    b.start == starts[i] && b.end == EndOf(starts, last, i)
  }

  /** Bucket `i` is the i-th step of the walk from the first day. */
  ghost predicate IsStep(b: Bucket, midnight: int -> int, first: int, step: nat, i: nat) {
    b.start == midnight(DayAfter(first, step, i)) && b.end == midnight(DayAfter(first, step, i + 1))
  }

  /** `day` is the local date of `since`, as an ordinal: it has begun, and the next one has not. */
  method Series(
    since: int, until: int, weekly: bool, day: int, midnight: int -> int,
    openings: seq<Occurrence>, completions: seq<Occurrence>)
    returns (buckets: seq<Bucket>)
    requires DaysPass(midnight) && since < until && midnight(day) <= since < midnight(day + 1)
    ensures IsPartition(buckets, since, until)
    ensures forall b :: b in buckets ==> Counts(b, openings, completions)
    ensures forall b :: b in buckets ==>
      && CountsThose(openings, b.start, b.end, b.openedOccurrences, b.openedTasks)
      && CountsThose(completions, b.start, b.end, b.completedOccurrences, b.completedTasks)
    ensures forall i: nat :: i < |buckets| ==>
      IsStep(buckets[i], midnight, FirstDay(weekly, day), if weekly then 7 else 1, i)
  {
    var startDay, step := FirstDay(weekly, day), if weekly then 7 else 1;
    MidnightsAscend(midnight, startDay, day - startDay);
    var starts, last := BucketStarts(since, until, startDay, step, midnight);
    buckets := [];
    for index := 0 to |starts|
      invariant |buckets| == index
      invariant forall i: nat :: i < index ==> Spans(buckets[i], starts, last, i)
      invariant forall b :: b in buckets ==> Counts(b, openings, completions)
    {
      var end := if index + 1 < |starts| then starts[index + 1] else last;
      buckets := buckets + [MakeBucket(starts[index], end, openings, completions)];
    }
    MidnightsAscend(midnight, day + 1, startDay + step - (day + 1));
    BucketsPartition(buckets, since, until, starts, last, startDay, step, midnight);
    forall b | b in buckets
      ensures CountsThose(openings, b.start, b.end, b.openedOccurrences, b.openedTasks)
      ensures CountsThose(completions, b.start, b.end, b.completedOccurrences, b.completedTasks)
    {
      WithinCounts(openings, b.start, b.end);
      WithinCounts(completions, b.start, b.end);
    }
  }

  lemma {:induction false} BucketsPartition(
    buckets: seq<Bucket>, since: int, until: int, starts: seq<int>, last: int, startDay: int, step: nat,
    midnight: int -> int)
    requires starts != [] && |buckets| == |starts| && midnight(startDay) <= since < midnight(startDay + step)
    requires until <= last == midnight(DayAfter(startDay, step, |starts|))
    requires forall i: nat :: i < |starts| ==>
      StartsWell(starts, last, until, Days(startDay, step, |starts|), midnight, i)
    requires forall i: nat :: i < |buckets| ==> Spans(buckets[i], starts, last, i)
    ensures IsPartition(buckets, since, until)
    ensures forall i: nat :: i < |buckets| ==> IsStep(buckets[i], midnight, startDay, step, i)
  {
    var days := Days(startDay, step, |starts|);
    assert StartsWell(starts, last, until, days, midnight, 0) && Spans(buckets[0], starts, last, 0);
    assert Spans(buckets[|buckets| - 1], starts, last, |buckets| - 1);
    DaysAt(startDay, step, |starts|, 0);
    assert DayAfter(startDay, step, 0) == startDay && DayAfter(startDay, step, 1) == startDay + step;
    forall i: nat | i < |buckets|
      ensures Follows(buckets, until, i) && IsStep(buckets[i], midnight, startDay, step, i)
    {
      assert StartsWell(starts, last, until, days, midnight, i) && Spans(buckets[i], starts, last, i);
      DaysAt(startDay, step, |starts|, i);
      if i + 1 < |buckets| {
        assert StartsWell(starts, last, until, days, midnight, i + 1) && Spans(buckets[i + 1], starts, last, i + 1);
        DaysAt(startDay, step, |starts|, i + 1);
      }
    }
    assert IsStep(buckets[0], midnight, startDay, step, 0);
  }

  function Opened(buckets: seq<Bucket>): nat {
    if buckets == [] then 0 else Opened(buckets[..|buckets| - 1]) + buckets[|buckets| - 1].openedOccurrences
  }

  function Completed(buckets: seq<Bucket>): nat {
    if buckets == [] then 0 else Completed(buckets[..|buckets| - 1]) + buckets[|buckets| - 1].completedOccurrences
  }

  lemma {:induction false} WithinAdds(events: seq<Occurrence>, a: int, b: int, c: int)
    requires a <= b <= c
    ensures |Within(events, a, c)| == |Within(events, a, b)| + |Within(events, b, c)|
  {
    if events != [] {
      WithinAdds(events[1..], a, b, c);
    }
  }

  lemma {:induction false} WithinAll(events: seq<Occurrence>, a: int, b: int)
    requires forall e :: e in events ==> a <= e.at < b
    ensures Within(events, a, b) == events
  {
    if events != [] {
      assert events[0] in events;
      WithinAll(events[1..], a, b);
    }
  }

  lemma {:induction false} SumsUpTo(
    buckets: seq<Bucket>, until: int, n: nat, openings: seq<Occurrence>, completions: seq<Occurrence>)
    requires n < |buckets|
    requires forall i: nat :: i < |buckets| ==> Follows(buckets, until, i)
    requires forall b :: b in buckets ==> Counts(b, openings, completions)
    ensures buckets[0].start <= buckets[n].start
    ensures Opened(buckets[..n + 1]) == |Within(openings, buckets[0].start, buckets[n].end)|
    ensures Completed(buckets[..n + 1]) == |Within(completions, buckets[0].start, buckets[n].end)|
  {
    assert buckets[..n + 1][..n] == buckets[..n];
    assert buckets[n] in buckets && Counts(buckets[n], openings, completions);
    if n == 0 {
      assert buckets[..1][..0] == [];
    } else {
      SumsUpTo(buckets, until, n - 1, openings, completions);
      assert Follows(buckets, until, n - 1) && Follows(buckets, until, n);
      WithinAdds(openings, buckets[0].start, buckets[n].start, buckets[n].end);
      WithinAdds(completions, buckets[0].start, buckets[n].start, buckets[n].end);
    }
  }

  /** No occurrence is lost or counted twice: the buckets of a window sum up to what happened in it. */
  lemma {:induction false} SeriesConservesOccurrences(
    buckets: seq<Bucket>, since: int, until: int, openings: seq<Occurrence>, completions: seq<Occurrence>)
    requires IsPartition(buckets, since, until)
    requires forall b :: b in buckets ==> Counts(b, openings, completions)
    requires forall e :: e in openings + completions ==> since <= e.at < until
    ensures Opened(buckets) == |openings| && Completed(buckets) == |completions|
  {
    var n := |buckets| - 1;
    SumsUpTo(buckets, until, n, openings, completions);
    assert buckets[..n + 1] == buckets;
    assert forall e :: e in openings || e in completions ==> e in openings + completions;
    WithinAll(openings, buckets[0].start, buckets[n].end);
    WithinAll(completions, buckets[0].start, buckets[n].end);
  }

  lemma {:induction false} StartsAscend(buckets: seq<Bucket>, since: int, until: int, i: nat, j: nat)
    requires IsPartition(buckets, since, until) && i < j < |buckets|
    ensures buckets[i].end <= buckets[j].start
    decreases j
  {
    assert Follows(buckets, until, j - 1);
    if i < j - 1 {
      StartsAscend(buckets, since, until, i, j - 1);
    }
  }

  /** Every instant of the window is in exactly one bucket. */
  lemma {:induction false} InstantIsInOneBucket(buckets: seq<Bucket>, since: int, until: int, x: int) returns (k: nat)
    requires IsPartition(buckets, since, until) && since <= x < until
    ensures k < |buckets| && buckets[k].start <= x < buckets[k].end
    ensures forall i :: 0 <= i < |buckets| && buckets[i].start <= x < buckets[i].end ==> i == k
  {
    k := 0;
    while x >= buckets[k].end
      invariant k < |buckets| && buckets[k].start <= x
      decreases |buckets| - k
    {
      assert Follows(buckets, until, k);
      k := k + 1;
    }
    forall i | 0 <= i < |buckets| && buckets[i].start <= x < buckets[i].end
      ensures i == k
    {
      if i < k {
        StartsAscend(buckets, since, until, i, k);
      } else if k < i {
        StartsAscend(buckets, since, until, k, i);
      }
    }
  }

  lemma {:induction false} TasksNeverExceedOccurrences(events: seq<Occurrence>)
    ensures |TasksOf(events)| <= |events|
  {
    if events != [] {
      TasksNeverExceedOccurrences(events[1..]);
      assert TasksOf(events) == {events[0].task} + TasksOf(events[1..]);
    }
  }

  /** A bucket never counts more tasks than occurrences, and counts none exactly when nothing happened. */
  lemma {:induction false} BucketCountsAreConsistent(
    start: int, end: int, openings: seq<Occurrence>, completions: seq<Occurrence>)
    ensures var b := MakeBucket(start, end, openings, completions);
      && b.openedTasks <= b.openedOccurrences && b.completedTasks <= b.completedOccurrences
      && (b.openedTasks == 0 <==> b.openedOccurrences == 0)
      && (b.completedTasks == 0 <==> b.completedOccurrences == 0)
  {
    var o, c := Within(openings, start, end), Within(completions, start, end);
    TasksNeverExceedOccurrences(o);
    TasksNeverExceedOccurrences(c);
    if o != [] {
      assert o[0].task in TasksOf(o);
    }
    if c != [] {
      assert c[0].task in TasksOf(c);
    }
  }
}
