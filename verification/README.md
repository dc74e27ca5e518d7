# StageMesh: verified models of the control plane's hard parts

StageMesh schedules coding tasks and guards what they change. Its guarantees rest on git ancestry, on an append-only audit
log, and on a few locks and transactions. This project models the code that carries those guarantees and proves what it
promises: over every commit graph, every run, every interleaving, every log, every configuration.

`dafny verify dfyconfig.toml` checks everything.

| file | what it models |
|---|---|
| `CommitGraph.dfy` | commits, ancestry as the existence of a path, what `older..newer` contains |
| `AttributionRewrite.dfy` | the history correction: one commit, a whole history, the requested refs |
| `ContractBinding.dfy` | which baseline a candidate is bound to, and the rows of a task |
| `BindingRuns.dfy` | all runs of a task's bindings: calls, foreign bindings, repairs, integration |
| `Baseline.dfy` | whether a recorded baseline is stale, and what rebaselining drops |
| `GlobOverlap.dfy` | the glob matcher, the overlap test, and contract conflicts |
| `IntegrationLock.dfy` | the thread-and-file lock as a state machine with crashes, timeouts and exceptions |
| `ProviderLimiter.dfy` | provider slots and cooldowns under any interleaving |
| `VendorTransaction.dfy` | stage, backup, swap, register, with every primitive allowed to fail |
| `VendorReceipt.dfy` | the receipt of a vendored tree, its writer and its checker |
| `VendorReceiptWitnesses.dfy` | accepted sources that are never verified |
| `Recovery.dfy` | the two automatic recoveries that share one log: what they count, find and write |
| `RecoveryRuns.dfy` | every run of the two on one task: overlapping processes, operators, other tasks |
| `ActivityFeed.dfy` | the capped merge of the activity sources, and the pages |
| `Pages.dfy` | pages by limit and offset, and following the next offsets |
| `ActivityPeriods.dfy` | replay of the status log into intervals, and the bucketed series |
| `ConfigMigration.dfy` | the rewrite of legacy review providers |
| `MigrationMeaning.dfy` | what that rewrite does, in terms of the configuration before and after it |
| `Prelude.dfy` | small datatypes and sequence functions |

What the models abstract: hashing is an injective function (for the tree digest: collision-free on the strings at hand);
git, SQLite and the file system are abstract state and answers that may also be failures; clocks are readings that do not run
backwards; regular expressions, Unicode case folding, white space and JSON text are parameters with the properties that are
used. Commit ids and row ids are numbers, ordered as their text is.

## Where the code and its promises part

Each of these is a theorem below, with the exact condition and, where something goes wrong, an input that shows it.

* **A failing `rmdir` loses a vendored directory** (`src/stagemesh/capability_vendor.py:227-229`). The name of the backup is
  reserved by creating an empty directory. When releasing that name fails, the rollback takes the empty directory for the backup
  and deletes the target. All-or-nothing holds exactly when that release works (or the target was empty anyway), the registration
  is not interrupted from the keyboard (which no handler catches, so that the new directory stays beside the old registry) and,
  after a refused registration, the new directory can be deleted: `VendoringIsAllOrNothing`, `ReservationDestroysTheTarget`,
  `InterruptLeavesTheNewDirectory`.
* **Some accepted sources are never verified.** The checker refuses paths with a backslash and receipts over 262144 bytes; the
  producer checks neither. A fresh receipt is accepted if and only if neither applies: `FreshReceiptIsAccepted`. Both happen to
  skill directories: with a file named `a\b.md` beside `SKILL.md`, and with 113 files below 14 directories whose names have 255
  ASCII characters (`BackslashSourceIsNeverVerified`, `LongSourceIsNeverVerified`).
* **Some requests stop the rewrite half-way** (`scripts/attribution_tool.py:193-196`), and earlier refs stay moved. A visit fails
  if and only if the history of its ref has an offender and: an earlier name stood for the same ref (the same name again, or HEAD and
  its branch) and the image of its commit was not already listed; or no earlier name did, and the name is an abbreviation or stands
  for an annotated tag. One root commit that offends is enough for each: `VisitSucceedsExactlyWhen`, `OffendingRootStops`,
  `RewriteRefs`. A branch also moves when only HEAD was named.
* **A raising `handle.close()` keeps the thread lock** (`src/stagemesh/concurrency.py:153-156`), until the process ends; every other
  way out of `hold` releases both locks: `FinishedCallsOwnNothing`, `FailingCloseKeepsThreadLock`, `StuckLockNeverComesFree`.
* **The retry budget needs more than it checks.** An unblock whose own event is logged within five seconds always costs budget,
  whatever others log in between (`TimelyUnblockRaisesUsed`), and while the attempts of one mechanism at a task do not overlap, it
  makes at most its budget of unblocks for every reset and once more (`UnblocksStayWithinBudgets`); a reset is an unblock that it did
  not make, or one that it never logs. Without an operator retries still need not stop: when they are logged late (`LateRetriesNeverStop`), when two processes test the task in turns
  (`OverlappingRetriesNeverStop`), and when the process ends before it logs (`CutRetriesNeverStop`).
* **Behind 200 re-entries of other tasks the last runtime fingerprint is forgotten**, and only then: `RuntimeIsRemembered`. The
  task can then be re-entered with the same fingerprint: `ReentriesCanRepeat`.
* **The feed can keep the wrong rows.** Its answer is the top of all well-formed rows if and only if every retained entry belongs
  before every well-formed row that a cap of 1000 cut off, and the answer is full when there is such a row
  (`RetainedIsTopExactlyWhen`). For one source as the database orders it that fails exactly when two rows on the two sides of the cap
  round to one timestamp with their ids the wrong way round (`RoundingIsHarmlessExactlyWhen`), which 1001 rows can do
  (`RoundingCanCapWrongly`); and a malformed row before the cap hides a good one behind it (`MalformedRowsCanHideOthers`).
* **The period report can offer a next offset that it then refuses**: it never does if and only if there are at most 1000
  intervals (`NextOffsetIsAcceptedExactlyWhen`). Following the offsets shows the first 1000, rounded up to full pages, and no more
  (`WalkCoversIntervals`). The activity feed has no such gap (`PagesCoverEverythingOnce`, `NextOffsetIsValid`).
* **The overlap test is conservative, and its early answers are redundant**: it is decided by the literal ends alone
  (`OverlapIsDecidedByTheEnds`), which is exact for text around one `*`, in any case (`OverlapTestIsExactForOneStar`), but not in general
  (`OverlapTestIsNotExact`).
* **The migration raises a `TypeError`** (`Unhashable` in the model) if and only if it has something to move, no base is unusable,
  and a stage route, an item of a pool that is a list, the single agent or the diagnosis provider is a list or an object:
  `MigrationFailsExactlyWhen`, which gives the condition of every other failure too; `ListAsSingleAgentRaises`.
* **The address correction needs no assumption about the owner's address** to be idempotent: an owner's address that is itself a
  placeholder is replaced by itself (`NoOffenceRemains`).
* **A repair may take integrated work out of the range.** The docstring of the inherited baseline promises that no own work is
  hidden. After a task is rebaselined that holds for everything but work that the integration ref already contains: `NoHiddenWork`,
  `NoHiddenWorkUntilRebaselined`.

## Model

| member | source | states |
|---|---|---|
| `CommitGraph.ReachesTransitive` | src/stagemesh/contract_binding.py:133-139 | ancestry composes: an ancestor of an ancestor is an ancestor |
| `CommitGraph.ReachesByFirstStep` | scripts/attribution_tool.py:184-192 | ancestry by its first step through a parent, both directions |
| `CommitGraph.ReachesAntisymmetric` | src/stagemesh/contract_binding.py:162-164 | two commits that are each other's ancestors are one commit |
| `CommitGraph.ReachesStable` | src/stagemesh/contract_binding.py:118-167 | the ancestors of a stored commit never change when commits are added |
| `CommitGraph.AddingKeepsSound` | src/stagemesh/contract_binding.py:118-167 | creating a commit on stored parents keeps the graph complete and acyclic, and extends it |
| `AttributionRewrite.CollectHeaders` | scripts/attribution_tool.py:134-156 | the first loop corrects every line outside signature continuations and reports a change exactly when some line needs one |
| `AttributionRewrite.DropSignatures` | scripts/attribution_tool.py:164-174 | the last loop keeps exactly the lines outside signature blocks |
| `AttributionRewrite.RewriteCommit` | scripts/attribution_tool.py:128-175 | the corrected commit, or none when nothing needs correction; what that means is stated by the lemmas below |
| `AttributionRewrite.Rewrite` | scripts/attribution_tool.py:184-192 | the loop builds a commit map whose every entry is right for the entries of its parents, and a store in which nothing is lost and every image is stored |
| `AttributionRewrite.CorrectedExactlyWhen` | scripts/attribution_tool.py:128-163 | a commit is corrected if and only if it offends or the entry of a parent moved |
| `AttributionRewrite.CorrectedDiffers` | scripts/attribution_tool.py:157-175 | a corrected commit is never the commit it replaces |
| `AttributionRewrite.MapMovesExactlyOffendersAndDescendants` | scripts/attribution_tool.py:13-16 | a commit gets a new object if and only if it or one of its ancestors is an offender |
| `AttributionRewrite.RewriteKeepsMeaning` | scripts/attribution_tool.py:128-175 | the image of a commit has the mapped parents in order; its other lines outside signatures are the same ones, in order, with role, name and date of every identity, up to the owner's address for a placeholder; its message is the same up to bad trailers and blank lines at its end; it is signed only if it is the commit itself |
| `AttributionRewrite.NoOffenceRemains` | scripts/attribution_tool.py:109-125 | no image of a commit offends; when the owner's address is no placeholder, no placeholder address is left |
| `AttributionRewrite.HistoryIsTheImage` | scripts/attribution_tool.py:184-192 | the history of the image of a commit is exactly the image of its history |
| `AttributionRewrite.SecondRewriteChangesNothing` | scripts/attribution_tool.py:178-192 | rewriting the rewritten history, in any parents-first order, maps every commit to itself |
| `AttributionRewrite.CommitMapImagesStay` | scripts/attribution_tool.py:186-192 | an image that is itself a listed commit is mapped to itself, although the map need not be injective |
| `AttributionRewrite.MoveRefs` | scripts/attribution_tool.py:193-196 | every ref that a requested name stands for moves to the image of its commit and no other ref moves; which visit fails, and that earlier moves stay |
| `AttributionRewrite.VisitSucceedsExactlyWhen` | scripts/attribution_tool.py:193-196 | a visit goes through if and only if its history has no offender, or an earlier name stood for the same ref and its image was listed already, or none did and the name is the full name of a ref that is no annotated tag |
| `AttributionRewrite.MovedRefIsClean` | scripts/attribution_tool.py:184-196 | the image of a listed commit has no offender in its whole history |
| `AttributionRewrite.RewriteRefs` | scripts/attribution_tool.py:178-199 | the whole tool: refused exactly when a name does not exist; otherwise it stops at the first name that cannot be moved, every ref that was reached holds the image of its commit with no offender left in its history (and is what it was when that is the commit itself), and no ref moved that no such name stands for |
| `AttributionRewrite.AliasStopsWhenItMoves` | scripts/attribution_tool.py:193-196 | two names for one ref: the second visit fails if and only if the history has an offender and the image was not listed |
| `AttributionRewrite.OffendingRootStops` | scripts/attribution_tool.py:193-196 | with one root commit that offends, a branch named twice, an abbreviated name and an annotated tag stop the tool |
| `ContractBinding.GatherQualifying` | src/stagemesh/contract_binding.py:149-157 | the loop gathers exactly the qualifying rows, and fails exactly when git refuses an answer about some row |
| `ContractBinding.Choose` | src/stagemesh/contract_binding.py:158-167 | the baseline all qualifying rows agree on, else that of the newest one; none only when there is no such baseline or git refused a comparison |
| `ContractBinding.InheritedBaseline` | src/stagemesh/contract_binding.py:118-167 | the two together, against the rule that the docstring gives, in terms of git's answers; and, when git answers, on the commit graph: the answer is the baseline of all bindings that qualify or of the newest of them, and None exactly when there is no such baseline |
| `ContractBinding.QualifiesOnGraphExactlyWhen` | src/stagemesh/contract_binding.py:125-130 | a binding qualifies if and only if its candidate is a strict ancestor, its baseline is a strict ancestor of its candidate, and no candidate of the task is reached from the baseline |
| `ContractBinding.ReadableMeansComparable` | src/stagemesh/contract_binding.py:133-139 | when git answers exactly about a fixed set of objects, the second pass never fails, so None means that nothing is inherited |
| `ContractBinding.InheritedIsSafe` | src/stagemesh/contract_binding.py:125-130 | an inherited baseline is a strict ancestor of the candidate and contains none of the task's own candidates |
| `ContractBinding.OrderDoesNotMatter` | src/stagemesh/contract_binding.py:141-148 | the answer does not depend on the order of the rows |
| `ContractBinding.NewestIsUnique` | src/stagemesh/contract_binding.py:162-164 | at most one binding descends from all the others |
| `ContractBinding.InheritedIsDetermined` | src/stagemesh/contract_binding.py:158-167 | the answer is determined; when the qualifying bindings disagree it is that of the one that descends from all others |
| `ContractBinding.AnswerIsTheSameInAnyOrder` | src/stagemesh/contract_binding.py:141-167 | whatever order the rows of the table come in, the inherited baseline is the same; one row per candidate suffices |
| `ContractBinding.InsertedKeepsOrAdds` | src/stagemesh/persistence.py:549-555 | after insert-or-ignore a candidate has its old row, or else the new one |
| `ContractBinding.TaskStore.ContractForCandidate` | src/stagemesh/contract_binding.py:89-115 | an existing binding is returned unchanged; otherwise one row is added, with the baseline each path prescribes |
| `BindingRuns.StepKeepsInvariant` | src/stagemesh/contract_binding.py:89-100 | commits, candidates, integration, external bindings, calls and repairs keep the bindings made on the frozen-contract path safe |
| `BindingRuns.NoHiddenWork` | src/stagemesh/contract_binding.py:89-100 | in every run, a candidate of the task that such a binding's candidate contains is in the measured range or already integrated |
| `BindingRuns.NoHiddenWorkUntilRebaselined` | src/stagemesh/contract_binding.py:125-130 | while the baseline was not moved, no such binding's baseline contains a candidate of the task, so all own work is in the range |
| `BindingRuns.StaleAnalysisMayRebaseline` | src/stagemesh/recovery.py:371-383 | the baseline that the stale-baseline analysis proposes is contained in the integration ref, as the repair of the model requires |
| `BindingRuns.RepeatedCallReturnsSameBinding` | src/stagemesh/contract_binding.py:90-92 | asking again at any later time returns the first answer, with the repairs made to it since, and changes nothing |
| `BindingRuns.RunKeepsOnePerCandidate` | src/stagemesh/persistence.py:549-555 | inserting or ignoring, and the repairs, keep one row per candidate in every run |
| `Baseline.AnalyzeBaseline` | src/stagemesh/baseline.py:64-117 | every field at every exit; when each reason is given, in terms of git's answers; without one the diffs are those against the baseline and against the merge base; stale if and only if git gave all answers, the merge base is another commit, and some file of the one diff is not in the other |
| `Baseline.RebaseliningDropsOnlyIntegratedWork` | src/stagemesh/baseline.py:84-111 | the proposed baseline lies between the old one and the candidate and is integrated; every commit that leaves the range is integrated, none enters it |
| `Baseline.RangeIsExactlyTheOpenWork` | src/stagemesh/baseline.py:92-97 | what is kept is exactly the open work if and only if every commit shared with the integration ref is an ancestor of the merge base |
| `Baseline.UnrelatedAndRemainingPartitionTheDiff` | src/stagemesh/baseline.py:34-38 | unrelated files and the rest split the old diff, in order, by membership in the new diff |
| `GlobOverlap.MatchStartsWithPrefix` | src/stagemesh/concurrency.py:193-197 | whatever a pattern matches starts with its literal prefix |
| `GlobOverlap.MatchEndsWithSuffix` | src/stagemesh/concurrency.py:200-204 | whatever a pattern matches ends with its literal suffix |
| `GlobOverlap.StarMeans` | src/stagemesh/contracts.py:860-861 | in the matcher a star stands for any stretch of the text |
| `GlobOverlap.ClassMeans` | src/stagemesh/contracts.py:860-861 | a closed class stands for one character in it, or after `!` for one that is not, a `]` at its start belonging to it |
| `GlobOverlap.SlashesAre` | src/stagemesh/concurrency.py:209 | backslashes become slashes and nothing else changes |
| `GlobOverlap.OverlapTestIsSound` | src/stagemesh/concurrency.py:207-216 | patterns that some path matches both of are reported as overlapping, under case folding and either slash |
| `GlobOverlap.OverlapTestIsSymmetric` | src/stagemesh/concurrency.py:207-216 | the test does not depend on the order of the patterns |
| `GlobOverlap.OverlapIsDecidedByTheEnds` | src/stagemesh/concurrency.py:209-216 | the early answers change nothing: the test is the comparison of the literal ends |
| `GlobOverlap.OverlapTestIsExactForOneStar` | src/stagemesh/concurrency.py:207-216 | for text around one `*`, in any case and with either slash, the test answers True if and only if some path matches both |
| `GlobOverlap.OverlapTestIsNotExact` | src/stagemesh/concurrency.py:208 | it may report patterns that no path matches both of |
| `GlobOverlap.AnyOverlapMeans` | src/stagemesh/concurrency.py:219-225 | None if and only if no pair of patterns overlaps |
| `GlobOverlap.ConflictExactlyWhen` | src/stagemesh/concurrency.py:237-249 | a conflict is reported if and only if a resource is shared or something protected overlaps; a reported resource means that two of them fold alike, and the pair that is named does overlap |
| `GlobOverlap.NoConflictMeansIndependent` | src/stagemesh/concurrency.py:237-249 | without a conflict, no path that one contract protects is protected or allowed by the other, and exclusive resources differ whatever their case |
| `GlobOverlap.ConflictIsSymmetric` | src/stagemesh/concurrency.py:237-249 | whether two contracts conflict does not depend on which is asked first |
| `IntegrationLock.RunKeepsInvariant` | src/stagemesh/concurrency.py:137-156 | in every reachable state each thread lock, the file lock and `held_by` belong to the calls that the code thinks own them |
| `IntegrationLock.AtMostOneInside` | src/stagemesh/concurrency.py:124-129 | at most one call is in its body, across threads, lock objects and processes, whatever times out, raises or crashes |
| `IntegrationLock.HeldByMeansBothLocks` | src/stagemesh/concurrency.py:147-152 | `held_by` names a call only while that call is in its body and owns both locks |
| `IntegrationLock.FinishedCallsOwnNothing` | src/stagemesh/concurrency.py:148-156 | a finished call never owns the file lock, and owns its thread lock exactly when its handle.close() raised |
| `IntegrationLock.FailingCloseKeepsThreadLock` | src/stagemesh/concurrency.py:153-156 | a run in which the handle.close() of a call raises and its thread lock stays locked |
| `IntegrationLock.StuckLockNeverComesFree` | src/stagemesh/concurrency.py:140-156 | from then on no other call of that lock gets past its thread lock, until the process ends |
| `IntegrationLock.CrashFreesTheFileLock` | src/stagemesh/concurrency.py:127-128 | once the owner's process is gone, a polling call of another process can take the file lock |
| `IntegrationLock.WaitingCallCanEnter` | src/stagemesh/concurrency.py:137-156 | once every other call has finished without a raising close, a waiting call can go all the way in |
| `ProviderLimiter.ProviderLimiter.AcquirePass` | src/stagemesh/concurrency.py:80-91 | one pass grants the first candidate that is neither cooling nor full, or says that all cool, or that all others are full; the counters change by that grant only |
| `ProviderLimiter.StepKeepsInvariant` | src/stagemesh/concurrency.py:72-105 | every event keeps the counters equal to the outstanding slots and within the limits |
| `ProviderLimiter.SlotsNeverExceedTheLimit` | src/stagemesh/concurrency.py:64-66 | in every interleaving of users the counters are the outstanding slots and no provider exceeds its own limit, or the default one without it |
| `ProviderLimiter.LeavingGivesBackOneSlot` | src/stagemesh/concurrency.py:93-105 | leaving lowers one counter by exactly one: the clamp at zero is never needed |
| `ProviderLimiter.GrantIsUsable` | src/stagemesh/concurrency.py:81-87 | a granted provider is not cooling at the grant and within its limit after it, and every candidate before it was cooling or at its limit |
| `ProviderLimiter.WaitersFoundEverythingFull` | src/stagemesh/concurrency.py:84-91 | a pass that leaves its user waiting found every candidate cooling or at its limit, one of them not cooling, and changed nothing |
| `ProviderLimiter.GivenUpOnlyWhenAllCool` | src/stagemesh/concurrency.py:81-83 | a pass gives up only when every candidate is cooling |
| `ProviderLimiter.OutcomeIsDetermined` | src/stagemesh/concurrency.py:80-91 | what a pass ends with is determined by what it read |
| `VendorTransaction.VendorProject.Attempt` | src/stagemesh/capability_vendor.py:198-254 | what target, backup, registry and lock are after the body of the try statement, whichever primitive failed |
| `VendorTransaction.VendorProject.RestoreBackup` | src/stagemesh/capability_vendor.py:474-479 | what the restoring step makes of target and backup |
| `VendorTransaction.VendorProject.VendorCapability` | src/stagemesh/capability_vendor.py:198-274 | the whole effect of a run in terms of the failing primitives: committed or not, target, registry, lock and error |
| `VendorTransaction.CommitsExactlyWhen` | src/stagemesh/capability_vendor.py:198-254 | the new registry and directory are there if and only if nothing failed up to the registry write and the target was free, or for an update a directory or nothing |
| `VendorTransaction.UnsafeTargetsStay` | src/stagemesh/capability_vendor.py:221-226 | a target that is not free is never touched without `update`, nor is a link or a file by any run |
| `VendorTransaction.VendoringIsAllOrNothing` | src/stagemesh/capability_vendor.py:198-274 | given that the last restoring move works: committed runs leave both new; other runs leave both old if and only if the reserved backup name could be released, the registration was not interrupted, and a refused one's directory could be deleted; the lock is released |
| `VendorTransaction.ReservationDestroysTheTarget` | src/stagemesh/capability_vendor.py:227-229 | when only that release fails, a refresh loses the vendored directory |
| `VendorTransaction.InterruptLeavesTheNewDirectory` | src/stagemesh/capability_vendor.py:232-254 | when only the registration is interrupted, the new directory stays with the old registry |
| `VendorReceipt.CollectFiles` | src/stagemesh/capability_vendor.py:334-397 | a source is accepted exactly within the limits and rules, and then all its files are collected in path order |
| `VendorReceipt.WalkEntries` | src/stagemesh/capabilities.py:1538-1564 | the checker's walk succeeds exactly within its limits, and then finds all files in path order |
| `VendorReceipt.CheckRows` | src/stagemesh/capabilities.py:1505-1536 | the receipt's rows are accepted exactly when each is safe and no path occurs twice |
| `VendorReceipt.ObservedVendorTree` | src/stagemesh/capabilities.py:1476-1580 | the loops compute the observed digest that the lemmas are about |
| `VendorReceipt.DigestIsReportedExactlyWhen` | src/stagemesh/capabilities.py:1476-1580 | a digest is reported if and only if the receipt can be read within its limit and names this capability, its rows are safe, differ in their paths and describe exactly the files of the tree, everything else in the tree is a directory, the limits hold, and the recorded digest is that of the tree |
| `VendorReceipt.EncodingIsUnique` | src/stagemesh/capability_vendor.py:421-428 | the string that is hashed determines the rows, although paths may contain line ends |
| `VendorReceipt.StagingSucceedsExactlyWhen` | src/stagemesh/capability_vendor.py:212-220 | the files of an accepted source can be staged beside the receipt if and only if none is in a directory of the receipt's name |
| `VendorReceipt.StagedTreeHasTheFiles` | src/stagemesh/capability_vendor.py:212-220 | walking the staged tree finds the accepted files again, in order, within the limits |
| `VendorReceipt.ProducedRowsAreAccepted` | src/stagemesh/capability_vendor.py:410-418 | the checker accepts the written rows if and only if no path has a backslash |
| `VendorReceipt.FreshReceiptIsAccepted` | src/stagemesh/capability_vendor.py:334-428 | for every accepted source the checker finds the planned digest if and only if no path has a backslash and the receipt is within the checker's limit |
| `VendorReceipt.LongPathsAreNeverVerified` | src/stagemesh/capabilities.py:1485-1486 | an accepted source with more than 262144 characters of paths is never verified |
| `VendorReceiptWitnesses.BackslashSourceIsNeverVerified` | src/stagemesh/capabilities.py:1517 | a skill directory with a backslash in a file name is accepted and staged, and its check fails |
| `VendorReceiptWitnesses.LongSourceIsNeverVerified` | src/stagemesh/capabilities.py:1485-1486 | so is one with `SKILL.md` and 128 entries in all, ASCII names of at most 255 characters and paths of at most 3839, whose receipt is too long |
| `VendorReceiptWitnesses.ReceiptTextsExist` | src/stagemesh/capability_vendor.py:216-220 | the properties that are assumed of receipt texts and digests can be had |
| `VendorReceipt.DigestBindsTheFiles` | src/stagemesh/capabilities.py:1564-1578 | whatever was done to tree and receipt, the recorded digest is reported only when the tree has exactly the recorded files |
| `Recovery.CountUsed` | src/stagemesh/blocked_recovery.py:59-73 | the loops of both counters compute the budget that the lemmas are about |
| `Recovery.TimelyUnblockRaisesUsed` | src/stagemesh/block_kinds.py:184-198 | an unblock that is logged within five seconds always raises the count, whatever was misread before and whatever others logged in between |
| `Recovery.LateUnblockNeverSpendsTheBudget` | src/stagemesh/blocked_recovery.py:71 | one that is logged later leaves the count at one, however often it happens |
| `Recovery.ForeignUnblockGrantsFreshBudget` | src/stagemesh/blocked_recovery.py:66-73 | an unblock of somebody else's grants a fresh budget |
| `Recovery.RuntimeIsFoundExactlyWhen` | src/stagemesh/block_kinds.py:201-206 | the fingerprint of a re-entry is found if and only if fewer rows of other tasks than the limit follow it |
| `Recovery.RuntimeIsRemembered` | src/stagemesh/block_kinds.py:201-206 | for every log: the fingerprint of the task's last re-entry is found if and only if fewer than 200 re-entries of other tasks follow it |
| `RecoveryRuns.UndisturbedAttempt` | src/stagemesh/block_kinds.py:229-250 | test, unblock and log without anything in between do what the methods of the store do |
| `RecoveryRuns.StepKeepsInvariant` | src/stagemesh/blocked_recovery.py:105-123 | after every step of an orderly run each attempt is within the budget that it was tested against, its unblock is in the log and unlogged, and there is one per mechanism |
| `RecoveryRuns.UnblocksStayWithinBudgets` | src/stagemesh/blocked_recovery.py:59-127 | in every orderly run, from any log, a mechanism unblocks the task at most budget * (resets + 1) times, wherever operators, other tasks and the other mechanism act in between |
| `RecoveryRuns.ConsecutiveReentriesDiffer` | src/stagemesh/block_kinds.py:224-225 | consecutive re-entries of a task never carry the same fingerprint, while fewer than 200 rows lie between the one and the tests of the other |
| `RecoveryRuns.ReentriesCanRepeat` | src/stagemesh/block_kinds.py:202 | with 200 rows between them they can |
| `RecoveryRuns.RecoveryTerminates` | src/stagemesh/blocked_recovery.py:76-127 | with a constant fingerprint, no operator and no process that ends before it logs, both mechanisms together unblock a task at most 2 * maxRetries + 1 times in every orderly run in which the previous re-entry is found: five by default |
| `RecoveryRuns.LateRetriesNeverStop` | src/stagemesh/blocked_recovery.py:71 | when they are logged late there is a run with any number of retries |
| `RecoveryRuns.CutRetriesNeverStop` | src/stagemesh/blocked_recovery.py:121-123 | so there is when the process always ends between unblock and log entry |
| `RecoveryRuns.OverlappingRetriesNeverStop` | src/stagemesh/blocked_recovery.py:105-123 | so there is, all logged in time, when two processes test the task in turns |
| `Recovery.AuditStore.UnblockTask` | src/stagemesh/persistence.py:1727-1760 | BLOCKED becomes OPEN and one event is logged, or nothing happens |
| `Recovery.AuditStore.ReenterBlockedTask` | src/stagemesh/block_kinds.py:209-251 | exactly when a task is re-entered, the attempt number within the limit, and the two events |
| `Recovery.AuditStore.RetryOne` | src/stagemesh/blocked_recovery.py:94-124 | a task is retried if and only if it is selected, BLOCKED, in IMPLEMENT, not claimed or running, blocked by a recoverable cause, and within its budget; and what is logged |
| `Recovery.AuditStore.AutoRetry` | src/stagemesh/blocked_recovery.py:76-127 | at most `limit` tasks, none twice, each of them such a task; below the limit all such tasks; the log only grows, by one retry for each of them; no other task's status or budget changes |
| `ActivityFeed.CappedMergeIsTopOfUnion` | src/stagemesh/activity.py:269-275 | capping each ordered source and then the merge keeps exactly the first entries of the whole union |
| `ActivityFeed.CappedMergeIsTopExactlyWhen` | src/stagemesh/activity.py:269-275 | for any sources in any order the capped merge is the top of the union if and only if every entry that it keeps belongs before every row that a cap cut off |
| `ActivityFeed.CapIsHarmlessExactlyWhen` | src/stagemesh/activity.py:370-395 | for one source: a cap loses no entry of the top if and only if every kept row belongs before every cut one |
| `ActivityFeed.CapIsHarmlessExactlyWhenOrdered` | src/stagemesh/activity.py:374-375 | no cap at all can do harm if and only if the source comes in the merge order |
| `ActivityFeed.CleanlyCappedMergeIsTopOfUnion` | src/stagemesh/activity.py:269-275 | the capped merge is the top of the union for sources in any order whose cuts are clean |
| `ActivityFeed.DatabaseOrderIsMergeOrder` | src/stagemesh/activity.py:374-375 | the database order is the merge order when no two timestamps round to one |
| `ActivityFeed.RoundingIsHarmlessExactlyWhen` | src/stagemesh/activity.py:374-375 | for one source as the database orders it the cap of 1000 is harmless if and only if no two rows on its two sides round to one timestamp with their ids the wrong way round |
| `ActivityFeed.RoundingCanCapWrongly` | src/stagemesh/activity.py:345-346 | 1001 rows of which the code keeps the wrong one |
| `ActivityFeed.GatherEntries` | src/stagemesh/activity.py:269-272 | the loop concatenates what the sources return and notices a source that was cut |
| `ActivityFeed.QueryActivity` | src/stagemesh/activity.py:269-287 | page, total, next offset and the truncation flag, in terms of the retained entries |
| `Pages.PageIsStretch` | src/stagemesh/activity.py:276-277 | a page is the stretch of the entries at its offset, full unless it reaches the end |
| `Pages.WalkIsStretch` | src/stagemesh/activity_periods.py:162-165 | following the next offsets visits a stretch of the entries once, in order: to the end, or to the first offset that is refused |
| `ActivityFeed.RetainedIsTopExactlyWhen` | src/stagemesh/activity.py:269-275 | for all sources, also those that drop malformed rows after their cap: what is retained is the top of all well-formed rows if and only if it belongs before every well-formed row beyond a cap, and is full if there is one |
| `ActivityFeed.MalformedRowsCanHideOthers` | src/stagemesh/activity.py:269-275 | a source of 1001 rows, the first malformed and the last not, is one whose answer is not that top |
| `ActivityFeed.RetainedIsTopOfEverything` | src/stagemesh/activity.py:269-275 | for sources that are cut cleanly and drop no row, what is retained is the top of everything there is |
| `ActivityFeed.RetainedIsInOrder` | src/stagemesh/activity.py:273 | retained entries come newest first, at one instant by the order of their kinds, and within a kind by id |
| `ActivityFeed.NotTruncatedIsComplete` | src/stagemesh/activity.py:274 | for all sources: when nothing was truncated, every well-formed row is retained, once, in order |
| `ActivityFeed.PagesCoverEverythingOnce` | src/stagemesh/activity.py:276-283 | following the next offsets of an unchanged store visits each retained entry exactly once, in order, and ends |
| `ActivityFeed.NextOffsetIsValid` | src/stagemesh/activity.py:214-217 | a next offset moves forward and is never refused |
| `ActivityPeriods.OpeningsAndCompletionsAlternate` | src/stagemesh/activity_periods.py:201-222 | openings and completions alternate in time order, and one is pending exactly while the task is not DONE |
| `ActivityPeriods.Replay` | src/stagemesh/activity_periods.py:183-227 | a log is accepted if and only if it is a creation as OPEN in PLAN and then changes of that task, each from the status before it to one of the four, up to the durable one; interval i is then opening i with completion i; the two inner refusals never fire |
| `ActivityPeriods.IntervalsAreOrdered` | src/stagemesh/activity_periods.py:211-227 | intervals do not overlap, and only the last can be open, exactly when the task is not DONE |
| `ActivityPeriods.ReplayIsTruthful` | src/stagemesh/activity_periods.py:183-227 | an instant since the creation lies in an interval if and only if the task was not DONE then |
| `ActivityPeriods.ReportedExactlyWhenItMeetsTheWindow` | src/stagemesh/activity_periods.py:146-147 | an interval is reported exactly when it shares an instant with the window; what happens to empty ones |
| `ActivityPeriods.NextOffsetIsAcceptedExactlyWhen` | src/stagemesh/activity_periods.py:110-111 | the next offset is always accepted if and only if there are at most 1000 intervals |
| `ActivityPeriods.WalkCoversIntervals` | src/stagemesh/activity_periods.py:160-165 | following the next offsets visits the first 1000 intervals, rounded up to full pages, once each and in order; all of them if and only if there are no more |
| `ActivityPeriods.BucketStarts` | src/stagemesh/activity_periods.py:238-245 | the cursor loop ends; start i is the i-th step from the first day, inside the window, and the cursor behind the last reaches `until` |
| `ActivityPeriods.Series` | src/stagemesh/activity_periods.py:230-261 | the buckets are the days, or the weeks from a Monday on, without a gap, from the one that the window starts in to its end; each counts the positions of what happened in it and the tasks that it happened to |
| `ActivityPeriods.SeriesConservesOccurrences` | src/stagemesh/activity_periods.py:144-145 | the bucket counts sum up to the openings and completions of the window |
| `ActivityPeriods.InstantIsInOneBucket` | src/stagemesh/activity_periods.py:246-250 | every instant of the window is in exactly one bucket |
| `ActivityPeriods.BucketCountsAreConsistent` | src/stagemesh/activity_periods.py:255-258 | a bucket never counts more tasks than occurrences, and none exactly when nothing happened |
| `ConfigMigration.ScanProviders` | src/stagemesh/config_migration.py:99-126 | the loop over the providers, which deletes and assigns entries as it goes, against its specification |
| `ConfigMigration.RewriteProviderList` | src/stagemesh/config_migration.py:223-233 | every name replaced, and of equal strings only the first kept |
| `ConfigMigration.RewriteStageRoutes` | src/stagemesh/config_migration.py:190-193 | assigning only the renamed routes in place equals replacing every value |
| `ConfigMigration.RewritePools` | src/stagemesh/config_migration.py:195-203 | assigning only the pools that change in place equals replacing every list |
| `ConfigMigration.DropWeights` | src/stagemesh/config_migration.py:208-213 | pops the weight of every removed provider and nothing else |
| `ConfigMigration.RewriteProviderReferences` | src/stagemesh/config_migration.py:186-220 | the routing and diagnosis sections rewritten in place, against their specification |
| `ConfigMigration.MigrateProviderStageCommands` | src/stagemesh/config_migration.py:89-130 | the loops together compute the migration that the lemmas below are about, or its error |
| `ConfigMigration.ScanCarries` | src/stagemesh/config_migration.py:103-126 | over the whole loop, every recorded rename removed its provider and carried its command to the base, and no later step loses it |
| `ConfigMigration.MigrationIsIdempotent` | src/stagemesh/config_migration.py:89-130 | migrating a migrated configuration changes nothing and reports no change; no change is reported if and only if the configuration stays as it was |
| `ConfigMigration.RemovedCommandsAreCarriedOver` | src/stagemesh/config_migration.py:103-126 | a provider disappears only when its base then reviews with its command; every other provider stays, and at most its `review_command` is new; none is added |
| `ConfigMigration.EveryLegacyProviderIsAccountedFor` | src/stagemesh/config_migration.py:103-126 | every legacy review provider is removed or reported, and not both |
| `ConfigMigration.PoolsAreDuplicateFreeImages` | src/stagemesh/config_migration.py:195-203 | every pool becomes the duplicate-free image of the old one in first-occurrence order |
| `MigrationMeaning.LegacyNamesAre` | src/stagemesh/config_migration.py:147-155 | a legacy review provider is `claude` or `grok` with `-review` or `_review` behind it |
| `MigrationMeaning.DefaultCommandIs` | src/stagemesh/config_migration.py:158-165 | the command of a provider: a text that is not blank, as it stands or as the entry `command` |
| `MigrationMeaning.ExistingReviewIs` | src/stagemesh/config_migration.py:176-185 | the command it reviews with: its `review_command`, or else the first of its `commands` for REVIEW |
| `MigrationMeaning.ProvidersStayForAReason` | src/stagemesh/config_migration.py:103-126 | every legacy provider is removed if and only if its base is there and reviews with its command afterwards, and otherwise stays for the reason that is reported: no base, no command, or another command; no other provider is removed or reported |
| `MigrationMeaning.ChangesTellTheTruth` | src/stagemesh/config_migration.py:119-126 | the changes tell of every removed provider and of no other, of a moved command only when the base reviewed with none, and of every other provider that changed |
| `MigrationMeaning.ReferencesFollowTheirProviders` | src/stagemesh/config_migration.py:186-233 | a stage route, pool item, single agent or diagnosis that named a removed provider names its base afterwards, and every other one is what it was; of equal strings a pool keeps the first; weights of removed providers go; no other entry of the configuration changes |
| `ConfigMigration.NothingDangles` | src/stagemesh/config_migration.py:186-220 | no stage route, pool, single agent, weight or diagnosis names a removed provider |
| `ConfigMigration.MigrationFailsExactlyWhen` | src/stagemesh/config_migration.py:89-130 | the exact condition of each failure in terms of the configuration: root, providers, unusable base, TypeError |
| `ConfigMigration.FirstUnusableBaseIsReported` | src/stagemesh/config_migration.py:166-171 | the failing provider is the base of the first legacy name, in order, that has an unusable one |
| `ConfigMigration.ListAsSingleAgentRaises` | src/stagemesh/config_migration.py:204-205 | a configuration whose single agent is a list raises |

## Left out

- Byte-level parsing of commit text, the regular expressions, and Unicode folding, white space and upper case: predicates or functions with the properties that are used.
- `git clone`, `hash-object` and other git calls that fail for reasons of their own, revision expressions such as `main~1`, and refs that peel to a tree or a blob.
- The `audit` report of the attribution tool, which uses wider patterns than the correction.
- ContractBinding.Choose: a git call that fails only in the second pass, on objects it could read in the first, may yield None although a baseline could be inherited; the contract allows that, as the code does.
- BindingRuns.NoHiddenWork: about bindings made on the frozen-contract path; a baseline that an operator advances to a ref outside the integration ref, or a rewritten integration ref, is not an event of the model.
- Baseline.AnalyzeBaseline: the detail texts, and how `changed_files` computes a diff, are not modelled.
- IntegrationLock: on values instead of an object with fields, because its subject is the interleaving of many objects and processes; an asynchronous exception between two statements of `hold` outside the steps listed is not modelled, nor is reentry of one thread, which waits for itself until the timeout.
- ProviderLimiter: the timeout of `acquire` (`slot` never passes one), wake-ups (a waiter may make another pass at any time), and the status snapshot.
- VendorTransaction: left-over stage and backup directories (their removal ignores errors), interrupts outside the registration, planning, and what `register_capability` validates; it either raises or has written the registry.
- VendorReceipt: files that change while they are read, Windows drive letters in receipt paths, and the rules by which a kind accepts a path or a text.
- Which capabilities are attached to a run (`resolve_attachments`) and how the registry's payload is built and validated.
- Recovery: `can_auto_retry` and the operator-facing explanations, which only read; why a task counts as recoverable (`recoverable_cause`, `classify_block`), the move of a tampered workspace, malformed log payloads, and events whose time stamps run backwards. The tests before an unblock read the log once.
- ActivityFeed: the filters of the sources and the projection of rows to display fields.
- The status counts of the activity feed: one increment per retained entry.
- ActivityPeriods: which tasks are considered (the first 200), time-zone arithmetic beyond "midnights ascend", and logs whose time stamps decrease, which the query's ORDER BY excludes.
- ConfigMigration: the messages about rewritten references (the messages about providers are modelled as values), reading, backing up and writing the file, and keys that are not strings, which JSON does not have.
