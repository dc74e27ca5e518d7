/** Whether a recorded baseline is stale: src/stagemesh/baseline.py.

    Git is an oracle again. `isAncestor` is true exactly for exit code 0; unlike the query of ContractBinding a commit is
    its own ancestor here, and a call that fails reads as "not an ancestor".
 */
module Baseline {
  import opened Prelude
  import opened CommitGraph

  datatype Git = Git(
    integration: Option<Sha>,                       // rev-parse of the integration ref
    stored: Sha -> bool,                            // cat-file -e
    changedFiles: (Sha, Sha) -> Option<seq<string>>,  // changed_files(candidate, base); None when the diff fails
    isAncestor: (Sha, Sha) -> bool,
    mergeBase: (Sha, Sha) -> Option<Sha>)

  datatype Refusal =
    | NoCandidate | NoBaseline | Unresolvable | AlreadyIntegrated | NotBasedOnBaseline | NoMergeBase | Diverged

  /** `m` is a best common ancestor: no other common ancestor descends from it. */
  ghost predicate IsMergeBase(g: Graph, a: Sha, b: Sha, m: Sha) {
    && Reaches(g, a, m) && Reaches(g, b, m)
    && forall c :: Reaches(g, a, c) && Reaches(g, b, c) && Reaches(g, c, m) ==> c == m
  }

  /** What git's answers mean on the graph; a failing call is allowed everywhere. */
  ghost predicate Truthful(git: Git, g: Graph) {
    && (forall older, newer :: git.isAncestor(older, newer) ==> Reaches(g, newer, older))
    && (forall a, b :: git.mergeBase(a, b).Some? ==> IsMergeBase(g, a, b, git.mergeBase(a, b).value))
  }

  function MemberOf(files: seq<string>): string -> bool {
    p => p in files
  }

  class BaselineAnalysis {
    var candidate: Option<Sha>
    var baseline: Option<Sha>
    var integration: Option<Sha>
    var mergeBase: Option<Sha>
    var stale: bool
    var refusal: Option<Refusal>
    var changedBefore: seq<string>
    var changedAfter: seq<string>

    constructor ()
      ensures candidate.None? && baseline.None? && integration.None? && mergeBase.None?
      ensures !stale && refusal.None? && changedBefore == [] && changedAfter == []
    {
      candidate, baseline, integration, mergeBase := None, None, None, None;
      stale, refusal, changedBefore, changedAfter := false, None, [], [];
    }

    /** The files of the candidate's diff that are there only because the baseline is stale. */
    function Unrelated(): seq<string>
      reads this
    {
      Reject(changedBefore, MemberOf(changedAfter))
    }

    /** The rest of the diff. */
    function Remaining(): seq<string>
      reads this
    {
      Filter(changedBefore, MemberOf(changedAfter))
    }
  }

  /** The refs and the first diff could be read. */
  ghost predicate Resolved(git: Git, candidate: Sha, baseline: Sha) {
    git.integration.Some? && git.stored(candidate) && git.stored(baseline) && git.changedFiles(candidate, baseline).Some?
  }

  /** The refusal, as the first reason that applies; None when there is none. */
  ghost function ExpectedRefusal(git: Git, candidate: Option<Sha>, baseline: Option<Sha>): Option<Refusal> {
    if candidate.None? then Some(NoCandidate)
    else if baseline.None? then Some(NoBaseline)
    else
      var c, b := candidate.value, baseline.value;
      if !Resolved(git, c, b) then Some(Unresolvable)
      else if git.isAncestor(c, git.integration.value) then Some(AlreadyIntegrated)
      else if !git.isAncestor(b, c) then Some(NotBasedOnBaseline)
      else match git.mergeBase(c, git.integration.value)
           case None => Some(NoMergeBase)
           case Some(m) =>
             if m == b then None
             else if !git.isAncestor(b, m) then Some(Diverged)
             else if git.changedFiles(c, m).None? then Some(Unresolvable)
             else None
  }

  /** The proposed baseline: the merge base, when the analysis gets that far. */
  ghost function ExpectedMergeBase(git: Git, c: Sha, b: Sha): Option<Sha> {
    if Resolved(git, c, b) && !git.isAncestor(c, git.integration.value) && git.isAncestor(b, c) then
      git.mergeBase(c, git.integration.value)
    else None
  }

  /** The diff against it, when there is one. */
  ghost function ExpectedAfter(git: Git, c: Sha, b: Sha): seq<string> {
    match ExpectedMergeBase(git, c, b)
    case None => []
    case Some(m) =>
      if m == b then git.changedFiles(c, b).value
      else if git.isAncestor(b, m) && git.changedFiles(c, m).Some? then git.changedFiles(c, m).value
      else []
  }

  /** Git gave every answer that is needed, and the candidate is open work on the baseline. */
  ghost predicate Analyzable(git: Git, c: Sha, b: Sha) {
    && git.integration.Some? && git.stored(c) && git.stored(b) && git.changedFiles(c, b).Some?
    && !git.isAncestor(c, git.integration.value) && git.isAncestor(b, c)
    && git.mergeBase(c, git.integration.value).Some?
    && var m := git.mergeBase(c, git.integration.value).value;
       m == b || (git.isAncestor(b, m) && git.changedFiles(c, m).Some?)
  }

  /** Some file of the diff against the baseline is not in the diff against the merge base, another commit. */
  ghost predicate ShowsUnrelatedFiles(git: Git, c: Sha, b: Sha)
    requires Analyzable(git, c, b)
  {
    var m := git.mergeBase(c, git.integration.value).value;
    && m != b
    && exists file :: file in git.changedFiles(c, b).value && file !in git.changedFiles(c, m).value
  }

  /** When each reason is given, for a task with a candidate and a baseline. */
  ghost predicate IsReason(git: Git, c: Sha, b: Sha, why: Refusal) {
    var resolved := git.integration.Some? && git.stored(c) && git.stored(b) && git.changedFiles(c, b).Some?;
    var open := resolved && !git.isAncestor(c, git.integration.value) && git.isAncestor(b, c);
    var base := if resolved then git.mergeBase(c, git.integration.value) else None;
    var moved := open && base.Some? && base.value != b;
    match why
    case NoCandidate => false
    case NoBaseline => false
    case Unresolvable =>
      !resolved || (moved && git.isAncestor(b, base.value) && git.changedFiles(c, base.value).None?)
    case AlreadyIntegrated => resolved && git.isAncestor(c, git.integration.value)
    case NotBasedOnBaseline => resolved && !git.isAncestor(c, git.integration.value) && !git.isAncestor(b, c)
    case NoMergeBase => open && base.None?
    case Diverged => moved && !git.isAncestor(b, base.value)
  }

  method AnalyzeBaseline(git: Git, candidate: Option<Sha>, baseline: Option<Sha>) returns (analysis: BaselineAnalysis)
    ensures fresh(analysis)
    ensures analysis.refusal == ExpectedRefusal(git, candidate, baseline)
    ensures candidate.None? || baseline.None? ==>
      && analysis.candidate.None? && analysis.baseline.None? && analysis.integration.None? && analysis.mergeBase.None?
      && analysis.changedBefore == [] && analysis.changedAfter == []
    ensures candidate.Some? && baseline.Some? ==>
      && analysis.candidate == candidate && analysis.baseline == baseline && analysis.integration == git.integration
      && analysis.mergeBase == ExpectedMergeBase(git, candidate.value, baseline.value)
      && analysis.changedAfter == ExpectedAfter(git, candidate.value, baseline.value)
      && (if Resolved(git, candidate.value, baseline.value) then
            Some(analysis.changedBefore) == git.changedFiles(candidate.value, baseline.value)
          else analysis.changedBefore == [])
    ensures analysis.stale <==> analysis.refusal.None? && analysis.mergeBase != baseline && analysis.Unrelated() != []
    ensures analysis.refusal == Some(NoCandidate) <==> candidate.None?
    ensures analysis.refusal == Some(NoBaseline) <==> candidate.Some? && baseline.None?
    ensures candidate.Some? && baseline.Some? ==>
      && (analysis.refusal.None? <==> Analyzable(git, candidate.value, baseline.value))
      && (forall why :: analysis.refusal == Some(why) <==> IsReason(git, candidate.value, baseline.value, why))
    ensures analysis.refusal.None? ==>
      && analysis.mergeBase == git.mergeBase(candidate.value, analysis.integration.value) && analysis.mergeBase.Some?
      && Some(analysis.changedBefore) == git.changedFiles(candidate.value, baseline.value)
      && Some(analysis.changedAfter) == git.changedFiles(candidate.value, analysis.mergeBase.value)
    ensures analysis.stale <==>
      && candidate.Some? && baseline.Some? && Analyzable(git, candidate.value, baseline.value)
      && ShowsUnrelatedFiles(git, candidate.value, baseline.value)
    ensures analysis.stale ==>
      && analysis.mergeBase.Some? && git.isAncestor(baseline.value, candidate.value)
      && git.isAncestor(baseline.value, analysis.mergeBase.value)
  {
    analysis := FillAnalysis(git, candidate, baseline);
    if candidate.Some? && baseline.Some? {
      ReasonsAre(git, candidate.value, baseline.value);
      RejectsSome(analysis.changedBefore, analysis.changedAfter);
    }
  }

  lemma {:induction false} ReasonsAre(git: Git, c: Sha, b: Sha)
    ensures ExpectedRefusal(git, Some(c), Some(b)).None? <==> Analyzable(git, c, b)
    ensures forall why :: ExpectedRefusal(git, Some(c), Some(b)) == Some(why) <==> IsReason(git, c, b, why)
    ensures Analyzable(git, c, b) ==>
      && ExpectedMergeBase(git, c, b) == git.mergeBase(c, git.integration.value)
      && Some(ExpectedAfter(git, c, b)) == git.changedFiles(c, git.mergeBase(c, git.integration.value).value)
  {
  }

  /** The analysis step by step; it stops at the first reason. */
  method FillAnalysis(git: Git, candidate: Option<Sha>, baseline: Option<Sha>) returns (analysis: BaselineAnalysis)
    ensures fresh(analysis)
    ensures analysis.refusal == ExpectedRefusal(git, candidate, baseline)
    ensures candidate.None? || baseline.None? ==>
      && analysis.candidate.None? && analysis.baseline.None? && analysis.integration.None? && analysis.mergeBase.None?
      && analysis.changedBefore == [] && analysis.changedAfter == []
    ensures candidate.Some? && baseline.Some? ==>
      && analysis.candidate == candidate && analysis.baseline == baseline && analysis.integration == git.integration
      && analysis.mergeBase == ExpectedMergeBase(git, candidate.value, baseline.value)
      && analysis.changedAfter == ExpectedAfter(git, candidate.value, baseline.value)
      && (if Resolved(git, candidate.value, baseline.value) then
            Some(analysis.changedBefore) == git.changedFiles(candidate.value, baseline.value)
          else analysis.changedBefore == [])
    ensures analysis.stale <==> analysis.refusal.None? && analysis.mergeBase != baseline && analysis.Unrelated() != []
    ensures analysis.stale ==>
      && analysis.mergeBase.Some? && git.isAncestor(baseline.value, candidate.value)
      && git.isAncestor(baseline.value, analysis.mergeBase.value)
  {
    analysis := new BaselineAnalysis();
    if candidate.None? {
      analysis.refusal := Some(NoCandidate);
      return;
    }
    if baseline.None? {
      analysis.refusal := Some(NoBaseline);
      return;
    }
    var c, b := candidate.value, baseline.value;
    analysis.candidate, analysis.baseline := candidate, baseline;
    analysis.integration := git.integration;
    if git.integration.None? || !git.stored(c) || !git.stored(b) {
      analysis.refusal := Some(Unresolvable);
      return;
    }
    var before := git.changedFiles(c, b);
    if before.None? {
      analysis.refusal := Some(Unresolvable);
      return;
    }
    analysis.changedBefore := before.value;
    if git.isAncestor(c, git.integration.value) {
      analysis.refusal := Some(AlreadyIntegrated);
      return;
    }
    if !git.isAncestor(b, c) {
      analysis.refusal := Some(NotBasedOnBaseline);
      return;
    }
    var base := git.mergeBase(c, git.integration.value);
    if base.None? {
      analysis.refusal := Some(NoMergeBase);
      return;
    }
    analysis.mergeBase := base;
    if base.value == b {
      analysis.changedAfter := analysis.changedBefore;
      return;
    }
    if !git.isAncestor(b, base.value) {
      analysis.refusal := Some(Diverged);
      return;
    }
    var after := git.changedFiles(c, base.value);
    if after.None? {
      analysis.refusal := Some(Unresolvable);
      return;
    }
    analysis.changedAfter := after.value;
    analysis.stale := analysis.Unrelated() != [];
  }

  lemma {:induction false} RejectsSome(files: seq<string>, others: seq<string>)
    ensures Reject(files, MemberOf(others)) != [] <==> exists file :: file in files && file !in others
  {
    var r := Reject(files, MemberOf(others));
    if r != [] {
      assert r[0] in r;
    }
  }

  /** A stale baseline moves forward, inside the candidate's own history and inside the integration ref; every commit
      that leaves the measured range is already integrated, and no commit enters it. */
  lemma {:induction false} RebaseliningDropsOnlyIntegratedWork(
    git: Git, g: Graph, candidate: Sha, baseline: Sha, c: Sha)
    requires Truthful(git, g) && Sound(g)
    requires git.integration.Some? && git.mergeBase(candidate, git.integration.value).Some?
    requires git.mergeBase(candidate, git.integration.value).value != baseline
    requires git.isAncestor(baseline, git.mergeBase(candidate, git.integration.value).value)
    ensures var m := git.mergeBase(candidate, git.integration.value).value;
      && StrictAncestor(g, baseline, m) && Reaches(g, candidate, m) && Reaches(g, git.integration.value, m)
      && (InRange(g, baseline, candidate, c) && !InRange(g, m, candidate, c) ==> Reaches(g, git.integration.value, c))
      && (InRange(g, m, candidate, c) ==> InRange(g, baseline, candidate, c))
  {
    var m := git.mergeBase(candidate, git.integration.value).value;
    if Reaches(g, m, c) {
      ReachesTransitive(g, git.integration.value, m, c);
    }
    if Reaches(g, baseline, c) {
      ReachesTransitive(g, m, baseline, c);
    }
  }

  /** What is kept is exactly the work that is not integrated, if and only if every commit that the candidate and the
      integration ref share is an ancestor of the merge base git chose; with criss-cross merges it may not be. */
  lemma {:induction false} RangeIsExactlyTheOpenWork(g: Graph, candidate: Sha, integration: Sha, m: Sha)
    requires IsMergeBase(g, candidate, integration, m)
    ensures (forall c :: InRange(g, m, candidate, c) <==> InRange(g, integration, candidate, c))
       <==> (forall c :: Reaches(g, candidate, c) && Reaches(g, integration, c) ==> Reaches(g, m, c))
  {
    forall c | Reaches(g, m, c)
      ensures Reaches(g, integration, c)
    {
      ReachesTransitive(g, integration, m, c);
    }
    if forall c :: InRange(g, m, candidate, c) <==> InRange(g, integration, candidate, c) {
      forall c | Reaches(g, candidate, c) && Reaches(g, integration, c)
        ensures Reaches(g, m, c)
      {
        assert !InRange(g, integration, candidate, c);
      }
    }
  }

  /** Every index of `whole` goes to one of the two parts, and each part keeps the order of its indices. */
  ghost predicate Interleaves(whole: seq<string>, toFirst: seq<bool>, first: seq<string>, second: seq<string>) {
    && |toFirst| == |whole|
    && Picked(whole, toFirst, true) == first
    && Picked(whole, toFirst, false) == second
  }

  function Picked(whole: seq<string>, marks: seq<bool>, wanted: bool): seq<string>
    requires |marks| == |whole|
  {
    if whole == [] then []
    else (if marks[0] == wanted then [whole[0]] else []) + Picked(whole[1..], marks[1..], wanted)
  }

  lemma {:induction false} PickedOneMore(whole: seq<string>, rest: seq<bool>, mark: bool, wanted: bool)
    requires whole != [] && |rest| == |whole| - 1
    ensures Picked(whole, [mark] + rest, wanted)
         == (if mark == wanted then [whole[0]] else []) + Picked(whole[1..], rest, wanted)
  {
    assert ([mark] + rest)[1..] == rest;
  }

  lemma {:induction false} SplitInOrder(whole: seq<string>, keep: string -> bool) returns (toKept: seq<bool>)
    ensures Interleaves(whole, toKept, Filter(whole, keep), Reject(whole, keep))
    ensures forall i :: 0 <= i < |whole| ==> toKept[i] == keep(whole[i])
  {
    toKept := [];
    if whole != [] {
      var rest := SplitInOrder(whole[1..], keep);
      toKept := [keep(whole[0])] + rest;
      PickedOneMore(whole, rest, keep(whole[0]), true);
      PickedOneMore(whole, rest, keep(whole[0]), false);
    }
  }

  /** The unrelated files and the rest are the whole diff, in its order, split by the diff against the new baseline. */
  lemma {:induction false} UnrelatedAndRemainingPartitionTheDiff(
    analysis: BaselineAnalysis) returns (toRemaining: seq<bool>)
    ensures Interleaves(analysis.changedBefore, toRemaining, analysis.Remaining(), analysis.Unrelated())
    ensures forall i :: 0 <= i < |analysis.changedBefore| ==>
      toRemaining[i] == (analysis.changedBefore[i] in analysis.changedAfter)
  {
    toRemaining := SplitInOrder(analysis.changedBefore, MemberOf(analysis.changedAfter));
  }
}
