/** The bindings of one task over any run: calls of `contract_for_candidate`, bindings that others make, repairs that move
    the baseline or replace the contract, and an integration ref that only moves forward.
 */
module BindingRuns {
  import opened Prelude
  import opened CommitGraph
  import opened ContractBinding
  import Baseline

  /** The commit graph and the integration ref, the task's rows, and which candidates were bound by
      `contract_for_candidate` itself on the frozen-contract path. `based` says that a task baseline is recorded. */
  datatype World = World(
    graph: Graph, tip: Sha, frozen: Frozen, based: bool, candidates: set<Sha>, bindings: seq<Binding>, ours: set<Sha>)

  datatype Event =
    | NewCommit(commit: Sha, parents: seq<Sha>)                 // anybody commits
    | NewCandidate(commit: Sha, parents: seq<Sha>)              // the task commits, and the candidate is recorded
    | Integrated(tip: Sha)                                      // the integration ref moves forward
    | ExternalBinding(binding: Binding)                         // a rebase, an import or the supervisor binds anything
    | ContractCall(candidate: Sha, bound: Binding)              // contract_for_candidate returns `bound`
    | Rebaselined(baseline: Sha, row: Option<Sha>)              // rebaseline_task, advance_task_baseline
    | Rebound(terms: Terms, row: Option<Sha>)                   // rebind_task_contract

  ghost predicate Step(w: World, e: Event, v: World) {
    match e
    case NewCommit(c, parents) =>
      c !in w.graph && (forall p :: p in parents ==> p in w.graph) && v == w.(graph := w.graph[c := parents])
    case NewCandidate(c, parents) =>
      && c !in w.graph && (forall p :: p in parents ==> p in w.graph)
      && v == w.(graph := w.graph[c := parents], candidates := w.candidates + {c})
    case Integrated(tip) =>
      tip in w.graph && Reaches(w.graph, tip, w.tip) && v == w.(tip := tip)
    case ExternalBinding(b) =>
      v == w.(bindings := Inserted(w.bindings, b))
    case ContractCall(c, bound) =>
      if Find(w.bindings, c).Some? then
        Find(w.bindings, c) == Some(bound) && v == w
      else
        && (exists git :: Faithful(git, w.graph)
              && FrozenBinding(git, w.candidates, w.bindings, w.frozen, w.based, c, bound))
        && v == w.(bindings := w.bindings + [bound], ours := w.ours + {c})
    case Rebaselined(m, candidate) =>
      && MayRebaseline(w.graph, w.tip, m)
      && v == w.(frozen := Frozen(m, w.frozen.terms), based := true,
                 bindings := RepairedRows(w.bindings, candidate, Some(m), None))
    case Rebound(terms, candidate) =>
      v == w.(frozen := Frozen(w.frozen.baseline, terms),
              bindings := RepairedRows(w.bindings, candidate, None, Some(terms)))
  }

  /** The repairs move the baseline to the integration ref, or to a merge base with it. */
  ghost predicate MayRebaseline(g: Graph, tip: Sha, m: Sha) {
    m in g && Reaches(g, tip, m)
  }

  /** The analysis that finds a stale baseline proposes such a commit. */
  lemma {:induction false} StaleAnalysisMayRebaseline(
    git: Baseline.Git, g: Graph, candidate: Sha, baseline: Sha, tip: Sha)
    requires Sound(g) && Baseline.Truthful(git, g) && git.integration == Some(tip) && tip in g
    requires Baseline.ExpectedRefusal(git, Some(candidate), Some(baseline)).None?
    ensures Baseline.ExpectedMergeBase(git, candidate, baseline).Some?
    ensures MayRebaseline(g, tip, Baseline.ExpectedMergeBase(git, candidate, baseline).value)
  {
    ReachesStaysStored(g, tip, Baseline.ExpectedMergeBase(git, candidate, baseline).value);
  }

  /** The frozen baseline is older than every candidate: it is stored before the first one is recorded. */
  ghost predicate Initial(w: World) {
    && Sound(w.graph) && w.frozen.baseline in w.graph && w.tip in w.graph
    && w.candidates == {} && w.ours == {} && OnePerCandidate(w.bindings)
  }

  ghost predicate StepAt(ws: seq<World>, es: seq<Event>, i: nat)
    requires i < |es| && |ws| == |es| + 1
  {
    Step(ws[i], es[i], ws[i + 1])
  }

  ghost predicate IsRun(ws: seq<World>, es: seq<Event>) {
    |ws| == |es| + 1 && Initial(ws[0]) && forall i: nat :: i < |es| ==> StepAt(ws, es, i)
  }

  // ---------------------------------------------------------------------------------------------------------------
  // No hidden work
  // ---------------------------------------------------------------------------------------------------------------

  /** A baseline contains none of the task's candidates; when `repaired`, none but integrated ones. */
  ghost predicate SafeBaseline(w: World, baseline: Sha, repaired: bool) {
    && baseline in w.graph
    && forall o :: o in w.candidates ==>
         o in w.graph && (Reaches(w.graph, baseline, o) ==> repaired && Reaches(w.graph, w.tip, o))
  }

  lemma {:induction false} SafeAlike(w: World, v: World, repaired: bool)
    requires v.graph == w.graph && v.tip == w.tip && v.candidates == w.candidates
    ensures forall b :: SafeBaseline(v, b, repaired) <==> SafeBaseline(w, b, repaired)
  {
  }

  ghost predicate Invariant(w: World, repaired: bool) {
    && Sound(w.graph) && w.tip in w.graph && SafeBaseline(w, w.frozen.baseline, repaired)
    && (forall c :: c in w.ours ==> Find(w.bindings, c).Some?)
    && forall b :: b in w.bindings && b.candidate in w.ours ==>
         b.baseline.Some? && SafeBaseline(w, b.baseline.value, repaired)
  }

  ghost function Grown(w: World, c: Sha, parents: seq<Sha>, candidates: set<Sha>): World {
    w.(graph := w.graph[c := parents], candidates := candidates)
  }

  ghost predicate CanGrow(w: World, c: Sha, parents: seq<Sha>, candidates: set<Sha>) {
    && c !in w.graph && (forall p :: p in parents ==> p in w.graph)
    && (candidates == w.candidates || candidates == w.candidates + {c})
  }

  lemma {:induction false} GrowthKeepsSafe(
    w: World, c: Sha, parents: seq<Sha>, candidates: set<Sha>, baseline: Sha, repaired: bool)
    requires Sound(w.graph) && w.tip in w.graph && SafeBaseline(w, baseline, repaired) && CanGrow(w, c, parents, candidates)
    ensures SafeBaseline(Grown(w, c, parents, candidates), baseline, repaired)
  {
    var grown := w.graph[c := parents];
    AddingKeepsSound(w.graph, c, parents);
    forall o | o in candidates
      ensures o in grown && (Reaches(grown, baseline, o) ==> repaired && Reaches(grown, w.tip, o))
    {
      ReachesStable(w.graph, grown, baseline, o);
      ReachesStable(w.graph, grown, w.tip, o);
      if o == c && Reaches(w.graph, baseline, c) {
        ReachesStaysStored(w.graph, baseline, c);
        assert false;
      }
    }
  }

  lemma {:induction false} GrowthKeepsInvariant(
    w: World, c: Sha, parents: seq<Sha>, candidates: set<Sha>, repaired: bool)
    requires Invariant(w, repaired) && CanGrow(w, c, parents, candidates)
    ensures Invariant(Grown(w, c, parents, candidates), repaired)
  {
    AddingKeepsSound(w.graph, c, parents);
    GrowthKeepsSafe(w, c, parents, candidates, w.frozen.baseline, repaired);
    forall b | b in w.bindings && b.candidate in w.ours
      ensures SafeBaseline(Grown(w, c, parents, candidates), b.baseline.value, repaired)
    {
      GrowthKeepsSafe(w, c, parents, candidates, b.baseline.value, repaired);
    }
  }

  lemma {:induction false} IntegrationKeepsInvariant(w: World, tip: Sha, repaired: bool)
    requires Invariant(w, repaired) && tip in w.graph && Reaches(w.graph, tip, w.tip)
    ensures Invariant(w.(tip := tip), repaired)
  {
    forall o | Reaches(w.graph, w.tip, o)
      ensures Reaches(w.graph, tip, o)
    {
      ReachesTransitive(w.graph, tip, w.tip, o);
    }
    assert forall b :: SafeBaseline(w, b, repaired) ==> SafeBaseline(w.(tip := tip), b, repaired);
  }

  lemma {:induction false} InsertionKeepsInvariant(w: World, b: Binding, repaired: bool)
    requires Invariant(w, repaired)
    ensures Invariant(w.(bindings := Inserted(w.bindings, b)), repaired)
  {
    var v := w.(bindings := Inserted(w.bindings, b));
    SafeAlike(w, v, repaired);
    forall c | c in w.ours
      ensures Find(v.bindings, c).Some?
    {
      if Find(w.bindings, b.candidate).None? {
        FindKept(w.bindings, b, c);
      }
    }
  }

  lemma {:induction false} FrozenBindingIsSafe(git: Ancestry, w: World, c: Sha, bound: Binding, repaired: bool)
    requires Invariant(w, repaired) && Faithful(git, w.graph)
    requires FrozenBinding(git, w.candidates, w.bindings, w.frozen, w.based, c, bound)
    ensures bound.candidate == c && bound.baseline.Some? && SafeBaseline(w, bound.baseline.value, repaired)
  {
    if bound.baseline != Some(w.frozen.baseline) {
      InheritedIsSafe(git, w.graph, w.candidates, RowsOf(w.bindings), c, bound.baseline.value);
    }
  }

  lemma {:induction false} CallKeepsInvariant(w: World, bound: Binding, repaired: bool)
    requires Invariant(w, repaired) && Find(w.bindings, bound.candidate).None?
    requires bound.baseline.Some? && SafeBaseline(w, bound.baseline.value, repaired)
    ensures Invariant(w.(bindings := w.bindings + [bound], ours := w.ours + {bound.candidate}), repaired)
  {
    var v := w.(bindings := w.bindings + [bound], ours := w.ours + {bound.candidate});
    SafeAlike(w, v, repaired);
    FindAppended(w.bindings, bound.candidate);
    forall c | c in w.ours
      ensures Find(w.bindings + [bound], c).Some?
    {
      FindKept(w.bindings, bound, c);
    }
  }

  /** Everything that a commit of the integration ref contains is integrated. */
  lemma {:induction false} IntegratedIsSafe(w: World, m: Sha)
    requires Invariant(w, true) && MayRebaseline(w.graph, w.tip, m)
    ensures SafeBaseline(w, m, true)
  {
    forall o | o in w.candidates && Reaches(w.graph, m, o)
      ensures Reaches(w.graph, w.tip, o)
    {
      ReachesTransitive(w.graph, w.tip, m, o);
    }
  }

  lemma {:induction false} RowBeforeRepair(
    bindings: seq<Binding>, candidate: Option<Sha>, baseline: Option<Sha>, terms: Option<Terms>, b: Binding)
    returns (was: Binding)
    requires b in RepairedRows(bindings, candidate, baseline, terms)
    ensures was in bindings && was.candidate == b.candidate
    ensures b.baseline == was.baseline || (baseline.Some? && b.baseline == baseline)
  {
    var i :| 0 <= i < |bindings| && RepairedRows(bindings, candidate, baseline, terms)[i] == b;
    was := bindings[i];
  }

  lemma {:induction false} RepairKeepsInvariant(
    w: World, frozen: Frozen, based: bool, candidate: Option<Sha>, baseline: Option<Sha>, terms: Option<Terms>,
    repaired: bool)
    requires Invariant(w, repaired) && SafeBaseline(w, frozen.baseline, repaired)
    requires baseline.Some? ==> SafeBaseline(w, baseline.value, repaired)
    ensures Invariant(w.(frozen := frozen, based := based,
                         bindings := RepairedRows(w.bindings, candidate, baseline, terms)), repaired)
  {
    var rows := RepairedRows(w.bindings, candidate, baseline, terms);
    var v := w.(frozen := frozen, based := based, bindings := rows);
    SafeAlike(w, v, repaired);
    forall c | c in w.ours
      ensures Find(rows, c).Some?
    {
      FindRepaired(w.bindings, candidate, baseline, terms, c);
    }
    forall b | b in rows && b.candidate in w.ours
      ensures b.baseline.Some? && SafeBaseline(v, b.baseline.value, repaired)
    {
      var was := RowBeforeRepair(w.bindings, candidate, baseline, terms, b);
    }
  }

  lemma {:induction false} StepKeepsInvariant(w: World, e: Event, v: World, repaired: bool)
    requires Invariant(w, repaired) && Step(w, e, v) && (e.Rebaselined? ==> repaired)
    ensures Invariant(v, repaired)
  {
    match e
    case NewCommit(c, parents) => GrowthKeepsInvariant(w, c, parents, w.candidates, repaired);
    case NewCandidate(c, parents) => GrowthKeepsInvariant(w, c, parents, w.candidates + {c}, repaired);
    case Integrated(tip) => IntegrationKeepsInvariant(w, tip, repaired);
    case ExternalBinding(b) => InsertionKeepsInvariant(w, b, repaired);
    case ContractCall(c, bound) =>
      if Find(w.bindings, c).None? {
        var git :| Faithful(git, w.graph)
          && FrozenBinding(git, w.candidates, w.bindings, w.frozen, w.based, c, bound);
        FrozenBindingIsSafe(git, w, c, bound, repaired);
        CallKeepsInvariant(w, bound, repaired);
      }
    case Rebaselined(m, candidate) =>
      IntegratedIsSafe(w, m);
      RepairKeepsInvariant(w, Frozen(m, w.frozen.terms), true, candidate, Some(m), None, repaired);
    case Rebound(terms, candidate) =>
      RepairKeepsInvariant(
        w, Frozen(w.frozen.baseline, terms), w.based, candidate, None, Some(terms), repaired);
  }

  lemma {:induction false} RunKeepsInvariant(ws: seq<World>, es: seq<Event>, i: nat, repaired: bool)
    requires IsRun(ws, es) && i < |ws|
    requires forall k :: 0 <= k < i && es[k].Rebaselined? ==> repaired
    ensures Invariant(ws[i], repaired)
  {
    if i > 0 {
      RunKeepsInvariant(ws, es, i - 1, repaired);
      assert StepAt(ws, es, i - 1);
      StepKeepsInvariant(ws[i - 1], es[i - 1], ws[i], repaired);
    }
  }

  /** No hidden work, in any run: every candidate of the task that a bound candidate contains is in the range that is
      diffed, or is already integrated, whenever the binding was stored or repaired and whenever the work was recorded. */
  lemma {:induction false} NoHiddenWork(ws: seq<World>, es: seq<Event>, i: nat, b: Binding, own: Sha)
    requires IsRun(ws, es) && i < |ws|
    requires b in ws[i].bindings && b.candidate in ws[i].ours && own in ws[i].candidates
    ensures b.baseline.Some?
    ensures Reaches(ws[i].graph, b.candidate, own) ==>
      InRange(ws[i].graph, b.baseline.value, b.candidate, own) || Reaches(ws[i].graph, ws[i].tip, own)
  {
    RunKeepsInvariant(ws, es, i, true);
  }

  /** While the baseline was not moved, all of it is in the range. */
  lemma {:induction false} NoHiddenWorkUntilRebaselined(ws: seq<World>, es: seq<Event>, i: nat, b: Binding, own: Sha)
    requires IsRun(ws, es) && i < |ws| && forall k :: 0 <= k < i ==> !es[k].Rebaselined?
    requires b in ws[i].bindings && b.candidate in ws[i].ours && own in ws[i].candidates
    ensures b.baseline.Some? && !Reaches(ws[i].graph, b.baseline.value, own)
    ensures Reaches(ws[i].graph, b.candidate, own) ==> InRange(ws[i].graph, b.baseline.value, b.candidate, own)
  {
    RunKeepsInvariant(ws, es, i, false);
  }

  // ---------------------------------------------------------------------------------------------------------------
  // Asking again
  // ---------------------------------------------------------------------------------------------------------------

  /** A binding after the repairs among `es` that name its candidate. */
  function AfterRepairs(b: Binding, es: seq<Event>): (r: Binding)
    ensures r.candidate == b.candidate
  {
    if es == [] then b
    else
      var before := AfterRepairs(b, es[..|es| - 1]);
      match es[|es| - 1]
      case Rebaselined(m, candidate) => if candidate == Some(b.candidate) then before.(baseline := Some(m)) else before
      case Rebound(terms, candidate) =>
        if candidate == Some(b.candidate) then before.(terms := terms) else before
      case _ => before
  }

  lemma {:induction false} StepKeepsRow(w: World, e: Event, v: World, b: Binding)
    requires Step(w, e, v) && Find(w.bindings, b.candidate) == Some(b)
    ensures Find(v.bindings, b.candidate) == Some(AfterRepairs(b, [e]))
  {
    assert [e][..0] == [] && AfterRepairs(b, []) == b;
    match e
    case ExternalBinding(x) => FindKept(w.bindings, x, b.candidate);
    case ContractCall(_, x) => FindKept(w.bindings, x, b.candidate);
    case Rebaselined(m, candidate) => FindRepaired(w.bindings, candidate, Some(m), None, b.candidate);
    case Rebound(terms, candidate) => FindRepaired(w.bindings, candidate, None, Some(terms), b.candidate);
    case _ =>
  }

  lemma {:induction false} OneMoreRepair(b: Binding, es: seq<Event>, e: Event)
    ensures AfterRepairs(b, es + [e]) == AfterRepairs(AfterRepairs(b, es), [e])
  {
    assert (es + [e])[..|es + [e]| - 1] == es;
    assert [e][..0] == [];
  }

  lemma {:induction false} CallStoresBinding(w: World, c: Sha, bound: Binding, v: World)
    requires Step(w, ContractCall(c, bound), v)
    ensures bound.candidate == c && Find(v.bindings, c) == Some(bound)
  {
    if Find(w.bindings, c).None? {
      FindAppended(w.bindings, c);
    }
  }

  lemma {:induction false} RowOneMoreStep(w: World, e: Event, v: World, b: Binding, es: seq<Event>)
    requires Step(w, e, v) && Find(w.bindings, b.candidate) == Some(AfterRepairs(b, es))
    ensures Find(v.bindings, b.candidate) == Some(AfterRepairs(b, es + [e]))
  {
    StepKeepsRow(w, e, v, AfterRepairs(b, es));
    OneMoreRepair(b, es, e);
  }

  lemma {:induction false} SliceGrows(es: seq<Event>, i: nat, j: nat)
    requires i < j <= |es|
    ensures es[i..j] == es[i..j - 1] + [es[j - 1]]
  {
  }

  lemma {:induction false} RowAfterRepairs(ws: seq<World>, es: seq<Event>, i: nat, j: nat)
    requires IsRun(ws, es) && i < |es| && es[i].ContractCall? && i < j <= |es|
    ensures Find(ws[j].bindings, es[i].candidate) == Some(AfterRepairs(es[i].bound, es[i + 1..j]))
    decreases j
  {
    assert StepAt(ws, es, j - 1);
    if j == i + 1 {
      CallStoresBinding(ws[i], es[i].candidate, es[i].bound, ws[i + 1]);
      assert es[i + 1..j] == [];
    } else {
      RowAfterRepairs(ws, es, i, j - 1);
      RowOneMoreStep(ws[j - 1], es[j - 1], ws[j], es[i].bound, es[i + 1..j - 1]);
      SliceGrows(es, i + 1, j);
    }
  }

  /** Asking again, at any later time of any run, returns the binding that was returned first, with the repairs that were
      made to it since, and changes nothing. */
  lemma {:induction false} RepeatedCallReturnsSameBinding(ws: seq<World>, es: seq<Event>, i: nat, j: nat)
    requires IsRun(ws, es) && i < j < |es| && es[i].ContractCall? && es[j].ContractCall?
    requires es[j].candidate == es[i].candidate
    ensures es[j].bound == AfterRepairs(es[i].bound, es[i + 1..j]) && ws[j + 1] == ws[j]
  {
    RowAfterRepairs(ws, es, i, j);
    assert StepAt(ws, es, j);
  }

  lemma {:induction false} StepKeepsOnePerCandidate(w: World, e: Event, v: World)
    requires Step(w, e, v) && OnePerCandidate(w.bindings)
    ensures OnePerCandidate(v.bindings)
  {
    match e
    case ExternalBinding(b) => InsertedIsOnePerCandidate(w.bindings, b);
    case ContractCall(c, b) => InsertedIsOnePerCandidate(w.bindings, b);
    case Rebaselined(m, c) => RepairedIsOnePerCandidate(w.bindings, c, Some(m), None);
    case Rebound(terms, c) => RepairedIsOnePerCandidate(w.bindings, c, None, Some(terms));
    case _ =>
  }

  /** In every run the table has one row per candidate. */
  lemma {:induction false} RunKeepsOnePerCandidate(ws: seq<World>, es: seq<Event>, i: nat)
    requires IsRun(ws, es) && i < |ws|
    ensures OnePerCandidate(ws[i].bindings)
  {
    if i > 0 {
      RunKeepsOnePerCandidate(ws, es, i - 1);
      assert StepAt(ws, es, i - 1);
      StepKeepsOnePerCandidate(ws[i - 1], es[i - 1], ws[i]);
    }
  }
}
