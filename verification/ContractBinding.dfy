/** Which baseline a candidate is bound to: src/stagemesh/contract_binding.py for one task.

    Git is an oracle: `ancestry(older, newer)` is what `merge-base --is-ancestor` answers, None standing for an exit
    code other than 0 and 1 (a missing or unreadable object).
 */
module ContractBinding {
  import opened Prelude
  import opened CommitGraph

  type Ancestry = (Sha, Sha) -> Option<bool>

  /** `git` answers truthfully about stored objects and refuses to guess about the others. */
  ghost predicate Faithful(git: Ancestry, g: Graph) {
    forall older, newer :: git(older, newer).Some? ==>
      && older in g && newer in g
      && (git(older, newer).value <==> Reaches(g, newer, older))
  }

  /** A row of contract_bindings with a baseline, for one task. */
  datatype Row = Row(candidate: Sha, baseline: Sha)

  function IsAncestor(git: Ancestry, older: Sha, newer: Sha): Option<bool> {
    if older == newer then Some(false) else git(older, newer)
  }

  /** `any(own == baseline or is_ancestor(own, baseline) for own in owned)`, stopping at the first hit or error. */
  function Hides(git: Ancestry, owned: seq<Sha>, baseline: Sha): Option<bool> {
    if owned == [] then Some(false)
    else if owned[0] == baseline then Some(true)
    else match IsAncestor(git, owned[0], baseline)
         case None => None
         case Some(true) => Some(true)
         case Some(false) => Hides(git, owned[1..], baseline)
  }

  function Qualifies(git: Ancestry, owned: seq<Sha>, candidate: Sha, row: Row): Option<bool> {
    match IsAncestor(git, row.candidate, candidate)
    case None => None
    case Some(false) => Some(false)
    case Some(true) =>
      match IsAncestor(git, row.baseline, row.candidate)
      case None => None
      case Some(false) => Some(false)
      case Some(true) =>
        match Hides(git, owned, row.baseline)
        case None => None
        case Some(hides) => Some(!hides)
  }

  /** `row`'s candidate was built on the candidate of every row of `rows`. */
  function BuiltOnAll(git: Ancestry, rows: seq<Row>, row: Row): Option<bool> {
    if rows == [] then Some(true)
    else if rows[0].candidate == row.candidate then BuiltOnAll(git, rows[1..], row)
    else match IsAncestor(git, rows[0].candidate, row.candidate)
         case None => None
         case Some(false) => Some(false)
         case Some(true) => BuiltOnAll(git, rows[1..], row)
  }

  predicate IsLeast(s: set<Sha>, least: Sha) {
    least in s && forall x :: x in s ==> least <= x
  }

  /** The ids of a set in ascending order. */
  function Sorted(s: set<Sha>): (r: seq<Sha>)
    ensures forall x :: x in r <==> x in s
    ensures forall i, j :: 0 <= i < j < |r| ==> r[i] < r[j]
  {
    if s == {} then []
    else
      LeastExists(s);
      var least :| least in s && IsLeast(s, least);
      [least] + Sorted(s - {least})
  }

  lemma {:induction false} LeastExists(s: set<Sha>)
    requires s != {}
    ensures exists least :: IsLeast(s, least)
    decreases |s|
  {
    var x :| x in s;
    var rest := s - {x};
    var least := x;
    if rest != {} {
      LeastExists(rest);
      var y :| IsLeast(rest, y);
      least := if x < y then x else y;
    }
    forall z | z in s
      ensures least <= z
    {
      assert z == x || z in rest;
    }
    assert IsLeast(s, least);
  }

  function Owned(candidates: set<Sha>, rows: seq<Row>): seq<Sha> {
    Sorted(candidates + set row | row in rows :: row.candidate)
  }

  // ---------------------------------------------------------------------------------------------------------------
  // The choice of the inherited baseline
  // ---------------------------------------------------------------------------------------------------------------

  /** Git says that `older` is an ancestor of `newer`, another commit. */
  ghost predicate Precedes(git: Ancestry, older: Sha, newer: Sha) {
    older != newer && git(older, newer) == Some(true)
  }

  /** A binding qualifies: its candidate precedes this one, its baseline precedes its own candidate, and none of the
      task's candidates is the baseline or precedes it. */
  ghost predicate Qualifying(git: Ancestry, owned: seq<Sha>, candidate: Sha, row: Row) {
    && Precedes(git, row.candidate, candidate) && Precedes(git, row.baseline, row.candidate)
    && forall i :: 0 <= i < |owned| ==> owned[i] != row.baseline && git(owned[i], row.baseline) == Some(false)
  }

  /** A call that has to be made to find that out fails: about the candidates, about the baseline, or about one of the
      task's candidates when none before it was in the baseline. */
  ghost predicate Undecided(git: Ancestry, owned: seq<Sha>, candidate: Sha, row: Row) {
    || (row.candidate != candidate && git(row.candidate, candidate).None?)
    || (Precedes(git, row.candidate, candidate) && row.baseline != row.candidate && git(row.baseline, row.candidate).None?)
    || (&& Precedes(git, row.candidate, candidate) && Precedes(git, row.baseline, row.candidate)
        && HiddenUndecided(git, owned, row.baseline))
  }

  ghost predicate HiddenUndecided(git: Ancestry, owned: seq<Sha>, baseline: Sha) {
    exists i: nat :: i < |owned| && UndecidedAt(git, owned, baseline, i)
  }

  ghost predicate UndecidedAt(git: Ancestry, owned: seq<Sha>, baseline: Sha, i: nat)
    requires i < |owned|
  {
    && owned[i] != baseline && git(owned[i], baseline).None?
    && forall j :: 0 <= j < i ==> owned[j] != baseline && git(owned[j], baseline) == Some(false)
  }

  lemma {:induction false} HidesMeans(git: Ancestry, owned: seq<Sha>, baseline: Sha)
    ensures Hides(git, owned, baseline).None? <==> HiddenUndecided(git, owned, baseline)
    ensures Hides(git, owned, baseline) == Some(false) <==>
      forall i :: 0 <= i < |owned| ==> owned[i] != baseline && git(owned[i], baseline) == Some(false)
  {
    if owned != [] {
      var rest := owned[1..];
      HidesMeans(git, rest, baseline);
      if owned[0] != baseline && git(owned[0], baseline) == Some(false) {
        if i: nat :| i < |rest| && UndecidedAt(git, rest, baseline, i) {
          assert UndecidedAt(git, owned, baseline, i + 1);
        }
        if i: nat :| i < |owned| && UndecidedAt(git, owned, baseline, i) {
          assert forall j :: 0 <= j < i - 1 ==> rest[j] == owned[j + 1];
          assert UndecidedAt(git, rest, baseline, i - 1);
        }
        assert forall i :: 0 <= i < |rest| ==> rest[i] == owned[i + 1];
      } else if owned[0] != baseline && git(owned[0], baseline).None? {
        assert UndecidedAt(git, owned, baseline, 0);
      }
    }
  }

  lemma {:induction false} QualifiesMeans(git: Ancestry, owned: seq<Sha>, candidate: Sha, row: Row)
    ensures Qualifies(git, owned, candidate, row).None? <==> Undecided(git, owned, candidate, row)
    ensures Qualifies(git, owned, candidate, row) == Some(true) <==> Qualifying(git, owned, candidate, row)
  {
    HidesMeans(git, owned, row.baseline);
  }

  /** No git call about a row fails. */
  ghost predicate AllDecided(git: Ancestry, owned: seq<Sha>, candidate: Sha, rows: seq<Row>) {
    forall row :: row in rows ==> !Undecided(git, owned, candidate, row)
  }

  ghost function QualifyingRows(git: Ancestry, owned: seq<Sha>, candidate: Sha, rows: seq<Row>): set<Row> {
    set row | row in rows && Qualifying(git, owned, candidate, row)
  }

  /** `row` was built on `other`: same candidate, or a descendant of it. */
  ghost predicate BuiltOn(git: Ancestry, row: Row, other: Row) {
    other.candidate == row.candidate || Precedes(git, other.candidate, row.candidate)
  }

  /** Git refused to compare the two candidates. */
  ghost predicate Refused(git: Ancestry, row: Row, other: Row) {
    other.candidate != row.candidate && git(other.candidate, row.candidate) == None
  }

  /** The binding that descends from all the others. */
  ghost predicate Newest(git: Ancestry, q: set<Row>, row: Row) {
    row in q && forall other :: other in q ==> BuiltOn(git, row, other)
  }

  /** The rule: the baseline all qualifying bindings agree on, or the one of the newest of them. */
  ghost predicate Chosen(git: Ancestry, q: set<Row>, baseline: Sha) {
    && q != {}
    && (|| (forall row :: row in q ==> row.baseline == baseline)
        || (exists row :: Newest(git, q, row) && row.baseline == baseline))
  }

  ghost predicate Inherits(git: Ancestry, owned: seq<Sha>, candidate: Sha, rows: seq<Row>, baseline: Sha) {
    && AllDecided(git, owned, candidate, rows)
    && Chosen(git, QualifyingRows(git, owned, candidate, rows), baseline)
  }

  ghost predicate Comparable(git: Ancestry, q: set<Row>) {
    forall r, s :: r in q && s in q ==> !Refused(git, r, s)
  }

  lemma {:induction false} BuiltOnAllMeans(git: Ancestry, rows: seq<Row>, row: Row)
    ensures BuiltOnAll(git, rows, row) == Some(true) ==> forall r :: r in rows ==> BuiltOn(git, row, r)
    ensures BuiltOnAll(git, rows, row) == Some(false) ==> exists r :: r in rows && !BuiltOn(git, row, r)
    ensures BuiltOnAll(git, rows, row) == None ==> exists r :: r in rows && Refused(git, row, r)
  {
    if rows != [] {
      BuiltOnAllMeans(git, rows[1..], row);
      assert rows[0] in rows;
    }
  }

  /** The first loop; None when a git call fails. */
  method GatherQualifying(git: Ancestry, owned: seq<Sha>, candidate: Sha, rows: seq<Row>) returns (q: Option<seq<Row>>)
    ensures q.Some? <==> AllDecided(git, owned, candidate, rows)
    ensures q.Some? ==> Elements(q.value) == QualifyingRows(git, owned, candidate, rows)
  {
    var qualifying: seq<Row> := [];
    for i := 0 to |rows|
      invariant forall k :: 0 <= k < i ==> !Undecided(git, owned, candidate, rows[k])
      invariant forall r :: r in qualifying ==> r in rows && Qualifying(git, owned, candidate, r)
      invariant forall k :: 0 <= k < i && Qualifying(git, owned, candidate, rows[k]) ==> rows[k] in qualifying
    {
      QualifiesMeans(git, owned, candidate, rows[i]);
      match Qualifies(git, owned, candidate, rows[i]) {
        case None => return None;
        case Some(yes) =>
          if yes {
            qualifying := qualifying + [rows[i]];
          }
      }
    }
    return Some(qualifying);
  }

  /** The choice among the gathered bindings. */
  method Choose(git: Ancestry, qualifying: seq<Row>) returns (baseline: Option<Sha>)
    ensures baseline.Some? ==> Chosen(git, Elements(qualifying), baseline.value)
    ensures baseline.None? && Comparable(git, Elements(qualifying)) ==>
      forall b :: !Chosen(git, Elements(qualifying), b)
  {
    ghost var q := Elements(qualifying);
    if qualifying == [] {
      return None;
    }
    assert qualifying[0] in q;
    if forall r :: r in qualifying ==> r.baseline == qualifying[0].baseline {
      return Some(qualifying[0].baseline);
    }
    for i := 0 to |qualifying|
      invariant forall k :: 0 <= k < i ==> !Newest(git, q, qualifying[k])
    {
      BuiltOnAllMeans(git, qualifying, qualifying[i]);
      match BuiltOnAll(git, qualifying, qualifying[i]) {
        case None => return None;
        case Some(yes) =>
          if yes {
            assert Newest(git, q, qualifying[i]);
            return Some(qualifying[i].baseline);
          }
      }
    }
    return None;
  }

  /** Git answers every question about stored objects, and no other. */
  ghost predicate Exact(git: Ancestry, g: Graph) {
    forall older, newer ::
      git(older, newer) == if older in g && newer in g then Some(Reaches(g, newer, older)) else None
  }

  /** All the task's commits are stored. */
  ghost predicate AllStored(g: Graph, candidates: set<Sha>, rows: seq<Row>, candidate: Sha) {
    && candidate in g && (forall c :: c in candidates ==> c in g)
    && forall row :: row in rows ==> row.candidate in g && row.baseline in g
  }

  /** The docstring's conditions, on the commit graph. */
  ghost predicate QualifiesOnGraph(g: Graph, candidates: set<Sha>, rows: seq<Row>, candidate: Sha, row: Row) {
    && row in rows
    && StrictAncestor(g, row.candidate, candidate) && StrictAncestor(g, row.baseline, row.candidate)
    && (forall o :: o in candidates ==> !Reaches(g, row.baseline, o))
    && forall other :: other in rows ==> !Reaches(g, row.baseline, other.candidate)
  }

  ghost predicate NewestOnGraph(g: Graph, candidates: set<Sha>, rows: seq<Row>, candidate: Sha, row: Row) {
    && QualifiesOnGraph(g, candidates, rows, candidate, row)
    && forall other :: QualifiesOnGraph(g, candidates, rows, candidate, other) ==>
         Reaches(g, row.candidate, other.candidate)
  }

  /** Some binding qualifies, and `baseline` is that of all of them or of the one that descends from all others. */
  ghost predicate InheritsOnGraph(g: Graph, candidates: set<Sha>, rows: seq<Row>, candidate: Sha, baseline: Sha) {
    && (exists row :: QualifiesOnGraph(g, candidates, rows, candidate, row))
    && (|| (forall row :: QualifiesOnGraph(g, candidates, rows, candidate, row) ==> row.baseline == baseline)
        || (exists row :: NewestOnGraph(g, candidates, rows, candidate, row) && row.baseline == baseline))
  }

  lemma {:induction false} QualifiesOnGraphExactlyWhen(
    git: Ancestry, g: Graph, candidates: set<Sha>, rows: seq<Row>, candidate: Sha, row: Row)
    requires Exact(git, g) && AllStored(g, candidates, rows, candidate) && row in rows
    ensures !Undecided(git, Owned(candidates, rows), candidate, row)
    ensures Qualifying(git, Owned(candidates, rows), candidate, row)
       <==> QualifiesOnGraph(g, candidates, rows, candidate, row)
  {
    var owned := Owned(candidates, rows);
    forall o
      ensures o in owned <==> o in candidates || exists other :: other in rows && other.candidate == o
    {
    }
    assert forall i :: 0 <= i < |owned| ==> owned[i] in owned;
    ReachesSelf(g, row.baseline);
    if QualifiesOnGraph(g, candidates, rows, candidate, row) {
      forall i | 0 <= i < |owned|
        ensures owned[i] != row.baseline && git(owned[i], row.baseline) == Some(false)
      {
        assert owned[i] in owned;
      }
    }
    if Qualifying(git, owned, candidate, row) {
      forall o | o in owned
        ensures !Reaches(g, row.baseline, o)
      {
        var i :| 0 <= i < |owned| && owned[i] == o;
      }
      assert forall other :: other in rows ==> other.candidate in owned;
    }
  }

  /** With a git that answers, the rule is the docstring's, on the commit graph. */
  lemma {:induction false} InheritsExactlyWhen(
    git: Ancestry, g: Graph, candidates: set<Sha>, rows: seq<Row>, candidate: Sha, baseline: Sha)
    requires Exact(git, g) && AllStored(g, candidates, rows, candidate)
    ensures Inherits(git, Owned(candidates, rows), candidate, rows, baseline)
       <==> InheritsOnGraph(g, candidates, rows, candidate, baseline)
    ensures Comparable(git, QualifyingRows(git, Owned(candidates, rows), candidate, rows))
  {
    var owned := Owned(candidates, rows);
    var q := QualifyingRows(git, owned, candidate, rows);
    forall row
      ensures row in q <==> QualifiesOnGraph(g, candidates, rows, candidate, row)
      ensures row in rows ==> !Undecided(git, owned, candidate, row)
    {
      if row in rows {
        QualifiesOnGraphExactlyWhen(git, g, candidates, rows, candidate, row);
      }
    }
    forall row, other | row in q && other in q
      ensures BuiltOn(git, row, other) <==> Reaches(g, row.candidate, other.candidate)
    {
      ReachesSelf(g, row.candidate);
    }
    forall row
      ensures Newest(git, q, row) <==> NewestOnGraph(g, candidates, rows, candidate, row)
    {
    }
  }

  /** The rule as git's answers decide it, and, when git answers, as the commit graph does. */
  method InheritedBaseline(git: Ancestry, candidates: set<Sha>, rows: seq<Row>, candidate: Sha)
    returns (baseline: Option<Sha>)
    ensures baseline.Some? ==> Inherits(git, Owned(candidates, rows), candidate, rows, baseline.value)
    ensures baseline.None? && Comparable(git, QualifyingRows(git, Owned(candidates, rows), candidate, rows)) ==>
      forall b :: !Inherits(git, Owned(candidates, rows), candidate, rows, b)
    ensures forall g :: Exact(git, g) && AllStored(g, candidates, rows, candidate) ==>
      match baseline
      case Some(b) => InheritsOnGraph(g, candidates, rows, candidate, b)
      case None => forall b :: !InheritsOnGraph(g, candidates, rows, candidate, b)
  {
    forall g, b | Exact(git, g) && AllStored(g, candidates, rows, candidate)
      ensures Inherits(git, Owned(candidates, rows), candidate, rows, b)
         <==> InheritsOnGraph(g, candidates, rows, candidate, b)
      ensures Comparable(git, QualifyingRows(git, Owned(candidates, rows), candidate, rows))
    {
      InheritsExactlyWhen(git, g, candidates, rows, candidate, b);
    }
    var owned := Owned(candidates, rows);
    var gathered := GatherQualifying(git, owned, candidate, rows);
    if gathered.None? {
      return None;
    }
    baseline := Choose(git, gathered.value);
  }

  /** `readable` are the objects git can open: it answers exactly about those. */
  ghost predicate AnswersAbout(git: Ancestry, readable: set<Sha>) {
    forall a, b :: git(a, b).Some? <==> a in readable && b in readable
  }

  /** With a fixed set of readable objects the second pass never fails, so None means that nothing is inherited. */
  lemma {:induction false} ReadableMeansComparable(
    git: Ancestry, readable: set<Sha>, owned: seq<Sha>, candidate: Sha, rows: seq<Row>)
    requires AnswersAbout(git, readable)
    ensures Comparable(git, QualifyingRows(git, owned, candidate, rows))
  {
    forall r | r in QualifyingRows(git, owned, candidate, rows)
      ensures r.candidate in readable
    {
      assert git(r.candidate, candidate).Some?;
    }
  }

  /** Fail-closed: an inherited baseline is a strict ancestor of the candidate, and contains none of the task's own
      candidates. */
  lemma {:induction false} InheritedIsSafe(
    git: Ancestry, g: Graph, candidates: set<Sha>, rows: seq<Row>, candidate: Sha, baseline: Sha)
    requires Sound(g) && Faithful(git, g)
    requires Inherits(git, Owned(candidates, rows), candidate, rows, baseline)
    ensures baseline in g && StrictAncestor(g, baseline, candidate)
    ensures forall o :: o in candidates || (exists row :: row in rows && row.candidate == o) ==>
      !Reaches(g, baseline, o)
  {
    var owned := Owned(candidates, rows);
    var q := QualifyingRows(git, owned, candidate, rows);
    var row :| row in q && row.baseline == baseline;
    forall o | o in owned
      ensures !Reaches(g, baseline, o)
    {
      var i :| 0 <= i < |owned| && owned[i] == o;
      assert git(owned[i], baseline) == Some(false);
    }
    ReachesTransitive(g, candidate, row.candidate, baseline);
    if baseline == candidate {
      ReachesAntisymmetric(g, candidate, row.candidate);
      assert false;
    }
  }

  /** The answer does not depend on the order of the rows. */
  lemma {:induction false} OrderDoesNotMatter(
    git: Ancestry, candidates: set<Sha>, rows: seq<Row>, shuffled: seq<Row>, candidate: Sha, baseline: Sha)
    requires Elements(rows) == Elements(shuffled)
    ensures Owned(candidates, rows) == Owned(candidates, shuffled)
    ensures Inherits(git, Owned(candidates, rows), candidate, rows, baseline)
       <==> Inherits(git, Owned(candidates, shuffled), candidate, shuffled, baseline)
  {
    assert forall r :: r in rows <==> r in Elements(rows);
    assert forall r :: r in shuffled <==> r in Elements(shuffled);
    assert (set r | r in rows :: r.candidate) == (set r | r in shuffled :: r.candidate);
    assert QualifyingRows(git, Owned(candidates, rows), candidate, rows)
        == QualifyingRows(git, Owned(candidates, shuffled), candidate, shuffled);
  }

  /** At most one binding descends from all the others. */
  lemma {:induction false} NewestIsUnique(git: Ancestry, g: Graph, q: set<Row>, a: Row, b: Row)
    requires Sound(g) && Faithful(git, g)
    requires forall r, s :: r in q && s in q && r.candidate == s.candidate ==> r == s
    requires Newest(git, q, a) && Newest(git, q, b)
    ensures a == b
  {
    assert BuiltOn(git, a, b) && BuiltOn(git, b, a);
    if a.candidate != b.candidate {
      ReachesAntisymmetric(g, a.candidate, b.candidate);
      assert false;
    }
  }

  /** The inherited baseline is determined, and when the qualifying bindings disagree there is one exactly when one of
      them descends from all the others; it is then that binding's. */
  lemma {:induction false} InheritedIsDetermined(git: Ancestry, g: Graph, q: set<Row>, b: Sha, c: Sha)
    requires Sound(g) && Faithful(git, g)
    requires forall r, s :: r in q && s in q && r.candidate == s.candidate ==> r == s
    requires Chosen(git, q, b) && Chosen(git, q, c)
    ensures b == c
    ensures (exists r, s :: r in q && s in q && r.baseline != s.baseline) ==>
      exists row :: Newest(git, q, row) && row.baseline == b
  {
    var r :| r in q;
    if m, n :| Newest(git, q, m) && m.baseline == b && Newest(git, q, n) && n.baseline == c {
      NewestIsUnique(git, g, q, m, n);
    }
  }

  // ---------------------------------------------------------------------------------------------------------------
  // Binding candidates, over any run
  // ---------------------------------------------------------------------------------------------------------------

  /** A contract's version, digest and canonical text. */
  type Terms = nat

  datatype Binding = Binding(candidate: Sha, baseline: Option<Sha>, terms: Terms)

  datatype Frozen = Frozen(baseline: Sha, terms: Terms)

  /** The rows with a baseline, in the order they were stored. */
  function RowsOf(bindings: seq<Binding>): (rows: seq<Row>)
    ensures forall row :: row in rows ==> exists b :: b in bindings && b.candidate == row.candidate
    ensures forall b :: b in bindings && b.baseline.Some? ==> Row(b.candidate, b.baseline.value) in rows
  {
    if bindings == [] then []
    else
      var rest := RowsOf(bindings[1..]);
      match bindings[0].baseline
      case None => rest
      case Some(b) => [Row(bindings[0].candidate, b)] + rest
  }

  function Find(bindings: seq<Binding>, candidate: Sha): (r: Option<Binding>)
    ensures r.Some? ==> r.value in bindings && r.value.candidate == candidate
    ensures r.None? ==> forall b :: b in bindings ==> b.candidate != candidate
  {
    if bindings == [] then None
    else if bindings[0].candidate == candidate then Some(bindings[0])
    else Find(bindings[1..], candidate)
  }

  /** INSERT OR IGNORE into a table that is unique on (task, candidate). */
  function Inserted(bindings: seq<Binding>, b: Binding): seq<Binding> {
    if Find(bindings, b.candidate).Some? then bindings else bindings + [b]
  }

  /** A repair replaces the baseline or the terms of one row, if it is there. */
  function Repaired(b: Binding, baseline: Option<Sha>, terms: Option<Terms>): Binding {
    Binding(
      b.candidate, if baseline.Some? then baseline else b.baseline, if terms.Some? then terms.value else b.terms)
  }

  function RepairedRows(
    bindings: seq<Binding>, candidate: Option<Sha>, baseline: Option<Sha>, terms: Option<Terms>): (r: seq<Binding>)
    ensures |r| == |bindings|
    ensures forall i :: 0 <= i < |r| ==>
      r[i] == if Some(bindings[i].candidate) == candidate then Repaired(bindings[i], baseline, terms) else bindings[i]
  {
    if bindings == [] then []
    else
      [if Some(bindings[0].candidate) == candidate then Repaired(bindings[0], baseline, terms) else bindings[0]]
      + RepairedRows(bindings[1..], candidate, baseline, terms)
  }

  /** What the inherited-baseline query may answer. */
  ghost predicate InheritedAnswer(
    git: Ancestry, candidates: set<Sha>, rows: seq<Row>, candidate: Sha, answer: Option<Sha>)
  {
    var owned := Owned(candidates, rows);
    && (answer.Some? ==> Inherits(git, owned, candidate, rows, answer.value))
    && (answer.None? && Comparable(git, QualifyingRows(git, owned, candidate, rows)) ==>
         forall b :: !Inherits(git, owned, candidate, rows, b))
  }

  /** The binding of a candidate that has none yet, on the frozen-contract path. */
  ghost predicate FrozenBinding(
    git: Ancestry, candidates: set<Sha>, bindings: seq<Binding>, frozen: Frozen, hasTaskBaseline: bool,
    candidate: Sha, bound: Binding)
  {
    exists answer: Option<Sha> ::
      && (if hasTaskBaseline then InheritedAnswer(git, candidates, RowsOf(bindings), candidate, answer) else answer.None?)
      && bound == Binding(candidate, Some(if answer.Some? then answer.value else frozen.baseline), frozen.terms)
  }

  /** The rows of one task. */
  class TaskStore {
    var frozen: Option<Frozen>
    var taskBaseline: Option<Sha>
    var candidates: set<Sha>
    var bindings: seq<Binding>

    constructor (frozen: Option<Frozen>, taskBaseline: Option<Sha>)
      ensures this.frozen == frozen && this.taskBaseline == taskBaseline && candidates == {} && bindings == []
    {
      this.frozen, this.taskBaseline := frozen, taskBaseline;
      candidates, bindings := {}, [];
    }

    method BindContract(b: Binding)
      modifies this`bindings
      ensures bindings == if exists x :: x in old(bindings) && x.candidate == b.candidate then old(bindings)
                          else old(bindings) + [b]
    {
      if Find(bindings, b.candidate).None? {
        bindings := bindings + [b];
      }
    }

    /** Moves the recorded baseline, the frozen one, and that of the candidate's binding when one is named. */
    method RebaselineTask(baseline: Sha, candidate: Option<Sha>)
      modifies this
      ensures taskBaseline == Some(baseline) && candidates == old(candidates)
      ensures frozen == if old(frozen).Some? then Some(Frozen(baseline, old(frozen).value.terms)) else None
      ensures |bindings| == |old(bindings)| && forall i :: 0 <= i < |bindings| ==>
        bindings[i] == if Some(old(bindings)[i].candidate) == candidate
                       then old(bindings)[i].(baseline := Some(baseline)) else old(bindings)[i]
      ensures bindings == RepairedRows(old(bindings), candidate, Some(baseline), None)
    {
      taskBaseline := Some(baseline);
      if frozen.Some? {
        frozen := Some(Frozen(baseline, frozen.value.terms));
      }
      bindings := RepairedRows(bindings, candidate, Some(baseline), None);
    }

    /** Replaces the frozen contract's terms, and those of the candidate's binding when one is named; a frozen contract
        that is missing is made from the recorded baseline, and without one nothing happens. */
    method RebindTaskContract(terms: Terms, candidate: Option<Sha>) returns (done: bool)
      modifies this`frozen, this`bindings
      ensures done <==> old(frozen).Some? || taskBaseline.Some?
      ensures done ==> frozen == Some(Frozen(
        if old(frozen).Some? then old(frozen).value.baseline else taskBaseline.value, terms))
      ensures done ==> |bindings| == |old(bindings)| && forall i :: 0 <= i < |bindings| ==>
        bindings[i] == if Some(old(bindings)[i].candidate) == candidate
                       then old(bindings)[i].(terms := terms) else old(bindings)[i]
      ensures done ==> bindings == RepairedRows(old(bindings), candidate, None, Some(terms))
      ensures !done ==> frozen == old(frozen) && bindings == old(bindings)
    {
      if frozen.None? && taskBaseline.None? {
        return false;
      }
      frozen := Some(Frozen(if frozen.Some? then frozen.value.baseline else taskBaseline.value, terms));
      bindings := RepairedRows(bindings, candidate, None, Some(terms));
      return true;
    }

    /** `parent` is the candidate's first parent and `parsed` the contract read from the project, None when the file
        is refused; both are used only when the task has no frozen contract. */
    method ContractForCandidate(git: Ancestry, candidate: Sha, parent: Option<Sha>, parsed: Option<Terms>)
      returns (bound: Option<Binding>)
      modifies this`bindings
      ensures Find(old(bindings), candidate).Some? ==>
        bound == Find(old(bindings), candidate) && bindings == old(bindings)
      ensures Find(old(bindings), candidate).None? && frozen.Some? ==>
        && bound.Some? && bindings == old(bindings) + [bound.value]
        && FrozenBinding(git, candidates, old(bindings), frozen.value, taskBaseline.Some?, candidate, bound.value)
      ensures Find(old(bindings), candidate).None? && frozen.None? && parsed.None? ==>
        bound.None? && bindings == old(bindings)
      ensures Find(old(bindings), candidate).None? && frozen.None? && parsed.Some? ==>
        && bound.Some? && bindings == old(bindings) + [bound.value]
        && bound.value.candidate == candidate && bound.value.terms == parsed.value
        && (taskBaseline.None? ==> bound.value.baseline == parent)
        && (taskBaseline.Some? ==> exists answer: Option<Sha> ::
             && InheritedAnswer(git, candidates, RowsOf(old(bindings)), candidate, answer)
             && bound.value.baseline == if answer.Some? then answer else taskBaseline)
      ensures bound.Some? ==> bound.value in bindings && Find(bindings, candidate) == bound
    {
      var existing := Find(bindings, candidate);
      if existing.Some? {
        return existing;
      }
      FindAppended(bindings, candidate);
      var inherited: Option<Sha> := None;
      if frozen.Some? {
        if taskBaseline.Some? {
          inherited := InheritedBaseline(git, candidates, RowsOf(bindings), candidate);
        }
        var baseline := if inherited.Some? then inherited.value else frozen.value.baseline;
        bound := Some(Binding(candidate, Some(baseline), frozen.value.terms));
        BindContract(bound.value);
        return;
      }
      if taskBaseline.Some? {
        inherited := InheritedBaseline(git, candidates, RowsOf(bindings), candidate);
      }
      var baseline := if inherited.Some? then inherited else if taskBaseline.Some? then taskBaseline else parent;
      if parsed.None? {
        return None;
      }
      bound := Some(Binding(candidate, baseline, parsed.value));
      BindContract(bound.value);
    }
  }

  /** The row that a candidate has after INSERT OR IGNORE: the old one, or else the new one. */
  lemma {:induction false} InsertedKeepsOrAdds(bindings: seq<Binding>, b: Binding, candidate: Sha)
    ensures Find(Inserted(bindings, b), candidate) ==
      if Find(bindings, candidate).Some? then Find(bindings, candidate)
      else if b.candidate == candidate then Some(b) else None
  {
    if Find(bindings, candidate).Some? {
      FindKept(bindings, b, candidate);
    } else if Find(bindings, b.candidate).None? {
      FindAppended(bindings, b.candidate);
      if b.candidate != candidate {
        FindOther(bindings, b, candidate);
      }
    }
  }

  lemma {:induction false} FindOther(bindings: seq<Binding>, b: Binding, candidate: Sha)
    requires Find(bindings, candidate).None? && b.candidate != candidate
    ensures Find(bindings + [b], candidate).None?
  {
    if bindings != [] {
      assert (bindings + [b])[1..] == bindings[1..] + [b];
      FindOther(bindings[1..], b, candidate);
    }
  }

  lemma {:induction false} FindAppended(bindings: seq<Binding>, candidate: Sha)
    requires Find(bindings, candidate).None?
    ensures forall b: Binding :: b.candidate == candidate ==> Find(bindings + [b], candidate) == Some(b)
  {
    if bindings != [] {
      FindAppended(bindings[1..], candidate);
      forall b: Binding | b.candidate == candidate
        ensures Find(bindings + [b], candidate) == Some(b)
      {
        assert (bindings + [b])[1..] == bindings[1..] + [b];
      }
    }
  }

  lemma {:induction false} FindKept(bindings: seq<Binding>, b: Binding, candidate: Sha)
    requires Find(bindings, candidate).Some?
    ensures Find(bindings + [b], candidate) == Find(bindings, candidate)
  {
    assert (bindings + [b])[1..] == bindings[1..] + [b];
    if bindings[0].candidate != candidate {
      FindKept(bindings[1..], b, candidate);
    }
  }

  lemma {:induction false} FindRepaired(
    bindings: seq<Binding>, candidate: Option<Sha>, baseline: Option<Sha>, terms: Option<Terms>, c: Sha)
    ensures Find(RepairedRows(bindings, candidate, baseline, terms), c) ==
      match Find(bindings, c)
      case None => None
      case Some(b) => Some(if Some(c) == candidate then Repaired(b, baseline, terms) else b)
  {
    if bindings != [] {
      FindRepaired(bindings[1..], candidate, baseline, terms, c);
      assert RepairedRows(bindings, candidate, baseline, terms)[1..]
          == RepairedRows(bindings[1..], candidate, baseline, terms);
    }
  }

  // ---------------------------------------------------------------------------------------------------------------
  // One row per candidate
  // ---------------------------------------------------------------------------------------------------------------

  /** The table is unique on (task, candidate). */
  ghost predicate OnePerCandidate(bindings: seq<Binding>) {
    forall i, j :: 0 <= i < j < |bindings| ==> bindings[i].candidate != bindings[j].candidate
  }

  /** Inserting or ignoring keeps it so, and so do the repairs. */
  lemma {:induction false} InsertedIsOnePerCandidate(bindings: seq<Binding>, b: Binding)
    requires OnePerCandidate(bindings)
    ensures OnePerCandidate(Inserted(bindings, b))
  {
  }

  lemma {:induction false} RepairedIsOnePerCandidate(
    bindings: seq<Binding>, candidate: Option<Sha>, baseline: Option<Sha>, terms: Option<Terms>)
    requires OnePerCandidate(bindings)
    ensures OnePerCandidate(RepairedRows(bindings, candidate, baseline, terms))
  {
    var rows := RepairedRows(bindings, candidate, baseline, terms);
    assert forall i :: 0 <= i < |rows| ==> rows[i].candidate == bindings[i].candidate;
  }

  lemma {:induction false} RowsComeFromBindings(bindings: seq<Binding>, row: Row)
    requires row in RowsOf(bindings)
    ensures exists i :: 0 <= i < |bindings| && bindings[i].candidate == row.candidate
                        && bindings[i].baseline == Some(row.baseline)
  {
    if bindings[0].candidate == row.candidate && bindings[0].baseline == Some(row.baseline) {
    } else {
      RowsComeFromBindings(bindings[1..], row);
      var i :| 0 <= i < |bindings[1..]| && bindings[1..][i].candidate == row.candidate
        && bindings[1..][i].baseline == Some(row.baseline);
      assert bindings[i + 1] == bindings[1..][i];
    }
  }

  lemma {:induction false} RowsAreOnePerCandidate(bindings: seq<Binding>, r: Row, s: Row)
    requires OnePerCandidate(bindings) && r in RowsOf(bindings) && s in RowsOf(bindings) && r.candidate == s.candidate
    ensures r == s
  {
    RowsComeFromBindings(bindings, r);
    RowsComeFromBindings(bindings, s);
  }

  /** Whatever order the rows of the table come in, the inherited baseline is the same. */
  lemma {:induction false} AnswerIsTheSameInAnyOrder(
    git: Ancestry, g: Graph, readable: set<Sha>, candidates: set<Sha>, bindings: seq<Binding>, rows: seq<Row>,
    shuffled: seq<Row>, candidate: Sha, answer: Option<Sha>, other: Option<Sha>)
    requires Sound(g) && Faithful(git, g) && AnswersAbout(git, readable) && OnePerCandidate(bindings)
    requires Elements(rows) == Elements(RowsOf(bindings)) == Elements(shuffled)
    requires InheritedAnswer(git, candidates, rows, candidate, answer)
    requires InheritedAnswer(git, candidates, shuffled, candidate, other)
    ensures answer == other
  {
    var owned := Owned(candidates, rows);
    ReadableMeansComparable(git, readable, owned, candidate, rows);
    ReadableMeansComparable(git, readable, Owned(candidates, shuffled), candidate, shuffled);
    forall b
      ensures Inherits(git, owned, candidate, rows, b)
         <==> Inherits(git, Owned(candidates, shuffled), candidate, shuffled, b)
    {
      OrderDoesNotMatter(git, candidates, rows, shuffled, candidate, b);
    }
    if answer.Some? && other.Some? {
      var q := QualifyingRows(git, owned, candidate, rows);
      forall r, s | r in q && s in q && r.candidate == s.candidate
        ensures r == s
      {
        assert r in Elements(rows) && s in Elements(rows);
        RowsAreOnePerCandidate(bindings, r, s);
      }
      InheritedIsDetermined(git, g, q, answer.value, other.value);
    }
  }
}
