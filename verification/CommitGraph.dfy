/** The commit graph: object ids with their ordered parent lists, and ancestry as the existence of a path.

    Ids are numbers, ordered as their hexadecimal text is. `Sound` is what git guarantees of a complete clone: every
    parent of a stored commit is stored, and parents are created before children (a rank witnesses that there is no cycle).
 */
module CommitGraph {

  type Sha = nat

  type Graph = map<Sha, seq<Sha>>

  ghost predicate RankedBy(g: Graph, rank: Sha -> nat) {
    forall c, p :: c in g && p in g[c] ==> p in g && rank(p) < rank(c)
  }

  ghost predicate Sound(g: Graph) {
    exists rank: Sha -> nat :: RankedBy(g, rank)
  }

  /** `path` walks from a commit to one of its parents at every step. */
  ghost predicate IsPath(g: Graph, path: seq<Sha>) {
    && path != []
    && forall i :: 0 <= i < |path| - 1 ==> path[i] in g && path[i + 1] in g[path[i]]
  }

  ghost predicate IsPathBetween(g: Graph, path: seq<Sha>, from: Sha, to: Sha) {
    IsPath(g, path) && path[0] == from && path[|path| - 1] == to
  }

  /** `to` is `from` itself or one of its ancestors. */
  ghost predicate Reaches(g: Graph, from: Sha, to: Sha) {
    exists path :: IsPathBetween(g, path, from, to)
  }

  /** `older` is an ancestor of `newer` and not `newer` itself. */
  ghost predicate StrictAncestor(g: Graph, older: Sha, newer: Sha) {
    older != newer && Reaches(g, newer, older)
  }

  /** `older..newer` in git's notation: what `newer` contains and `older` does not. */
  ghost predicate InRange(g: Graph, older: Sha, newer: Sha, c: Sha) {
    Reaches(g, newer, c) && !Reaches(g, older, c)
  }

  /** `later` has every commit of `earlier`, with the same parents. */
  ghost predicate Extends(earlier: Graph, later: Graph) {
    forall c :: c in earlier ==> c in later && later[c] == earlier[c]
  }

  lemma {:induction false} ReachesSelf(g: Graph, c: Sha)
    ensures Reaches(g, c, c)
  {
    assert IsPathBetween(g, [c], c, c);
  }

  lemma {:induction false} ReachesParent(g: Graph, c: Sha, p: Sha)
    requires c in g && p in g[c]
    ensures Reaches(g, c, p)
  {
    assert IsPathBetween(g, [c, p], c, p);
  }

  lemma {:induction false} ReachesTransitive(g: Graph, a: Sha, b: Sha, c: Sha)
    requires Reaches(g, a, b) && Reaches(g, b, c)
    ensures Reaches(g, a, c)
  {
    var p :| IsPathBetween(g, p, a, b);
    var q :| IsPathBetween(g, q, b, c);
    var r := p + q[1..];
    assert IsPathBetween(g, r, a, c);
  }

  /** Ancestry by its first step: the commit itself, or an ancestor of one of its parents. */
  lemma {:induction false} ReachesByFirstStep(g: Graph, c: Sha, a: Sha)
    ensures Reaches(g, c, a) <==> c == a || (c in g && exists p :: p in g[c] && Reaches(g, p, a))
  {
    if Reaches(g, c, a) && c != a {
      var path :| IsPathBetween(g, path, c, a);
      assert IsPathBetween(g, path[1..], path[1], a);
      assert path[1] in g[c] && Reaches(g, path[1], a);
    }
    if c == a {
      ReachesSelf(g, c);
    }
    if c in g && exists p :: p in g[c] && Reaches(g, p, a) {
      var p :| p in g[c] && Reaches(g, p, a);
      ReachesParent(g, c, p);
      ReachesTransitive(g, c, p, a);
    }
  }

  lemma {:induction false} PathLowersRank(g: Graph, rank: Sha -> nat, path: seq<Sha>)
    requires RankedBy(g, rank) && IsPath(g, path)
    ensures rank(path[|path| - 1]) <= rank(path[0])
    ensures |path| > 1 ==> rank(path[|path| - 1]) < rank(path[0])
    ensures path[0] in g ==> path[|path| - 1] in g
    decreases |path|
  {
    if |path| > 1 {
      assert IsPath(g, path[1..]);
      PathLowersRank(g, rank, path[1..]);
    }
  }

  /** There is no cycle: two commits that are each other's ancestors are the same commit. */
  lemma {:induction false} ReachesAntisymmetric(g: Graph, a: Sha, b: Sha)
    requires Sound(g) && Reaches(g, a, b) && Reaches(g, b, a)
    ensures a == b
  {
    var rank: Sha -> nat :| RankedBy(g, rank);
    var p :| IsPathBetween(g, p, a, b);
    var q :| IsPathBetween(g, q, b, a);
    PathLowersRank(g, rank, p);
    PathLowersRank(g, rank, q);
  }

  lemma {:induction false} ReachesStaysStored(g: Graph, a: Sha, b: Sha)
    requires Sound(g) && a in g && Reaches(g, a, b)
    ensures b in g
  {
    var rank: Sha -> nat :| RankedBy(g, rank);
    var p :| IsPathBetween(g, p, a, b);
    PathLowersRank(g, rank, p);
  }

  lemma {:induction false} PathStaysInside(earlier: Graph, later: Graph, path: seq<Sha>)
    requires Sound(earlier) && Extends(earlier, later)
    requires IsPath(later, path) && path[0] in earlier
    ensures IsPath(earlier, path)
    decreases |path|
  {
    if |path| > 1 {
      assert IsPath(later, path[1..]);
      assert path[1] in earlier[path[0]];
      PathStaysInside(earlier, later, path[1..]);
      forall i | 0 <= i < |path| - 1
        ensures path[i] in earlier && path[i + 1] in earlier[path[i]]
      {
        if i > 0 {
          assert path[1..][i - 1] == path[i] && path[1..][i] == path[i + 1];
        }
      }
    }
  }

  /** The ancestors of a commit are fixed when it is created: adding commits never changes them. */
  lemma {:induction false} ReachesStable(earlier: Graph, later: Graph, a: Sha, b: Sha)
    requires Sound(earlier) && Extends(earlier, later) && a in earlier
    ensures Reaches(earlier, a, b) <==> Reaches(later, a, b)
  {
    if Reaches(earlier, a, b) {
      var p :| IsPathBetween(earlier, p, a, b);
      assert IsPathBetween(later, p, a, b);
    }
    if Reaches(later, a, b) {
      var p :| IsPathBetween(later, p, a, b);
      PathStaysInside(earlier, later, p);
      assert IsPathBetween(earlier, p, a, b);
    }
  }

  /** Creating one commit on stored parents keeps the graph sound. */
  lemma {:induction false} AddingKeepsSound(g: Graph, c: Sha, parents: seq<Sha>)
    requires Sound(g) && c !in g && forall p :: p in parents ==> p in g
    ensures Sound(g[c := parents]) && Extends(g, g[c := parents])
  {
    var rank: Sha -> nat :| RankedBy(g, rank);
    var top := HighestRank(rank, parents);
    var raised := (s: Sha) => if s == c then top + 1 else rank(s);
    assert RankedBy(g[c := parents], raised);
  }

  ghost function HighestRank(rank: Sha -> nat, cs: seq<Sha>): (top: nat)
    ensures forall c :: c in cs ==> rank(c) <= top
  {
    if cs == [] then 0
    else
      var rest := HighestRank(rank, cs[1..]);
      if rank(cs[0]) > rest then rank(cs[0]) else rest
  }
}
