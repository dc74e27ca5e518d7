/** The capped merge and the pages of src/stagemesh/activity.py.

    A feed entry is reduced to its sort key: when it happened, the order of its kind, and its id. Ids are numbers, ordered
    as their text is.
 */
module ActivityFeed {
  import opened Prelude
  import opened Pages

  /** `at` is in microseconds, which is what a datetime keeps of a stored timestamp. `kind` is the rank of the kind: 0 is a task
      transition, then come retry, evidence, source, audit, execution, and 6 is a task. */
  datatype Entry = Entry(at: int, kind: nat, id: nat)

  const MAX_SCAN := 1000
  const MAX_LIMIT := 200

  /** The merge order: newest first, then by kind, then by id. */
  predicate Before(a: Entry, b: Entry) {
    || a.at > b.at
    || (a.at == b.at && a.kind < b.kind)
    || (a.at == b.at && a.kind == b.kind && a.id <= b.id)
  }

  ghost predicate Ordered(s: seq<Entry>) {
    forall i, j :: 0 <= i < j < |s| ==> Before(s[i], s[j])
  }

  function Concat(sources: seq<seq<Entry>>): seq<Entry> {
    if sources == [] then [] else sources[0] + Concat(sources[1..])
  }

  function Take(n: nat, s: seq<Entry>): seq<Entry> {
    if |s| <= n then s else s[..n]
  }

  /** What the sources return: each the first `cap` of its rows. */
  function Capped(cap: nat, sources: seq<seq<Entry>>): (r: seq<seq<Entry>>)
    ensures |r| == |sources|
    ensures forall i :: 0 <= i < |sources| ==> r[i] == Take(cap, sources[i])
  {
    if sources == [] then [] else [Take(cap, sources[0])] + Capped(cap, sources[1..])
  }

  // ---------------------------------------------------------------------------------------------------------------
  // The capped merge is the top of the whole union
  // ---------------------------------------------------------------------------------------------------------------

  function Without(s: seq<Entry>, k: nat): (r: seq<Entry>)
    requires k < |s|
    ensures |r| == |s| - 1
  {
    s[..k] + s[k + 1..]
  }

  lemma {:induction false} WithoutRemovesOne(s: seq<Entry>, k: nat)
    requires k < |s|
    ensures multiset(s) == multiset(Without(s, k)) + multiset{s[k]}
    ensures Ordered(s) ==> Ordered(Without(s, k))
  {
    assert s == s[..k] + ([s[k]] + s[k + 1..]);
    var rest := Without(s, k);
    assert forall i :: 0 <= i < |rest| ==> rest[i] == s[if i < k then i else i + 1];
  }

  lemma {:induction false} FirstIsLeast(s: seq<Entry>, t: seq<Entry>)
    requires Ordered(s) && Ordered(t) && s != [] && t != [] && multiset(s) == multiset(t)
    ensures s[0] == t[0]
  {
    assert s[0] in multiset(t) && t[0] in multiset(s);
    var i :| 0 <= i < |s| && s[i] == t[0];
    var j :| 0 <= j < |t| && t[j] == s[0];
    assert Before(s[0], t[0]) && Before(t[0], s[0]);
  }

  lemma {:induction false} SameMultisetSameLength(s: seq<Entry>, t: seq<Entry>)
    requires multiset(s) == multiset(t)
    ensures |s| == |t|
  {
    assert |multiset(s)| == |s| && |multiset(t)| == |t|;
  }

  lemma {:induction false} CancelOne(a: multiset<Entry>, b: multiset<Entry>, x: Entry)
    requires a + multiset{x} == b + multiset{x}
    ensures a == b
  {
    assert a == (a + multiset{x}) - multiset{x};
    assert b == (b + multiset{x}) - multiset{x};
  }

  /** Two ordered arrangements begin alike, and what is left of them are ordered arrangements again. */
  lemma {:induction false} OrderedBeginAlike(s: seq<Entry>, t: seq<Entry>)
    requires Ordered(s) && Ordered(t) && multiset(s) == multiset(t) && s != [] && t != []
    ensures s[0] == t[0] && Ordered(s[1..]) && Ordered(t[1..]) && multiset(s[1..]) == multiset(t[1..])
  {
    FirstIsLeast(s, t);
    WithoutRemovesOne(s, 0);
    WithoutRemovesOne(t, 0);
    assert Without(s, 0) == s[1..] && Without(t, 0) == t[1..];
    CancelOne(multiset(s[1..]), multiset(t[1..]), s[0]);
  }

  /** A sequence has one ordered arrangement. */
  lemma {:induction false} OrderedIsUnique(s: seq<Entry>, t: seq<Entry>)
    requires Ordered(s) && Ordered(t) && multiset(s) == multiset(t)
    ensures s == t
  {
    SameMultisetSameLength(s, t);
    if s != [] {
      OrderedBeginAlike(s, t);
      OrderedIsUnique(s[1..], t[1..]);
      assert s == [s[0]] + s[1..] && t == [t[0]] + t[1..];
    }
  }

  /** The number of elements that do not come after `x`. */
  function CountBefore(s: seq<Entry>, x: Entry): nat {
    if s == [] then 0 else (if Before(s[0], x) then 1 else 0) + CountBefore(s[1..], x)
  }

  lemma {:induction false} CountBeforeBounds(s: seq<Entry>, x: Entry)
    ensures CountBefore(s, x) <= |s|
  {
    if s != [] {
      CountBeforeBounds(s[1..], x);
    }
  }

  lemma {:induction false} CountBeforeConcat(s: seq<Entry>, t: seq<Entry>, x: Entry)
    ensures CountBefore(s + t, x) == CountBefore(s, x) + CountBefore(t, x)
  {
    if s == [] {
      assert s + t == t;
    } else {
      assert (s + t)[1..] == s[1..] + t;
      CountBeforeConcat(s[1..], t, x);
    }
  }

  /** In an ordered sequence, an element with more than `n` elements not after it occurs at position `n` or later. */
  lemma {:induction false} OccursLate(s: seq<Entry>, x: Entry, n: nat) returns (k: nat)
    requires Ordered(s) && x in s && CountBefore(s, x) > n
    ensures n <= k < |s| && s[k] == x
  {
    k := |s| - 1;
    CountBeforeBounds(s, x);
    if s[k] != x {
      var i :| 0 <= i < |s| && s[i] == x;
      assert !Before(s[k], x);
      assert s == s[..k] + [s[k]];
      CountBeforeConcat(s[..k], [s[k]], x);
      assert s[..k][i] == x;
      k := OccursLate(s[..k], x, n);
    }
  }

  /** Leaving out an element that has at least `n` others before it does not change the first `n`. */
  lemma {:induction false} DroppingLateElement(full: seq<Entry>, less: seq<Entry>, x: Entry, n: nat)
    requires Ordered(full) && Ordered(less) && multiset(full) == multiset(less) + multiset{x}
    requires CountBefore(full, x) > n
    ensures |full| > n && |less| >= n && full[..n] == less[..n]
  {
    assert x in multiset(full);
    var k := OccursLate(full, x, n);
    WithoutRemovesOne(full, k);
    CancelOne(multiset(Without(full, k)), multiset(less), x);
    OrderedIsUnique(Without(full, k), less);
    assert Without(full, k)[..n] == full[..n];
  }

  // The sources lose their last rows one at a time; `Union` counts every row of every source.

  function Union(sources: seq<seq<Entry>>): multiset<Entry> {
    multiset(Concat(sources))
  }

  lemma {:induction false} ConcatUpdated(sources: seq<seq<Entry>>, i: nat, x: Entry)
    requires i < |sources|
    ensures Union(sources[i := sources[i] + [x]]) == Union(sources) + multiset{x}
    ensures forall y :: CountBefore(Concat(sources), y) >= CountBefore(sources[i], y)
  {
    var longer := sources[i := sources[i] + [x]];
    if i == 0 {
      assert longer[1..] == sources[1..];
    } else {
      assert longer[1..] == sources[1..][i - 1 := sources[1..][i - 1] + [x]];
      ConcatUpdated(sources[1..], i - 1, x);
    }
    forall y
      ensures CountBefore(Concat(sources), y) >= CountBefore(sources[i], y)
    {
      CountBeforeConcat(sources[0], Concat(sources[1..]), y);
      assert i > 0 ==> sources[1..][i - 1] == sources[i];
    }
  }

  lemma {:induction false} AllBeforeLast(s: seq<Entry>, x: Entry)
    requires forall i :: 0 <= i < |s| ==> Before(s[i], x)
    ensures CountBefore(s, x) == |s|
  {
    if s != [] {
      AllBeforeLast(s[1..], x);
    }
  }

  function TotalLength(sources: seq<seq<Entry>>): nat {
    if sources == [] then 0 else |sources[0]| + TotalLength(sources[1..])
  }

  lemma {:induction false} TotalLengthUpdated(sources: seq<seq<Entry>>, i: nat, s: seq<Entry>)
    requires i < |sources|
    ensures TotalLength(sources[i := s]) == TotalLength(sources) - |sources[i]| + |s|
  {
    if i == 0 {
      assert sources[i := s][1..] == sources[1..];
    } else {
      assert sources[i := s][1..] == sources[1..][i - 1 := s];
      TotalLengthUpdated(sources[1..], i - 1, s);
    }
  }

  function Inserted(s: seq<Entry>, x: Entry): seq<Entry> {
    if s == [] || Before(x, s[0]) then [x] + s else [s[0]] + Inserted(s[1..], x)
  }

  lemma {:induction false} InsertedCountsEveryOne(s: seq<Entry>, x: Entry)
    ensures multiset(Inserted(s, x)) == multiset(s) + multiset{x}
  {
    if s != [] && !Before(x, s[0]) {
      InsertedCountsEveryOne(s[1..], x);
      assert s == [s[0]] + s[1..];
    }
  }

  lemma {:induction false} InsertedIsOrdered(s: seq<Entry>, x: Entry)
    requires Ordered(s)
    ensures Ordered(Inserted(s, x))
  {
    if s != [] && !Before(x, s[0]) {
      InsertedIsOrdered(s[1..], x);
      InsertedCountsEveryOne(s[1..], x);
      var rest := Inserted(s[1..], x);
      forall i | 0 <= i < |rest|
        ensures Before(s[0], rest[i])
      {
        assert rest[i] in multiset(rest);
        assert rest[i] == x || rest[i] in multiset(s[1..]);
      }
    }
  }

  /** `entries.sort(key=...)`. */
  function Sorted(s: seq<Entry>): seq<Entry> {
    if s == [] then [] else Inserted(Sorted(s[1..]), s[0])
  }

  lemma {:induction false} SortedIsOrdered(s: seq<Entry>)
    ensures Ordered(Sorted(s)) && multiset(Sorted(s)) == multiset(s) && |Sorted(s)| == |s|
  {
    if s != [] {
      SortedIsOrdered(s[1..]);
      InsertedIsOrdered(Sorted(s[1..]), s[0]);
      InsertedCountsEveryOne(Sorted(s[1..]), s[0]);
      assert s == [s[0]] + s[1..];
      SameMultisetSameLength(Sorted(s), s);
    }
  }

  lemma {:induction false} InsertedCounts(s: seq<Entry>, x: Entry, y: Entry)
    ensures CountBefore(Inserted(s, x), y) == CountBefore(s, y) + if Before(x, y) then 1 else 0
  {
    if s == [] || Before(x, s[0]) {
      assert ([x] + s)[1..] == s;
    } else {
      InsertedCounts(s[1..], x, y);
      assert Inserted(s, x)[1..] == Inserted(s[1..], x);
    }
  }

  lemma {:induction false} SortedCounts(s: seq<Entry>, y: Entry)
    ensures CountBefore(Sorted(s), y) == CountBefore(s, y)
  {
    if s != [] {
      SortedCounts(s[1..], y);
      InsertedCounts(Sorted(s[1..]), s[0], y);
    }
  }

  /** The last row of an ordered source, in the union: what is left without it, and how many belong before it. */
  lemma {:induction false} WithoutLastRow(sources: seq<seq<Entry>>, i: nat)
    requires i < |sources| && Ordered(sources[i]) && sources[i] != []
    ensures var n := |sources[i]| - 1;
      && Union(sources) == Union(sources[i := sources[i][..n]]) + multiset{sources[i][n]}
      && CountBefore(Concat(sources), sources[i][n]) > n
  {
    var n := |sources[i]| - 1;
    var x := sources[i][n];
    var less := sources[i := sources[i][..n]];
    assert sources[i] == sources[i][..n] + [x];
    assert less[i := less[i] + [x]] == sources;
    ConcatUpdated(less, i, x);
    ConcatUpdated(sources, i, x);
    AllBeforeLast(sources[i], x);
  }

  /** One row less in a source that returns more than `cap` of them. */
  lemma {:induction false} LastRowIsTooLate(sources: seq<seq<Entry>>, i: nat, cap: nat)
    requires i < |sources| && Ordered(sources[i]) && |sources[i]| > cap
    ensures var less := sources[i := sources[i][..|sources[i]| - 1]];
      Take(cap, Sorted(Concat(less))) == Take(cap, Sorted(Concat(sources)))
  {
    var x := sources[i][|sources[i]| - 1];
    var less := sources[i := sources[i][..|sources[i]| - 1]];
    WithoutLastRow(sources, i);
    var full, short := Sorted(Concat(sources)), Sorted(Concat(less));
    SortedIsOrdered(Concat(sources));
    SortedIsOrdered(Concat(less));
    SortedCounts(Concat(sources), x);
    DroppingLateElement(full, short, x, cap);
    TakeIsPrefix(cap, full);
    TakeIsPrefix(cap, short);
  }

  lemma {:induction false} PrefixIsOrdered(s: seq<Entry>, n: nat)
    requires Ordered(s) && n <= |s|
    ensures Ordered(s[..n])
  {
  }

  lemma {:induction false} CapIgnoresTheRest(sources: seq<seq<Entry>>, i: nat, n: nat, cap: nat)
    requires i < |sources| && cap <= n <= |sources[i]|
    ensures Capped(cap, sources[i := sources[i][..n]]) == Capped(cap, sources)
  {
    var less := sources[i := sources[i][..n]];
    forall k | 0 <= k < |sources|
      ensures Take(cap, less[k]) == Take(cap, sources[k])
    {
      if k == i {
        assert sources[i][..n][..cap] == sources[i][..cap];
      }
    }
  }

  lemma {:induction false} NothingToCap(sources: seq<seq<Entry>>, cap: nat)
    requires forall i :: 0 <= i < |sources| ==> |sources[i]| <= cap
    ensures Capped(cap, sources) == sources
  {
    assert forall i :: 0 <= i < |sources| ==> Take(cap, sources[i]) == sources[i];
  }

  /** For sources in the merge order, capping each source at `cap` rows and then the merge at `cap` keeps exactly the
      first `cap` entries of the whole union. */
  lemma {:induction false} CappedMergeIsTopOfUnion(sources: seq<seq<Entry>>, cap: nat)
    requires forall i :: 0 <= i < |sources| ==> Ordered(sources[i])
    ensures Take(cap, Sorted(Concat(Capped(cap, sources)))) == Take(cap, Sorted(Concat(sources)))
    decreases TotalLength(sources)
  {
    if i :| 0 <= i < |sources| && |sources[i]| > cap {
      var n := |sources[i]| - 1;
      TotalLengthUpdated(sources, i, sources[i][..n]);
      LastRowIsTooLate(sources, i, cap);
      PrefixIsOrdered(sources[i], n);
      CappedMergeIsTopOfUnion(sources[i := sources[i][..n]], cap);
      CapIgnoresTheRest(sources, i, n, cap);
    } else {
      NothingToCap(sources, cap);
    }
  }

  // ---------------------------------------------------------------------------------------------------------------
  // When a cap is harmless
  // ---------------------------------------------------------------------------------------------------------------

  /** Every row that is kept belongs before every row that is cut. */
  ghost predicate CutsCleanly(cap: nat, s: seq<Entry>) {
    forall i, j :: 0 <= i < cap <= j < |s| ==> Before(s[i], s[j])
  }

  lemma {:induction false} SortedIsDetermined(s: seq<Entry>, t: seq<Entry>)
    requires multiset(s) == multiset(t)
    ensures Sorted(s) == Sorted(t)
  {
    SortedIsOrdered(s);
    SortedIsOrdered(t);
    OrderedIsUnique(Sorted(s), Sorted(t));
  }

  ghost predicate AllBefore(a: seq<Entry>, b: seq<Entry>) {
    forall x, y :: x in a && y in b ==> Before(x, y)
  }

  lemma {:induction false} CleanMeansAllBefore(cap: nat, s: seq<Entry>)
    requires cap <= |s|
    ensures CutsCleanly(cap, s) <==> AllBefore(s[..cap], s[cap..])
  {
    if AllBefore(s[..cap], s[cap..]) {
      forall i, j | 0 <= i < cap <= j < |s|
        ensures Before(s[i], s[j])
      {
        assert s[i] in s[..cap] && s[j] == s[cap..][j - cap];
      }
    }
  }

  lemma {:induction false} AllBeforeInAnyOrder(a: seq<Entry>, b: seq<Entry>, c: seq<Entry>, d: seq<Entry>)
    requires multiset(a) == multiset(c) && multiset(b) == multiset(d) && AllBefore(a, b)
    ensures AllBefore(c, d)
  {
    forall x, y | x in c && y in d
      ensures Before(x, y)
    {
      assert x in multiset(c) && y in multiset(d);
    }
  }

  lemma {:induction false} JoinedIsOrdered(a: seq<Entry>, b: seq<Entry>)
    requires Ordered(a) && Ordered(b) && AllBefore(a, b)
    ensures Ordered(a + b)
  {
    forall i, j | 0 <= i < j < |a + b|
      ensures Before((a + b)[i], (a + b)[j])
    {
      if i < |a| <= j {
        assert a[i] in a && b[j - |a|] in b;
      }
    }
  }

  /** Sorting the two sides of a clean cut sorts the whole. */
  lemma {:induction false} CleanCutSortsApart(kept: seq<Entry>, cut: seq<Entry>)
    requires AllBefore(kept, cut)
    ensures Sorted(kept + cut) == Sorted(kept) + Sorted(cut)
  {
    var top, rest := Sorted(kept), Sorted(cut);
    SortedIsOrdered(kept);
    SortedIsOrdered(cut);
    AllBeforeInAnyOrder(kept, cut, top, rest);
    JoinedIsOrdered(top, rest);
    assert multiset(top + rest) == multiset(kept + cut);
    SortedIsOrdered(kept + cut);
    OrderedIsUnique(top + rest, Sorted(kept + cut));
  }

  lemma {:induction false} CancelSame(a: multiset<Entry>, b: multiset<Entry>, c: multiset<Entry>)
    requires a + b == a + c
    ensures b == c
  {
    assert b == (a + b) - a;
    assert c == (a + c) - a;
  }

  /** If the kept rows are the top of the sorted whole, the cut was clean. */
  lemma {:induction false} HarmlessCutIsClean(kept: seq<Entry>, cut: seq<Entry>, top: seq<Entry>, rest: seq<Entry>)
    requires Ordered(top + rest) && multiset(kept) == multiset(top) && multiset(kept + cut) == multiset(top + rest)
    ensures AllBefore(kept, cut)
  {
    assert (top + rest)[..|top|] == top && (top + rest)[|top|..] == rest;
    CleanMeansAllBefore(|top|, top + rest);
    CancelSame(multiset(kept), multiset(cut), multiset(rest));
    AllBeforeInAnyOrder(top, rest, kept, cut);
  }

  /** At a given cap, capping a source loses no entry that the merge would have kept if and only if every kept row
      belongs before every cut one. */
  lemma {:induction false} CapIsHarmlessExactlyWhen(cap: nat, s: seq<Entry>)
    ensures Take(cap, Sorted(Take(cap, s))) == Take(cap, Sorted(s)) <==> CutsCleanly(cap, s)
  {
    SortedIsOrdered(s);
    if cap < |s| {
      var kept, cut, all := s[..cap], s[cap..], Sorted(s);
      SortedIsOrdered(kept);
      assert s == kept + cut && all == all[..cap] + all[cap..];
      assert Take(cap, Sorted(Take(cap, s))) == Sorted(kept) && Take(cap, all) == all[..cap];
      CleanMeansAllBefore(cap, s);
      if AllBefore(kept, cut) {
        CleanCutSortsApart(kept, cut);
      } else if Sorted(kept) == all[..cap] {
        HarmlessCutIsClean(kept, cut, all[..cap], all[cap..]);
      }
    }
  }

  /** No cap at all can do harm if and only if the source comes in the merge order. */
  lemma {:induction false} CapIsHarmlessExactlyWhenOrdered(source: seq<Entry>)
    ensures (forall cap: nat :: Take(cap, Sorted(Take(cap, source))) == Take(cap, Sorted(source))) <==> Ordered(source)
  {
    forall cap: nat
      ensures Take(cap, Sorted(Take(cap, source))) == Take(cap, Sorted(source)) <==> CutsCleanly(cap, source)
    {
      CapIsHarmlessExactlyWhen(cap, source);
    }
    if forall cap: nat :: CutsCleanly(cap, source) {
      forall i, j | 0 <= i < j < |source|
        ensures Before(source[i], source[j])
      {
        assert CutsCleanly(j, source);
      }
    }
  }

  function EachSorted(sources: seq<seq<Entry>>): (r: seq<seq<Entry>>)
    ensures |r| == |sources| && forall i :: 0 <= i < |sources| ==> r[i] == Sorted(sources[i])
  {
    if sources == [] then [] else [Sorted(sources[0])] + EachSorted(sources[1..])
  }

  lemma {:induction false} UnionByParts(a: seq<seq<Entry>>, b: seq<seq<Entry>>)
    requires |a| == |b| && forall i :: 0 <= i < |a| ==> multiset(a[i]) == multiset(b[i])
    ensures Union(a) == Union(b)
  {
    if a != [] {
      UnionByParts(a[1..], b[1..]);
    }
  }

  lemma {:induction false} CleanlyCappedKeepsTheTop(cap: nat, s: seq<Entry>)
    requires CutsCleanly(cap, s)
    ensures multiset(Take(cap, s)) == multiset(Take(cap, Sorted(s)))
  {
    CapIsHarmlessExactlyWhen(cap, s);
    SortedIsOrdered(Take(cap, s));
  }

  /** The same for sources in any order, as long as each cut is clean. */
  lemma {:induction false} CleanlyCappedMergeIsTopOfUnion(sources: seq<seq<Entry>>, cap: nat)
    requires forall i :: 0 <= i < |sources| ==> CutsCleanly(cap, sources[i])
    ensures Take(cap, Sorted(Concat(Capped(cap, sources)))) == Take(cap, Sorted(Concat(sources)))
  {
    var ordered := EachSorted(sources);
    forall i | 0 <= i < |sources|
      ensures Ordered(ordered[i]) && multiset(ordered[i]) == multiset(sources[i])
      ensures multiset(Capped(cap, sources)[i]) == multiset(Capped(cap, ordered)[i])
    {
      SortedIsOrdered(sources[i]);
      CleanlyCappedKeepsTheTop(cap, sources[i]);
    }
    UnionByParts(ordered, sources);
    UnionByParts(Capped(cap, sources), Capped(cap, ordered));
    CappedMergeIsTopOfUnion(ordered, cap);
    SortedIsDetermined(Concat(ordered), Concat(sources));
    SortedIsDetermined(Concat(Capped(cap, sources)), Concat(Capped(cap, ordered)));
  }

  lemma {:induction false} CleanTopIsTop(kept: seq<Entry>, others: seq<Entry>, whole: seq<Entry>)
    requires Ordered(kept) && AllBefore(kept, others) && multiset(whole) == multiset(kept + others)
    ensures |kept| <= |Sorted(whole)| && Sorted(whole)[..|kept|] == kept
  {
    CleanCutSortsApart(kept, others);
    SortedIsDetermined(kept + others, whole);
    SortedIsOrdered(kept);
    OrderedIsUnique(Sorted(kept), kept);
  }

  lemma {:induction false} TopIsClean(kept: seq<Entry>, others: seq<Entry>, whole: seq<Entry>)
    requires |kept| <= |Sorted(whole)| && Sorted(whole)[..|kept|] == kept
    requires multiset(whole) == multiset(kept + others)
    ensures AllBefore(kept, others)
  {
    var all := Sorted(whole);
    SortedIsOrdered(whole);
    assert all == kept + all[|kept|..];
    HarmlessCutIsClean(kept, others, kept, all[|kept|..]);
  }

  lemma {:induction false} SortedSplits(cap: nat, found: seq<Entry>)
    requires |found| >= cap
    ensures |Sorted(found)| == |found| && Ordered(Sorted(found)[..cap])
    ensures AllBefore(Sorted(found)[..cap], Sorted(found)[cap..])
    ensures multiset(found) == multiset(Sorted(found)[..cap]) + multiset(Sorted(found)[cap..])
  {
    SortedIsOrdered(found);
    OrderedSplits(cap, Sorted(found));
  }

  lemma {:induction false} OrderedSplits(n: nat, s: seq<Entry>)
    requires Ordered(s) && n <= |s|
    ensures Ordered(s[..n]) && AllBefore(s[..n], s[n..])
    ensures multiset(s) == multiset(s[..n]) + multiset(s[n..])
  {
    CleanMeansAllBefore(n, s);
    assert s == s[..n] + s[n..];
  }

  lemma {:induction false} KeptWithTheOthers(
    kept: seq<Entry>, rest: seq<Entry>, found: seq<Entry>, lost: seq<Entry>, whole: seq<Entry>)
    requires multiset(found) == multiset(kept) + multiset(rest)
    requires multiset(whole) == multiset(found) + multiset(lost)
    ensures multiset(whole) == multiset(kept + (rest + lost)) && |whole| >= |kept|
  {
    SameMultisetSameLength(kept + (rest + lost), whole);
  }

  lemma {:induction false} TopOfEnoughExactlyWhen(cap: nat, found: seq<Entry>, lost: seq<Entry>, whole: seq<Entry>)
    requires multiset(whole) == multiset(found) + multiset(lost) && |found| >= cap
    ensures |Sorted(found)| >= cap && |Sorted(whole)| >= cap
    ensures Sorted(found)[..cap] == Sorted(whole)[..cap] <==> AllBefore(Sorted(found)[..cap], lost)
  {
    SortedSplits(cap, found);
    SortedIsOrdered(whole);
    var kept, rest := Sorted(found)[..cap], Sorted(found)[cap..];
    KeptWithTheOthers(kept, rest, found, lost, whole);
    if AllBefore(kept, lost) {
      BeforeBoth(kept, rest, lost);
      CleanTopIsTop(kept, rest + lost, whole);
    } else if kept == Sorted(whole)[..cap] {
      TopIsClean(kept, rest + lost, whole);
    }
  }

  lemma {:induction false} BeforeBoth(a: seq<Entry>, b: seq<Entry>, c: seq<Entry>)
    requires AllBefore(a, b) && AllBefore(a, c)
    ensures AllBefore(a, b + c)
  {
  }

  /** The top of what was found is the top of the whole if and only if every entry of it belongs before everything that
      was not found, and there are enough of them. */
  lemma {:induction false} TopOfFoundExactlyWhen(cap: nat, found: seq<Entry>, lost: seq<Entry>, whole: seq<Entry>)
    requires multiset(whole) == multiset(found) + multiset(lost)
    ensures var kept := Take(cap, Sorted(found));
      kept == Take(cap, Sorted(whole)) <==> AllBefore(kept, lost) && (|found| >= cap || lost == [])
  {
    if lost == [] {
      SortedIsDetermined(found, whole);
    } else if |found| < cap {
      TooFewFound(cap, found, lost, whole);
    } else {
      TopOfEnoughExactlyWhen(cap, found, lost, whole);
      TakeIsPrefix(cap, Sorted(found));
      TakeIsPrefix(cap, Sorted(whole));
    }
  }

  lemma {:induction false} TakeIsPrefix(n: nat, s: seq<Entry>)
    requires n <= |s|
    ensures Take(n, s) == s[..n]
  {
    assert n == |s| ==> s[..n] == s;
  }

  lemma {:induction false} TooFewFound(cap: nat, found: seq<Entry>, lost: seq<Entry>, whole: seq<Entry>)
    requires multiset(whole) == multiset(found) + multiset(lost) && |found| < cap && lost != []
    ensures |Take(cap, Sorted(found))| < |Take(cap, Sorted(whole))|
  {
    SortedIsOrdered(found);
    SortedIsOrdered(whole);
    SameMultisetSameLength(found + lost, whole);
  }

  function Drop(n: nat, s: seq<Entry>): seq<Entry> {
    if |s| <= n then [] else s[n..]
  }

  /** The rows that the caps cut off. */
  function Tails(cap: nat, sources: seq<seq<Entry>>): (r: seq<seq<Entry>>)
    ensures |r| == |sources| && forall i :: 0 <= i < |sources| ==> r[i] == Drop(cap, sources[i])
  {
    if sources == [] then [] else [Drop(cap, sources[0])] + Tails(cap, sources[1..])
  }

  lemma {:induction false} TakeAndDrop(n: nat, s: seq<Entry>)
    ensures multiset(s) == multiset(Take(n, s)) + multiset(Drop(n, s))
  {
    if |s| > n {
      assert s == s[..n] + s[n..];
    }
  }

  lemma {:induction false} UnionSplits(a: seq<seq<Entry>>, b: seq<seq<Entry>>, both: seq<seq<Entry>>)
    requires |a| == |b| == |both|
    requires forall i :: 0 <= i < |a| ==> multiset(both[i]) == multiset(a[i]) + multiset(b[i])
    ensures Union(both) == Union(a) + Union(b)
  {
    if a != [] {
      UnionSplits(a[1..], b[1..], both[1..]);
    }
  }

  lemma {:induction false} ConcatIsAsLong(sources: seq<seq<Entry>>, i: nat)
    requires i < |sources|
    ensures |Concat(sources)| >= |sources[i]|
  {
    if i > 0 {
      ConcatIsAsLong(sources[1..], i - 1);
    }
  }

  lemma {:induction false} ConcatOfNothing(sources: seq<seq<Entry>>)
    requires forall i :: 0 <= i < |sources| ==> sources[i] == []
    ensures Concat(sources) == []
  {
    if sources != [] {
      ConcatOfNothing(sources[1..]);
    }
  }

  lemma {:induction false} HeadsAndTails(cap: nat, sources: seq<seq<Entry>>)
    ensures Union(sources) == Union(Capped(cap, sources)) + Union(Tails(cap, sources))
  {
    forall i | 0 <= i < |sources|
      ensures multiset(sources[i]) == multiset(Capped(cap, sources)[i]) + multiset(Tails(cap, sources)[i])
    {
      TakeAndDrop(cap, sources[i]);
    }
    UnionSplits(Capped(cap, sources), Tails(cap, sources), sources);
  }

  lemma {:induction false} CutMeansFull(cap: nat, sources: seq<seq<Entry>>)
    ensures |Concat(Capped(cap, sources))| >= cap || Concat(Tails(cap, sources)) == []
  {
    if i :| 0 <= i < |sources| && |sources[i]| > cap {
      ConcatIsAsLong(Capped(cap, sources), i);
    } else {
      ConcatOfNothing(Tails(cap, sources));
    }
  }

  /** For any sources, in any order: the capped merge is the top of the union if and only if every entry that it keeps
      belongs before every row that a cap cut off. */
  lemma {:induction false} CappedMergeIsTopExactlyWhen(sources: seq<seq<Entry>>, cap: nat)
    ensures var kept := Take(cap, Sorted(Concat(Capped(cap, sources))));
      kept == Take(cap, Sorted(Concat(sources))) <==> AllBefore(kept, Concat(Tails(cap, sources)))
  {
    HeadsAndTails(cap, sources);
    CutMeansFull(cap, sources);
    TopOfFoundExactlyWhen(cap, Concat(Capped(cap, sources)), Concat(Tails(cap, sources)), Concat(sources));
  }

  // ---------------------------------------------------------------------------------------------------------------
  // The order of the database and the order of the merge
  // ---------------------------------------------------------------------------------------------------------------

  /** A stored row: its timestamp as the database has it, and its id. */
  datatype Row = Row(stamp: int, id: nat)

  /** ORDER BY stamp DESC, id. */
  ghost predicate DatabaseOrdered(rows: seq<Row>) {
    forall i, j :: 0 <= i < j < |rows| ==>
      rows[i].stamp > rows[j].stamp || (rows[i].stamp == rows[j].stamp && rows[i].id <= rows[j].id)
  }

  /** `at` turns a stored timestamp into the datetime that is sorted by; it may round. */
  function Projected(at: int -> int, kind: nat, rows: seq<Row>): (r: seq<Entry>)
    ensures |r| == |rows| && forall i :: 0 <= i < |rows| ==> r[i] == Entry(at(rows[i].stamp), kind, rows[i].id)
  {
    if rows == [] then [] else [Entry(at(rows[0].stamp), kind, rows[0].id)] + Projected(at, kind, rows[1..])
  }

  ghost predicate Monotone(at: int -> int) {
    forall a, b :: a <= b ==> at(a) <= at(b)
  }

  /** Where rounding merges no two timestamps, as with whole seconds, the database order is the merge order. */
  lemma {:induction false} DatabaseOrderIsMergeOrder(at: int -> int, kind: nat, rows: seq<Row>)
    requires Monotone(at) && DatabaseOrdered(rows)
    requires forall r, s :: r in rows && s in rows && at(r.stamp) == at(s.stamp) ==> r.stamp == s.stamp
    ensures Ordered(Projected(at, kind, rows))
  {
    var p := Projected(at, kind, rows);
    forall i, j | 0 <= i < j < |rows|
      ensures Before(p[i], p[j])
    {
      assert rows[i] in rows && rows[j] in rows;
      assert p[i] == Entry(at(rows[i].stamp), kind, rows[i].id) && p[j] == Entry(at(rows[j].stamp), kind, rows[j].id);
      assert at(rows[j].stamp) <= at(rows[i].stamp);
    }
  }

  /** In general the cap of the code is harmless if and only if no two rows on its two sides round to one timestamp while
      their ids are the wrong way round: the database puts the later stamp first, the merge the smaller id. */
  lemma {:induction false} RoundingIsHarmlessExactlyWhen(at: int -> int, kind: nat, rows: seq<Row>)
    requires Monotone(at) && DatabaseOrdered(rows)
    ensures var p := Projected(at, kind, rows);
      Take(MAX_SCAN, Sorted(Take(MAX_SCAN, p))) == Take(MAX_SCAN, Sorted(p)) <==>
        forall i, j :: 0 <= i < MAX_SCAN <= j < |rows| && at(rows[i].stamp) == at(rows[j].stamp) ==>
          rows[i].id <= rows[j].id
  {
    var p := Projected(at, kind, rows);
    CapIsHarmlessExactlyWhen(MAX_SCAN, p);
    forall i, j | 0 <= i < MAX_SCAN <= j < |rows|
      ensures Before(p[i], p[j]) <==> (at(rows[i].stamp) == at(rows[j].stamp) ==> rows[i].id <= rows[j].id)
    {
      assert at(rows[j].stamp) <= at(rows[i].stamp);
    }
  }

  /** Timestamps in tenths of what a datetime keeps. */
  function Tenths(): int -> int {
    (stamp: int) => stamp / 10
  }

  /** Row `i` of 1001: 999 late ones, and two whose stamps round to one. */
  function RowAroundTheCap(i: nat): Row {
    if i < MAX_SCAN - 1 then Row(100 * MAX_SCAN - 10 * i, 0) else if i == MAX_SCAN - 1 then Row(11, 2) else Row(10, 1)
  }

  function FirstRows(n: nat): (rows: seq<Row>)
    ensures |rows| == n && forall i :: 0 <= i < n ==> rows[i] == RowAroundTheCap(i)
  {
    if n == 0 then [] else FirstRows(n - 1) + [RowAroundTheCap(n - 1)]
  }

  lemma {:induction false} RowsAreDatabaseOrdered(rows: seq<Row>)
    requires |rows| <= MAX_SCAN + 1 && forall i :: 0 <= i < |rows| ==> rows[i] == RowAroundTheCap(i)
    ensures DatabaseOrdered(rows)
  {
  }

  /** It can be otherwise: of these rows, in the order of the database, the code keeps the wrong one. */
  lemma {:induction false} RoundingCanCapWrongly() returns (rows: seq<Row>)
    ensures |rows| == MAX_SCAN + 1 && Monotone(Tenths()) && DatabaseOrdered(rows)
    ensures var p := Projected(Tenths(), 0, rows);
      Take(MAX_SCAN, Sorted(Take(MAX_SCAN, p))) != Take(MAX_SCAN, Sorted(p))
  {
    rows := FirstRows(MAX_SCAN + 1);
    RowsAreDatabaseOrdered(rows);
    RoundingIsHarmlessExactlyWhen(Tenths(), 0, rows);
    assert rows[MAX_SCAN - 1] == Row(11, 2) && rows[MAX_SCAN] == Row(10, 1);
    assert Tenths()(11) == Tenths()(10);
  }

  // ---------------------------------------------------------------------------------------------------------------
  // The query
  // ---------------------------------------------------------------------------------------------------------------

  /** The rows that match a query in one table, in the order of the database, and which of them are well formed; a
      source drops malformed rows after it was capped. */
  datatype Source = Source(rows: seq<Entry>, wellFormed: Entry -> bool)

  function Found(s: Source): seq<Entry> {
    Filter(Take(MAX_SCAN, s.rows), s.wellFormed)
  }

  function AllFound(sources: seq<Source>): (r: seq<seq<Entry>>)
    ensures |r| == |sources| && forall i :: 0 <= i < |sources| ==> r[i] == Found(sources[i])
  {
    if sources == [] then [] else [Found(sources[0])] + AllFound(sources[1..])
  }

  function AllRows(sources: seq<Source>): (r: seq<seq<Entry>>)
    ensures |r| == |sources| && forall i :: 0 <= i < |sources| ==> r[i] == sources[i].rows
  {
    if sources == [] then [] else [sources[0].rows] + AllRows(sources[1..])
  }

  function AllWellFormed(sources: seq<Source>): (r: seq<seq<Entry>>)
    ensures |r| == |sources|
    ensures forall i :: 0 <= i < |sources| ==> r[i] == Filter(sources[i].rows, sources[i].wellFormed)
  {
    if sources == [] then []
    else [Filter(sources[0].rows, sources[0].wellFormed)] + AllWellFormed(sources[1..])
  }

  /** The well-formed rows of a source that its cap cut off. */
  function Lost(s: Source): seq<Entry> {
    if Cut(s) then Filter(s.rows[MAX_SCAN..], s.wellFormed) else []
  }

  function AllLost(sources: seq<Source>): (r: seq<seq<Entry>>)
    ensures |r| == |sources| && forall i :: 0 <= i < |sources| ==> r[i] == Lost(sources[i])
  {
    if sources == [] then [] else [Lost(sources[0])] + AllLost(sources[1..])
  }

  /** The entries that are kept before paging. */
  function Retained(sources: seq<Source>): (r: seq<Entry>)
    ensures |r| <= MAX_SCAN
  {
    Take(MAX_SCAN, Sorted(Concat(AllFound(sources))))
  }

  /** The source had more rows than it may return. */
  predicate Cut(s: Source) {
    |s.rows| > MAX_SCAN
  }

  ghost predicate Truncated(sources: seq<Source>) {
    || (exists s :: s in sources && Cut(s))
    || |Concat(AllFound(sources))| > MAX_SCAN
  }

  datatype Page = Page(entries: seq<Entry>, total: nat, nextOffset: Option<nat>, truncated: bool)

  lemma {:induction false} ConcatAppend(s: seq<seq<Entry>>, t: seq<Entry>)
    ensures Concat(s + [t]) == Concat(s) + t
  {
    if s == [] {
      assert Concat([t]) == t + [] == t;
    } else {
      assert (s + [t])[1..] == s[1..] + [t];
      ConcatAppend(s[1..], t);
    }
  }

  lemma {:induction false} OneMoreSource(sources: seq<Source>, i: nat)
    requires i < |sources|
    ensures Concat(AllFound(sources[..i + 1])) == Concat(AllFound(sources[..i])) + Found(sources[i])
  {
    assert AllFound(sources[..i + 1]) == AllFound(sources[..i]) + [Found(sources[i])];
    ConcatAppend(AllFound(sources[..i]), Found(sources[i]));
  }

  /** What the loop has gathered from the first `i` sources. */
  ghost predicate Gathered(sources: seq<Source>, i: nat, entries: seq<Entry>, truncated: bool)
    requires i <= |sources|
  {
    entries == Concat(AllFound(sources[..i])) && (truncated <==> exists s :: s in sources[..i] && Cut(s))
  }

  lemma {:induction false} CutOneMore(sources: seq<Source>, i: nat)
    requires i < |sources|
    ensures (exists s :: s in sources[..i + 1] && Cut(s)) <==> (exists s :: s in sources[..i] && Cut(s)) || Cut(sources[i])
  {
    assert sources[..i + 1] == sources[..i] + [sources[i]];
    assert sources[i] in sources[..i + 1];
  }

  lemma {:induction false} GatheredOneMore(sources: seq<Source>, i: nat, entries: seq<Entry>, truncated: bool)
    requires i < |sources| && Gathered(sources, i, entries, truncated)
    ensures Gathered(sources, i + 1, entries + Found(sources[i]), truncated || Cut(sources[i]))
  {
    OneMoreSource(sources, i);
    CutOneMore(sources, i);
  }

  /** The loop over the kinds; it also notices a source that had to be cut. */
  method GatherEntries(sources: seq<Source>) returns (entries: seq<Entry>, truncated: bool)
    ensures entries == Concat(AllFound(sources))
    ensures truncated <==> exists s :: s in sources && Cut(s)
  {
    entries, truncated := [], false;
    for i := 0 to |sources|
      invariant Gathered(sources, i, entries, truncated)
    {
      GatheredOneMore(sources, i, entries, truncated);
      entries := entries + Found(sources[i]);
      truncated := truncated || Cut(sources[i]);
    }
    assert sources[..|sources|] == sources;
  }

  method QueryActivity(sources: seq<Source>, limit: int, offset: int) returns (page: Page)
    requires 1 <= limit <= MAX_LIMIT && 0 <= offset < MAX_SCAN
    ensures page.entries == PageAt(Retained(sources), limit, offset)
    ensures page.total == |Retained(sources)|
    ensures page.total == if |Concat(AllFound(sources))| > 1000 then 1000 else |Concat(AllFound(sources))|
    ensures page.nextOffset == NextOffset(Retained(sources), limit, offset)
    ensures page.truncated <==> Truncated(sources)
    ensures page.truncated <==> (exists s :: s in sources && |s.rows| > 1000) || |Concat(AllFound(sources))| > 1000
  {
    var entries, truncated := GatherEntries(sources);
    SortedIsOrdered(entries);
    page := MakePage(entries, truncated, limit, offset);
  }

  /** Sort, cut, and take one page. */
  method MakePage(found: seq<Entry>, cut: bool, limit: nat, offset: nat) returns (page: Page)
    ensures page.entries == PageAt(Take(MAX_SCAN, Sorted(found)), limit, offset)
    ensures page.total == |Take(MAX_SCAN, Sorted(found))|
    ensures page.nextOffset == NextOffset(Take(MAX_SCAN, Sorted(found)), limit, offset)
    ensures page.truncated <==> cut || |found| > MAX_SCAN
  {
    SortedIsOrdered(found);
    var entries := Sorted(found);
    var truncated := cut || |entries| > MAX_SCAN;
    entries := Take(MAX_SCAN, entries);
    var slice := PageAt(entries, limit, offset);
    var end := offset + |slice|;
    page := Page(slice, |entries|, if end < |entries| then Some(end) else None, truncated);
  }

  lemma {:induction false} FilterKeepsAll(s: seq<Entry>, keep: Entry -> bool)
    requires forall e :: e in s ==> keep(e)
    ensures Filter(s, keep) == s
  {
    if s != [] {
      FilterKeepsAll(s[1..], keep);
    }
  }

  lemma {:induction false} NothingDropped(s: Source)
    requires forall e :: e in s.rows ==> s.wellFormed(e)
    ensures Found(s) == Take(MAX_SCAN, s.rows)
  {
    var taken := Take(MAX_SCAN, s.rows);
    assert forall i :: 0 <= i < |taken| ==> taken[i] == s.rows[i];
    FilterKeepsAll(taken, s.wellFormed);
  }

  /** For sources that are cut cleanly and drop no row, what is retained is the top of everything there is. */
  lemma {:induction false} RetainedIsTopOfEverything(sources: seq<Source>)
    requires forall i :: 0 <= i < |sources| ==> CutsCleanly(MAX_SCAN, sources[i].rows)
    requires forall i :: 0 <= i < |sources| ==> forall e :: e in sources[i].rows ==> sources[i].wellFormed(e)
    ensures Retained(sources) == Take(MAX_SCAN, Sorted(Concat(AllRows(sources))))
  {
    var found, capped := AllFound(sources), Capped(MAX_SCAN, AllRows(sources));
    forall i | 0 <= i < |sources|
      ensures found[i] == capped[i]
    {
      NothingDropped(sources[i]);
    }
    assert found == capped;
    CleanlyCappedMergeIsTopOfUnion(AllRows(sources), MAX_SCAN);
  }

  lemma {:induction false} FoundAndLost(s: Source)
    ensures multiset(Filter(s.rows, s.wellFormed)) == multiset(Found(s)) + multiset(Lost(s))
  {
    if Cut(s) {
      assert s.rows == s.rows[..MAX_SCAN] + s.rows[MAX_SCAN..];
      FilterAppend(s.rows[..MAX_SCAN], s.rows[MAX_SCAN..], s.wellFormed);
    }
  }

  /** For all sources, also those that drop malformed rows after their cap: what is retained is the top of all well-formed
      rows if and only if it belongs before every well-formed row beyond a cap, and it is full if there is such a row. */
  lemma {:induction false} RetainedIsTopExactlyWhen(sources: seq<Source>)
    ensures var lost := Concat(AllLost(sources));
      Retained(sources) == Take(MAX_SCAN, Sorted(Concat(AllWellFormed(sources)))) <==>
        AllBefore(Retained(sources), lost) && (|Retained(sources)| == MAX_SCAN || lost == [])
  {
    var found, lost := AllFound(sources), AllLost(sources);
    forall i | 0 <= i < |sources|
      ensures multiset(AllWellFormed(sources)[i]) == multiset(found[i]) + multiset(lost[i])
    {
      FoundAndLost(sources[i]);
    }
    UnionSplits(found, lost, AllWellFormed(sources));
    TopOfFoundExactlyWhen(MAX_SCAN, Concat(found), Concat(lost), Concat(AllWellFormed(sources)));
    SortedIsOrdered(Concat(found));
  }

  lemma {:induction false} FirstIsDropped(s: seq<Entry>, keep: Entry -> bool)
    requires s != [] && !keep(s[0])
    ensures |Filter(s, keep)| < |s|
  {
  }

  /** A malformed row before the cap can hide a well-formed one behind it: 1001 rows, of which the first is malformed. */
  lemma {:induction false} MalformedRowsCanHideOthers(s: Source)
    requires |s.rows| == MAX_SCAN + 1 && !s.wellFormed(s.rows[0]) && s.wellFormed(s.rows[MAX_SCAN])
    ensures Retained([s]) != Take(MAX_SCAN, Sorted(Concat(AllWellFormed([s]))))
  {
    FirstIsDropped(Take(MAX_SCAN, s.rows), s.wellFormed);
    assert s.rows[MAX_SCAN] in s.rows[MAX_SCAN..];
    assert s.rows[MAX_SCAN] in Lost(s);
    assert AllFound([s]) == [Found(s)] && AllLost([s]) == [Lost(s)];
    SingleConcat(Found(s));
    SingleConcat(Lost(s));
    SortedIsOrdered(Found(s));
    RetainedIsTopExactlyWhen([s]);
  }

  lemma {:induction false} SingleConcat(s: seq<Entry>)
    ensures Concat([s]) == s
  {
    assert [s][1..] == [];
  }

  /** Newest first; at one instant by the order of the kinds, and within a kind by id. */
  lemma {:induction false} RetainedIsInOrder(sources: seq<Source>, i: nat, j: nat)
    requires i < j < |Retained(sources)|
    ensures var a, b := Retained(sources)[i], Retained(sources)[j];
      && a.at >= b.at
      && (a.at == b.at ==> a.kind <= b.kind)
      && (a.at == b.at && a.kind == b.kind ==> a.id <= b.id)
  {
    SortedIsOrdered(Concat(AllFound(sources)));
    assert Before(Sorted(Concat(AllFound(sources)))[i], Sorted(Concat(AllFound(sources)))[j]);
  }

  /** For all sources: when the page does not say that it is truncated, every well-formed row is retained, once. */
  lemma {:induction false} NotTruncatedIsComplete(sources: seq<Source>)
    requires !Truncated(sources)
    ensures Ordered(Retained(sources))
    ensures multiset(Retained(sources)) == Union(AllWellFormed(sources))
  {
    forall i | 0 <= i < |sources|
      ensures AllFound(sources)[i] == AllWellFormed(sources)[i]
    {
      assert sources[i] in sources && !Cut(sources[i]);
    }
    assert AllFound(sources) == AllWellFormed(sources);
    SortedIsOrdered(Concat(AllFound(sources)));
  }

  // ---------------------------------------------------------------------------------------------------------------
  // Following the pages
  // ---------------------------------------------------------------------------------------------------------------

  /** All entries from an offset on. */
  function From(entries: seq<Entry>, offset: nat): seq<Entry> {
    if offset <= |entries| then entries[offset..] else []
  }

  /** Following the next offsets of an unchanged store visits each retained entry exactly once, in order; no next offset is
      refused, because no more entries are retained than offsets are accepted. */
  lemma {:induction false} PagesCoverEverythingOnce(sources: seq<Source>, limit: nat, offset: nat)
    requires 1 <= limit <= MAX_LIMIT && offset < MAX_SCAN
    ensures Walked(Retained(sources), limit, offset, MAX_SCAN) == From(Retained(sources), offset)
  {
    WalkIsStretch(Retained(sources), limit, offset, MAX_SCAN);
    WalkReachesTheBound(limit, offset, MAX_SCAN);
  }

  /** A next offset is never refused by the validation of the next query, and moves forward. */
  lemma {:induction false} NextOffsetIsValid(sources: seq<Source>, limit: nat, offset: nat)
    requires 1 <= limit <= MAX_LIMIT && NextOffset(Retained(sources), limit, offset).Some?
    ensures offset < NextOffset(Retained(sources), limit, offset).value < MAX_SCAN
  {
  }
}
