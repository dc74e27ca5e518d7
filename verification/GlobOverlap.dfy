/** The conservative glob-overlap test and the contract conflict check of src/stagemesh/concurrency.py, against the glob
    matcher they are about (Python's fnmatchcase, with which src/stagemesh/contracts.py matches paths).
 */
module GlobOverlap {
  import opened Prelude

  /** The characters a wildcard can start with. */
  predicate WildStart(c: char) {
    c == '*' || c == '?' || c == '['
  }

  /** The characters a wildcard can end with. */
  predicate WildEnd(c: char) {
    c == '*' || c == '?' || c == ']'
  }

  predicate Special(c: char) {
    WildStart(c) || WildEnd(c)
  }

  // ---------------------------------------------------------------------------------------------------------------
  // The matcher
  // ---------------------------------------------------------------------------------------------------------------

  /** The position of the first `]` from `from` on, or |p|. */
  function FindClose(p: string, from: nat): (j: nat)
    requires from <= |p|
    ensures from <= j <= |p|
    ensures j < |p| ==> p[j] == ']'
    ensures j == |p| ==> forall k :: from <= k < |p| ==> p[k] != ']'
    decreases |p| - from
  {
    if from == |p| then |p| else if p[from] == ']' then from else FindClose(p, from + 1)
  }

  /** Where the character class that `p` starts with ends; |p| when it is not closed, and `[` stands for itself. A `!`
      and then a `]` at its start belong to the class. */
  function ClassEnd(p: string): (j: nat)
    requires p != [] && p[0] == '['
    ensures 1 <= j <= |p|
    ensures j < |p| ==> 2 <= j && p[j] == ']'
  {
    var j := if 1 < |p| && p[1] == '!' then 2 else 1;
    var j := if j < |p| && p[j] == ']' then j + 1 else j;
    FindClose(p, j)
  }

  /** Membership in the body of a class: single characters and ranges `a-z`; an inverted range is empty. */
  predicate InItems(items: string, c: char) {
    if items == [] then false
    else if |items| >= 3 && items[1] == '-' then items[0] <= c <= items[2] || InItems(items[3..], c)
    else items[0] == c || InItems(items[1..], c)
  }

  predicate InClass(body: string, c: char)
    requires body != []
  {
    if body[0] == '!' then !InItems(body[1..], c) else InItems(body, c)
  }

  /** fnmatchcase: does the whole of `s` match `p`? */
  predicate FnMatch(p: string, s: string)
    decreases |p| + |s|
  {
    if p == [] then s == []
    else if p[0] == '*' then FnMatch(p[1..], s) || (s != [] && FnMatch(p, s[1..]))
    else if s == [] then false
    else if p[0] == '?' then FnMatch(p[1..], s[1..])
    else if p[0] == '[' && ClassEnd(p) < |p| then
      InClass(p[1..ClassEnd(p)], s[0]) && FnMatch(p[ClassEnd(p) + 1..], s[1..])
    else s[0] == p[0] && FnMatch(p[1..], s[1..])
  }

  // ---------------------------------------------------------------------------------------------------------------
  // The overlap test
  // ---------------------------------------------------------------------------------------------------------------

  function LiteralPrefix(p: string): string {
    if p == [] || WildStart(p[0]) then [] else [p[0]] + LiteralPrefix(p[1..])
  }

  function LiteralSuffix(p: string): string {
    if p == [] || WildEnd(p[|p| - 1]) then [] else LiteralSuffix(p[..|p| - 1]) + [p[|p| - 1]]
  }

  predicate StartsWith(s: string, t: string) {
    t <= s
  }

  function Slashes(s: string): string {
    if s == [] then [] else [if s[0] == '\\' then '/' else s[0]] + Slashes(s[1..])
  }

  /** Full case folding maps characters to strings one by one (`str.casefold`). */
  function Folded(fold: char -> string, s: string): string {
    if s == [] then [] else fold(s[0]) + Folded(fold, s[1..])
  }

  /** What the test compares instead of a pattern, and the matcher instead of a path. */
  function Normal(fold: char -> string, s: string): string {
    Folded(fold, Slashes(s))
  }

  /** Folding leaves the four special characters alone and produces them from no other character. */
  ghost predicate FoldsCase(fold: char -> string) {
    forall c :: if Special(c) then fold(c) == [c] else forall k :: k in fold(c) ==> !Special(k)
  }

  predicate PatternsOverlap(fold: char -> string, first: string, second: string) {
    var a := Normal(fold, first);
    var b := Normal(fold, second);
    if a == b || FnMatch(b, a) || FnMatch(a, b) then true
    else
      var prefixA, prefixB := LiteralPrefix(a), LiteralPrefix(b);
      if !(StartsWith(prefixA, prefixB) || StartsWith(prefixB, prefixA)) then false
      else
        var suffixA, suffixB := LiteralSuffix(a), LiteralSuffix(b);
        EndsWith(suffixA, suffixB) || EndsWith(suffixB, suffixA)
  }

  /** How a contract's pattern is applied to a path: as written, or with case folded on both sides. */
  predicate PathMatches(fold: char -> string, path: string, pattern: string) {
    || FnMatch(Slashes(pattern), Slashes(path))
    || FnMatch(Normal(fold, pattern), Normal(fold, path))
  }

  // ---------------------------------------------------------------------------------------------------------------
  // Soundness: what matches a pattern starts with its literal prefix and ends with its literal suffix
  // ---------------------------------------------------------------------------------------------------------------

  /** What a star stands for: any stretch of the text, also an empty one. */
  lemma {:induction false} StarMeans(p: string, s: string)
    ensures FnMatch(['*'] + p, s) <==> exists k :: 0 <= k <= |s| && FnMatch(p, s[k..])
    decreases |s|
  {
    assert (['*'] + p)[1..] == p && s[0..] == s;
    if s != [] {
      StarMeans(p, s[1..]);
      assert forall k :: 0 <= k <= |s| - 1 ==> s[1..][k..] == s[k + 1..];
      if k :| 0 <= k <= |s| - 1 && FnMatch(p, s[1..][k..]) {
        assert FnMatch(p, s[k + 1..]);
      }
      if k :| 0 <= k <= |s| && FnMatch(p, s[k..]) {
        assert k > 0 ==> s[1..][k - 1..] == s[k..];
      }
    }
  }

  /** A question mark stands for one character, and text without wildcards for itself. */
  lemma {:induction false} OneCharacterMeans(c: char, p: string, s: string)
    ensures FnMatch(['?'] + p, s) <==> s != [] && FnMatch(p, s[1..])
    ensures !WildStart(c) ==> (FnMatch([c] + p, s) <==> s != [] && s[0] == c && FnMatch(p, s[1..]))
  {
    assert (['?'] + p)[1..] == p && ([c] + p)[1..] == p;
  }

  /** Membership in a class body, by single characters and ranges. */
  lemma {:induction false} ItemsMean(c: char, lo: char, hi: char, items: string)
    ensures !InItems([], c)
    ensures items == [] || items[0] != '-' ==> (InItems([lo] + items, c) <==> c == lo || InItems(items, c))
    ensures InItems([lo, '-', hi] + items, c) <==> lo <= c <= hi || InItems(items, c)
  {
    assert ([lo] + items)[1..] == items && ([lo, '-', hi] + items)[3..] == items;
  }

  lemma {:induction false} FirstClose(p: string, from: nat, close: nat)
    requires from <= close < |p| && p[close] == ']' && forall k :: from <= k < close ==> p[k] != ']'
    ensures FindClose(p, from) == close
    decreases |p| - from
  {
    if from < close {
      FirstClose(p, from + 1, close);
    }
  }

  /** Where a class text ends, behind its opening (`[` or `[!`). */
  lemma {:induction false} ClassEndsAt(whole: string, opening: nat, close: nat)
    requires whole != [] && whole[0] == '[' && 1 <= opening <= 2 && opening < close < |whole|
    requires if opening == 2 then whole[1] == '!' else whole[1] != '!'
    requires whole[close] == ']' && forall k :: opening < k < close ==> whole[k] != ']'
    ensures ClassEnd(whole) == close
  {
    FirstClose(whole, if whole[opening] == ']' then opening + 1 else opening, close);
  }

  /** And what it consists of. */
  lemma {:induction false} ClassText(opening: string, items: string, p: string)
    requires opening == "[" || opening == "[!"
    requires items != [] && items[0] != '!' && forall k :: 0 < k < |items| ==> items[k] != ']'
    ensures var whole := opening + (items + ([']'] + p));
      && whole[0] == '[' && ClassEnd(whole) == |opening| + |items|
      && whole[1..ClassEnd(whole)] == opening[1..] + items && whole[ClassEnd(whole) + 1..] == p
  {
    var whole := opening + (items + ([']'] + p));
    var close := |opening| + |items|;
    assert forall k :: |opening| <= k < close ==> whole[k] == items[k - |opening|];
    ClassEndsAt(whole, |opening|, close);
    assert whole[1..close] == opening[1..] + items;
    assert whole[close + 1..] == p;
  }

  /** A closed class stands for one character in it, or, after a `!`, for one that is not; a `]` at its very start belongs to
      it. */
  lemma {:induction false} ClassMeans(items: string, p: string, s: string)
    requires items != [] && items[0] != '!' && forall k :: 0 < k < |items| ==> items[k] != ']'
    ensures FnMatch("[" + (items + ([']'] + p)), s) <==> s != [] && InItems(items, s[0]) && FnMatch(p, s[1..])
    ensures FnMatch("[!" + (items + ([']'] + p)), s) <==> s != [] && !InItems(items, s[0]) && FnMatch(p, s[1..])
  {
    ClassText("[", items, p);
    ClassText("[!", items, p);
    assert "["[1..] + items == items && "[!"[1..] + items == ['!'] + items;
    assert (['!'] + items)[1..] == items;
  }

  /** An opening bracket that is not closed stands for itself. */
  lemma {:induction false} OpenBracketMeans(p: string, s: string)
    requires forall k :: 0 <= k < |p| ==> p[k] != ']'
    ensures FnMatch(['['] + p, s) <==> s != [] && s[0] == '[' && FnMatch(p, s[1..])
  {
    assert (['['] + p)[1..] == p;
  }

  lemma {:induction false} SlashesAre(s: string)
    ensures |Slashes(s)| == |s| && forall i :: 0 <= i < |s| ==> Slashes(s)[i] == if s[i] == '\\' then '/' else s[i]
  {
    if s != [] {
      SlashesAre(s[1..]);
    }
  }

  lemma {:induction false} MatchStartsWithPrefix(p: string, s: string)
    requires FnMatch(p, s)
    ensures StartsWith(s, LiteralPrefix(p))
    decreases |p|
  {
    if p != [] && !WildStart(p[0]) {
      MatchStartsWithPrefix(p[1..], s[1..]);
    }
  }

  ghost predicate HasWildEnd(p: string) {
    exists k :: 0 <= k < |p| && WildEnd(p[k])
  }

  /** The literal suffix only looks back to the last `*`, `?` or `]`. */
  lemma {:induction false} SuffixWithoutFirst(p: string)
    requires HasWildEnd(p)
    ensures LiteralSuffix(p) == LiteralSuffix(p[1..])
    decreases |p|
  {
    var n := |p| - 1;
    if !WildEnd(p[n]) {
      var k :| 0 <= k < |p| && WildEnd(p[k]);
      assert WildEnd(p[..n][k]);
      SuffixWithoutFirst(p[..n]);
      assert p[1..][..n - 1] == p[..n][1..];
    }
  }

  lemma {:induction false} SuffixAfterToken(p: string, n: nat)
    requires 0 < n <= |p| && WildEnd(p[n - 1])
    ensures LiteralSuffix(p) == LiteralSuffix(p[n..])
  {
    SuffixWithoutFirst(p);
    if n > 1 {
      SuffixAfterToken(p[1..], n - 1);
      assert p[1..][n - 1..] == p[n..];
    }
  }

  lemma {:induction false} SuffixOfLiteral(p: string)
    requires !HasWildEnd(p)
    ensures LiteralSuffix(p) == p
    decreases |p|
  {
    if p != [] {
      assert forall k :: 0 <= k < |p| - 1 ==> p[..|p| - 1][k] == p[k];
      SuffixOfLiteral(p[..|p| - 1]);
    }
  }

  /** A pattern without `*`, `?` and `]` matches only itself; an unclosed `[` in it is literal. */
  lemma {:induction false} LiteralMatch(p: string, s: string)
    requires FnMatch(p, s) && !HasWildEnd(p)
    ensures s == p
    decreases |p|
  {
    if p != [] {
      assert !WildEnd(p[0]);
      assert forall k :: 0 <= k < |p| - 1 ==> p[1..][k] == p[k + 1];
      LiteralMatch(p[1..], s[1..]);
    }
  }

  lemma {:induction false} EndsWithTail(s: string, t: string)
    requires s != [] && EndsWith(s[1..], t)
    ensures EndsWith(s, t)
  {
    assert s[1..][|s| - 1 - |t|..] == s[|s| - |t|..];
  }

  lemma {:induction false} MatchEndsWithSuffix(p: string, s: string)
    requires FnMatch(p, s)
    ensures EndsWith(s, LiteralSuffix(p))
    decreases |p| + |s|
  {
    if !HasWildEnd(p) {
      SuffixOfLiteral(p);
      LiteralMatch(p, s);
    } else if p[0] == '*' && FnMatch(p[1..], s) {
      SuffixAfterToken(p, 1);
      MatchEndsWithSuffix(p[1..], s);
    } else if p[0] == '*' {
      MatchEndsWithSuffix(p, s[1..]);
      EndsWithTail(s, LiteralSuffix(p));
    } else {
      var n := if p[0] == '[' && ClassEnd(p) < |p| then ClassEnd(p) + 1 else 1;
      if n > 1 {
        SuffixAfterToken(p, n);
      } else {
        SuffixWithoutFirst(p);
      }
      MatchEndsWithSuffix(p[n..], s[1..]);
      EndsWithTail(s, LiteralSuffix(p));
    }
  }

  // ---------------------------------------------------------------------------------------------------------------
  // Soundness under case folding
  // ---------------------------------------------------------------------------------------------------------------

  lemma {:induction false} FoldedAppend(fold: char -> string, s: string, t: string)
    ensures Folded(fold, s + t) == Folded(fold, s) + Folded(fold, t)
  {
    if s == [] {
      assert s + t == t;
    } else {
      assert (s + t)[1..] == s[1..] + t;
      FoldedAppend(fold, s[1..], t);
    }
  }

  lemma {:induction false} FoldedStartsWith(fold: char -> string, s: string, t: string)
    requires StartsWith(s, t)
    ensures StartsWith(Folded(fold, s), Folded(fold, t))
  {
    assert s == t + s[|t|..];
    FoldedAppend(fold, t, s[|t|..]);
  }

  lemma {:induction false} FoldedEndsWith(fold: char -> string, s: string, t: string)
    requires EndsWith(s, t)
    ensures EndsWith(Folded(fold, s), Folded(fold, t))
  {
    assert s == s[..|s| - |t|] + t;
    FoldedAppend(fold, s[..|s| - |t|], t);
  }

  lemma {:induction false} PrefixOfPlain(plain: string, p: string)
    requires forall k :: k in plain ==> !Special(k)
    ensures LiteralPrefix(plain + p) == plain + LiteralPrefix(p)
  {
    if plain == [] {
      assert plain + p == p;
    } else {
      assert (plain + p)[1..] == plain[1..] + p;
      assert plain[0] in plain;
      PrefixOfPlain(plain[1..], p);
    }
  }

  lemma {:induction false} PrefixFolds(fold: char -> string, p: string)
    requires FoldsCase(fold)
    ensures LiteralPrefix(Folded(fold, p)) == Folded(fold, LiteralPrefix(p))
  {
    if p != [] {
      var rest := Folded(fold, p[1..]);
      PrefixFolds(fold, p[1..]);
      if Special(p[0]) {
        assert ([p[0]] + rest)[1..] == rest;
      } else {
        PrefixOfPlain(fold(p[0]), rest);
      }
    }
  }

  lemma {:induction false} SuffixOfPlain(p: string, plain: string)
    requires forall k :: k in plain ==> !Special(k)
    ensures LiteralSuffix(p + plain) == LiteralSuffix(p) + plain
    decreases |plain|
  {
    var n := |plain| - 1;
    if plain == [] {
      assert p + plain == p;
    } else {
      assert plain[n] in plain;
      assert (p + plain)[..|p + plain| - 1] == p + plain[..n];
      assert plain == plain[..n] + [plain[n]];
      SuffixOfPlain(p, plain[..n]);
    }
  }

  lemma {:induction false} SuffixFolds(fold: char -> string, p: string)
    requires FoldsCase(fold)
    ensures LiteralSuffix(Folded(fold, p)) == Folded(fold, LiteralSuffix(p))
    decreases |p|
  {
    if p != [] {
      var init, last := p[..|p| - 1], p[|p| - 1];
      FoldedLast(fold, init, last);
      assert p == init + [last];
      if WildEnd(last) {
        assert Folded(fold, p) == Folded(fold, init) + [last];
      } else {
        SuffixFolds(fold, init);
        FoldedLast(fold, LiteralSuffix(init), last);
        if Special(last) {
          assert fold(last) == [last];
          assert (Folded(fold, init) + [last])[..|Folded(fold, init)|] == Folded(fold, init);
        } else {
          SuffixOfPlain(Folded(fold, init), fold(last));
        }
      }
    }
  }

  lemma {:induction false} FoldedLast(fold: char -> string, s: string, c: char)
    ensures Folded(fold, s + [c]) == Folded(fold, s) + fold(c)
  {
    FoldedAppend(fold, s, [c]);
    assert Folded(fold, [c]) == fold(c) + [];
  }

  /** Whatever way a path matches a pattern, the folded path has the literal ends of the folded pattern. */
  lemma {:induction false} PathHasLiteralEnds(fold: char -> string, path: string, pattern: string)
    requires FoldsCase(fold) && PathMatches(fold, path, pattern)
    ensures StartsWith(Normal(fold, path), LiteralPrefix(Normal(fold, pattern)))
    ensures EndsWith(Normal(fold, path), LiteralSuffix(Normal(fold, pattern)))
  {
    var s, p := Slashes(path), Slashes(pattern);
    if FnMatch(p, s) {
      MatchStartsWithPrefix(p, s);
      MatchEndsWithSuffix(p, s);
      FoldedStartsWith(fold, s, LiteralPrefix(p));
      FoldedEndsWith(fold, s, LiteralSuffix(p));
      PrefixFolds(fold, p);
      SuffixFolds(fold, p);
    } else {
      MatchStartsWithPrefix(Folded(fold, p), Folded(fold, s));
      MatchEndsWithSuffix(Folded(fold, p), Folded(fold, s));
    }
  }

  lemma {:induction false} EndingsAreNested(s: string, t: string, u: string)
    requires EndsWith(s, t) && EndsWith(s, u)
    ensures EndsWith(u, t) || EndsWith(t, u)
  {
    if |t| <= |u| {
      assert s[|s| - |u|..][|u| - |t|..] == s[|s| - |t|..];
    } else {
      assert s[|s| - |t|..][|t| - |u|..] == s[|s| - |u|..];
    }
  }

  lemma {:induction false} BeginningsAreNested(s: string, t: string, u: string)
    requires StartsWith(s, t) && StartsWith(s, u)
    ensures StartsWith(u, t) || StartsWith(t, u)
  {
    assert t == s[..|t|] && u == s[..|u|];
  }

  /** The promise of the overlap test: it answers False only for patterns that no path matches both of. */
  lemma {:induction false} OverlapTestIsSound(fold: char -> string, path: string, first: string, second: string)
    requires FoldsCase(fold) && PathMatches(fold, path, first) && PathMatches(fold, path, second)
    ensures PatternsOverlap(fold, first, second)
  {
    PathHasLiteralEnds(fold, path, first);
    PathHasLiteralEnds(fold, path, second);
    var s := Normal(fold, path);
    var a, b := Normal(fold, first), Normal(fold, second);
    EndingsAreNested(s, LiteralSuffix(a), LiteralSuffix(b));
    BeginningsAreNested(s, LiteralPrefix(a), LiteralPrefix(b));
  }

  lemma {:induction false} OverlapTestIsSymmetric(fold: char -> string, first: string, second: string)
    ensures PatternsOverlap(fold, first, second) == PatternsOverlap(fold, second, first)
  {
  }

  /** One of two patterns starts like the other, and one of them ends like the other. */
  predicate EndsAgree(a: string, b: string) {
    && (StartsWith(LiteralPrefix(a), LiteralPrefix(b)) || StartsWith(LiteralPrefix(b), LiteralPrefix(a)))
    && (EndsWith(LiteralSuffix(a), LiteralSuffix(b)) || EndsWith(LiteralSuffix(b), LiteralSuffix(a)))
  }

  lemma {:induction false} StartsWithItsPrefix(p: string)
    ensures StartsWith(p, LiteralPrefix(p))
  {
    if p != [] && !WildStart(p[0]) {
      StartsWithItsPrefix(p[1..]);
      assert p == [p[0]] + p[1..];
    }
  }

  lemma {:induction false} EndsWithItsSuffix(p: string)
    ensures EndsWith(p, LiteralSuffix(p))
    decreases |p|
  {
    if p != [] && !WildEnd(p[|p| - 1]) {
      var init := p[..|p| - 1];
      EndsWithItsSuffix(init);
      EndsWithOneMore(init, LiteralSuffix(init), p[|p| - 1]);
      assert p == init + [p[|p| - 1]];
    }
  }

  lemma {:induction false} EndsWithOneMore(s: string, t: string, c: char)
    requires EndsWith(s, t)
    ensures EndsWith(s + [c], t + [c])
  {
    assert (s + [c])[|s| - |t|..] == s[|s| - |t|..] + [c];
  }

  /** The three early answers of the test (equal patterns, one pattern matching the other) change nothing. */
  lemma {:induction false} OverlapIsDecidedByTheEnds(fold: char -> string, first: string, second: string)
    ensures PatternsOverlap(fold, first, second)
       <==> EndsAgree(Normal(fold, first), Normal(fold, second))
  {
    var a, b := Normal(fold, first), Normal(fold, second);
    StartsWithItsPrefix(a);
    EndsWithItsSuffix(a);
    StartsWithItsPrefix(b);
    EndsWithItsSuffix(b);
    if FnMatch(b, a) {
      MatchStartsWithPrefix(b, a);
      MatchEndsWithSuffix(b, a);
      BeginningsAreNested(a, LiteralPrefix(a), LiteralPrefix(b));
      EndingsAreNested(a, LiteralSuffix(a), LiteralSuffix(b));
    }
    if FnMatch(a, b) {
      MatchStartsWithPrefix(a, b);
      MatchEndsWithSuffix(a, b);
      BeginningsAreNested(b, LiteralPrefix(a), LiteralPrefix(b));
      EndingsAreNested(b, LiteralSuffix(a), LiteralSuffix(b));
    }
  }

  /** Text without wildcards, in any case and with either slash. */
  predicate Plain(s: string) {
    forall c :: c in s ==> !Special(c)
  }

  /** A directory and an ending: `before*after`. */
  function Star(before: string, after: string): string {
    before + (['*'] + after)
  }

  lemma {:induction false} StarMatchesEnding(after: string, s: string)
    requires Plain(after) && EndsWith(s, after)
    ensures FnMatch(['*'] + after, s)
    decreases |s|
  {
    assert (['*'] + after)[1..] == after;
    if |s| == |after| {
      LiteralMatchesItself(after);
    } else {
      assert s[1..][|s| - 1 - |after|..] == s[|s| - |after|..];
      StarMatchesEnding(after, s[1..]);
    }
  }

  lemma {:induction false} LiteralMatchesItself(s: string)
    requires forall c :: c in s ==> !Special(c)
    ensures FnMatch(s, s)
  {
    if s != [] {
      assert s[0] in s;
      LiteralMatchesItself(s[1..]);
    }
  }

  lemma {:induction false} SameBeginningMatches(before: string, p: string, s: string)
    requires Plain(before) && FnMatch(p, s)
    ensures FnMatch(before + p, before + s)
  {
    if before == [] {
      assert before + p == p && before + s == s;
    } else {
      assert before[0] in before;
      assert (before + p)[1..] == before[1..] + p && (before + s)[1..] == before[1..] + s;
      SameBeginningMatches(before[1..], p, s);
    }
  }

  /** Every path with the right beginning and, behind it, the right ending. */
  lemma {:induction false} StarMatches(before: string, after: string, head: string, tail: string)
    requires Plain(before) && Plain(after)
    requires StartsWith(head, before) && EndsWith(tail, after)
    ensures FnMatch(Star(before, after), head + tail)
  {
    var rest := head[|before|..] + tail;
    assert head + tail == before + rest;
    assert rest[|rest| - |after|..] == tail[|tail| - |after|..];
    StarMatchesEnding(after, rest);
    SameBeginningMatches(before, ['*'] + after, rest);
  }

  lemma {:induction false} SlashesAppend(s: string, t: string)
    ensures Slashes(s + t) == Slashes(s) + Slashes(t)
  {
    if s == [] {
      assert s + t == t;
    } else {
      assert (s + t)[1..] == s[1..] + t;
      SlashesAppend(s[1..], t);
    }
  }

  lemma {:induction false} NormalAppend(fold: char -> string, s: string, t: string)
    ensures Normal(fold, s + t) == Normal(fold, s) + Normal(fold, t)
  {
    SlashesAppend(s, t);
    FoldedAppend(fold, Slashes(s), Slashes(t));
  }

  lemma {:induction false} NormalIsPlain(fold: char -> string, s: string)
    requires FoldsCase(fold) && Plain(s)
    ensures Plain(Normal(fold, s))
  {
    if s != [] {
      assert s[0] in s && forall c :: c in s[1..] ==> c in s;
      NormalIsPlain(fold, s[1..]);
      var c := if s[0] == '\\' then '/' else s[0];
      assert !Special(c);
      assert Slashes(s)[1..] == Slashes(s[1..]);
    }
  }

  /** One star stays one star, and the ends of the pattern are its text. */
  lemma {:induction false} StarIsNormal(fold: char -> string, before: string, after: string)
    requires FoldsCase(fold)
    ensures Normal(fold, Star(before, after)) == Star(Normal(fold, before), Normal(fold, after))
  {
    NormalAppend(fold, before, ['*'] + after);
    NormalAppend(fold, ['*'], after);
    assert Slashes(['*']) == ['*'] + [];
    assert fold('*') == ['*'] && Folded(fold, ['*']) == ['*'] + [];
  }

  lemma {:induction false} StarEnds(before: string, after: string)
    requires Plain(before) && Plain(after)
    ensures LiteralPrefix(Star(before, after)) == before && LiteralSuffix(Star(before, after)) == after
  {
    PrefixOfPlain(before, ['*'] + after);
    assert before + LiteralPrefix(['*'] + after) == before + [] == before;
    assert Star(before, after) == (before + ['*']) + after;
    SuffixOfPlain(before + ['*'], after);
    assert LiteralSuffix(before + ['*']) == [] && [] + after == after;
  }

  lemma {:induction false} StarMatchesPath(
    fold: char -> string, before: string, after: string, head: string, tail: string)
    requires FoldsCase(fold) && Plain(before) && Plain(after)
    requires StartsWith(Normal(fold, head), Normal(fold, before)) && EndsWith(Normal(fold, tail), Normal(fold, after))
    ensures PathMatches(fold, head + tail, Star(before, after))
  {
    StarIsNormal(fold, before, after);
    NormalIsPlain(fold, before);
    NormalIsPlain(fold, after);
    NormalAppend(fold, head, tail);
    StarMatches(Normal(fold, before), Normal(fold, after), Normal(fold, head), Normal(fold, tail));
  }

  /** A path that two patterns share whose ends agree: the longer beginning, then the longer ending. */
  lemma {:induction false} SharedPath(
    fold: char -> string, before: string, after: string, before2: string, after2: string)
    returns (path: string)
    requires FoldsCase(fold) && Plain(before) && Plain(after) && Plain(before2) && Plain(after2)
    requires EndsAgree(Normal(fold, Star(before, after)), Normal(fold, Star(before2, after2)))
    ensures PathMatches(fold, path, Star(before, after)) && PathMatches(fold, path, Star(before2, after2))
  {
    NormalEnds(fold, before, after);
    NormalEnds(fold, before2, after2);
    var head := if StartsWith(Normal(fold, before), Normal(fold, before2)) then before else before2;
    var tail := if EndsWith(Normal(fold, after), Normal(fold, after2)) then after else after2;
    path := head + tail;
    StarMatchesPath(fold, before, after, head, tail);
    StarMatchesPath(fold, before2, after2, head, tail);
  }

  lemma {:induction false} NormalEnds(fold: char -> string, before: string, after: string)
    requires FoldsCase(fold) && Plain(before) && Plain(after)
    ensures LiteralPrefix(Normal(fold, Star(before, after))) == Normal(fold, before)
    ensures LiteralSuffix(Normal(fold, Star(before, after))) == Normal(fold, after)
  {
    StarIsNormal(fold, before, after);
    NormalIsPlain(fold, before);
    NormalIsPlain(fold, after);
    StarEnds(Normal(fold, before), Normal(fold, after));
  }

  /** For the patterns that contracts are mostly written with, text around one `*`, the test is exact: it answers True if
      and only if some path matches both. */
  lemma {:induction false} OverlapTestIsExactForOneStar(
    fold: char -> string, before: string, after: string, before2: string, after2: string)
    requires FoldsCase(fold) && Plain(before) && Plain(after) && Plain(before2) && Plain(after2)
    ensures PatternsOverlap(fold, Star(before, after), Star(before2, after2)) <==>
      exists path :: PathMatches(fold, path, Star(before, after)) && PathMatches(fold, path, Star(before2, after2))
  {
    var p, q := Star(before, after), Star(before2, after2);
    if path :| PathMatches(fold, path, p) && PathMatches(fold, path, q) {
      OverlapTestIsSound(fold, path, p, q);
    } else {
      OverlapIsDecidedByTheEnds(fold, p, q);
      if EndsAgree(Normal(fold, p), Normal(fold, q)) {
        var path := SharedPath(fold, before, after, before2, after2);
      }
    }
  }

  // ---------------------------------------------------------------------------------------------------------------
  // Conflict freedom of two contracts
  // ---------------------------------------------------------------------------------------------------------------

  datatype Contract = Contract(exclusive: seq<string>, protectedFiles: seq<string>, allowedFiles: seq<string>)

  datatype Conflict = ExclusiveResource | ProtectedFiles(first: string, second: string)

  function FirstOverlapWith(fold: char -> string, a: string, right: seq<string>): Option<string> {
    if right == [] then None
    else if PatternsOverlap(fold, a, right[0]) then Some(right[0])
    else FirstOverlapWith(fold, a, right[1..])
  }

  function AnyOverlap(fold: char -> string, left: seq<string>, right: seq<string>): Option<(string, string)> {
    if left == [] then None
    else match FirstOverlapWith(fold, left[0], right)
         case Some(b) => Some((left[0], b))
         case None => AnyOverlap(fold, left[1..], right)
  }

  predicate SharesResource(fold: char -> string, first: Contract, second: Contract) {
    || (exists r :: r in first.exclusive && r in second.exclusive)
    || (exists r :: r in first.exclusive && exists q :: q in second.exclusive && Folded(fold, r) == Folded(fold, q))
  }

  function ContractConflict(fold: char -> string, first: Contract, second: Contract): Option<Conflict> {
    if SharesResource(fold, first, second) then Some(ExclusiveResource)
    else match AnyOverlap(fold, first.protectedFiles, second.protectedFiles + second.allowedFiles)
         case Some((a, b)) => Some(ProtectedFiles(a, b))
         case None =>
           match AnyOverlap(fold, second.protectedFiles, first.protectedFiles + first.allowedFiles)
           case Some((a, b)) => Some(ProtectedFiles(a, b))
           case None => None
  }

  lemma {:induction false} AnyOverlapMeans(fold: char -> string, left: seq<string>, right: seq<string>)
    ensures AnyOverlap(fold, left, right).None? <==>
      forall a, b :: a in left && b in right ==> !PatternsOverlap(fold, a, b)
  {
    if left != [] {
      FirstOverlapMeans(fold, left[0], right);
      AnyOverlapMeans(fold, left[1..], right);
    }
  }

  lemma {:induction false} FirstOverlapMeans(fold: char -> string, a: string, right: seq<string>)
    ensures FirstOverlapWith(fold, a, right).None? <==> forall b :: b in right ==> !PatternsOverlap(fold, a, b)
    ensures FirstOverlapWith(fold, a, right).Some? ==> FirstOverlapWith(fold, a, right).value in right
  {
    if right != [] {
      FirstOverlapMeans(fold, a, right[1..]);
    }
  }

  /** `left` protects something that overlaps what `right` protects or allows. */
  ghost predicate Endangers(fold: char -> string, left: Contract, right: Contract) {
    exists a, b :: a in left.protectedFiles && b in right.protectedFiles + right.allowedFiles
      && PatternsOverlap(fold, a, b)
  }

  lemma {:induction false} AnyOverlapNamesOne(fold: char -> string, left: seq<string>, right: seq<string>)
    requires AnyOverlap(fold, left, right).Some?
    ensures var (a, b) := AnyOverlap(fold, left, right).value;
      a in left && b in right && PatternsOverlap(fold, a, b)
  {
    FirstOverlapNamesOne(fold, left[0], right);
    if FirstOverlapWith(fold, left[0], right).None? {
      AnyOverlapNamesOne(fold, left[1..], right);
    }
  }

  lemma {:induction false} FirstOverlapNamesOne(fold: char -> string, a: string, right: seq<string>)
    ensures var b := FirstOverlapWith(fold, a, right);
      b.Some? ==> b.value in right && PatternsOverlap(fold, a, b.value)
  {
    if right != [] {
      FirstOverlapNamesOne(fold, a, right[1..]);
    }
  }

  /** A conflict is reported exactly when there is one, and the pair that is named is one of those that overlap. */
  lemma {:induction false} ConflictExactlyWhen(fold: char -> string, first: Contract, second: Contract)
    ensures ContractConflict(fold, first, second).Some? <==>
      SharesResource(fold, first, second) || Endangers(fold, first, second) || Endangers(fold, second, first)
    ensures match ContractConflict(fold, first, second)
            case None => true
            case Some(ExclusiveResource) =>
              exists r, q :: r in first.exclusive && q in second.exclusive && Folded(fold, r) == Folded(fold, q)
            case Some(ProtectedFiles(a, b)) =>
              && PatternsOverlap(fold, a, b)
              && (|| (a in first.protectedFiles && b in second.protectedFiles + second.allowedFiles)
                  || (a in second.protectedFiles && b in first.protectedFiles + first.allowedFiles))
  {
    var right, left := second.protectedFiles + second.allowedFiles, first.protectedFiles + first.allowedFiles;
    AnyOverlapMeans(fold, first.protectedFiles, right);
    AnyOverlapMeans(fold, second.protectedFiles, left);
    if AnyOverlap(fold, first.protectedFiles, right).Some? {
      AnyOverlapNamesOne(fold, first.protectedFiles, right);
    }
    if AnyOverlap(fold, second.protectedFiles, left).Some? {
      AnyOverlapNamesOne(fold, second.protectedFiles, left);
    }
  }

  ghost predicate MatchesAny(fold: char -> string, path: string, patterns: seq<string>) {
    exists p :: p in patterns && PathMatches(fold, path, p)
  }

  /** Two contracts that do not conflict leave their tasks independent: what one protects, the other can neither
      protect nor change, and no exclusive resource is shared, whatever its case. */
  lemma {:induction false} NoConflictMeansIndependent(
    fold: char -> string, first: Contract, second: Contract, path: string)
    requires FoldsCase(fold) && ContractConflict(fold, first, second).None?
    ensures forall r, q :: r in first.exclusive && q in second.exclusive ==> Folded(fold, r) != Folded(fold, q)
    ensures MatchesAny(fold, path, first.protectedFiles) ==>
      !MatchesAny(fold, path, second.protectedFiles) && !MatchesAny(fold, path, second.allowedFiles)
    ensures MatchesAny(fold, path, second.protectedFiles) ==>
      !MatchesAny(fold, path, first.protectedFiles) && !MatchesAny(fold, path, first.allowedFiles)
  {
    NoneMatchesBoth(fold, first.protectedFiles, second.protectedFiles + second.allowedFiles, path);
    NoneMatchesBoth(fold, second.protectedFiles, first.protectedFiles + first.allowedFiles, path);
  }

  lemma {:induction false} NoneMatchesBoth(fold: char -> string, left: seq<string>, right: seq<string>, path: string)
    requires FoldsCase(fold) && AnyOverlap(fold, left, right).None?
    ensures forall a, b :: a in left && b in right ==> !(PathMatches(fold, path, a) && PathMatches(fold, path, b))
  {
    AnyOverlapMeans(fold, left, right);
    forall a, b | a in left && b in right && PathMatches(fold, path, a)
      ensures !PathMatches(fold, path, b)
    {
      if PathMatches(fold, path, b) {
        OverlapTestIsSound(fold, path, a, b);
        assert false;
      }
    }
  }

  /** Whether two contracts conflict does not depend on which of them is asked first. */
  lemma {:induction false} ConflictIsSymmetric(fold: char -> string, first: Contract, second: Contract)
    ensures ContractConflict(fold, first, second).None? <==> ContractConflict(fold, second, first).None?
  {
    AnyOverlapMeans(fold, first.protectedFiles, second.protectedFiles + second.allowedFiles);
    AnyOverlapMeans(fold, second.protectedFiles, first.protectedFiles + first.allowedFiles);
  }

  /** The test is conservative: it may report an overlap of patterns that no path matches both of. */
  lemma {:induction false} OverlapTestIsNotExact(path: string)
    ensures PatternsOverlap(c => [c], "a?b", "a??b")
    ensures !(FnMatch("a?b", path) && FnMatch("a??b", path))
  {
    LengthOfQuestionMarks("a?b", path);
    LengthOfQuestionMarks("a??b", path);
    PlainText("a?b");
    PlainText("a??b");
    assert "a?b"[1..] == "?b" && "a??b"[1..] == "??b";
    assert LiteralPrefix("a?b") == "a" == LiteralPrefix("a??b");
    assert "a?b"[..2] == "a?" && "a??b"[..3] == "a??";
    assert LiteralSuffix("a?b") == "b" == LiteralSuffix("a??b");
  }

  lemma {:induction false} PlainText(s: string)
    requires forall k :: 0 <= k < |s| ==> s[k] != '\\'
    ensures Slashes(s) == s && Folded(c => [c], s) == s
  {
    if s != [] {
      assert forall k :: 0 <= k < |s| - 1 ==> s[1..][k] == s[k + 1];
      PlainText(s[1..]);
    }
  }

  lemma {:induction false} LengthOfQuestionMarks(p: string, s: string)
    requires forall k :: 0 <= k < |p| ==> p[k] != '*' && p[k] != '['
    ensures FnMatch(p, s) ==> |s| == |p|
    decreases |p|
  {
    if p != [] && s != [] {
      assert forall k :: 0 <= k < |p| - 1 ==> p[1..][k] == p[k + 1];
      LengthOfQuestionMarks(p[1..], s[1..]);
    }
  }
}
