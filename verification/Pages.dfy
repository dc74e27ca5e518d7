/** Pages of a list by limit and offset, as both activity queries serve them, and what a caller sees who follows the next
    offsets. */
module Pages {
  import opened Prelude

  /** `entries[from:to]` for offsets that are not negative. */
  function Stretch<T>(entries: seq<T>, from: nat, to: nat): seq<T>
    requires from <= to
  {
    if from >= |entries| then []
    else if to >= |entries| then entries[from..]
    else entries[from..to]
  }

  function PageAt<T>(entries: seq<T>, limit: nat, offset: nat): seq<T> {
    Stretch(entries, offset, offset + limit)
  }

  function NextOffset<T>(entries: seq<T>, limit: nat, offset: nat): Option<nat> {
    var end := offset + |PageAt(entries, limit, offset)|;
    if end < |entries| then Some(end) else None
  }

  /** A page is the stretch of the entries at its offset, full unless it reaches the end. */
  lemma {:induction false} PageIsStretch<T>(entries: seq<T>, limit: nat, offset: nat)
    ensures var page := PageAt(entries, limit, offset);
      && |page| <= limit && (|page| < limit ==> offset + |page| >= |entries|)
      && forall i :: 0 <= i < |page| ==> offset + i < |entries| && page[i] == entries[offset + i]
  {
  }

  lemma {:induction false} StretchesJoin<T>(entries: seq<T>, a: nat, b: nat, c: nat)
    requires a <= b <= c
    ensures Stretch(entries, a, b) + Stretch(entries, b, c) == Stretch(entries, a, c)
  {
  }

  /** Everything that a caller sees who follows the next offsets, until there is none or it is refused: the queries accept
      offsets below `refused`. */
  function Walked<T>(entries: seq<T>, limit: nat, offset: nat, refused: nat): seq<T>
    requires limit > 0
    decreases |entries| - offset
  {
    PageAt(entries, limit, offset)
    + match NextOffset(entries, limit, offset)
      case None => []
      case Some(next) => if next >= refused then [] else Walked(entries, limit, next, refused)
  }

  /** The first offset of a walk that would be refused. */
  function WalkEnd(limit: nat, offset: nat, refused: nat): (end: nat)
    requires limit > 0
    ensures offset <= end
    decreases refused - offset
  {
    if offset >= refused then offset else WalkEnd(limit, offset + limit, refused)
  }

  lemma {:induction false} WalkReachesTheBound(limit: nat, offset: nat, refused: nat)
    requires limit > 0 && offset < refused
    ensures refused <= WalkEnd(limit, offset, refused) < refused + limit
    decreases refused - offset
  {
    if offset + limit < refused {
      WalkReachesTheBound(limit, offset + limit, refused);
    }
  }

  /** From the start it is `refused`, rounded up to full pages. */
  lemma {:induction false} WalkEndIsRoundedUp(limit: nat, before: nat, refused: nat) returns (pages: nat)
    requires limit > 0 && limit * before < refused
    ensures WalkEnd(limit, limit * before, refused) == limit * pages
    ensures refused <= limit * pages < refused + limit
    decreases refused - limit * before
  {
    pages := before + 1;
    assert limit * pages == limit * before + limit;
    if limit * pages < refused {
      pages := WalkEndIsRoundedUp(limit, pages, refused);
    }
  }

  /** Following the next offsets of an unchanged list visits a stretch of it once, in order: up to the end, or up to the
      first offset that is refused. */
  lemma {:induction false} WalkIsStretch<T>(entries: seq<T>, limit: nat, offset: nat, refused: nat)
    requires limit > 0 && offset < refused
    ensures Walked(entries, limit, offset, refused) == Stretch(entries, offset, WalkEnd(limit, offset, refused))
    decreases |entries| - offset
  {
    var end := WalkEnd(limit, offset, refused);
    assert end == WalkEnd(limit, offset + limit, refused);
    match NextOffset(entries, limit, offset)
    case None =>
      LastPage(entries, limit, offset, end);
    case Some(next) =>
      assert next == offset + limit;
      if next < refused {
        WalkIsStretch(entries, limit, next, refused);
        StretchesJoin(entries, offset, next, end);
      }
  }

  lemma {:induction false} LastPage<T>(entries: seq<T>, limit: nat, offset: nat, end: nat)
    requires NextOffset(entries, limit, offset).None? && offset + limit <= end
    ensures PageAt(entries, limit, offset) == Stretch(entries, offset, end)
  {
  }
}
