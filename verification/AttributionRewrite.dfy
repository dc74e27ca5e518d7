/** The narrow history correction of scripts/attribution_tool.py.

    A commit is its header lines and its message lines; recognising an identity line, a placeholder address or a bad
    trailer is a parameter (`Policy`). Objects are stored under their hash, which is assumed to be injective.
 */
module AttributionRewrite {
  import opened Prelude
  import opened CommitGraph

  datatype Header =
    | Parent(sha: Sha)
    | Ident(role: string, name: string, email: string, stamp: string)
    | GpgSig(text: string)
    | Cont(text: string)   // a continuation line: it starts with a space
    | Other(text: string)

  datatype Commit = Commit(headers: seq<Header>, body: seq<string>)

  /** What the tool recognises. A message line is a bad trailer only when it has a trailer in it, so "" is not. */
  datatype Policy = Policy(owner: string, placeholder: string -> bool, badTrailer: string -> bool)
  {
    ghost predicate Valid() {
      !badTrailer("")
    }
  }

  type Objects = map<Sha, Commit>

  ghost predicate Injective(hash: Commit -> Sha) {
    forall a, b :: hash(a) == hash(b) ==> a == b
  }

  ghost predicate StoredByHash(objects: Objects, hash: Commit -> Sha) {
    forall s :: s in objects ==> hash(objects[s]) == s
  }

  function ParentsIn(hs: seq<Header>): seq<Sha> {
    if hs == [] then []
    else (if hs[0].Parent? then [hs[0].sha] else []) + ParentsIn(hs[1..])
  }

  function ParentsOf(c: Commit): seq<Sha> {
    ParentsIn(c.headers)
  }

  function GraphOf(objects: Objects): Graph {
    map s | s in objects :: ParentsOf(objects[s])
  }

  // ---------------------------------------------------------------------------------------------------------------
  // The correction of one commit
  // ---------------------------------------------------------------------------------------------------------------

  function FixEmail(policy: Policy, email: string): string {
    if policy.placeholder(email) then policy.owner else email
  }

  function Replacement(renamed: map<Sha, Sha>, sha: Sha): Sha {
    if sha in renamed then renamed[sha] else sha
  }

  function Renamed(renamed: map<Sha, Sha>, parents: seq<Sha>): (r: seq<Sha>)
    ensures |r| == |parents|
    ensures forall i :: 0 <= i < |parents| ==> r[i] == Replacement(renamed, parents[i])
  {
    if parents == [] then [] else [Replacement(renamed, parents[0])] + Renamed(renamed, parents[1..])
  }

  function FixHeader(policy: Policy, renamed: map<Sha, Sha>, h: Header): Header {
    match h
    case Parent(sha) => Parent(Replacement(renamed, sha))
    case Ident(role, name, email, stamp) => Ident(role, name, FixEmail(policy, email), stamp)
    case _ => h
  }

  function FixHeaders(policy: Policy, renamed: map<Sha, Sha>, hs: seq<Header>): seq<Header> {
    if hs == [] then [] else [FixHeader(policy, renamed, hs[0])] + FixHeaders(policy, renamed, hs[1..])
  }

  /** The header lines outside signature blocks; `skipping` says that `hs` starts inside one. */
  function Unsigned(hs: seq<Header>, skipping: bool): seq<Header> {
    if hs == [] then []
    else if skipping && hs[0].Cont? then Unsigned(hs[1..], true)
    else if hs[0].GpgSig? then Unsigned(hs[1..], true)
    else [hs[0]] + Unsigned(hs[1..], false)
  }

  /** What the first loop collects: corrected lines, signature starts kept, signature continuations gone. */
  function Collected(policy: Policy, renamed: map<Sha, Sha>, hs: seq<Header>, skipping: bool): seq<Header> {
    if hs == [] then []
    else if skipping && hs[0].Cont? then Collected(policy, renamed, hs[1..], true)
    else [FixHeader(policy, renamed, hs[0])] + Collected(policy, renamed, hs[1..], hs[0].GpgSig?)
  }

  /** The message after its trailing line ends were stripped and one line end was put back. */
  function Tidied(lines: seq<string>): seq<string> {
    if lines == [] then ["", ""]
    else if lines[|lines| - 1] == "" then Tidied(lines[..|lines| - 1])
    else lines + [""]
  }

  function CorrectedBody(policy: Policy, body: seq<string>): seq<string> {
    var kept := Reject(body, policy.badTrailer);
    if |kept| != |body| then Tidied(kept) else body
  }

  predicate HeaderNeedsFix(policy: Policy, renamed: map<Sha, Sha>, hs: seq<Header>) {
    exists h :: h in hs && FixHeader(policy, renamed, h) != h
  }

  /** The corrected commit, or None when the commit keeps its object. */
  function Corrected(policy: Policy, renamed: map<Sha, Sha>, c: Commit): Option<Commit> {
    if HeaderNeedsFix(policy, renamed, c.headers) || |Reject(c.body, policy.badTrailer)| != |c.body| then
      Some(Commit(FixHeaders(policy, renamed, Unsigned(c.headers, false)), CorrectedBody(policy, c.body)))
    else None
  }

  lemma {:induction false} CollectedThenUnsigned(
    policy: Policy, renamed: map<Sha, Sha>, hs: seq<Header>, skipping: bool)
    ensures Unsigned(Collected(policy, renamed, hs, skipping), skipping)
         == FixHeaders(policy, renamed, Unsigned(hs, skipping))
  {
    if hs != [] {
      var rest := if skipping && hs[0].Cont? then true else hs[0].GpgSig?;
      CollectedThenUnsigned(policy, renamed, hs[1..], rest);
      if !(skipping && hs[0].Cont?) {
        var out := Collected(policy, renamed, hs, skipping);
        assert out[1..] == Collected(policy, renamed, hs[1..], rest);
      }
    }
  }

  /** What the first loop has done with the first `i` lines. */
  ghost predicate Collecting(
    policy: Policy, renamed: map<Sha, Sha>, lines: seq<Header>, i: nat, skipping: bool, out: seq<Header>, changed: bool)
    requires i <= |lines|
  {
    && out + Collected(policy, renamed, lines[i..], skipping) == Collected(policy, renamed, lines, false)
    && (changed <==> HeaderNeedsFix(policy, renamed, lines[..i]))
  }

  lemma {:induction false} FixOneMore(policy: Policy, renamed: map<Sha, Sha>, lines: seq<Header>, i: nat)
    requires i < |lines|
    ensures HeaderNeedsFix(policy, renamed, lines[..i + 1])
       <==> HeaderNeedsFix(policy, renamed, lines[..i]) || FixHeader(policy, renamed, lines[i]) != lines[i]
  {
    assert lines[..i + 1] == lines[..i] + [lines[i]];
  }

  lemma {:induction false} LineSkipped(
    policy: Policy, renamed: map<Sha, Sha>, lines: seq<Header>, i: nat, out: seq<Header>, changed: bool)
    requires i < |lines| && lines[i].Cont? && Collecting(policy, renamed, lines, i, true, out, changed)
    ensures Collecting(policy, renamed, lines, i + 1, true, out, changed)
  {
    assert lines[i..][1..] == lines[i + 1..];
    FixOneMore(policy, renamed, lines, i);
  }

  lemma {:induction false} LineKept(
    policy: Policy, renamed: map<Sha, Sha>, lines: seq<Header>, i: nat, skipping: bool, out: seq<Header>, changed: bool)
    requires i < |lines| && !(skipping && lines[i].Cont?)
    requires Collecting(policy, renamed, lines, i, skipping, out, changed)
    ensures var fixed := FixHeader(policy, renamed, lines[i]);
      Collecting(policy, renamed, lines, i + 1, lines[i].GpgSig?, out + [fixed], changed || fixed != lines[i])
  {
    var fixed := FixHeader(policy, renamed, lines[i]);
    assert lines[i..][1..] == lines[i + 1..];
    FixOneMore(policy, renamed, lines, i);
    var rest := Collected(policy, renamed, lines[i + 1..], lines[i].GpgSig?);
    assert out + ([fixed] + rest) == (out + [fixed]) + rest;
  }

  /** The first loop of the rewrite: correct every line, and skip what continues a signature. */
  method CollectHeaders(policy: Policy, renamed: map<Sha, Sha>, lines: seq<Header>)
    returns (out: seq<Header>, changed: bool)
    ensures out == Collected(policy, renamed, lines, false)
    ensures changed <==> HeaderNeedsFix(policy, renamed, lines)
  {
    out, changed := [], false;
    var skippingSignature := false;
    for i := 0 to |lines|
      invariant Collecting(policy, renamed, lines, i, skippingSignature, out, changed)
    {
      var line := lines[i];
      if skippingSignature {
        if line.Cont? {
          LineSkipped(policy, renamed, lines, i, out, changed);
          continue;
        }
      }
      LineKept(policy, renamed, lines, i, skippingSignature, out, changed);
      skippingSignature := false;
      var fixed := FixHeader(policy, renamed, line);
      if line.GpgSig? {
        skippingSignature := true;
      }
      if fixed != line {
        changed := true;
      }
      out := out + [fixed];
    }
    assert lines[..|lines|] == lines;
  }

  /** The last loop of the rewrite: a signature covered the old content, so it goes, with its continuation lines. */
  method DropSignatures(lines: seq<Header>) returns (cleaned: seq<Header>)
    ensures cleaned == Unsigned(lines, false)
  {
    cleaned := [];
    var dropping := false;
    for i := 0 to |lines|
      invariant cleaned + Unsigned(lines[i..], dropping) == Unsigned(lines, false)
    {
      assert lines[i..][1..] == lines[i + 1..];
      if lines[i].GpgSig? {
        dropping := true;
        continue;
      }
      if dropping && lines[i].Cont? {
        continue;
      }
      dropping := false;
      cleaned := cleaned + [lines[i]];
    }
  }

  method RewriteCommit(policy: Policy, renamed: map<Sha, Sha>, c: Commit) returns (r: Option<Commit>)
    ensures r == Corrected(policy, renamed, c)
  {
    var out, changed := CollectHeaders(policy, renamed, c.headers);
    var body := c.body;
    var kept := Reject(body, policy.badTrailer);
    if |kept| != |body| {
      changed := true;
      body := Tidied(kept);
    }
    if !changed {
      return None;
    }
    var cleaned := DropSignatures(out);
    CollectedThenUnsigned(policy, renamed, c.headers, false);
    return Some(Commit(cleaned, body));
  }

  // ---------------------------------------------------------------------------------------------------------------
  // The correction of a whole history
  // ---------------------------------------------------------------------------------------------------------------

  /** `git rev-list --topo-order --reverse` of a complete clone: every commit once, after all its parents. */
  ghost predicate ParentsFirst(objects: Objects, order: seq<Sha>) {
    && Distinct(order)
    && (forall i :: 0 <= i < |order| ==> order[i] in objects)
    && (forall i, p :: 0 <= i < |order| && p in ParentsOf(objects[order[i]]) ==> p in order[..i])
  }

  /** What one commit's entry in the commit map has to be, given the entries of its parents. */
  ghost predicate EntryCorrect(policy: Policy, hash: Commit -> Sha, objects: Objects, mapping: map<Sha, Sha>, c: Sha)
    requires c in objects && c in mapping
  {
    match Corrected(policy, mapping, objects[c])
    case None => mapping[c] == c
    case Some(n) => mapping[c] == hash(n)
  }

  /** The whole map. Entries lead to the entries of the parents, so they are looked at only where they are asked for. */
  ghost predicate IsCommitMap(
    policy: Policy, hash: Commit -> Sha, objects: Objects, order: seq<Sha>, mapping: map<Sha, Sha>)
  {
    && (forall c :: c in mapping <==> c in order)
    && (forall c :: c in order ==> c in objects)
    && (forall c {:trigger EntryCorrect(policy, hash, objects, mapping, c)} ::
         c in order ==> EntryCorrect(policy, hash, objects, mapping, c))
  }

  /** The image of `c` is stored, and it is the corrected commit when there is one. */
  ghost predicate ImageStored(policy: Policy, before: Objects, mapping: map<Sha, Sha>, after: Objects, c: Sha)
    requires c in mapping && c in before
  {
    && mapping[c] in after
    && (match Corrected(policy, mapping, before[c])
        case None => true
        case Some(n) => after[mapping[c]] == n)
  }

  ghost predicate IsImage(mapping: map<Sha, Sha>, s: Sha) {
    exists c :: c in mapping && mapping[c] == s
  }

  /** The objects after the rewrite: nothing is lost or changed, and every image is stored. */
  ghost predicate IsRewrittenStore(
    policy: Policy, hash: Commit -> Sha, before: Objects, mapping: map<Sha, Sha>, after: Objects)
  {
    && (forall s :: s in before ==> s in after && after[s] == before[s])
    && (forall s :: s in after ==> s in before || IsImage(mapping, s))
    && (forall c {:trigger ImageStored(policy, before, mapping, after, c)} ::
         c in mapping && c in before ==> ImageStored(policy, before, mapping, after, c))
    && StoredByHash(after, hash)
  }

  lemma {:induction false} SameParentsFixAlike(policy: Policy, m: map<Sha, Sha>, n: map<Sha, Sha>, hs: seq<Header>)
    requires forall p :: p in ParentsIn(hs) ==> Replacement(m, p) == Replacement(n, p)
    ensures FixHeaders(policy, m, hs) == FixHeaders(policy, n, hs)
    ensures forall h :: h in hs ==> FixHeader(policy, m, h) == FixHeader(policy, n, h)
  {
    if hs != [] {
      SameParentsFixAlike(policy, m, n, hs[1..]);
    }
  }

  lemma {:induction false} UnsignedKeepsTheRest(hs: seq<Header>, skipping: bool)
    ensures ParentsIn(Unsigned(hs, skipping)) == ParentsIn(hs)
    ensures forall h :: h in Unsigned(hs, skipping) ==> h in hs
    ensures forall h :: h in hs && !h.GpgSig? && !h.Cont? ==> h in Unsigned(hs, skipping)
    ensures forall h :: h in Unsigned(hs, skipping) ==> !h.GpgSig?
  {
    if hs != [] {
      var rest := if skipping && hs[0].Cont? then true else hs[0].GpgSig?;
      UnsignedKeepsTheRest(hs[1..], rest);
    }
  }

  /** Correcting a commit looks only at the entries of its own parents. */
  lemma {:induction false} CorrectedIsLocal(policy: Policy, m: map<Sha, Sha>, n: map<Sha, Sha>, c: Commit)
    requires forall p :: p in ParentsOf(c) ==> Replacement(m, p) == Replacement(n, p)
    ensures Corrected(policy, m, c) == Corrected(policy, n, c)
  {
    SameParentsFixAlike(policy, m, n, c.headers);
    UnsignedKeepsTheRest(c.headers, false);
    SameParentsFixAlike(policy, m, n, Unsigned(c.headers, false));
  }

  method Rewrite(policy: Policy, hash: Commit -> Sha, objects: Objects, order: seq<Sha>)
    returns (mapping: map<Sha, Sha>, store: Objects)
    requires Injective(hash) && StoredByHash(objects, hash) && ParentsFirst(objects, order)
    ensures IsCommitMap(policy, hash, objects, order, mapping)
    ensures IsRewrittenStore(policy, hash, objects, mapping, store)
  {
    mapping, store := map[], objects;
    for i := 0 to |order|
      invariant IsCommitMap(policy, hash, objects, order[..i], mapping)
      invariant IsRewrittenStore(policy, hash, objects, mapping, store)
    {
      var sha := order[i];
      var corrected := RewriteCommit(policy, mapping, objects[sha]);
      ghost var earlier, saved := mapping, store;
      match corrected {
        case None =>
          mapping := mapping[sha := sha];
        case Some(commit) =>
          mapping := mapping[sha := hash(commit)];
          store := store[hash(commit) := commit];
      }
      EntryAdded(policy, hash, objects, order, i, earlier, mapping);
      assert sha !in earlier;
      ObjectWritten(policy, hash, objects, earlier, saved, sha, mapping, store);
    }
    assert order[..|order|] == order;
  }

  /** A new entry does not change what the earlier entries, or its own, had to be. */
  lemma {:induction false} NewEntryIsLocal(
    policy: Policy, objects: Objects, order: seq<Sha>, i: nat, k: nat, earlier: map<Sha, Sha>, image: Sha)
    requires ParentsFirst(objects, order) && k <= i < |order|
    ensures Corrected(policy, earlier[order[i] := image], objects[order[k]])
         == Corrected(policy, earlier, objects[order[k]])
  {
    forall p | p in ParentsOf(objects[order[k]])
      ensures p != order[i]
    {
      assert p in order[..k];
    }
    CorrectedIsLocal(policy, earlier[order[i] := image], earlier, objects[order[k]]);
  }

  lemma {:induction false} EntryAdded(
    policy: Policy, hash: Commit -> Sha, objects: Objects, order: seq<Sha>, i: nat,
    earlier: map<Sha, Sha>, mapping: map<Sha, Sha>)
    requires ParentsFirst(objects, order) && i < |order|
    requires IsCommitMap(policy, hash, objects, order[..i], earlier)
    requires mapping == earlier[order[i] := match Corrected(policy, earlier, objects[order[i]])
                                            case None => order[i]
                                            case Some(n) => hash(n)]
    ensures IsCommitMap(policy, hash, objects, order[..i + 1], mapping)
    ensures forall c :: c in order[..i + 1] ==>
      Corrected(policy, mapping, objects[c]) == Corrected(policy, earlier, objects[c])
  {
    assert order[..i + 1] == order[..i] + [order[i]];
    forall c | c in order[..i + 1]
      ensures EntryCorrect(policy, hash, objects, mapping, c)
      ensures Corrected(policy, mapping, objects[c]) == Corrected(policy, earlier, objects[c])
    {
      var k :| 0 <= k <= i && order[k] == c;
      NewEntryIsLocal(policy, objects, order, i, k, earlier, mapping[order[i]]);
      if k < i {
        assert c in order[..i];
        assert EntryCorrect(policy, hash, objects, earlier, c);
      }
    }
  }

  /** Storing a commit under its hash neither loses nor changes an object. */
  lemma {:induction false} StoringKeepsObjects(hash: Commit -> Sha, saved: Objects, n: Commit)
    requires Injective(hash) && StoredByHash(saved, hash)
    ensures StoredByHash(saved[hash(n) := n], hash)
    ensures forall s :: s in saved ==> saved[hash(n) := n][s] == saved[s]
  {
    forall s | s in saved
      ensures saved[hash(n) := n][s] == saved[s]
    {
      assert hash(saved[s]) == s;
    }
  }

  lemma {:induction false} ObjectWritten(
    policy: Policy, hash: Commit -> Sha, objects: Objects, earlier: map<Sha, Sha>, saved: Objects, sha: Sha,
    mapping: map<Sha, Sha>, store: Objects)
    requires Injective(hash) && sha in objects && sha !in earlier
    requires IsRewrittenStore(policy, hash, objects, earlier, saved)
    requires sha in mapping && mapping == earlier[sha := mapping[sha]]
    requires forall c :: c in mapping && c in objects ==>
      Corrected(policy, mapping, objects[c]) == Corrected(policy, earlier, objects[c])
    requires match Corrected(policy, earlier, objects[sha])
             case None => mapping[sha] == sha && store == saved
             case Some(n) => mapping[sha] == hash(n) && store == saved[hash(n) := n]
    ensures IsRewrittenStore(policy, hash, objects, mapping, store)
  {
    var correction := Corrected(policy, earlier, objects[sha]);
    if correction.Some? {
      StoringKeepsObjects(hash, saved, correction.value);
    }
    ImagesAreListed(objects, earlier, mapping, sha, saved, store);
    forall c | c in mapping && c in objects
      ensures ImageStored(policy, objects, mapping, store, c)
    {
      assert c == sha || (c in earlier && ImageStored(policy, objects, earlier, saved, c));
    }
  }

  lemma {:induction false} ImagesAreListed(
    objects: Objects, earlier: map<Sha, Sha>, mapping: map<Sha, Sha>, sha: Sha, saved: Objects, store: Objects)
    requires sha !in earlier && sha in mapping && mapping == earlier[sha := mapping[sha]]
    requires forall s :: s in saved ==> s in objects || IsImage(earlier, s)
    requires forall s :: s in store ==> s in saved || s == mapping[sha]
    ensures forall s :: s in store ==> s in objects || IsImage(mapping, s)
  {
    forall s | s in store && s !in objects
      ensures IsImage(mapping, s)
    {
      if IsImage(earlier, s) {
        var c :| c in earlier && earlier[c] == s;
        assert mapping[c] == s;
      } else {
        assert mapping[sha] == s;
      }
    }
  }

  // ---------------------------------------------------------------------------------------------------------------
  // What changes, and what survives
  // ---------------------------------------------------------------------------------------------------------------

  /** What the correction looks for: an identity with a placeholder address that is not the owner's, or a bad trailer. */
  ghost predicate Offender(policy: Policy, c: Commit) {
    || (exists h :: h in c.headers && h.Ident? && policy.placeholder(h.email) && h.email != policy.owner)
    || (exists line :: line in c.body && policy.badTrailer(line))
  }

  function EmailsIn(hs: seq<Header>): seq<string> {
    if hs == [] then []
    else (if hs[0].Ident? then [hs[0].email] else []) + EmailsIn(hs[1..])
  }

  function FixedEmails(policy: Policy, emails: seq<string>): (r: seq<string>)
    ensures |r| == |emails|
    ensures forall i :: 0 <= i < |emails| ==> r[i] == FixEmail(policy, emails[i])
  {
    if emails == [] then [] else [FixEmail(policy, emails[0])] + FixedEmails(policy, emails[1..])
  }

  lemma {:induction false} FixedHeaderParents(policy: Policy, m: map<Sha, Sha>, hs: seq<Header>)
    ensures ParentsIn(FixHeaders(policy, m, hs)) == Renamed(m, ParentsIn(hs))
  {
    if hs != [] {
      FixedHeaderParents(policy, m, hs[1..]);
      assert FixHeaders(policy, m, hs)[1..] == FixHeaders(policy, m, hs[1..]);
      if hs[0].Parent? {
        assert ParentsIn(hs)[1..] == ParentsIn(hs[1..]);
      } else {
        assert [] + ParentsIn(hs[1..]) == ParentsIn(hs[1..]);
      }
    }
  }

  lemma {:induction false} FixedHeaderEmails(policy: Policy, m: map<Sha, Sha>, hs: seq<Header>)
    ensures EmailsIn(FixHeaders(policy, m, hs)) == FixedEmails(policy, EmailsIn(hs))
  {
    if hs != [] {
      FixedHeaderEmails(policy, m, hs[1..]);
      assert FixHeaders(policy, m, hs)[1..] == FixHeaders(policy, m, hs[1..]);
      if hs[0].Ident? {
        assert EmailsIn(hs)[1..] == EmailsIn(hs[1..]);
      } else {
        assert [] + EmailsIn(hs[1..]) == EmailsIn(hs[1..]);
      }
    }
  }

  lemma {:induction false} FixedHeaderOrigin(policy: Policy, m: map<Sha, Sha>, hs: seq<Header>, h: Header)
    requires h in FixHeaders(policy, m, hs)
    ensures exists o :: o in hs && h == FixHeader(policy, m, o)
  {
    if h == FixHeader(policy, m, hs[0]) {
      assert hs[0] in hs;
    } else {
      FixedHeaderOrigin(policy, m, hs[1..], h);
    }
  }

  lemma {:induction false} FieldsListed(hs: seq<Header>)
    ensures forall h :: h in hs && h.Ident? ==> h.email in EmailsIn(hs)
    ensures forall h :: h in hs && h.Parent? ==> h.sha in ParentsIn(hs)
    ensures forall p :: p in ParentsIn(hs) ==> Parent(p) in hs
  {
    if hs != [] {
      FieldsListed(hs[1..]);
    }
  }

  lemma {:induction false} UnsignedKeepsEmails(hs: seq<Header>, skipping: bool)
    ensures EmailsIn(Unsigned(hs, skipping)) == EmailsIn(hs)
  {
    if hs != [] {
      UnsignedKeepsEmails(hs[1..], if skipping && hs[0].Cont? then true else hs[0].GpgSig?);
    }
  }

  lemma {:induction false} TidiedLines(lines: seq<string>)
    ensures forall l :: l in Tidied(lines) ==> l == "" || l in lines
  {
    if lines != [] && lines[|lines| - 1] == "" {
      TidiedLines(lines[..|lines| - 1]);
    }
  }

  lemma {:induction false} RejectKeepsAll(policy: Policy, body: seq<string>)
    ensures |Reject(body, policy.badTrailer)| == |body| <==> forall l :: l in body ==> !policy.badTrailer(l)
  {
    if body != [] {
      RejectKeepsAll(policy, body[1..]);
    }
  }

  /** A commit is corrected exactly when it offends or when the entry of one of its parents moved. */
  lemma {:induction false} CorrectedExactlyWhen(policy: Policy, m: map<Sha, Sha>, c: Commit)
    ensures Corrected(policy, m, c).Some? <==>
      Offender(policy, c) || exists p :: p in ParentsOf(c) && Replacement(m, p) != p
  {
    RejectKeepsAll(policy, c.body);
    FieldsListed(c.headers);
    if HeaderNeedsFix(policy, m, c.headers) {
      var h :| h in c.headers && FixHeader(policy, m, h) != h;
      if h.Parent? {
        assert h.sha in ParentsOf(c) && Replacement(m, h.sha) != h.sha;
      }
    }
    if p :| p in ParentsOf(c) && Replacement(m, p) != p {
      assert FixHeader(policy, m, Parent(p)) != Parent(p);
    }
  }

  /** A corrected commit is never the commit it replaces, so its hash is new. */
  lemma {:induction false} CorrectedDiffers(policy: Policy, m: map<Sha, Sha>, c: Commit)
    requires policy.Valid() && Corrected(policy, m, c).Some?
    ensures Corrected(policy, m, c).value != c
  {
    var n := Corrected(policy, m, c).value;
    if HeaderNeedsFix(policy, m, c.headers) {
      CorrectedFields(policy, m, c);
      FieldsListed(c.headers);
      var h :| h in c.headers && FixHeader(policy, m, h) != h;
      if h.Parent? {
        var i :| 0 <= i < |ParentsOf(c)| && ParentsOf(c)[i] == h.sha;
        assert ParentsOf(n)[i] != ParentsOf(c)[i];
      } else {
        var i :| 0 <= i < |EmailsIn(c.headers)| && EmailsIn(c.headers)[i] == h.email;
        assert EmailsIn(n.headers)[i] != EmailsIn(c.headers)[i];
      }
    } else {
      CorrectedIsClean(policy, m, c);
      RejectKeepsAll(policy, c.body);
    }
  }

  lemma {:induction false} CorrectedFields(policy: Policy, m: map<Sha, Sha>, c: Commit)
    requires Corrected(policy, m, c).Some?
    ensures ParentsOf(Corrected(policy, m, c).value) == Renamed(m, ParentsOf(c))
    ensures EmailsIn(Corrected(policy, m, c).value.headers) == FixedEmails(policy, EmailsIn(c.headers))
  {
    UnsignedKeepsTheRest(c.headers, false);
    UnsignedKeepsEmails(c.headers, false);
    FixedHeaderParents(policy, m, Unsigned(c.headers, false));
    FixedHeaderEmails(policy, m, Unsigned(c.headers, false));
  }

  /** A corrected commit has no bad trailer, no signature and no address left to correct. */
  lemma {:induction false} CorrectedIsClean(policy: Policy, m: map<Sha, Sha>, c: Commit)
    requires policy.Valid() && Corrected(policy, m, c).Some?
    ensures forall l :: l in Corrected(policy, m, c).value.body ==> !policy.badTrailer(l)
    ensures forall h :: h in Corrected(policy, m, c).value.headers ==>
      !h.GpgSig? && (h.Ident? ==> FixEmail(policy, h.email) == h.email
                                  && (!policy.placeholder(policy.owner) ==> !policy.placeholder(h.email)))
  {
    var n := Corrected(policy, m, c).value;
    var unsigned := Unsigned(c.headers, false);
    UnsignedKeepsTheRest(c.headers, false);
    forall h | h in n.headers
      ensures !h.GpgSig?
      ensures h.Ident? ==> FixEmail(policy, h.email) == h.email
                           && (!policy.placeholder(policy.owner) ==> !policy.placeholder(h.email))
    {
      FixedHeaderOrigin(policy, m, unsigned, h);
    }
    TidiedLines(Reject(c.body, policy.badTrailer));
    RejectKeepsAll(policy, c.body);
  }

  /** The commit map moves exactly the offenders and their descendants; every other commit keeps its object. */
  lemma {:induction false} MapMovesExactlyOffendersAndDescendants(
    policy: Policy, hash: Commit -> Sha, objects: Objects, order: seq<Sha>, mapping: map<Sha, Sha>, i: nat)
    requires policy.Valid() && Injective(hash) && StoredByHash(objects, hash)
    requires ParentsFirst(objects, order) && IsCommitMap(policy, hash, objects, order, mapping) && i < |order|
    ensures mapping[order[i]] != order[i] <==>
      exists a :: a in objects && Reaches(GraphOf(objects), order[i], a) && Offender(policy, objects[a])
    decreases i
  {
    var c, g := order[i], GraphOf(objects);
    assert EntryCorrect(policy, hash, objects, mapping, c);
    if Corrected(policy, mapping, objects[c]).Some? {
      CorrectedDiffers(policy, mapping, objects[c]);
    }
    assert mapping[c] != c <==> Corrected(policy, mapping, objects[c]).Some?;
    CorrectedExactlyWhen(policy, mapping, objects[c]);
    forall p | p in g[c]
      ensures p in mapping && (mapping[p] != p <==> exists a ::
        a in objects && Reaches(g, p, a) && Offender(policy, objects[a]))
    {
      var j :| 0 <= j < i && order[j] == p;
      assert p in order;
      MapMovesExactlyOffendersAndDescendants(policy, hash, objects, order, mapping, j);
    }
    forall a
      ensures Reaches(g, c, a) <==> c == a || exists p :: p in g[c] && Reaches(g, p, a)
    {
      ReachesByFirstStep(g, c, a);
    }
  }

  function WithoutParents(hs: seq<Header>): seq<Header> {
    if hs == [] then []
    else if hs[0].Parent? then WithoutParents(hs[1..])
    else [hs[0]] + WithoutParents(hs[1..])
  }

  /** A message up to its trailing blank lines. */
  function Trimmed(lines: seq<string>): seq<string> {
    if lines != [] && lines[|lines| - 1] == "" then Trimmed(lines[..|lines| - 1]) else lines
  }

  /** A line is part of a signature: it starts one, or it continues one that starts above it. */
  ghost predicate InSignature(hs: seq<Header>, i: nat)
    requires i < |hs|
  {
    exists j: nat :: j <= i && hs[j].GpgSig? && forall k :: j < k <= i ==> hs[k].Cont?
  }

  /** The lines among the first `n` that are kept: all that are not part of a signature and name no parent. */
  ghost function KeptLines(hs: seq<Header>, n: nat): seq<Header>
    requires n <= |hs|
  {
    if n == 0 then []
    else KeptLines(hs, n - 1) + if InSignature(hs, n - 1) || hs[n - 1].Parent? then [] else [hs[n - 1]]
  }

  /** The same line, or the same identity with an address that is the old one, or the owner's for a placeholder. */
  predicate SameButForAddress(policy: Policy, a: Header, b: Header) {
    || (b == a && !(a.Ident? && policy.placeholder(a.email) && a.email != policy.owner))
    || (&& a.Ident? && b.Ident? && b.role == a.role && b.name == a.name && b.stamp == a.stamp
        && policy.placeholder(a.email) && b.email == policy.owner)
  }

  ghost predicate SameLinesButForAddresses(policy: Policy, before: seq<Header>, after: seq<Header>) {
    |before| == |after| && forall i :: 0 <= i < |before| ==> SameButForAddress(policy, before[i], after[i])
  }

  lemma {:induction false} FixedLinesAreTheSame(policy: Policy, hs: seq<Header>)
    requires forall h :: h in hs ==> !h.Parent?
    ensures SameLinesButForAddresses(policy, hs, FixHeaders(policy, map[], hs))
  {
    if hs != [] {
      assert hs[0] in hs;
      FixedLinesAreTheSame(policy, hs[1..]);
    }
  }

  /** Whether the loop is skipping after `n` lines. */
  ghost predicate SkippingAfter(hs: seq<Header>, n: nat)
    requires n <= |hs|
  {
    n > 0 && InSignature(hs, n - 1)
  }

  lemma {:induction false} SignatureGoesOn(hs: seq<Header>, i: nat)
    requires i < |hs|
    ensures InSignature(hs, i) <==> hs[i].GpgSig? || (SkippingAfter(hs, i) && hs[i].Cont?)
  {
    if hs[i].GpgSig? {
      assert InSignature(hs, i);
    } else if SkippingAfter(hs, i) && hs[i].Cont? {
      var j: nat :| j <= i - 1 && hs[j].GpgSig? && forall k :: j < k <= i - 1 ==> hs[k].Cont?;
      assert j <= i && hs[j].GpgSig?;
    }
  }

  /** What the rewrite keeps, behind the first `n` lines. */
  lemma {:induction false} UnsignedAreKeptLines(hs: seq<Header>, n: nat)
    requires n <= |hs|
    ensures KeptLines(hs, |hs|) == KeptLines(hs, n) + WithoutParents(Unsigned(hs[n..], SkippingAfter(hs, n)))
    decreases |hs| - n
  {
    if n < |hs| {
      UnsignedAreKeptLines(hs, n + 1);
      SignatureGoesOn(hs, n);
      assert hs[n..][1..] == hs[n + 1..];
      var rest := Unsigned(hs[n + 1..], SkippingAfter(hs, n + 1));
      if !InSignature(hs, n) {
        assert ([hs[n]] + rest)[1..] == rest;
      }
    }
  }

  lemma {:induction false} KeptLinesNameNoParent(hs: seq<Header>)
    ensures forall h :: h in WithoutParents(hs) ==> !h.Parent?
  {
    if hs != [] {
      KeptLinesNameNoParent(hs[1..]);
    }
  }

  lemma {:induction false} UnsignedTwice(hs: seq<Header>)
    requires forall h :: h in hs ==> !h.GpgSig?
    ensures Unsigned(hs, false) == hs
  {
    if hs != [] {
      UnsignedTwice(hs[1..]);
    }
  }

  lemma {:induction false} WithoutParentsFixed(policy: Policy, m: map<Sha, Sha>, hs: seq<Header>)
    ensures WithoutParents(FixHeaders(policy, m, hs)) == FixHeaders(policy, map[], WithoutParents(hs))
  {
    if hs != [] {
      WithoutParentsFixed(policy, m, hs[1..]);
      assert FixHeaders(policy, m, hs)[1..] == FixHeaders(policy, m, hs[1..]);
      var rest := WithoutParents(hs[1..]);
      if !hs[0].Parent? {
        assert ([hs[0]] + rest)[1..] == rest;
      }
    }
  }

  lemma {:induction false} NothingToFix(policy: Policy, m: map<Sha, Sha>, hs: seq<Header>)
    requires !HeaderNeedsFix(policy, m, hs)
    ensures FixHeaders(policy, m, hs) == hs && Renamed(m, ParentsIn(hs)) == ParentsIn(hs)
  {
    if hs != [] {
      assert hs[0] in hs;
      NothingToFix(policy, m, hs[1..]);
    }
  }

  /** `text` is what is left of `lines` without the blank lines at their end. */
  ghost predicate IsTrimmed(lines: seq<string>, text: seq<string>) {
    && text <= lines && (text != [] ==> text[|text| - 1] != "")
    && forall i :: |text| <= i < |lines| ==> lines[i] == ""
  }

  lemma {:induction false} TrimmedIs(lines: seq<string>)
    ensures IsTrimmed(lines, Trimmed(lines))
  {
    if lines != [] && lines[|lines| - 1] == "" {
      TrimmedIs(lines[..|lines| - 1]);
    }
  }

  lemma {:induction false} TidiedIs(lines: seq<string>)
    ensures Tidied(lines) == Trimmed(lines) + if Trimmed(lines) == [] then ["", ""] else [""]
  {
    if lines != [] && lines[|lines| - 1] == "" {
      TidiedIs(lines[..|lines| - 1]);
    }
  }

  /** The message of the image: the old one when it has no bad trailer; otherwise its other lines, with one line end. */
  ghost predicate IsCorrectedMessage(policy: Policy, before: seq<string>, after: seq<string>) {
    if forall l :: l in before ==> !policy.badTrailer(l) then after == before
    else exists text ::
      IsTrimmed(Reject(before, policy.badTrailer), text) && after == text + if text == [] then ["", ""] else [""]
  }

  lemma {:induction false} CorrectedMessage(policy: Policy, body: seq<string>)
    ensures IsCorrectedMessage(policy, body, CorrectedBody(policy, body))
  {
    RejectKeepsAll(policy, body);
    TrimmedIs(Reject(body, policy.badTrailer));
    TidiedIs(Reject(body, policy.badTrailer));
  }

  lemma {:induction false} LinesKeepMeaning(policy: Policy, before: seq<Header>, after: seq<Header>)
    requires WithoutParents(Unsigned(after, false)) == FixHeaders(policy, map[], WithoutParents(Unsigned(before, false)))
    ensures SameLinesButForAddresses(policy, KeptLines(before, |before|), KeptLines(after, |after|))
  {
    UnsignedAreKeptLines(before, 0);
    UnsignedAreKeptLines(after, 0);
    assert before[0..] == before && after[0..] == after;
    KeptLinesNameNoParent(Unsigned(before, false));
    FixedLinesAreTheSame(policy, WithoutParents(Unsigned(before, false)));
  }

  lemma {:induction false} ImageOfCommit(
    policy: Policy, mapping: map<Sha, Sha>, o: Commit, n: Commit)
    requires policy.Valid()
    requires match Corrected(policy, mapping, o) case None => n == o case Some(fixed) => n == fixed
    ensures ParentsOf(n) == Renamed(mapping, ParentsOf(o))
    ensures WithoutParents(Unsigned(n.headers, false))
         == FixHeaders(policy, map[], WithoutParents(Unsigned(o.headers, false)))
    ensures IsCorrectedMessage(policy, o.body, n.body)
    ensures n == o || forall h :: h in n.headers ==> !h.GpgSig?
  {
    RejectKeepsAll(policy, o.body);
    UnsignedKeepsTheRest(o.headers, false);
    WithoutParentsFixed(policy, mapping, Unsigned(o.headers, false));
    if Corrected(policy, mapping, o).Some? {
      CorrectedFields(policy, mapping, o);
      CorrectedIsClean(policy, mapping, o);
      UnsignedTwice(n.headers);
      CorrectedMessage(policy, o.body);
    } else {
      NothingToFix(policy, mapping, o.headers);
      NothingToFix(policy, mapping, Unsigned(o.headers, false));
    }
  }

  /** Parent by parent, in order: the image of a listed one, and any other one itself. */
  ghost predicate MapsParents(mapping: map<Sha, Sha>, parents: seq<Sha>, images: seq<Sha>) {
    && |images| == |parents|
    && forall i :: 0 <= i < |parents| ==> images[i] == if parents[i] in mapping then mapping[parents[i]] else parents[i]
  }

  /** The image of a commit has the mapped parents in the same order; its other lines outside signatures are the same
      ones, in order, up to the owner's address for a placeholder; its message is the same one up to bad trailers and
      blank lines at its end; and it is signed only if it is the commit itself. */
  lemma {:induction false} RewriteKeepsMeaning(
    policy: Policy, hash: Commit -> Sha, objects: Objects, order: seq<Sha>, mapping: map<Sha, Sha>,
    store: Objects, c: Sha)
    requires policy.Valid() && StoredByHash(objects, hash)
    requires IsCommitMap(policy, hash, objects, order, mapping) && c in order
    requires IsRewrittenStore(policy, hash, objects, mapping, store)
    ensures mapping[c] in store && MapsParents(mapping, ParentsOf(objects[c]), ParentsOf(store[mapping[c]]))
    ensures var before, after := objects[c].headers, store[mapping[c]].headers;
      SameLinesButForAddresses(policy, KeptLines(before, |before|), KeptLines(after, |after|))
    ensures IsCorrectedMessage(policy, objects[c].body, store[mapping[c]].body)
    ensures mapping[c] == c || forall h :: h in store[mapping[c]].headers ==> !h.GpgSig?
  {
    assert EntryCorrect(policy, hash, objects, mapping, c) && ImageStored(policy, objects, mapping, store, c);
    ImageOfCommit(policy, mapping, objects[c], store[mapping[c]]);
    LinesKeepMeaning(policy, objects[c].headers, store[mapping[c]].headers);
  }

  /** Correcting is idempotent, whatever the owner's address is: no image of a commit offends. */
  lemma {:induction false} NoOffenceRemains(
    policy: Policy, hash: Commit -> Sha, objects: Objects, order: seq<Sha>, mapping: map<Sha, Sha>,
    store: Objects, c: Sha)
    requires policy.Valid() && StoredByHash(objects, hash)
    requires IsCommitMap(policy, hash, objects, order, mapping) && c in order
    requires IsRewrittenStore(policy, hash, objects, mapping, store)
    ensures mapping[c] in store && !Offender(policy, store[mapping[c]])
    ensures !policy.placeholder(policy.owner) ==>
      forall h :: h in store[mapping[c]].headers && h.Ident? ==> !policy.placeholder(h.email)
  {
    assert EntryCorrect(policy, hash, objects, mapping, c) && ImageStored(policy, objects, mapping, store, c);
    var o, n := objects[c], store[mapping[c]];
    if Corrected(policy, mapping, o).Some? {
      CorrectedIsClean(policy, mapping, o);
    } else {
      assert n == o;
      CorrectedExactlyWhen(policy, mapping, o);
      forall h | h in n.headers && h.Ident? && policy.placeholder(h.email)
        ensures h.email == policy.owner
      {
        assert FixEmail(policy, h.email) == h.email;
      }
    }
  }

  /** In `h` the commit that `c` was mapped to reaches `x` exactly when `c` reaches something that was mapped to `x`. */
  ghost predicate HistoryMapped(g: Graph, h: Graph, mapping: map<Sha, Sha>, c: Sha, x: Sha)
    requires c in mapping
  {
    Reaches(h, mapping[c], x) <==> exists a :: a in mapping && Reaches(g, c, a) && mapping[a] == x
  }

  lemma {:induction false} HistoryMappedFromParents(g: Graph, h: Graph, mapping: map<Sha, Sha>, c: Sha, x: Sha)
    requires c in mapping && c in g && mapping[c] in h
    requires forall p :: p in g[c] ==> p in mapping && HistoryMapped(g, h, mapping, p, x)
    requires forall q :: q in h[mapping[c]] <==> exists p :: p in g[c] && mapping[p] == q
    ensures HistoryMapped(g, h, mapping, c, x)
  {
    ReachesByFirstStep(h, mapping[c], x);
    if Reaches(h, mapping[c], x) && mapping[c] != x {
      var q :| q in h[mapping[c]] && Reaches(h, q, x);
      var p :| p in g[c] && mapping[p] == q;
      assert HistoryMapped(g, h, mapping, p, x);
      var a :| a in mapping && Reaches(g, p, a) && mapping[a] == x;
      ReachesParent(g, c, p);
      ReachesTransitive(g, c, p, a);
    } else if mapping[c] == x {
      ReachesSelf(g, c);
    }
    if a :| a in mapping && Reaches(g, c, a) && mapping[a] == x && a != c {
      ReachesByFirstStep(g, c, a);
      var p :| p in g[c] && Reaches(g, p, a);
      assert HistoryMapped(g, h, mapping, p, x);
      assert mapping[p] in h[mapping[c]];
    }
  }

  /** The rewritten history of a commit is exactly the image of its history: nothing joins it and nothing leaves it. */
  lemma {:induction false} HistoryIsTheImage(
    policy: Policy, hash: Commit -> Sha, objects: Objects, order: seq<Sha>, mapping: map<Sha, Sha>,
    store: Objects, i: nat, x: Sha)
    requires policy.Valid() && StoredByHash(objects, hash)
    requires ParentsFirst(objects, order) && IsCommitMap(policy, hash, objects, order, mapping) && i < |order|
    requires IsRewrittenStore(policy, hash, objects, mapping, store)
    ensures order[i] in mapping && HistoryMapped(GraphOf(objects), GraphOf(store), mapping, order[i], x)
    decreases i
  {
    var c, g, h := order[i], GraphOf(objects), GraphOf(store);
    assert c in order;
    RewriteKeepsMeaning(policy, hash, objects, order, mapping, store, c);
    forall p | p in g[c]
      ensures p in mapping && HistoryMapped(g, h, mapping, p, x)
    {
      var j :| 0 <= j < i && order[j] == p;
      HistoryIsTheImage(policy, hash, objects, order, mapping, store, j, x);
    }
    ParentsCorrespond(g[c], mapping, h[mapping[c]]);
    HistoryMappedFromParents(g, h, mapping, c, x);
  }

  lemma {:induction false} ParentsCorrespond(parents: seq<Sha>, mapping: map<Sha, Sha>, images: seq<Sha>)
    requires forall p :: p in parents ==> p in mapping
    requires MapsParents(mapping, parents, images)
    ensures forall q :: q in images <==> exists p :: p in parents && mapping[p] == q
  {
    forall q | q in images
      ensures exists p :: p in parents && mapping[p] == q
    {
      var k :| 0 <= k < |images| && images[k] == q;
      assert parents[k] in parents && mapping[parents[k]] == q;
    }
    forall p | p in parents
      ensures mapping[p] in images
    {
      var k :| 0 <= k < |parents| && parents[k] == p;
      assert images[k] == mapping[p];
    }
  }

  /** Rewriting the rewritten history again, in any parents-first order, maps every commit to itself. */
  lemma {:induction false} SecondRewriteChangesNothing(
    policy: Policy, hash: Commit -> Sha, objects: Objects, order: seq<Sha>, mapping: map<Sha, Sha>, store: Objects,
    again: seq<Sha>, second: map<Sha, Sha>, i: nat)
    requires policy.Valid() && Injective(hash) && StoredByHash(objects, hash)
    requires ParentsFirst(objects, order) && IsCommitMap(policy, hash, objects, order, mapping)
    requires IsRewrittenStore(policy, hash, objects, mapping, store)
    requires ParentsFirst(store, again) && (forall s :: s in again ==> IsImage(mapping, s))
    requires IsCommitMap(policy, hash, store, again, second) && i < |again|
    ensures second[again[i]] == again[i]
  {
    MapMovesExactlyOffendersAndDescendants(policy, hash, store, again, second, i);
    assert again[i] in again;
    forall a | a in store && Reaches(GraphOf(store), again[i], a)
      ensures !Offender(policy, store[a])
    {
      var c :| c in mapping && mapping[c] == again[i];
      var k :| 0 <= k < |order| && order[k] == c;
      HistoryIsTheImage(policy, hash, objects, order, mapping, store, k, a);
      var b :| b in mapping && mapping[b] == a;
      NoOffenceRemains(policy, hash, objects, order, mapping, store, b);
    }
  }

  // ---------------------------------------------------------------------------------------------------------------
  // Moving the requested refs
  // ---------------------------------------------------------------------------------------------------------------

  /** What a ref holds: the commit it peels to, and whether it holds that commit itself or an annotated tag of it. */
  datatype Held = Held(commit: Sha, tagged: bool)

  /** By full name. */
  type Refs = map<string, Held>

  /** What a requested name stands for. A symbolic ref such as HEAD is the ref that it points to; `rev-parse` also takes an
      abbreviation such as `main`, while `update-ref` knows only full names. */
  datatype Target = Target(ref: string, full: bool)

  /** An image that is itself a listed commit is mapped to itself. */
  ghost predicate ImagesStay(mapping: map<Sha, Sha>) {
    forall c :: c in mapping && mapping[c] in mapping ==> mapping[mapping[c]] == mapping[c]
  }

  /** Two commits may collapse into one object, and that object may already have been in the history. */
  lemma {:induction false} CommitMapImagesStay(
    policy: Policy, hash: Commit -> Sha, objects: Objects, order: seq<Sha>, mapping: map<Sha, Sha>, store: Objects)
    requires policy.Valid() && Injective(hash) && StoredByHash(objects, hash)
    requires ParentsFirst(objects, order) && IsCommitMap(policy, hash, objects, order, mapping)
    requires IsRewrittenStore(policy, hash, objects, mapping, store)
    ensures ImagesStay(mapping)
  {
    forall c | c in mapping && mapping[c] in mapping
      ensures mapping[mapping[c]] == mapping[c]
    {
      var m := mapping[c];
      var i :| 0 <= i < |order| && order[i] == m;
      var k :| 0 <= k < |order| && order[k] == c;
      MapMovesExactlyOffendersAndDescendants(policy, hash, objects, order, mapping, i);
      forall a | a in objects && Reaches(GraphOf(objects), m, a)
        ensures !Offender(policy, objects[a])
      {
        var path :| IsPathBetween(GraphOf(objects), path, m, a);
        assert IsPathBetween(GraphOf(store), path, m, a);
        HistoryIsTheImage(policy, hash, objects, order, mapping, store, k, a);
        var b :| b in mapping && mapping[b] == a;
        NoOffenceRemains(policy, hash, objects, order, mapping, store, b);
      }
    }
  }

  ghost predicate Names(targets: seq<Target>, r: string) {
    exists t :: t in targets && t.ref == r
  }

  ghost predicate TargetsExist(refs: Refs, targets: seq<Target>) {
    forall t :: t in targets ==> t.ref in refs
  }

  /** What a ref holds after it was visited. */
  function AfterVisit(mapping: map<Sha, Sha>, h: Held): Held {
    if h.commit in mapping && mapping[h.commit] != h.commit then Held(mapping[h.commit], false) else h
  }

  ghost function Moved(refs: Refs, mapping: map<Sha, Sha>, targets: seq<Target>): Refs {
    map r | r in refs :: if Names(targets, r) then AfterVisit(mapping, refs[r]) else refs[r]
  }

  /** The i-th visit goes through. The commit has to be listed. If it moves, then either an earlier name stood for the same
      ref, and the image is listed as well; or the ref can be updated: it is given by its full name, and what it holds is
      the commit itself, which is what `update-ref` compares. */
  ghost predicate VisitSucceeds(refs: Refs, mapping: map<Sha, Sha>, targets: seq<Target>, i: nat)
    requires i < |targets| && TargetsExist(refs, targets)
  {
    var h := refs[targets[i].ref];
    && h.commit in mapping
    && (mapping[h.commit] != h.commit ==>
         if Names(targets[..i], targets[i].ref) then mapping[h.commit] in mapping else targets[i].full && !h.tagged)
  }

  /** `update-ref` with the value that the ref has to hold; None when it refuses. */
  function UpdateRef(refs: Refs, t: Target, image: Sha, expected: Sha): Option<Refs>
    requires t.ref in refs
  {
    if t.full && refs[t.ref] == Held(expected, false) then Some(refs[t.ref := Held(image, false)]) else None
  }

  lemma {:induction false} NamedOneMore(targets: seq<Target>, i: nat, r: string)
    requires i < |targets|
    ensures Names(targets[..i + 1], r) <==> Names(targets[..i], r) || targets[i].ref == r
  {
    assert targets[..i + 1] == targets[..i] + [targets[i]];
  }

  lemma {:induction false} MovedOneMore(refs: Refs, mapping: map<Sha, Sha>, targets: seq<Target>, i: nat, now: Refs)
    requires i < |targets| && TargetsExist(refs, targets) && ImagesStay(mapping)
    requires now == Moved(refs, mapping, targets[..i])
    ensures targets[i].ref in now
    ensures Moved(refs, mapping, targets[..i + 1]) ==
      now[targets[i].ref := AfterVisit(mapping, now[targets[i].ref])]
  {
    var r := targets[i].ref;
    assert targets[i] in targets && r in refs;
    var next := now[r := AfterVisit(mapping, now[r])];
    forall x | x in refs
      ensures Moved(refs, mapping, targets[..i + 1])[x] == next[x]
    {
      NamedOneMore(targets, i, x);
    }
  }

  /** Every ref that a requested name stands for moves to the image of its commit and no other ref moves. What was moved
      before a failure stays moved. */
  method MoveRefs(refs: Refs, targets: seq<Target>, mapping: map<Sha, Sha>) returns (done: nat, now: Refs)
    requires ImagesStay(mapping) && TargetsExist(refs, targets)
    ensures done <= |targets| && now == Moved(refs, mapping, targets[..done])
    ensures forall i :: 0 <= i < done ==> VisitSucceeds(refs, mapping, targets, i)
    ensures done == |targets| || !VisitSucceeds(refs, mapping, targets, done)
  {
    now := refs;
    for i := 0 to |targets|
      invariant now == Moved(refs, mapping, targets[..i])
      invariant forall k :: 0 <= k < i ==> VisitSucceeds(refs, mapping, targets, k)
    {
      var t := targets[i];
      MovedOneMore(refs, mapping, targets, i, now);
      VisitOne(refs, mapping, targets, i, now);
      var sha := now[t.ref].commit;
      if sha !in mapping {
        return i, now;
      }
      if mapping[sha] != sha {
        var updated := UpdateRef(now, t, mapping[sha], sha);
        if updated.None? {
          return i, now;
        }
        now := updated.value;
      }
    }
    return |targets|, now;
  }

  /** Whether a visit goes through, in terms of what the refs hold by then. */
  lemma {:induction false} VisitOne(refs: Refs, mapping: map<Sha, Sha>, targets: seq<Target>, i: nat, now: Refs)
    requires i < |targets| && TargetsExist(refs, targets) && ImagesStay(mapping)
    requires now == Moved(refs, mapping, targets[..i]) && targets[i].ref in now
    requires forall k :: 0 <= k < i ==> VisitSucceeds(refs, mapping, targets, k)
    ensures var h := now[targets[i].ref];
      VisitSucceeds(refs, mapping, targets, i) <==>
        h.commit in mapping && (mapping[h.commit] != h.commit ==> targets[i].full && !h.tagged)
  {
    var r := targets[i].ref;
    if Names(targets[..i], r) {
      var t :| t in targets[..i] && t.ref == r;
      var k :| 0 <= k < i && targets[k] == t;
      assert VisitSucceeds(refs, mapping, targets, k);
    }
  }

  // ---------------------------------------------------------------------------------------------------------------
  // From the requested refs to clean histories
  // ---------------------------------------------------------------------------------------------------------------

  ghost predicate HasOffender(policy: Policy, objects: Objects, c: Sha) {
    exists a :: a in objects && Reaches(GraphOf(objects), c, a) && Offender(policy, objects[a])
  }

  /** Every requested ref exists and its commit is listed. */
  ghost predicate ListsTargets(refs: Refs, targets: seq<Target>, order: seq<Sha>) {
    forall t :: t in targets ==> t.ref in refs && refs[t.ref].commit in order
  }

  /** Which names stand for what. */
  type Naming = map<string, Target>

  function TargetsOf(naming: Naming, names: seq<string>): (targets: seq<Target>)
    requires forall n :: n in names ==> n in naming
    ensures |targets| == |names| && forall i :: 0 <= i < |names| ==> targets[i] == naming[names[i]]
  {
    seq(|names|, i requires 0 <= i < |names| => naming[names[i]])
  }

  ghost predicate ReachableFrom(objects: Objects, refs: Refs, targets: seq<Target>, c: Sha)
    requires TargetsExist(refs, targets)
  {
    exists t :: t in targets && Reaches(GraphOf(objects), refs[t.ref].commit, c)
  }

  /** `git rev-list` of the requested names: it fails when one of them does not exist, and otherwise gives what they reach,
      parents first. */
  ghost predicate IsRevList(
    objects: Objects, refs: Refs, naming: Naming, names: seq<string>, listed: Option<seq<Sha>>)
  {
    match listed
    case None => exists n :: n in names && n !in naming
    case Some(order) =>
      && (forall n :: n in names ==> n in naming && naming[n].ref in refs)
      && ParentsFirst(objects, order)
      && forall c :: c in order <==> ReachableFrom(objects, refs, TargetsOf(naming, names), c)
  }

  lemma {:induction false} RevListListsTargets(
    objects: Objects, refs: Refs, naming: Naming, names: seq<string>, order: seq<Sha>)
    requires IsRevList(objects, refs, naming, names, Some(order))
    ensures ListsTargets(refs, TargetsOf(naming, names), order)
  {
    var targets := TargetsOf(naming, names);
    forall t | t in targets
      ensures t.ref in refs && refs[t.ref].commit in order
    {
      var i :| 0 <= i < |targets| && targets[i] == t;
      assert t == naming[names[i]] && names[i] in names;
      ReachesSelf(GraphOf(objects), refs[t.ref].commit);
    }
  }

  /** What the i-th name of a request must be when the history of its ref has an offender: the full name of a ref that is
      no annotated tag; or, when an earlier name stands for the same ref, one whose image was listed already. */
  ghost predicate CanMove(
    policy: Policy, objects: Objects, order: seq<Sha>, mapping: map<Sha, Sha>, refs: Refs, targets: seq<Target>, i: nat)
    requires i < |targets| && TargetsExist(refs, targets)
  {
    var h := refs[targets[i].ref];
    HasOffender(policy, objects, h.commit) ==>
      if Names(targets[..i], targets[i].ref) then h.commit in mapping && mapping[h.commit] in order
      else targets[i].full && !h.tagged
  }

  lemma {:induction false} VisitSucceedsExactlyWhen(
    policy: Policy, hash: Commit -> Sha, objects: Objects, order: seq<Sha>, mapping: map<Sha, Sha>, refs: Refs,
    targets: seq<Target>, i: nat)
    requires policy.Valid() && Injective(hash) && StoredByHash(objects, hash)
    requires ParentsFirst(objects, order) && IsCommitMap(policy, hash, objects, order, mapping)
    requires ListsTargets(refs, targets, order) && i < |targets|
    ensures VisitSucceeds(refs, mapping, targets, i)
       <==> CanMove(policy, objects, order, mapping, refs, targets, i)
  {
    assert targets[i] in targets;
    var c := refs[targets[i].ref].commit;
    MovesExactlyWithOffender(policy, hash, objects, order, mapping, c);
  }

  lemma {:induction false} MovesExactlyWithOffender(
    policy: Policy, hash: Commit -> Sha, objects: Objects, order: seq<Sha>, mapping: map<Sha, Sha>, c: Sha)
    requires policy.Valid() && Injective(hash) && StoredByHash(objects, hash)
    requires ParentsFirst(objects, order) && IsCommitMap(policy, hash, objects, order, mapping) && c in order
    ensures c in mapping && (mapping[c] != c <==> HasOffender(policy, objects, c))
  {
    var k :| 0 <= k < |order| && order[k] == c;
    MapMovesExactlyOffendersAndDescendants(policy, hash, objects, order, mapping, k);
  }

  /** A ref that moved has no offender left in its history. */
  lemma {:induction false} MovedRefIsClean(
    policy: Policy, hash: Commit -> Sha, objects: Objects, order: seq<Sha>, mapping: map<Sha, Sha>, store: Objects,
    c: Sha)
    requires policy.Valid() && StoredByHash(objects, hash)
    requires ParentsFirst(objects, order) && IsCommitMap(policy, hash, objects, order, mapping)
    requires IsRewrittenStore(policy, hash, objects, mapping, store) && c in order
    ensures !HasOffender(policy, store, mapping[c])
  {
    var k :| 0 <= k < |order| && order[k] == c;
    forall a | a in store && Reaches(GraphOf(store), mapping[c], a)
      ensures !Offender(policy, store[a])
    {
      HistoryIsTheImage(policy, hash, objects, order, mapping, store, k, a);
      var b :| b in mapping && mapping[b] == a;
      NoOffenceRemains(policy, hash, objects, order, mapping, store, b);
    }
  }

  datatype Outcome =
    | Refused                                                                    // nothing was touched
    | Ran(mapping: map<Sha, Sha>, store: Objects, done: nat, refs: Refs)         // it got through `done` names

  ghost predicate IsMovedClean(
    policy: Policy, mapping: map<Sha, Sha>, store: Objects, refs: Refs, now: Refs, r: string)
  {
    && r in refs && r in now && refs[r].commit in mapping
    && now[r].commit == mapping[refs[r].commit] && !HasOffender(policy, store, now[r].commit)
    && (if now[r].commit == refs[r].commit then now[r] == refs[r] else !now[r].tagged)
  }

  /** What a run that corrects `order` and then visits the names has to leave. It stops at the first name that cannot be
      moved; every ref it got to holds the image of its commit, with no offender left in its history, and is what it was when
      that is the commit itself; and no ref moved that no such name stands for. */
  ghost predicate RanAsPromised(
    policy: Policy, hash: Commit -> Sha, objects: Objects, order: seq<Sha>, refs: Refs, targets: seq<Target>,
    mapping: map<Sha, Sha>, store: Objects, done: nat, now: Refs)
    requires TargetsExist(refs, targets)
  {
    && IsCommitMap(policy, hash, objects, order, mapping)
    && IsRewrittenStore(policy, hash, objects, mapping, store)
    && done <= |targets|
    && (forall i: nat :: i < done ==> CanMove(policy, objects, order, mapping, refs, targets, i))
    && (done < |targets| ==> !CanMove(policy, objects, order, mapping, refs, targets, done))
    && now.Keys == refs.Keys
    && (forall t :: t in targets[..done] ==> IsMovedClean(policy, mapping, store, refs, now, t.ref))
    && (forall r :: r in refs && !Names(targets[..done], r) ==> now[r] == refs[r])
  }

  /** The whole tool. */
  method RewriteRefs(
    policy: Policy, hash: Commit -> Sha, objects: Objects, refs: Refs, naming: Naming, names: seq<string>,
    listed: Option<seq<Sha>>)
    returns (outcome: Outcome)
    requires policy.Valid() && Injective(hash) && StoredByHash(objects, hash)
    requires IsRevList(objects, refs, naming, names, listed)
    ensures outcome.Refused? <==> exists n :: n in names && n !in naming
    ensures outcome.Ran? ==>
      TargetsExist(refs, TargetsOf(naming, names)) &&
      RanAsPromised(policy, hash, objects, listed.value, refs, TargetsOf(naming, names),
                    outcome.mapping, outcome.store, outcome.done, outcome.refs)
  {
    if listed.None? {
      return Refused;
    }
    var order, targets := listed.value, TargetsOf(naming, names);
    RevListListsTargets(objects, refs, naming, names, order);
    var mapping, store := Rewrite(policy, hash, objects, order);
    CommitMapImagesStay(policy, hash, objects, order, mapping, store);
    var done, now := MoveRefs(refs, targets, mapping);
    KeepsPromises(policy, hash, objects, order, refs, targets, mapping, store, done, now);
    return Ran(mapping, store, done, now);
  }

  lemma {:induction false} KeepsPromises(
    policy: Policy, hash: Commit -> Sha, objects: Objects, order: seq<Sha>, refs: Refs, targets: seq<Target>,
    mapping: map<Sha, Sha>, store: Objects, done: nat, now: Refs)
    requires policy.Valid() && Injective(hash) && StoredByHash(objects, hash)
    requires ParentsFirst(objects, order) && ListsTargets(refs, targets, order)
    requires IsCommitMap(policy, hash, objects, order, mapping)
    requires IsRewrittenStore(policy, hash, objects, mapping, store)
    requires done <= |targets| && now == Moved(refs, mapping, targets[..done])
    requires forall i :: 0 <= i < done ==> VisitSucceeds(refs, mapping, targets, i)
    requires done == |targets| || !VisitSucceeds(refs, mapping, targets, done)
    ensures RanAsPromised(policy, hash, objects, order, refs, targets, mapping, store, done, now)
  {
    forall i: nat | i < |targets|
      ensures VisitSucceeds(refs, mapping, targets, i)
         <==> CanMove(policy, objects, order, mapping, refs, targets, i)
    {
      VisitSucceedsExactlyWhen(policy, hash, objects, order, mapping, refs, targets, i);
    }
    forall t | t in targets[..done]
      ensures IsMovedClean(policy, mapping, store, refs, now, t.ref)
    {
      assert t in targets && Names(targets[..done], t.ref);
      assert now[t.ref].commit == mapping[refs[t.ref].commit];
      MovedRefIsClean(policy, hash, objects, order, mapping, store, refs[t.ref].commit);
    }
  }

  /** Two names for one ref, such as HEAD and its branch: the second visit fails whenever the history had an offender and the
      image was not listed. */
  lemma {:induction false} AliasStopsWhenItMoves(
    policy: Policy, hash: Commit -> Sha, objects: Objects, order: seq<Sha>, mapping: map<Sha, Sha>, refs: Refs,
    r: string, again: Target)
    requires policy.Valid() && Injective(hash) && StoredByHash(objects, hash)
    requires ParentsFirst(objects, order) && IsCommitMap(policy, hash, objects, order, mapping)
    requires r in refs && refs[r].commit in order && !refs[r].tagged && again.ref == r
    ensures VisitSucceeds(refs, mapping, [Target(r, true), again], 0)
    ensures VisitSucceeds(refs, mapping, [Target(r, true), again], 1) <==>
      !HasOffender(policy, objects, refs[r].commit) || mapping[refs[r].commit] in order
  {
    var targets := [Target(r, true), again];
    assert targets[..1] == [Target(r, true)];
    assert Names(targets[..1], r);
    VisitSucceedsExactlyWhen(policy, hash, objects, order, mapping, refs, targets, 0);
    VisitSucceedsExactlyWhen(policy, hash, objects, order, mapping, refs, targets, 1);
  }

  /** The smallest history: one root commit that offends. A branch moves once and then stops the tool; an annotated tag, or an
      abbreviated name, stops it at once. */
  lemma {:induction false} OffendingRootStops(policy: Policy, hash: Commit -> Sha, c: Commit, mapping: map<Sha, Sha>)
    requires policy.Valid() && Injective(hash) && ParentsOf(c) == [] && Offender(policy, c)
    requires IsCommitMap(policy, hash, map[hash(c) := c], [hash(c)], mapping)
    ensures var branch, main := map["refs/heads/main" := Held(hash(c), false)], Target("refs/heads/main", true);
      && VisitSucceeds(branch, mapping, [main, main], 0) && !VisitSucceeds(branch, mapping, [main, main], 1)
      && !VisitSucceeds(branch, mapping, [Target("refs/heads/main", false)], 0)
    ensures var tag, v1 := map["refs/tags/v1" := Held(hash(c), true)], Target("refs/tags/v1", true);
      !VisitSucceeds(tag, mapping, [v1], 0)
  {
    var objects, order := map[hash(c) := c], [hash(c)];
    assert ParentsFirst(objects, order);
    ReachesSelf(GraphOf(objects), hash(c));
    assert HasOffender(policy, objects, hash(c));
    assert hash(c) in order;
    MovesExactlyWithOffender(policy, hash, objects, order, mapping, hash(c));
    var main := "refs/heads/main";
    AliasStopsWhenItMoves(policy, hash, objects, order, mapping, map[main := Held(hash(c), false)], main, Target(main, true));
  }
}
