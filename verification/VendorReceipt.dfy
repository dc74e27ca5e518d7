/** The receipt of a vendored capability: who writes it (src/stagemesh/capability_vendor.py) and who checks it
    (`_observed_vendor_tree` in src/stagemesh/capabilities.py).

    A directory is a map from relative POSIX paths to what is there; walking it (rglob, sorted by path) gives its
    `Listing`. JSON and SHA-256 are parameters.
 */
module VendorReceipt {
  import opened Prelude

  type Bytes = string

  datatype Node = File(data: Bytes) | Dir | Symlink | Special

  type Tree = map<string, Node>

  const RECEIPT_NAME := ".stagemesh-vendor.json"
  const MAX_VENDOR_FILES := 128
  const MAX_VENDOR_BYTES := 2 * 1024 * 1024
  const MAX_SINGLE_FILE_BYTES := 256 * 1024
  const MAX_RECEIPT_BYTES := 256 * 1024
  const PROVENANCE := "operator-supplied-local-source"

  // ---------------------------------------------------------------------------------------------------------------
  // Paths and listings
  // ---------------------------------------------------------------------------------------------------------------

  predicate PathLess(a: string, b: string) {
    b != [] && (a == [] || a[0] < b[0] || (a[0] == b[0] && PathLess(a[1..], b[1..])))
  }

  lemma {:induction false} PathLessIsOrder(a: string, b: string, c: string)
    ensures !PathLess(a, a)
    ensures PathLess(a, b) && PathLess(b, c) ==> PathLess(a, c)
    ensures PathLess(a, b) || PathLess(b, a) || a == b
    decreases |a| + |b| + |c|
  {
    if a != [] {
      PathLessIsOrder(a[1..], if b == [] then [] else b[1..], if c == [] then [] else c[1..]);
    }
  }

  ghost predicate Ascending(s: seq<string>) {
    forall i, j {:trigger PathLess(s[i], s[j])} :: 0 <= i < j < |s| ==> PathLess(s[i], s[j])
  }

  ghost predicate IsListing(listing: seq<string>, t: Tree) {
    Ascending(listing) && forall p :: p in listing <==> p in t
  }

  lemma {:induction false} AscendingIsUnique(s: seq<string>, t: seq<string>)
    requires Ascending(s) && Ascending(t) && forall x :: x in s <==> x in t
    ensures s == t
  {
    if s == [] {
      assert forall i :: 0 <= i < |t| ==> t[i] in t;
    } else {
      assert s[0] in t && t[0] in s;
      var i :| 0 <= i < |s| && s[i] == t[0];
      var j :| 0 <= j < |t| && t[j] == s[0];
      PathLessIsOrder(s[0], t[0], s[0]);
      forall x
        ensures x in s[1..] <==> x in t[1..]
      {
        PathLessIsOrder(x, x, x);
        assert x in s <==> x == s[0] || x in s[1..];
        assert x in t <==> x == t[0] || x in t[1..];
      }
      AscendingIsUnique(s[1..], t[1..]);
    }
  }

  /** The directories that a path is in. */
  ghost predicate Above(dir: string, p: string) {
    |dir| < |p| && dir == p[..|dir|] && p[|dir|] == '/'
  }

  predicate DotDotAt(p: string, i: nat) {
    && i + 2 <= |p| && p[i..i + 2] == ".."
    && (i == 0 || p[i - 1] == '/') && (i + 2 == |p| || p[i + 2] == '/')
  }

  predicate HasDotDot(p: string) {
    exists i :: 0 <= i < |p| && DotDotAt(p, i)
  }

  /** A path that a walk of a directory can return. */
  predicate IsRelativePath(p: string) {
    p != [] && p[0] != '/' && !HasDotDot(p) && '\0' !in p
  }

  ghost predicate IsTree(t: Tree) {
    && (forall p :: p in t ==> IsRelativePath(p))
    && (forall p, d {:trigger Above(d, p)} :: p in t && Above(d, p) ==> d in t && t[d] == Dir)
  }

  // ---------------------------------------------------------------------------------------------------------------
  // Files, rows and digests
  // ---------------------------------------------------------------------------------------------------------------

  datatype SourceFile = SourceFile(path: string, data: Bytes)

  datatype ReceiptRow = ReceiptRow(path: string, bytes: int, sha256: string)

  function TotalBytes(files: seq<SourceFile>): nat {
    if files == [] then 0 else |files[0].data| + TotalBytes(files[1..])
  }

  /** The files of a listing, in its order. */
  function FilesIn(t: Tree, listing: seq<string>): (r: seq<SourceFile>)
    requires forall p :: p in listing ==> p in t
    ensures |r| <= |listing|
  {
    if listing == [] then []
    else if t[listing[0]].File? then
      [SourceFile(listing[0], t[listing[0]].data)] + FilesIn(t, listing[1..])
    else FilesIn(t, listing[1..])
  }

  function FileRows(sha: Bytes -> string, files: seq<SourceFile>): (r: seq<ReceiptRow>)
    ensures |r| == |files|
    ensures forall i :: 0 <= i < |files| ==> r[i] == ReceiptRow(files[i].path, |files[i].data|, sha(files[i].data))
  {
    if files == [] then []
    else [ReceiptRow(files[0].path, |files[0].data|, sha(files[0].data))] + FileRows(sha, files[1..])
  }

  /** What the tree digest is computed over: path, NUL, digest, line end for every row. */
  function Encoded(rows: seq<ReceiptRow>): Bytes {
    if rows == [] then []
    else rows[0].path + ['\0'] + rows[0].sha256 + ['\n'] + Encoded(rows[1..])
  }

  ghost predicate Decodable(rows: seq<ReceiptRow>) {
    forall i :: 0 <= i < |rows| ==> '\0' !in rows[i].path && |rows[i].sha256| == 64
  }

  ghost predicate SameNames(r: seq<ReceiptRow>, s: seq<ReceiptRow>) {
    |r| == |s| && forall i :: 0 <= i < |r| ==> r[i].path == s[i].path && r[i].sha256 == s[i].sha256
  }

  /** A path ends at the first NUL. */
  lemma {:induction false} PathEndsAtNul(a: string, u: Bytes, b: string, v: Bytes)
    requires '\0' !in a && '\0' !in b && a + (['\0'] + u) == b + (['\0'] + v)
    ensures a == b && u == v
  {
    var whole, other := a + (['\0'] + u), b + (['\0'] + v);
    assert whole[|a|] == '\0' && other[|b|] == '\0';
    assert forall k :: 0 <= k < |a| ==> whole[k] == a[k];
    assert forall k :: 0 <= k < |b| ==> other[k] == b[k];
    assert whole[..|a|] == a && other[..|b|] == b;
    assert whole[|a| + 1..] == u && other[|b| + 1..] == v;
  }

  /** The first row of an encoding: the path ends at the first NUL, and the digest has a fixed length. */
  lemma {:induction false} FirstRowIsUnique(a: string, d: string, u: Bytes, b: string, e: string, v: Bytes)
    requires '\0' !in a && '\0' !in b && |d| == |e| == 64
    requires a + ['\0'] + d + ['\n'] + u == b + ['\0'] + e + ['\n'] + v
    ensures a == b && d == e && u == v
  {
    var left, right := d + ['\n'] + u, e + ['\n'] + v;
    assert a + ['\0'] + d + ['\n'] + u == a + (['\0'] + left);
    assert b + ['\0'] + e + ['\n'] + v == b + (['\0'] + right);
    PathEndsAtNul(a, left, b, right);
    assert left[..64] == d && right[..64] == e;
    assert left[65..] == u && right[65..] == v;
  }

  /** The row encoding is uniquely decodable, although a path may contain a line end. */
  lemma {:induction false} EncodingIsUnique(r: seq<ReceiptRow>, s: seq<ReceiptRow>)
    requires Decodable(r) && Decodable(s) && Encoded(r) == Encoded(s)
    ensures SameNames(r, s)
  {
    if r != [] && s != [] {
      FirstRowIsUnique(r[0].path, r[0].sha256, Encoded(r[1..]), s[0].path, s[0].sha256, Encoded(s[1..]));
      EncodingIsUnique(r[1..], s[1..]);
      forall i | 0 <= i < |r|
        ensures r[i].path == s[i].path && r[i].sha256 == s[i].sha256
      {
        if i > 0 {
          assert r[i] == r[1..][i - 1] && s[i] == s[1..][i - 1];
        }
      }
    }
  }

  // ---------------------------------------------------------------------------------------------------------------
  // The producer
  // ---------------------------------------------------------------------------------------------------------------

  /** Which files a kind of capability accepts: by path, and by content (skill files are UTF-8 text without NUL). */
  datatype Rules = Rules(path: string -> bool, text: Bytes -> bool)

  predicate AcceptsNode(rules: Rules, p: string, n: Node) {
    n.Dir? || (n.File? && rules.path(p) && |n.data| <= MAX_SINGLE_FILE_BYTES && rules.text(n.data))
  }

  /** A source directory that is accepted. */
  predicate AcceptsSource(rules: Rules, t: Tree, listing: seq<string>)
    requires forall p :: p in listing ==> p in t
  {
    && |listing| <= MAX_VENDOR_FILES
    && (forall p :: p in listing ==> AcceptsNode(rules, p, t[p]))
    && TotalBytes(FilesIn(t, listing)) <= MAX_VENDOR_BYTES
  }

  lemma {:induction false} TotalBytesAppend(files: seq<SourceFile>, more: seq<SourceFile>)
    ensures TotalBytes(files + more) == TotalBytes(files) + TotalBytes(more)
  {
    if files == [] {
      assert files + more == more;
    } else {
      assert (files + more)[1..] == files[1..] + more;
      TotalBytesAppend(files[1..], more);
    }
  }

  lemma {:induction false} FilesInAppend(t: Tree, listing: seq<string>, more: seq<string>)
    requires forall p :: p in listing + more ==> p in t
    ensures forall p :: p in listing || p in more ==> p in t
    ensures FilesIn(t, listing + more) == FilesIn(t, listing) + FilesIn(t, more)
  {
    assert forall p :: p in listing || p in more ==> p in listing + more;
    if listing == [] {
      assert listing + more == more;
    } else {
      var all := listing + more;
      assert all[1..] == listing[1..] + more && all[0] == listing[0];
      FilesInAppend(t, listing[1..], more);
      var first := if t[all[0]].File? then [SourceFile(all[0], t[all[0]].data)] else [];
      var rest := FilesIn(t, listing[1..]);
      assert FilesIn(t, all) == first + (rest + FilesIn(t, more));
      assert FilesIn(t, listing) == first + rest;
    }
  }

  /** One more entry of a walk, and what is left after it. */
  lemma {:induction false} WalkStep(t: Tree, listing: seq<string>, i: nat)
    requires i < |listing| && forall p :: p in listing ==> p in t
    ensures forall p :: p in listing[..i] || p in listing[..i + 1] ==> p in t
    ensures t[listing[i]].File? ==>
      FilesIn(t, listing[..i + 1]) == FilesIn(t, listing[..i]) + [SourceFile(listing[i], t[listing[i]].data)]
      && TotalBytes(FilesIn(t, listing[..i + 1])) == TotalBytes(FilesIn(t, listing[..i])) + |t[listing[i]].data|
    ensures !t[listing[i]].File? ==> FilesIn(t, listing[..i + 1]) == FilesIn(t, listing[..i])
    ensures TotalBytes(FilesIn(t, listing[..i + 1])) <= TotalBytes(FilesIn(t, listing))
  {
    var p := listing[i];
    assert listing[..i + 1] == listing[..i] + [p] && listing == listing[..i + 1] + listing[i + 1..];
    FilesInAppend(t, listing[..i], [p]);
    TotalBytesAppend(FilesIn(t, listing[..i]), FilesIn(t, [p]));
    FilesInAppend(t, listing[..i + 1], listing[i + 1..]);
    TotalBytesAppend(FilesIn(t, listing[..i + 1]), FilesIn(t, listing[i + 1..]));
    assert [p][1..] == [];
    if t[p].File? {
      assert FilesIn(t, [p]) == [SourceFile(p, t[p].data)];
      assert TotalBytes([SourceFile(p, t[p].data)]) == |t[p].data|;
    } else {
      assert FilesIn(t, listing[..i]) + [] == FilesIn(t, listing[..i]);
    }
  }

  /** `_skill_package_files` and `_plugin_files`; None when the source is refused. */
  method CollectFiles(rules: Rules, t: Tree, listing: seq<string>) returns (files: Option<seq<SourceFile>>)
    requires forall p :: p in listing ==> p in t
    ensures files.Some? <==> AcceptsSource(rules, t, listing)
    ensures files.Some? <==>
      && |listing| <= 128 && TotalBytes(FilesIn(t, listing)) <= 2097152
      && forall p :: p in listing ==>
           t[p].Dir? || (t[p].File? && rules.path(p) && |t[p].data| <= 262144 && rules.text(t[p].data))
    ensures files.Some? ==> files.value == FilesIn(t, listing)
  {
    var accepted: seq<SourceFile> := [];
    var entries, total := 0, 0;
    for i := 0 to |listing|
      invariant entries == i <= MAX_VENDOR_FILES
      invariant forall k :: 0 <= k < i ==> AcceptsNode(rules, listing[k], t[listing[k]])
      invariant accepted == FilesIn(t, listing[..i]) && total == TotalBytes(accepted) <= MAX_VENDOR_BYTES
    {
      var p := listing[i];
      WalkStep(t, listing, i);
      entries := entries + 1;
      if entries > MAX_VENDOR_FILES {
        return None;
      }
      if t[p].Dir? {
        continue;
      }
      if !t[p].File? || !rules.path(p) {
        return None;
      }
      var data := t[p].data;
      if |data| > MAX_SINGLE_FILE_BYTES || !rules.text(data) {
        return None;
      }
      total := total + |data|;
      if total > MAX_VENDOR_BYTES {
        return None;
      }
      accepted := accepted + [SourceFile(p, data)];
    }
    assert listing[..|listing|] == listing;
    return Some(accepted);
  }

  /** The receipt as a value. */
  datatype Receipt = Receipt(
    version: int, id: string, kind: string, provenance: string, sourceName: string, treeSha256: string,
    files: seq<ReceiptRow>)

  /** JSON text of a receipt; `parse` is None for text that is not an object with exactly the seven keys. */
  datatype Json = Json(render: Receipt -> Bytes, parse: Bytes -> Option<Receipt>)
  {
    ghost predicate RoundTrips() {
      forall r :: parse(render(r)) == Some(r)
    }

    /** The text has every path in it. */
    ghost predicate SpellsPaths() {
      forall r :: |render(r)| >= PathLength(r.files)
    }
  }

  function PathLength(rows: seq<ReceiptRow>): nat {
    if rows == [] then 0 else |rows[0].path| + PathLength(rows[1..])
  }

  /** The registered capability that is checked. */
  datatype Item = Item(id: string, kind: string)

  function TreeDigest(sha: Bytes -> string, files: seq<SourceFile>): string {
    sha(Encoded(FileRows(sha, files)))
  }

  function ReceiptOf(sha: Bytes -> string, item: Item, sourceName: string, files: seq<SourceFile>): Receipt {
    Receipt(1, item.id, item.kind, PROVENANCE, sourceName, TreeDigest(sha, files), FileRows(sha, files))
  }

  ghost predicate IsPathOf(files: seq<SourceFile>, p: string) {
    exists f :: f in files && f.path == p
  }

  /** A directory that is made because a file is in it. */
  ghost predicate IsParentOf(files: seq<SourceFile>, p: string) {
    exists f :: f in files && Above(p, f.path)
  }

  /** `staged` is what writing the files and then the receipt into an empty directory leaves. */
  ghost predicate IsStaged(files: seq<SourceFile>, receipt: Bytes, staged: Tree) {
    && (forall f :: f in files ==> f.path in staged && staged[f.path] == File(f.data))
    && RECEIPT_NAME in staged && staged[RECEIPT_NAME] == File(receipt)
    && (forall p :: p in staged ==>
          || p == RECEIPT_NAME
          || IsPathOf(files, p)
          || (staged[p] == Dir && IsParentOf(files, p)))
    && (forall f, d {:trigger Above(d, f.path)} :: f in files && Above(d, f.path) ==> d in staged && staged[d] == Dir)
  }

  /** The receipt cannot be written when the source has a directory of that name with a file in it. */
  lemma {:induction false} ReceiptNameMustBeFree(files: seq<SourceFile>, receipt: Bytes, staged: Tree, f: SourceFile)
    requires f in files && Above(RECEIPT_NAME, f.path)
    ensures !IsStaged(files, receipt, staged)
  {
    assert RECEIPT_NAME in staged && staged[RECEIPT_NAME] == Dir ==> staged[RECEIPT_NAME] != File(receipt);
  }

  // ---------------------------------------------------------------------------------------------------------------
  // The checker
  // ---------------------------------------------------------------------------------------------------------------

  predicate IsHex64(s: string) {
    |s| == 64 && forall i :: 0 <= i < 64 ==> '0' <= s[i] <= '9' || 'a' <= s[i] <= 'f'
  }

  predicate SafeRow(row: ReceiptRow) {
    && row.path != [] && '\\' !in row.path && row.path[0] != '/' && !HasDotDot(row.path) && row.path != RECEIPT_NAME
    && 0 <= row.bytes <= MAX_SINGLE_FILE_BYTES && IsHex64(row.sha256)
  }

  predicate AcceptsRows(rows: seq<ReceiptRow>) {
    && 1 <= |rows| <= MAX_VENDOR_FILES
    && (forall i :: 0 <= i < |rows| ==> SafeRow(rows[i]))
    && (forall i, j :: 0 <= i < j < |rows| ==> rows[i].path != rows[j].path)
  }

  predicate AcceptsIdentity(item: Item, r: Receipt) {
    r.version == 1 && r.id == item.id && r.kind == item.kind && r.provenance == PROVENANCE
  }

  predicate OtherThanReceipt(p: string) {
    p != RECEIPT_NAME
  }

  /** The walk of the checker stays within its limits and sees nothing but files and directories. */
  predicate AcceptsTree(t: Tree, entries: seq<string>)
    requires forall p :: p in entries ==> p in t
  {
    && |entries| <= MAX_VENDOR_FILES
    && (forall p :: p in entries ==> t[p].Dir? || (t[p].File? && |t[p].data| <= MAX_SINGLE_FILE_BYTES))
    && TotalBytes(FilesIn(t, entries)) <= MAX_VENDOR_BYTES
  }

  predicate SameRows(r: seq<ReceiptRow>, s: seq<ReceiptRow>) {
    (forall row :: row in r ==> row in s) && (forall row :: row in s ==> row in r)
  }

  /** The observed tree digest, or None. */
  function Observed(sha: Bytes -> string, json: Json, item: Item, t: Tree, listing: seq<string>): Option<string>
    requires forall p :: p in listing ==> p in t
  {
    if RECEIPT_NAME !in t || !t[RECEIPT_NAME].File? || |t[RECEIPT_NAME].data| > MAX_RECEIPT_BYTES then None
    else match json.parse(t[RECEIPT_NAME].data)
         case None => None
         case Some(r) =>
           var entries := Filter(listing, OtherThanReceipt);
           var files := FilesIn(t, entries);
           if && AcceptsIdentity(item, r) && AcceptsRows(r.files) && AcceptsTree(t, entries)
              && SameRows(FileRows(sha, files), r.files) && r.treeSha256 == TreeDigest(sha, files)
           then Some(TreeDigest(sha, files))
           else None
  }

  /** The checker's walk over everything but the receipt; None when it refuses. */
  method WalkEntries(t: Tree, walked: seq<string>) returns (files: Option<seq<SourceFile>>)
    requires forall p :: p in walked ==> p in t
    ensures files.Some? <==> AcceptsTree(t, walked)
    ensures files.Some? ==> files.value == FilesIn(t, walked)
  {
    var actual: seq<SourceFile> := [];
    var total, entries := 0, 0;
    for i := 0 to |walked|
      invariant entries == i <= MAX_VENDOR_FILES
      invariant forall k :: 0 <= k < i ==>
        t[walked[k]].Dir? || (t[walked[k]].File? && |t[walked[k]].data| <= MAX_SINGLE_FILE_BYTES)
      invariant actual == FilesIn(t, walked[..i]) && total == TotalBytes(actual) <= MAX_VENDOR_BYTES
    {
      var p := walked[i];
      WalkStep(t, walked, i);
      entries := entries + 1;
      if entries > MAX_VENDOR_FILES || t[p].Symlink? {
        return None;
      }
      if t[p].Dir? {
        continue;
      }
      if !t[p].File? {
        return None;
      }
      var data := t[p].data;
      total := total + |data|;
      if |data| > MAX_SINGLE_FILE_BYTES || total > MAX_VENDOR_BYTES {
        return None;
      }
      actual := actual + [SourceFile(p, data)];
    }
    assert walked[..|walked|] == walked;
    return Some(actual);
  }

  /** The receipt's rows: each safe, and no path twice. */
  method CheckRows(rows: seq<ReceiptRow>) returns (accepted: bool)
    ensures accepted <==> AcceptsRows(rows)
  {
    if !(1 <= |rows| <= MAX_VENDOR_FILES) {
      return false;
    }
    var expected: map<string, ReceiptRow> := map[];
    for i := 0 to |rows|
      invariant forall k :: 0 <= k < i ==> SafeRow(rows[k]) && rows[k].path in expected
      invariant forall p :: p in expected ==> exists k :: 0 <= k < i && rows[k].path == p
      invariant forall j, k :: 0 <= j < k < i ==> rows[j].path != rows[k].path
    {
      if !SafeRow(rows[i]) || rows[i].path in expected {
        return false;
      }
      expected := expected[rows[i].path := rows[i]];
    }
    return true;
  }

  method ObservedVendorTree(sha: Bytes -> string, json: Json, item: Item, t: Tree, listing: seq<string>)
    returns (digest: Option<string>)
    requires forall p :: p in listing ==> p in t
    ensures digest == Observed(sha, json, item, t, listing)
  {
    if RECEIPT_NAME !in t || !t[RECEIPT_NAME].File? || |t[RECEIPT_NAME].data| > MAX_RECEIPT_BYTES {
      return None;
    }
    var parsed := json.parse(t[RECEIPT_NAME].data);
    if parsed.None? || !AcceptsIdentity(item, parsed.value) {
      return None;
    }
    var rows := parsed.value.files;
    var accepted := CheckRows(rows);
    if !accepted {
      return None;
    }
    var files := WalkEntries(t, Filter(listing, OtherThanReceipt));
    if files.None? {
      return None;
    }
    var actual := FileRows(sha, files.value);
    if !SameRows(actual, rows) {
      return None;
    }
    var observed := sha(Encoded(actual));
    if parsed.value.treeSha256 != observed {
      return None;
    }
    return Some(observed);
  }

  // ---------------------------------------------------------------------------------------------------------------
  // Producer and checker agree
  // ---------------------------------------------------------------------------------------------------------------

  function PathsOf(files: seq<SourceFile>): (r: seq<string>)
    ensures |r| == |files| && forall i :: 0 <= i < |files| ==> r[i] == files[i].path
  {
    if files == [] then [] else [files[0].path] + PathsOf(files[1..])
  }

  lemma {:induction false} FilesInAre(t: Tree, listing: seq<string>, f: SourceFile)
    requires forall p :: p in listing ==> p in t
    ensures f in FilesIn(t, listing) <==> f.path in listing && t[f.path] == File(f.data)
  {
    if listing != [] {
      FilesInAre(t, listing[1..], f);
      assert f.path in listing <==> f.path == listing[0] || f.path in listing[1..];
    }
  }

  lemma {:induction false} FilesInAscend(t: Tree, listing: seq<string>)
    requires Ascending(listing) && forall p :: p in listing ==> p in t
    ensures Ascending(PathsOf(FilesIn(t, listing)))
  {
    if listing != [] {
      var rest := FilesIn(t, listing[1..]);
      FilesInAscend(t, listing[1..]);
      var paths := PathsOf(rest);
      forall i | 0 <= i < |paths|
        ensures PathLess(listing[0], paths[i])
      {
        FilesInAre(t, listing[1..], rest[i]);
        var k :| 0 <= k < |listing[1..]| && listing[1..][k] == paths[i];
        assert listing[k + 1] == paths[i];
      }
      if t[listing[0]].File? {
        assert PathsOf(FilesIn(t, listing)) == [listing[0]] + paths;
      }
    }
  }

  lemma {:induction false} FilterAscending(s: seq<string>, keep: string -> bool)
    requires Ascending(s)
    ensures Ascending(Filter(s, keep))
  {
    if s != [] {
      FilterAscending(s[1..], keep);
      var rest := Filter(s[1..], keep);
      forall i | 0 <= i < |rest|
        ensures PathLess(s[0], rest[i])
      {
        assert rest[i] in rest;
      }
    }
  }

  /** Two file lists in path order that have the same elements are the same list. */
  lemma {:induction false} SameFilesSameList(a: seq<SourceFile>, b: seq<SourceFile>)
    requires Ascending(PathsOf(a)) && Ascending(PathsOf(b)) && forall f :: f in a <==> f in b
    ensures a == b
  {
    var p, q := PathsOf(a), PathsOf(b);
    forall x
      ensures x in p <==> x in q
    {
      if x in p {
        var i :| 0 <= i < |p| && p[i] == x;
        assert a[i] in b;
        var j :| 0 <= j < |b| && b[j] == a[i];
        assert q[j] == x;
      }
      if x in q {
        var j :| 0 <= j < |q| && q[j] == x;
        assert b[j] in a;
        var i :| 0 <= i < |a| && a[i] == b[j];
        assert p[i] == x;
      }
    }
    AscendingIsUnique(p, q);
    forall i | 0 <= i < |a|
      ensures a[i] == b[i]
    {
      assert a[i] in b;
      var j :| 0 <= j < |b| && b[j] == a[i];
      PathLessIsOrder(p[i], p[i], p[i]);
      assert q[j] == p[i] == q[i];
    }
  }

  lemma {:induction false} AscendingFits(s: seq<string>, t: seq<string>)
    requires Ascending(s) && forall x :: x in s ==> x in t
    ensures |s| <= |t|
    decreases |s|
  {
    if s != [] {
      assert s[0] in s;
      var k :| 0 <= k < |t| && t[k] == s[0];
      var rest := t[..k] + t[k + 1..];
      forall x | x in s[1..]
        ensures x in rest
      {
        PathLessIsOrder(x, x, x);
        assert x in s && x in t;
        var j :| 0 <= j < |t| && t[j] == x;
        assert j != k;
        assert x == if j < k then rest[j] else rest[j - 1];
      }
      AscendingFits(s[1..], rest);
    }
  }

  /** Everything in a staged tree but the receipt is in the source, unchanged. */
  lemma {:induction false} StagedIsFromSource(
    source: Tree, listing: seq<string>, receipt: Bytes, staged: Tree, p: string)
    requires IsTree(source) && IsListing(listing, source)
    requires IsStaged(FilesIn(source, listing), receipt, staged) && p in staged && p != RECEIPT_NAME
    ensures p in source && staged[p] == source[p]
  {
    var files := FilesIn(source, listing);
    if IsPathOf(files, p) {
      var f :| f in files && f.path == p;
      FilesInAre(source, listing, f);
    } else {
      var f :| f in files && Above(p, f.path);
      FilesInAre(source, listing, f);
    }
  }

  /** The checker's walk of the staged tree finds the accepted files again, within the limits. */
  lemma {:induction false} StagedTreeHasTheFiles(
    source: Tree, listing: seq<string>, receipt: Bytes, staged: Tree, walk: seq<string>)
    requires IsTree(source) && IsListing(listing, source) && IsListing(walk, staged)
    requires IsStaged(FilesIn(source, listing), receipt, staged)
    requires RECEIPT_NAME in source ==> !source[RECEIPT_NAME].File?
    ensures FilesIn(staged, Filter(walk, OtherThanReceipt)) == FilesIn(source, listing)
    ensures |Filter(walk, OtherThanReceipt)| <= |listing|
    ensures forall p :: p in Filter(walk, OtherThanReceipt) ==> p in source && staged[p] == source[p]
  {
    var files, entries := FilesIn(source, listing), Filter(walk, OtherThanReceipt);
    FilesInAscend(source, listing);
    FilterAscending(walk, OtherThanReceipt);
    FilesInAscend(staged, entries);
    forall p | p in entries
      ensures p in source && staged[p] == source[p]
    {
      StagedIsFromSource(source, listing, receipt, staged, p);
    }
    AscendingFits(entries, listing);
    forall f
      ensures f in files <==> f in FilesIn(staged, entries)
    {
      FilesInAre(source, listing, f);
      FilesInAre(staged, entries, f);
    }
    SameFilesSameList(FilesIn(staged, entries), files);
  }

  // ---------------------------------------------------------------------------------------------------------------
  // Staging and walking are possible
  // ---------------------------------------------------------------------------------------------------------------

  function InsertedPath(listing: seq<string>, p: string): seq<string> {
    if listing == [] || PathLess(p, listing[0]) then [p] + listing else [listing[0]] + InsertedPath(listing[1..], p)
  }

  lemma {:induction false} InsertedPathIs(listing: seq<string>, p: string, x: string)
    ensures x in InsertedPath(listing, p) <==> x == p || x in listing
  {
    if listing != [] && !PathLess(p, listing[0]) {
      InsertedPathIs(listing[1..], p, x);
      assert x in listing <==> x == listing[0] || x in listing[1..];
    }
  }

  lemma {:induction false} FirstThenAscending(first: string, rest: seq<string>)
    requires Ascending(rest) && forall x :: x in rest ==> PathLess(first, x)
    ensures Ascending([first] + rest)
  {
    var all := [first] + rest;
    forall i, j | 0 <= i < j < |all|
      ensures PathLess(all[i], all[j])
    {
      if i == 0 {
        assert rest[j - 1] in rest;
      } else {
        assert PathLess(rest[i - 1], rest[j - 1]);
      }
    }
  }

  lemma {:induction false} RestAscends(listing: seq<string>)
    requires Ascending(listing) && listing != []
    ensures Ascending(listing[1..]) && forall x :: x in listing[1..] ==> PathLess(listing[0], x)
  {
    var rest := listing[1..];
    forall i, j | 0 <= i < j < |rest|
      ensures PathLess(rest[i], rest[j])
    {
      assert PathLess(listing[i + 1], listing[j + 1]);
    }
    forall x | x in rest
      ensures PathLess(listing[0], x)
    {
      var k :| 0 <= k < |rest| && rest[k] == x;
      assert PathLess(listing[0], listing[k + 1]);
    }
  }

  lemma {:induction false} InsertedPathAscends(listing: seq<string>, p: string)
    requires Ascending(listing) && p !in listing
    ensures Ascending(InsertedPath(listing, p))
  {
    if listing == [] {
      FirstThenAscending(p, []);
    } else {
      RestAscends(listing);
      PathLessIsOrder(p, listing[0], p);
      if PathLess(p, listing[0]) {
        forall x | x in listing
          ensures PathLess(p, x)
        {
          PathLessIsOrder(p, listing[0], x);
          assert x == listing[0] || x in listing[1..];
        }
        FirstThenAscending(p, listing);
      } else {
        InsertedPathAscends(listing[1..], p);
        forall x | x in InsertedPath(listing[1..], p)
          ensures PathLess(listing[0], x)
        {
          InsertedPathIs(listing[1..], p, x);
        }
        FirstThenAscending(listing[0], InsertedPath(listing[1..], p));
      }
    }
  }

  lemma {:induction false} PathsCanBeListed(paths: set<string>) returns (listing: seq<string>)
    ensures Ascending(listing) && forall p :: p in listing <==> p in paths
    decreases |paths|
  {
    if paths == {} {
      listing := [];
    } else {
      var p :| p in paths;
      var rest := PathsCanBeListed(paths - {p});
      listing := InsertedPath(rest, p);
      InsertedPathAscends(rest, p);
      forall x
        ensures x in listing <==> x in paths
      {
        InsertedPathIs(rest, p, x);
      }
    }
  }

  /** Every directory can be walked. */
  lemma {:induction false} ListingExists(t: Tree) returns (listing: seq<string>)
    ensures IsListing(listing, t)
  {
    listing := PathsCanBeListed(t.Keys);
  }

  /** The files of an accepted source can be staged beside the receipt if and only if none of them is in a directory of the
      receipt's name. */
  lemma {:induction false} StagingSucceedsExactlyWhen(source: Tree, listing: seq<string>, receipt: Bytes)
    requires IsTree(source) && IsListing(listing, source)
    requires RECEIPT_NAME in source ==> !source[RECEIPT_NAME].File?
    ensures (exists staged :: IsStaged(FilesIn(source, listing), receipt, staged))
       <==> !IsParentOf(FilesIn(source, listing), RECEIPT_NAME)
  {
    var files := FilesIn(source, listing);
    if IsParentOf(files, RECEIPT_NAME) {
      var f :| f in files && Above(RECEIPT_NAME, f.path);
      forall staged
        ensures !IsStaged(files, receipt, staged)
      {
        ReceiptNameMustBeFree(files, receipt, staged, f);
      }
    } else {
      var staged := StagedOf(source, listing, receipt);
    }
  }

  lemma {:induction false} ParentIsInSource(source: Tree, listing: seq<string>, d: string)
    requires IsTree(source) && IsListing(listing, source) && IsParentOf(FilesIn(source, listing), d)
    ensures d in source && source[d] == Dir
  {
    var f :| f in FilesIn(source, listing) && Above(d, f.path);
    FilesInAre(source, listing, f);
  }

  /** What is staged. */
  ghost function Kept(source: Tree, files: seq<SourceFile>): set<string> {
    set p | p in source && (IsPathOf(files, p) || IsParentOf(files, p))
  }

  ghost function StagedTree(source: Tree, files: seq<SourceFile>, receipt: Bytes): Tree {
    map p | p in Kept(source, files) + {RECEIPT_NAME} :: if p == RECEIPT_NAME then File(receipt) else source[p]
  }

  /** What staging leaves. */
  lemma {:induction false} StagedOf(source: Tree, listing: seq<string>, receipt: Bytes) returns (staged: Tree)
    requires IsTree(source) && IsListing(listing, source)
    requires RECEIPT_NAME in source ==> !source[RECEIPT_NAME].File?
    requires !IsParentOf(FilesIn(source, listing), RECEIPT_NAME)
    ensures IsStaged(FilesIn(source, listing), receipt, staged)
  {
    var files := FilesIn(source, listing);
    staged := StagedTree(source, files, receipt);
    forall f | f in files
      ensures f.path in staged && staged[f.path] == File(f.data)
    {
      FilesInAre(source, listing, f);
      assert IsPathOf(files, f.path);
    }
    forall d | IsParentOf(files, d)
      ensures d in staged && staged[d] == Dir
    {
      ParentIsInSource(source, listing, d);
      assert d in Kept(source, files);
    }
    forall f, d {:trigger Above(d, f.path)} | f in files && Above(d, f.path)
      ensures d in staged && staged[d] == Dir
    {
      assert IsParentOf(files, d);
    }
  }

  ghost predicate NoBackslash(files: seq<SourceFile>) {
    forall f :: f in files ==> '\\' !in f.path
  }

  lemma {:induction false} ProducedRowIsSafe(
    sha: Bytes -> string, source: Tree, listing: seq<string>, rules: Rules, f: SourceFile)
    requires IsTree(source) && IsListing(listing, source) && AcceptsSource(rules, source, listing)
    requires !rules.path(RECEIPT_NAME) && IsHex64(sha(f.data)) && f in FilesIn(source, listing)
    ensures SafeRow(ReceiptRow(f.path, |f.data|, sha(f.data))) <==> '\\' !in f.path
  {
    FilesInAre(source, listing, f);
    assert AcceptsNode(rules, f.path, source[f.path]) && IsRelativePath(f.path);
  }

  lemma {:induction false} PathsOfRowsDiffer(sha: Bytes -> string, files: seq<SourceFile>)
    requires Ascending(PathsOf(files))
    ensures forall i, j :: 0 <= i < j < |files| ==> FileRows(sha, files)[i].path != FileRows(sha, files)[j].path
  {
    var paths := PathsOf(files);
    forall i, j | 0 <= i < j < |files|
      ensures files[i].path != files[j].path
    {
      PathLessIsOrder(paths[i], paths[i], paths[i]);
      assert PathLess(paths[i], paths[j]);
    }
  }

  lemma {:induction false} ProducedRowsAreAccepted(
    sha: Bytes -> string, source: Tree, listing: seq<string>, rules: Rules)
    requires IsTree(source) && IsListing(listing, source) && AcceptsSource(rules, source, listing)
    requires !rules.path(RECEIPT_NAME) && FilesIn(source, listing) != [] && forall b :: IsHex64(sha(b))
    ensures AcceptsRows(FileRows(sha, FilesIn(source, listing))) <==> NoBackslash(FilesIn(source, listing))
  {
    var files := FilesIn(source, listing);
    var rows := FileRows(sha, files);
    FilesInAscend(source, listing);
    PathsOfRowsDiffer(sha, files);
    forall i | 0 <= i < |files|
      ensures SafeRow(rows[i]) <==> '\\' !in files[i].path
    {
      ProducedRowIsSafe(sha, source, listing, rules, files[i]);
    }
    if NoBackslash(files) {
      assert forall i :: 0 <= i < |files| ==> files[i] in files;
    } else {
      var f :| f in files && '\\' in f.path;
      var i :| 0 <= i < |files| && files[i] == f;
      assert !SafeRow(rows[i]);
    }
  }

  /** With a receipt that describes the tree, only the receipt's size and its rows decide. */
  lemma {:induction false} TruthfulReceiptDecides(
    sha: Bytes -> string, json: Json, item: Item, t: Tree, walk: seq<string>, receipt: Receipt)
    requires IsListing(walk, t) && RECEIPT_NAME in t && t[RECEIPT_NAME].File?
    requires json.parse(t[RECEIPT_NAME].data) == Some(receipt) && AcceptsIdentity(item, receipt)
    requires forall p :: p in Filter(walk, OtherThanReceipt) ==> p in t
    requires AcceptsTree(t, Filter(walk, OtherThanReceipt))
    requires receipt.files == FileRows(sha, FilesIn(t, Filter(walk, OtherThanReceipt)))
    requires receipt.treeSha256 == sha(Encoded(receipt.files))
    ensures Observed(sha, json, item, t, walk) ==
      if |t[RECEIPT_NAME].data| <= MAX_RECEIPT_BYTES && AcceptsRows(receipt.files) then Some(receipt.treeSha256) else None
  {
    assert SameRows(receipt.files, receipt.files);
  }

  lemma {:induction false} AcceptedTreeIsWalkable(
    rules: Rules, source: Tree, listing: seq<string>, staged: Tree, entries: seq<string>)
    requires (forall p :: p in listing <==> p in source) && AcceptsSource(rules, source, listing)
    requires forall p :: p in entries ==> p in source && p in staged && staged[p] == source[p]
    requires |entries| <= |listing| && FilesIn(staged, entries) == FilesIn(source, listing)
    ensures AcceptsTree(staged, entries)
  {
    forall p | p in entries
      ensures staged[p].Dir? || (staged[p].File? && |staged[p].data| <= MAX_SINGLE_FILE_BYTES)
    {
      assert AcceptsNode(rules, p, source[p]);
    }
  }

  /** The receipt that is written makes the checker find the planned digest, for every accepted source, if and only if
      no path has a backslash and the receipt itself is within the checker's limit; otherwise the freshly vendored tree
      is reported as not verified. */
  lemma {:induction false} FreshReceiptIsAccepted(
    sha: Bytes -> string, json: Json, rules: Rules, item: Item, sourceName: string,
    source: Tree, listing: seq<string>, staged: Tree, walk: seq<string>)
    requires IsTree(source) && IsListing(listing, source) && AcceptsSource(rules, source, listing)
    requires !rules.path(RECEIPT_NAME) && FilesIn(source, listing) != []
    requires json.RoundTrips() && forall b :: IsHex64(sha(b))
    requires IsStaged(FilesIn(source, listing),
                      json.render(ReceiptOf(sha, item, sourceName, FilesIn(source, listing))), staged)
    requires IsListing(walk, staged)
    ensures var files := FilesIn(source, listing);
      Observed(sha, json, item, staged, walk) ==
        if NoBackslash(files) && |json.render(ReceiptOf(sha, item, sourceName, files))| <= MAX_RECEIPT_BYTES
        then Some(TreeDigest(sha, files)) else None
  {
    var files := FilesIn(source, listing);
    var receipt := ReceiptOf(sha, item, sourceName, files);
    if RECEIPT_NAME in source {
      assert AcceptsNode(rules, RECEIPT_NAME, source[RECEIPT_NAME]);
    }
    StagedTreeHasTheFiles(source, listing, json.render(receipt), staged, walk);
    ProducedRowsAreAccepted(sha, source, listing, rules);
    AcceptedTreeIsWalkable(rules, source, listing, staged, Filter(walk, OtherThanReceipt));
    TruthfulReceiptDecides(sha, json, item, staged, walk, receipt);
  }

  /** A source that the producer accepts can be too long to check: when its path names have more than 262144 characters
      together, it is vendored and then never verified. */
  lemma {:induction false} LongPathsAreNeverVerified(
    sha: Bytes -> string, json: Json, rules: Rules, item: Item, sourceName: string,
    source: Tree, listing: seq<string>, staged: Tree, walk: seq<string>)
    requires IsTree(source) && IsListing(listing, source) && AcceptsSource(rules, source, listing)
    requires !rules.path(RECEIPT_NAME) && FilesIn(source, listing) != []
    requires json.RoundTrips() && json.SpellsPaths() && forall b :: IsHex64(sha(b))
    requires IsStaged(FilesIn(source, listing),
                      json.render(ReceiptOf(sha, item, sourceName, FilesIn(source, listing))), staged)
    requires IsListing(walk, staged)
    requires PathLength(FileRows(sha, FilesIn(source, listing))) > MAX_RECEIPT_BYTES
    ensures Observed(sha, json, item, staged, walk) == None
  {
    FreshReceiptIsAccepted(sha, json, rules, item, sourceName, source, listing, staged, walk);
    var receipt := ReceiptOf(sha, item, sourceName, FilesIn(source, listing));
    assert |json.render(receipt)| >= PathLength(receipt.files);
  }

  /** Comparing the digests of two lists of files meets no collision. */
  ghost predicate CollisionFree(sha: Bytes -> string, files: seq<SourceFile>, others: seq<SourceFile>) {
    && (forall i, j :: 0 <= i < |files| && 0 <= j < |others| && sha(files[i].data) == sha(others[j].data) ==>
         files[i].data == others[j].data)
    && (TreeDigest(sha, files) == TreeDigest(sha, others) ==>
         Encoded(FileRows(sha, files)) == Encoded(FileRows(sha, others)))
  }

  lemma {:induction false} RowsAreDecodable(sha: Bytes -> string, files: seq<SourceFile>)
    requires (forall b :: IsHex64(sha(b))) && forall f :: f in files ==> '\0' !in f.path
    ensures Decodable(FileRows(sha, files))
  {
    var rows := FileRows(sha, files);
    forall i | 0 <= i < |rows|
      ensures '\0' !in rows[i].path && |rows[i].sha256| == 64
    {
      assert files[i] in files && IsHex64(sha(files[i].data));
    }
  }

  lemma {:induction false} SameRowsSameFiles(sha: Bytes -> string, a: seq<SourceFile>, b: seq<SourceFile>)
    requires SameNames(FileRows(sha, a), FileRows(sha, b)) && CollisionFree(sha, a, b)
    ensures a == b
  {
    var r, s := FileRows(sha, a), FileRows(sha, b);
    forall i | 0 <= i < |a|
      ensures a[i] == b[i]
    {
      assert r[i].path == s[i].path && r[i].sha256 == s[i].sha256;
    }
  }

  /** The path consists of something, `..` as a component, and something. */
  ghost predicate SplitsAtDotDot(p: string, a: string, b: string) {
    p == a + ".." + b && (a == "" || a[|a| - 1] == '/') && (b == "" || b[0] == '/')
  }

  /** A path that cannot leave the tree and is written the POSIX way. */
  ghost predicate StaysInside(p: string) {
    p != "" && p[0] != '/' && '\\' !in p && forall a, b :: !SplitsAtDotDot(p, a, b)
  }

  lemma {:induction false} DotDotIsAComponent(p: string)
    ensures HasDotDot(p) <==> exists a, b :: SplitsAtDotDot(p, a, b)
  {
    if HasDotDot(p) {
      var i :| 0 <= i < |p| && DotDotAt(p, i);
      assert p == p[..i] + ".." + p[i + 2..];
      assert SplitsAtDotDot(p, p[..i], p[i + 2..]);
    }
    if a, b :| SplitsAtDotDot(p, a, b) {
      assert p[|a|..|a| + 2] == "..";
      assert b != "" ==> p[|a| + 2] == b[0];
      assert a != "" ==> p[|a| - 1] == a[|a| - 1];
      assert DotDotAt(p, |a|);
    }
  }

  /** One row of a receipt that the checker takes. */
  ghost predicate IsSafeRow(row: ReceiptRow) {
    && StaysInside(row.path) && row.path != ".stagemesh-vendor.json" && 0 <= row.bytes <= 262144
    && |row.sha256| == 64 && forall c :: c in row.sha256 ==> '0' <= c <= '9' || 'a' <= c <= 'f'
  }

  lemma {:induction false} SafeRowsAre(row: ReceiptRow)
    ensures SafeRow(row) <==> IsSafeRow(row)
  {
    DotDotIsAComponent(row.path);
    assert IsHex64(row.sha256) <==>
      |row.sha256| == 64 && forall c :: c in row.sha256 ==> '0' <= c <= '9' || 'a' <= c <= 'f' by {
      assert |row.sha256| == 64 ==> forall i :: 0 <= i < 64 ==> row.sha256[i] in row.sha256;
    }
  }

  /** What the receipt of a verified tree has to say. */
  ghost predicate ReceiptAgrees(
    sha: Bytes -> string, item: Item, t: Tree, listing: seq<string>, r: Receipt, digest: string)
    requires forall p :: p in listing ==> p in t
  {
    && r.version == 1 && r.id == item.id && r.kind == item.kind && r.provenance == "operator-supplied-local-source"
    && 1 <= |r.files| <= 128 && (forall row :: row in r.files ==> IsSafeRow(row))
    && (forall i, j :: 0 <= i < j < |r.files| ==> r.files[i].path != r.files[j].path)
    && (forall row :: row in r.files <==> IsRowOf(sha, t, listing, row))
    && r.treeSha256 == digest
  }

  /** A row that describes a file of the tree, not the receipt itself. */
  ghost predicate IsRowOf(sha: Bytes -> string, t: Tree, listing: seq<string>, row: ReceiptRow)
    requires forall p :: p in listing ==> p in t
  {
    && row.path in listing && row.path != ".stagemesh-vendor.json" && t[row.path].File?
    && row.bytes == |t[row.path].data| && row.sha256 == sha(t[row.path].data)
  }

  /** Apart from its receipt the tree has nothing but files and directories, within the limits. */
  ghost predicate IsPlainTree(t: Tree, listing: seq<string>)
    requires forall p :: p in listing ==> p in t
  {
    var entries := Filter(listing, OtherThanReceipt);
    && |entries| <= 128 && TotalBytes(FilesIn(t, entries)) <= 2097152
    && forall p :: p in listing && p != ".stagemesh-vendor.json" ==>
         t[p].Dir? || (t[p].File? && |t[p].data| <= 262144)
  }

  /** When a digest is reported, in terms of the receipt and the tree. */
  lemma {:induction false} DigestIsReportedExactlyWhen(
    sha: Bytes -> string, json: Json, item: Item, t: Tree, listing: seq<string>, digest: string)
    requires forall p :: p in listing ==> p in t
    ensures Observed(sha, json, item, t, listing) == Some(digest) <==>
      && ".stagemesh-vendor.json" in t && t[".stagemesh-vendor.json"].File?
      && |t[".stagemesh-vendor.json"].data| <= 262144
      && json.parse(t[".stagemesh-vendor.json"].data).Some?
      && ReceiptAgrees(sha, item, t, listing, json.parse(t[".stagemesh-vendor.json"].data).value, digest)
      && IsPlainTree(t, listing)
      && digest == sha(Encoded(FileRows(sha, FilesIn(t, Filter(listing, OtherThanReceipt)))))
  {
    if RECEIPT_NAME in t && t[RECEIPT_NAME].File? && json.parse(t[RECEIPT_NAME].data).Some? {
      AgreeingReceiptIsAccepted(sha, item, t, listing, json.parse(t[RECEIPT_NAME].data).value, digest);
      PlainTreeIsAccepted(t, listing);
    }
  }

  lemma {:induction false} PlainTreeIsAccepted(t: Tree, listing: seq<string>)
    requires forall p :: p in listing ==> p in t
    ensures AcceptsTree(t, Filter(listing, OtherThanReceipt)) <==> IsPlainTree(t, listing)
  {
  }

  lemma {:induction false} AgreeingReceiptIsAccepted(
    sha: Bytes -> string, item: Item, t: Tree, listing: seq<string>, r: Receipt, digest: string)
    requires forall p :: p in listing ==> p in t
    ensures ReceiptAgrees(sha, item, t, listing, r, digest) <==>
      && AcceptsIdentity(item, r) && AcceptsRows(r.files) && r.treeSha256 == digest
      && SameRows(FileRows(sha, FilesIn(t, Filter(listing, OtherThanReceipt))), r.files)
  {
    var rows := FileRows(sha, FilesIn(t, Filter(listing, OtherThanReceipt)));
    forall row
      ensures SafeRow(row) <==> IsSafeRow(row)
      ensures row in rows <==> IsRowOf(sha, t, listing, row)
    {
      SafeRowsAre(row);
      RowsOfTree(sha, t, listing, row);
    }
    assert (forall i :: 0 <= i < |r.files| ==> SafeRow(r.files[i])) <==> forall row :: row in r.files ==> IsSafeRow(row);
  }

  lemma {:induction false} RowsOfTree(sha: Bytes -> string, t: Tree, listing: seq<string>, row: ReceiptRow)
    requires forall p :: p in listing ==> p in t
    ensures row in FileRows(sha, FilesIn(t, Filter(listing, OtherThanReceipt))) <==> IsRowOf(sha, t, listing, row)
  {
    var entries := Filter(listing, OtherThanReceipt);
    var files := FilesIn(t, entries);
    if row in FileRows(sha, files) {
      var i :| 0 <= i < |files| && FileRows(sha, files)[i] == row;
      FilesInAre(t, entries, files[i]);
    }
    if IsRowOf(sha, t, listing, row) {
      var f := SourceFile(row.path, t[row.path].data);
      FilesInAre(t, entries, f);
      var i :| 0 <= i < |files| && files[i] == f;
      assert FileRows(sha, files)[i] == row;
    }
  }

  /** Whatever was done to a vendored tree and to its receipt, the checker reports the recorded digest only when the
      tree has exactly the recorded files: an added, removed or altered file yields None or another digest. */
  lemma {:induction false} DigestBindsTheFiles(
    sha: Bytes -> string, json: Json, item: Item, t: Tree, walk: seq<string>, files: seq<SourceFile>)
    requires IsTree(t) && IsListing(walk, t) && forall b :: IsHex64(sha(b))
    requires forall f :: f in files ==> '\0' !in f.path
    requires CollisionFree(sha, FilesIn(t, Filter(walk, OtherThanReceipt)), files)
    requires Observed(sha, json, item, t, walk) == Some(TreeDigest(sha, files))
    ensures FilesIn(t, Filter(walk, OtherThanReceipt)) == files
  {
    var entries := Filter(walk, OtherThanReceipt);
    var found := FilesIn(t, entries);
    forall f | f in found
      ensures '\0' !in f.path
    {
      FilesInAre(t, entries, f);
    }
    RowsAreDecodable(sha, found);
    RowsAreDecodable(sha, files);
    EncodingIsUnique(FileRows(sha, found), FileRows(sha, files));
    SameRowsSameFiles(sha, found, files);
  }
}
