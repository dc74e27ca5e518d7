/** Sources that are accepted, vendored and then never verified: the two ways in which the receipt's writer and its checker
    disagree do happen, whatever the digest and whatever JSON text round trips.
 */
module VendorReceiptWitnesses {
  import opened Prelude
  import opened VendorReceipt

  // ---------------------------------------------------------------------------------------------------------------
  // One shape for both
  // ---------------------------------------------------------------------------------------------------------------

  const SKILL_NAME := "SKILL.md"

  /** What a skill directory may have: any file but one with the receipt's name, and no NUL in its text. */
  function SkillRules(): Rules {
    Rules((p: string) => p != RECEIPT_NAME, (data: Bytes) => '\0' !in data)
  }

  /** `_validated_source` for a skill directory: its `SKILL.md`, and then what else is in it. */
  ghost predicate AcceptsSkill(source: Tree, listing: seq<string>)
    requires forall p :: p in listing ==> p in source
  {
    SKILL_NAME in source && source[SKILL_NAME].File? && AcceptsSource(SkillRules(), source, listing)
  }

  /** An accepted skill directory, staged with its receipt, whose check fails. */
  ghost predicate VendoredButNeverVerified(
    sha: Bytes -> string, json: Json, item: Item, sourceName: string,
    source: Tree, listing: seq<string>, staged: Tree, walk: seq<string>)
  {
    && IsTree(source) && IsListing(listing, source) && AcceptsSkill(source, listing)
    && FilesIn(source, listing) != []
    && IsStaged(FilesIn(source, listing),
                json.render(ReceiptOf(sha, item, sourceName, FilesIn(source, listing))), staged)
    && IsListing(walk, staged)
    && Observed(sha, json, item, staged, walk) == None
  }

  lemma {:induction false} TotalBytesAtMostOneEach(files: seq<SourceFile>)
    requires forall f :: f in files ==> |f.data| <= 1
    ensures TotalBytes(files) <= |files|
  {
    if files != [] {
      assert files[0] in files;
      TotalBytesAtMostOneEach(files[1..]);
    }
  }

  /** A small source is accepted: at most 128 entries, directories and one-byte files. */
  lemma {:induction false} SmallSourceIsAccepted(source: Tree, listing: seq<string>, all: seq<string>)
    requires IsListing(listing, source) && |all| <= MAX_VENDOR_FILES && forall p :: p in source ==> p in all
    requires forall p :: p in source ==> source[p] == Dir || (p != RECEIPT_NAME && source[p] == File("x"))
    requires SKILL_NAME in source && source[SKILL_NAME].File?
    ensures AcceptsSkill(source, listing)
  {
    AscendingFits(listing, all);
    forall f | f in FilesIn(source, listing)
      ensures |f.data| <= 1
    {
      FilesInAre(source, listing, f);
    }
    TotalBytesAtMostOneEach(FilesIn(source, listing));
  }

  // ---------------------------------------------------------------------------------------------------------------
  // A backslash in a file name
  // ---------------------------------------------------------------------------------------------------------------

  const BACKSLASH_NAME := "a\\b.md"

  function BackslashSource(): Tree {
    map[SKILL_NAME := File("x"), BACKSLASH_NAME := File("x")]
  }

  lemma {:induction false} BackslashSourceIsTree()
    ensures IsTree(BackslashSource())
  {
    forall p | p in BackslashSource()
      ensures IsRelativePath(p) && forall d :: !Above(d, p)
    {
      NoTwoDots(p);
    }
  }

  lemma {:induction false} BackslashSourceIsNeverVerified(
    sha: Bytes -> string, json: Json, item: Item, sourceName: string)
    returns (listing: seq<string>, staged: Tree, walk: seq<string>)
    requires json.RoundTrips() && forall b :: IsHex64(sha(b))
    ensures VendoredButNeverVerified(sha, json, item, sourceName, BackslashSource(), listing, staged, walk)
  {
    var source := BackslashSource();
    BackslashSourceIsTree();
    listing := ListingExists(source);
    SmallSourceIsAccepted(source, listing, [SKILL_NAME, BACKSLASH_NAME]);
    var files := FilesIn(source, listing);
    FilesInAre(source, listing, SourceFile(BACKSLASH_NAME, "x"));
    assert SourceFile(BACKSLASH_NAME, "x") in files && BACKSLASH_NAME[1] == '\\';
    assert !NoBackslash(files);
    NothingBelowReceipt(source, listing);
    var receipt := json.render(ReceiptOf(sha, item, sourceName, files));
    staged := StagedOf(source, listing, receipt);
    walk := ListingExists(staged);
    FreshReceiptIsAccepted(sha, json, SkillRules(), item, sourceName, source, listing, staged, walk);
  }

  lemma {:induction false} NothingBelowReceipt(source: Tree, listing: seq<string>)
    requires IsTree(source) && IsListing(listing, source) && RECEIPT_NAME !in source
    ensures !IsParentOf(FilesIn(source, listing), RECEIPT_NAME)
  {
    if IsParentOf(FilesIn(source, listing), RECEIPT_NAME) {
      ParentIsInSource(source, listing, RECEIPT_NAME);
      assert false;
    }
  }

  // ---------------------------------------------------------------------------------------------------------------
  // Long paths: SKILL.md, 14 nested directories, and 113 files in the innermost. Names have up to 255 ASCII characters.
  // ---------------------------------------------------------------------------------------------------------------

  const DEPTH := 14
  const FILES := 113
  const LENGTH := 256 * DEPTH + 255

  /** Names of 255 characters, separated by slashes. */
  function Deep(n: nat): (s: string)
    ensures |s| == n && forall i :: 0 <= i < n ==> s[i] == if i % 256 == 255 then '/' else 'd'
  {
    seq(n, i => if i % 256 == 255 then '/' else 'd')
  }

  function DirectoryPath(k: nat): string
    requires k >= 1
  {
    Deep(256 * k - 1)
  }

  predicate IsNameChar(c: char) {
    'a' <= c <= 'l' || '0' <= c <= '9'
  }

  /** The file names differ in their first two characters: a0, a1, ..., l2. */
  function FileName(j: nat): (s: string)
    requires j < FILES
    ensures |s| == 255 && s[0] == 'a' + (j / 10) as char && s[1] == '0' + (j % 10) as char
    ensures forall i :: 0 <= i < 255 ==> IsNameChar(s[i])
  {
    ['a' + (j / 10) as char, '0' + (j % 10) as char] + seq(253, i => 'd')
  }

  function FilePath(j: nat): (s: string)
    requires j < FILES
    ensures |s| == LENGTH
    ensures forall i :: 0 <= i < |s| && s[i] == '/' ==> i % 256 == 255
  {
    var s := Deep(256 * DEPTH) + FileName(j);
    assert forall i :: 0 <= i < 256 * DEPTH ==> s[i] == Deep(256 * DEPTH)[i];
    assert forall i :: 0 <= i < 255 ==> s[256 * DEPTH + i] == FileName(j)[i];
    s
  }

  function Directories(): set<string> {
    set k | 1 <= k <= DEPTH :: DirectoryPath(k)
  }

  function Files(): set<string> {
    {SKILL_NAME} + set j | 0 <= j < FILES :: FilePath(j)
  }

  function LongSource(): Tree {
    map p | p in Directories() + Files() :: if p in Directories() then Dir else File("x")
  }

  /** Of 256 characters from `i` on, one ends a name. */
  predicate NameEndsWithin(p: string, i: nat) {
    i + 256 <= |p| ==> '/' in p[i..i + 256]
  }

  /** A path of ASCII characters that fits a usual file system: names of at most 255 bytes, and room before it. */
  ghost predicate FitsFileSystem(p: string) {
    && |p| <= LENGTH
    && (forall c :: c in p ==> '\0' < c < 128 as char)
    && (forall i :: 0 <= i < |p| ==> NameEndsWithin(p, i))
  }

  /** Directories of 255 `d` each, and then perhaps a file name. */
  ghost predicate IsLongPath(p: string) {
    && 0 < |p| <= LENGTH && p[0] == 'd'
    && (forall i :: 0 <= i < |p| ==> if i < 256 * DEPTH && i % 256 == 255 then p[i] == '/' else IsNameChar(p[i]))
    && (forall i :: 0 <= i < |p| && i < 256 * DEPTH ==> p[i] == Deep(256 * DEPTH)[i])
  }

  lemma {:induction false} FilePathIsLong(j: nat)
    requires j < FILES
    ensures IsLongPath(FilePath(j))
  {
    var p, name := FilePath(j), FileName(j);
    assert forall i :: 0 <= i < 255 ==> p[256 * DEPTH + i] == name[i];
  }

  lemma {:induction false} LongPathIs(p: string)
    requires p in LongSource() && p != SKILL_NAME
    ensures IsLongPath(p)
  {
    if k :| 1 <= k <= DEPTH && p == DirectoryPath(k) {
    } else {
      var j :| 0 <= j < FILES && p == FilePath(j);
      FilePathIsLong(j);
    }
  }

  lemma {:induction false} NamesEnd(p: string, i: nat)
    requires IsLongPath(p) && i + 256 <= |p|
    ensures NameEndsWithin(p, i)
  {
    assert p[i..i + 256][255 - i % 256] == p[i + (255 - i % 256)] == '/';
  }

  lemma {:induction false} LongPathFits(p: string)
    requires p in LongSource()
    ensures FitsFileSystem(p) && IsRelativePath(p)
  {
    if p != SKILL_NAME {
      LongPathIs(p);
      forall i | 0 <= i < |p|
        ensures NameEndsWithin(p, i)
      {
        if i + 256 <= |p| {
          NamesEnd(p, i);
        }
      }
    }
    NoTwoDots(p);
  }

  lemma {:induction false} NoTwoDots(p: string)
    requires forall k :: 0 <= k < |p| - 1 ==> !(p[k] == '.' && p[k + 1] == '.')
    ensures !HasDotDot(p)
  {
    forall i | 0 <= i < |p|
      ensures !DotDotAt(p, i)
    {
      assert i + 2 <= |p| ==> p[i..i + 2][0] == p[i] && p[i..i + 2][1] == p[i + 1];
    }
  }

  lemma {:induction false} ParentIsListed(p: string, d: string)
    requires p in LongSource() && Above(d, p)
    ensures d in Directories()
  {
    LongPathIs(p);
    var k := (|d| + 1) / 256;
    assert p[|d|] == '/' && |d| % 256 == 255 && |d| == 256 * k - 1;
    assert d == DirectoryPath(k);
  }

  lemma {:induction false} LongSourceIsTree()
    ensures IsTree(LongSource())
  {
    forall p | p in LongSource()
      ensures IsRelativePath(p)
    {
      LongPathFits(p);
    }
    forall p, d {:trigger Above(d, p)} | p in LongSource() && Above(d, p)
      ensures d in LongSource() && LongSource()[d] == Dir
    {
      ParentIsListed(p, d);
    }
  }

  /** All entries, for counting them. */
  function LongEntries(): (all: seq<string>)
    ensures |all| == MAX_VENDOR_FILES
  {
    seq(DEPTH, i requires 0 <= i < DEPTH => DirectoryPath(i + 1)) + FilePaths()
  }

  function FileAt(i: nat): string
    requires i <= FILES
  {
    if i == 0 then SKILL_NAME else FilePath(i - 1)
  }

  /** All files, in the order of a walk. */
  function FilePaths(): (paths: seq<string>)
    ensures |paths| == FILES + 1 && forall i :: 0 <= i <= FILES ==> paths[i] == FileAt(i)
  {
    seq(FILES + 1, i requires 0 <= i <= FILES => FileAt(i))
  }

  lemma {:induction false} LongEntriesAreAll(p: string)
    requires p in LongSource()
    ensures p in LongEntries()
  {
    var all := LongEntries();
    if k :| 1 <= k <= DEPTH && p == DirectoryPath(k) {
      assert all[k - 1] == p;
    } else if p == SKILL_NAME {
      assert all[DEPTH] == p;
    } else {
      var j :| 0 <= j < FILES && p == FilePath(j);
      assert all[DEPTH + 1 + j] == FilePaths()[j + 1] == p;
    }
  }

  lemma {:induction false} CommonBeginning(a: string, b: string, c: string)
    requires PathLess(b, c)
    ensures PathLess(a + b, a + c)
  {
    if a == [] {
      assert a + b == b && a + c == c;
    } else {
      assert (a + b)[1..] == a[1..] + b && (a + c)[1..] == a[1..] + c;
      CommonBeginning(a[1..], b, c);
    }
  }

  lemma {:induction false} FileNamesAscend(i: nat, j: nat)
    requires i < j < FILES
    ensures PathLess(FileName(i), FileName(j))
  {
    var a, b := FileName(i), FileName(j);
    if i / 10 == j / 10 {
      assert a[1..][0] < b[1..][0];
    }
  }

  lemma {:induction false} FilePathsDiffer(i: nat, j: nat)
    requires i < j < FILES
    ensures PathLess(FilePath(i), FilePath(j))
  {
    FileNamesAscend(i, j);
    CommonBeginning(Deep(256 * DEPTH), FileName(i), FileName(j));
  }

  lemma {:induction false} SkillComesFirst(j: nat)
    requires j < FILES
    ensures PathLess(SKILL_NAME, FilePath(j))
  {
    assert FilePath(j)[0] == Deep(256 * DEPTH)[0] == 'd';
  }

  lemma {:induction false} ListedInOrder(i: nat, j: nat)
    requires i < j <= FILES
    ensures PathLess(FileAt(i), FileAt(j))
  {
    if i > 0 {
      FilePathsDiffer(i - 1, j - 1);
    } else {
      SkillComesFirst(j - 1);
    }
  }

  lemma {:induction false} FilePathsAscend()
    ensures Ascending(FilePaths())
  {
    var paths := FilePaths();
    forall i, j {:trigger PathLess(paths[i], paths[j])} | 0 <= i < j < |paths|
      ensures PathLess(paths[i], paths[j])
    {
      ListedInOrder(i, j);
    }
  }

  lemma {:induction false} FilePathIsFile(p: string, listing: seq<string>)
    requires p in FilePaths() && IsListing(listing, LongSource())
    ensures SourceFile(p, "x") in FilesIn(LongSource(), listing)
  {
    var i :| 0 <= i <= FILES && FilePaths()[i] == p;
    assert i > 0 ==> p == FilePath(i - 1);
    assert p in Files();
    forall k | 1 <= k <= DEPTH
      ensures p != DirectoryPath(k)
    {
      assert |DirectoryPath(k)| == 256 * k - 1;
    }
    assert p !in Directories();
    FilesInAre(LongSource(), listing, SourceFile(p, "x"));
  }

  /** Exactly these files are collected, in this order. */
  lemma {:induction false} LongFilesAre(listing: seq<string>)
    requires IsListing(listing, LongSource())
    ensures PathsOf(FilesIn(LongSource(), listing)) == FilePaths()
  {
    var files := FilesIn(LongSource(), listing);
    FilePathsAscend();
    FilesInAscend(LongSource(), listing);
    forall p
      ensures p in PathsOf(files) <==> p in FilePaths()
    {
      if p in FilePaths() {
        FilePathIsFile(p, listing);
        var k :| 0 <= k < |files| && files[k] == SourceFile(p, "x");
        assert PathsOf(files)[k] == p;
      }
      if p in PathsOf(files) {
        var k :| 0 <= k < |files| && PathsOf(files)[k] == p;
        FilesInAre(LongSource(), listing, files[k]);
        LongFileIsListed(p);
      }
    }
    AscendingIsUnique(PathsOf(files), FilePaths());
  }

  lemma {:induction false} LongFileIsListed(p: string)
    requires p in LongSource() && LongSource()[p].File?
    ensures p in FilePaths()
  {
    if p == SKILL_NAME {
      assert FilePaths()[0] == p;
    } else {
      var j :| 0 <= j < FILES && p == FilePath(j);
      assert FilePaths()[j + 1] == p;
    }
  }

  lemma {:induction false} PathLengthAdds(sha: Bytes -> string, files: seq<SourceFile>, n: nat)
    requires forall f :: f in files ==> |f.path| == n
    ensures PathLength(FileRows(sha, files)) == n * |files|
  {
    if files != [] {
      assert files[0] in files;
      PathLengthAdds(sha, files[1..], n);
      assert FileRows(sha, files)[1..] == FileRows(sha, files[1..]);
      assert n + n * (|files| - 1) == n * |files|;
    }
  }

  lemma {:induction false} LongFileHasLength(files: seq<SourceFile>, f: SourceFile)
    requires PathsOf(files) == FilePaths() && files != [] && f in files[1..]
    ensures |f.path| == LENGTH
  {
    var k :| 0 <= k < |files| - 1 && files[1..][k] == f;
    assert f.path == PathsOf(files)[k + 1] == FilePath(k);
  }

  lemma {:induction false} LongSourceIsTooLong(sha: Bytes -> string, listing: seq<string>)
    requires IsListing(listing, LongSource())
    ensures PathLength(FileRows(sha, FilesIn(LongSource(), listing))) > MAX_RECEIPT_BYTES
    ensures FilesIn(LongSource(), listing) != []
  {
    var files := FilesIn(LongSource(), listing);
    LongFilesAre(listing);
    assert |files| == FILES + 1;
    forall f | f in files[1..]
      ensures |f.path| == LENGTH
    {
      LongFileHasLength(files, f);
    }
    PathLengthAdds(sha, files[1..], LENGTH);
    assert FileRows(sha, files)[1..] == FileRows(sha, files[1..]);
  }

  lemma {:induction false} LongSourceIsNeverVerified(
    sha: Bytes -> string, json: Json, item: Item, sourceName: string)
    returns (listing: seq<string>, staged: Tree, walk: seq<string>)
    requires json.RoundTrips() && json.SpellsPaths() && forall b :: IsHex64(sha(b))
    ensures VendoredButNeverVerified(sha, json, item, sourceName, LongSource(), listing, staged, walk)
    ensures forall p :: p in LongSource() ==> FitsFileSystem(p)
  {
    var source := LongSource();
    LongSourceIsTree();
    listing := ListingExists(source);
    forall p | p in source
      ensures p in LongEntries() && FitsFileSystem(p) && p != RECEIPT_NAME
    {
      LongEntriesAreAll(p);
      LongPathFits(p);
      if p != SKILL_NAME {
        LongPathIs(p);
        assert RECEIPT_NAME[0] == '.';
      }
    }
    LongSourceHasSkill();
    SmallSourceIsAccepted(source, listing, LongEntries());
    LongSourceIsTooLong(sha, listing);
    NothingBelowReceipt(source, listing);
    var files := FilesIn(source, listing);
    var receipt := json.render(ReceiptOf(sha, item, sourceName, files));
    staged := StagedOf(source, listing, receipt);
    walk := ListingExists(staged);
    LongPathsAreNeverVerified(sha, json, SkillRules(), item, sourceName, source, listing, staged, walk);
  }

  lemma {:induction false} LongSourceHasSkill()
    ensures SKILL_NAME in LongSource() && LongSource()[SKILL_NAME] == File("x")
  {
    forall k | 1 <= k <= DEPTH
      ensures SKILL_NAME != DirectoryPath(k)
    {
      assert |DirectoryPath(k)| == 256 * k - 1;
    }
    assert SKILL_NAME !in Directories() && SKILL_NAME in Files();
  }

  // ---------------------------------------------------------------------------------------------------------------
  // Such receipt texts exist
  // ---------------------------------------------------------------------------------------------------------------

  function Ones(n: nat): (s: string)
    ensures |s| == n
  {
    if n == 0 then [] else ['1'] + Ones(n - 1)
  }

  /** The length of a string, and then the string. */
  function Framed(s: string): string {
    Ones(|s|) + ['0'] + s
  }

  lemma {:induction false} OnesAreCounted(n: nat, m: nat, x: string, y: string)
    requires Ones(n) + ['0'] + x == Ones(m) + ['0'] + y
    ensures n == m && x == y
  {
    var a, b := Ones(n) + ['0'] + x, Ones(m) + ['0'] + y;
    if n == 0 || m == 0 {
      assert a[0] == (if n == 0 then '0' else '1') && b[0] == (if m == 0 then '0' else '1');
      assert Ones(0) == [] && a[1..] == x && b[1..] == y;
    } else {
      assert a[1..] == Ones(n - 1) + ['0'] + x && b[1..] == Ones(m - 1) + ['0'] + y;
      OnesAreCounted(n - 1, m - 1, x, y);
    }
  }

  lemma {:induction false} FramedIsUnique(s: string, t: string, x: string, y: string)
    requires Framed(s) + x == Framed(t) + y
    ensures s == t && x == y
  {
    assert Framed(s) + x == Ones(|s|) + ['0'] + (s + x) && Framed(t) + y == Ones(|t|) + ['0'] + (t + y);
    OnesAreCounted(|s|, |t|, s + x, t + y);
    assert (s + x)[..|s|] == s && (t + y)[..|t|] == t;
    assert (s + x)[|s|..] == x && (t + y)[|t|..] == y;
  }

  function FramedAll(parts: seq<string>): (s: string)
    ensures parts != [] ==> s != []
  {
    if parts == [] then [] else Framed(parts[0]) + FramedAll(parts[1..])
  }

  lemma {:induction false} FramedAllIsUnique(a: seq<string>, b: seq<string>)
    requires FramedAll(a) == FramedAll(b)
    ensures a == b
  {
    if a != [] && b != [] {
      FramedIsUnique(a[0], b[0], FramedAll(a[1..]), FramedAll(b[1..]));
      FramedAllIsUnique(a[1..], b[1..]);
      assert a == [a[0]] + a[1..] && b == [b[0]] + b[1..];
    }
  }

  function Digits(i: int): string {
    if i < 0 then ['-'] + Ones(-i) else ['+'] + Ones(i)
  }

  lemma {:induction false} DigitsAreUnique(i: int, j: int)
    requires Digits(i) == Digits(j)
    ensures i == j
  {
    assert Digits(i)[0] == Digits(j)[0] && |Digits(i)| == |Digits(j)|;
  }

  function RowParts(rows: seq<ReceiptRow>): (parts: seq<string>)
    ensures rows != [] ==> parts != []
  {
    if rows == [] then [] else [rows[0].path, Digits(rows[0].bytes), rows[0].sha256] + RowParts(rows[1..])
  }

  lemma {:induction false} RowPartsAreUnique(r: seq<ReceiptRow>, s: seq<ReceiptRow>)
    requires RowParts(r) == RowParts(s)
    ensures r == s
  {
    if r != [] && s != [] {
      var a, b := RowParts(r), RowParts(s);
      assert a[0] == r[0].path && a[1] == Digits(r[0].bytes) && a[2] == r[0].sha256 && a[3..] == RowParts(r[1..]);
      assert b[0] == s[0].path && b[1] == Digits(s[0].bytes) && b[2] == s[0].sha256 && b[3..] == RowParts(s[1..]);
      DigitsAreUnique(r[0].bytes, s[0].bytes);
      RowPartsAreUnique(r[1..], s[1..]);
      assert r == [r[0]] + r[1..] && s == [s[0]] + s[1..];
    }
  }

  function ReceiptParts(r: Receipt): seq<string> {
    [Digits(r.version), r.id, r.kind, r.provenance, r.sourceName, r.treeSha256] + RowParts(r.files)
  }

  function ReceiptText(r: Receipt): Bytes {
    FramedAll(ReceiptParts(r))
  }

  lemma {:induction false} ReceiptTextIsUnique(r: Receipt, s: Receipt)
    requires ReceiptText(r) == ReceiptText(s)
    ensures r == s
  {
    FramedAllIsUnique(ReceiptParts(r), ReceiptParts(s));
    var a, b := ReceiptParts(r), ReceiptParts(s);
    assert a[0] == b[0] && a[1] == b[1] && a[2] == b[2] && a[3] == b[3] && a[4] == b[4] && a[5] == b[5];
    assert a[6..] == RowParts(r.files) && b[6..] == RowParts(s.files);
    DigitsAreUnique(r.version, s.version);
    RowPartsAreUnique(r.files, s.files);
  }

  ghost function ReceiptIn(text: Bytes): Option<Receipt> {
    if exists r :: ReceiptText(r) == text then
      var r :| ReceiptText(r) == text;
      Some(r)
    else None
  }

  lemma {:induction false} TextSpellsPaths(rows: seq<ReceiptRow>)
    ensures |FramedAll(RowParts(rows))| >= PathLength(rows)
  {
    if rows != [] {
      var parts := RowParts(rows);
      assert parts[1..][2..] == RowParts(rows[1..]);
      DroppingPartsShortens(parts[1..], 2);
      TextSpellsPaths(rows[1..]);
    }
  }

  lemma {:induction false} DroppingPartsShortens(parts: seq<string>, n: nat)
    requires n <= |parts|
    ensures |FramedAll(parts)| >= |FramedAll(parts[n..])|
  {
    if n > 0 {
      DroppingPartsShortens(parts[1..], n - 1);
      assert parts[1..][n - 1..] == parts[n..];
    } else {
      assert parts[0..] == parts;
    }
  }

  /** There is a text that round trips and spells its paths, and a digest of 64 hexadecimal characters. */
  lemma {:induction false} ReceiptTextsExist() returns (json: Json, sha: Bytes -> string)
    ensures json.RoundTrips() && json.SpellsPaths() && forall b :: IsHex64(sha(b))
  {
    json := Json(ReceiptText, (text: Bytes) => ReceiptIn(text));
    sha := (data: Bytes) => seq(64, i => '0');
    forall r
      ensures json.parse(json.render(r)) == Some(r)
    {
      var found := ReceiptIn(ReceiptText(r)).value;
      ReceiptTextIsUnique(found, r);
    }
    forall r: Receipt
      ensures |json.render(r)| >= PathLength(r.files)
    {
      var parts := ReceiptParts(r);
      assert parts[6..] == RowParts(r.files);
      DroppingPartsShortens(parts, 6);
      TextSpellsPaths(r.files);
    }
  }
}
