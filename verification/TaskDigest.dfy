/**
 The byte stream `task_digest` feeds to SHA-256: for every source file in sorted
 order, the path and the content, each behind an eight-byte big-endian length.
 UTF-8 enters as any injective encoder.
 */
module TaskDigest {
  import opened Common
  import opened TextOrder
  import opened Packages

  // ---- length-prefixed records ----

  function BigEndian(n: nat, width: nat): (b: Bytes)
    ensures |b| == width
  {
    if width == 0 then [] else BigEndian(n / 256, width - 1) + [n % 256]
  }

  function Pow256(n: nat): nat {
    if n == 0 then 1 else 256 * Pow256(n - 1)
  }

  lemma {:induction false} BigEndianInjective(m: nat, n: nat, width: nat)
    requires m < Pow256(width) && n < Pow256(width) && BigEndian(m, width) == BigEndian(n, width)
    ensures m == n
  {
    if width > 0 {
      var a, b := BigEndian(m, width), BigEndian(n, width);
      assert a[..width - 1] == BigEndian(m / 256, width - 1) && b[..width - 1] == BigEndian(n / 256, width - 1);
      assert a[width - 1] == m % 256 && b[width - 1] == n % 256;
      BigEndianInjective(m / 256, n / 256, width - 1);
    }
  }

  function Field(b: Bytes): Bytes {
    BigEndian(|b|, 8) + b
  }

  predicate Short(b: Bytes) {
    |b| < 0x1_0000_0000_0000_0000
  }

  lemma FieldInjective(x: Bytes, r: Bytes, y: Bytes, s: Bytes)
    requires Short(x) && Short(y) && Field(x) + r == Field(y) + s
    ensures x == y && r == s
  {
    var left, right := Field(x) + r, Field(y) + s;
    assert left[..8] == BigEndian(|x|, 8) && right[..8] == BigEndian(|y|, 8);
    assert Pow256(8) == 0x1_0000_0000_0000_0000 by { assert Pow256(4) == 0x1_0000_0000; }
    BigEndianInjective(|x|, |y|, 8);
    assert left[8..8 + |x|] == x && right[8..8 + |y|] == y;
    assert left[8 + |x|..] == r && right[8 + |y|..] == s;
  }

  datatype Record = Record(path: Bytes, content: Bytes)

  function Stream(records: seq<Record>): Bytes {
    if records == [] then []
    else Field(records[0].path) + (Field(records[0].content) + Stream(records[1..]))
  }

  predicate AllShort(records: seq<Record>) {
    forall i :: 0 <= i < |records| ==> Short(records[i].path) && Short(records[i].content)
  }

  /** The stream determines the records. */
  lemma {:induction false} StreamInjective(a: seq<Record>, b: seq<Record>)
    requires AllShort(a) && AllShort(b) && Stream(a) == Stream(b)
    ensures a == b
  {
    if a == [] || b == [] {
      assert a != [] ==> |Stream(a)| >= 16;
      assert b != [] ==> |Stream(b)| >= 16;
    } else {
      FieldInjective(a[0].path, Field(a[0].content) + Stream(a[1..]), b[0].path, Field(b[0].content) + Stream(b[1..]));
      FieldInjective(a[0].content, Stream(a[1..]), b[0].content, Stream(b[1..]));
      StreamInjective(a[1..], b[1..]);
      assert a == [a[0]] + a[1..] && b == [b[0]] + b[1..];
    }
  }

  // ---- reading the stream back ----

  /** The most significant byte comes first. */
  function ValueOf(b: Bytes): nat {
    if b == [] then 0 else b[0] * Pow256(|b| - 1) + ValueOf(b[1..])
  }

  lemma {:induction false} ValueAppend(b: Bytes, last: byte)
    ensures ValueOf(b + [last]) == 256 * ValueOf(b) + last
  {
    if b == [] {
      assert (b + [last])[1..] == [];
    } else {
      assert (b + [last])[1..] == b[1..] + [last];
      ValueAppend(b[1..], last);
      assert b[0] * Pow256(|b|) == 256 * (b[0] * Pow256(|b| - 1));
    }
  }

  lemma {:induction false} BigEndianValue(n: nat, width: nat)
    requires n < Pow256(width)
    ensures ValueOf(BigEndian(n, width)) == n
  {
    if width > 0 {
      BigEndianValue(n / 256, width - 1);
      ValueAppend(BigEndian(n / 256, width - 1), n % 256);
    }
  }

  /** Eight bytes of length, then that many bytes; and what is left. */
  function TakeField(s: Bytes): (r: Option<(Bytes, Bytes)>)
    ensures r.Some? ==> |r.value.1| < |s|
  {
    if |s| < 8 || |s| < 8 + ValueOf(s[..8]) then None
    else Some((s[8..8 + ValueOf(s[..8])], s[8 + ValueOf(s[..8])..]))
  }

  /** Path and content by turns, to the end. */
  function Decode(s: Bytes): Option<seq<Record>>
    decreases |s|
  {
    if s == [] then Some([])
    else if TakeField(s).None? then None
    else
      var (path, rest) := TakeField(s).value;
      if TakeField(rest).None? then None
      else
        var (content, tail) := TakeField(rest).value;
        var records := Decode(tail);
        if records.None? then None else Some([Record(path, content)] + records.value)
  }

  lemma TakeFieldOf(b: Bytes, rest: Bytes)
    requires Short(b)
    ensures TakeField(Field(b) + rest) == Some((b, rest))
  {
    var s := Field(b) + rest;
    assert Pow256(8) == 0x1_0000_0000_0000_0000 by { assert Pow256(4) == 0x1_0000_0000; }
    BigEndianValue(|b|, 8);
    hide ValueOf, BigEndian, Pow256;
    assert s[..8] == BigEndian(|b|, 8);
    assert s[8..8 + |b|] == b && s[8 + |b|..] == rest;
  }

  /** A plain reader recovers the files: path before content, each after its length, most significant byte first. */
  lemma {:induction false} StreamDecodes(records: seq<Record>)
    requires AllShort(records)
    ensures Decode(Stream(records)) == Some(records)
  {
    hide Field, TakeField;
    if records != [] {
      var r, tail := records[0], Stream(records[1..]);
      TakeFieldOf(r.path, Field(r.content) + tail);
      TakeFieldOf(r.content, tail);
      StreamDecodes(records[1..]);
      assert records == [r] + records[1..];
      StreamNotEmpty(records);
    }
  }

  lemma StreamNotEmpty(records: seq<Record>)
    ensures records != [] ==> Stream(records) != []
  {
  }

  lemma {:induction false} StreamAppend(records: seq<Record>, last: Record)
    ensures Stream(records + [last]) == Stream(records) + Field(last.path) + Field(last.content)
  {
    if records == [] {
      assert records + [last] == [last];
      assert Stream([last]) == Field(last.path) + (Field(last.content) + []);
    } else {
      assert (records + [last])[1..] == records[1..] + [last];
      StreamAppend(records[1..], last);
    }
  }

  // ---- the files a digest covers ----

  predicate Digested(src: Source, p: Path) {
    p in src && src[p].FileEntry? && Packable(p)
  }

  function DigestPaths(src: Source, paths: seq<Path>): seq<Path> {
    Keep(paths, p => Digested(src, p))
  }

  lemma DigestPathsListed(src: Source, paths: seq<Path>)
    requires SortedPaths(paths)
    ensures forall p :: p in DigestPaths(src, paths) <==> p in paths && Digested(src, p)
    ensures SortedPaths(DigestPaths(src, paths))
  {
    KeepMembers(paths, p => Digested(src, p));
    KeepSorted(paths, p => Digested(src, p));
  }

  function RecordOf(src: Source, p: Path, encode: string -> Bytes): Record
    requires Digested(src, p) && p != []
  {
    Record(encode(Join(p)), src[p].content)
  }

  predicate AllDigested(src: Source, files: seq<Path>) {
    forall i :: 0 <= i < |files| ==> Digested(src, files[i]) && files[i] != []
  }

  function Records(src: Source, files: seq<Path>, encode: string -> Bytes): seq<Record>
    requires AllDigested(src, files)
  {
    seq(|files|, i requires 0 <= i < |files| => RecordOf(src, files[i], encode))
  }

  /** Feeds the running hash file by file; `fed` is everything it has been given. */
  method TaskDigestInput(src: Source, paths: seq<Path>, encode: string -> Bytes) returns (fed: Bytes)
    requires WellFormed(src) && Listing(src.Keys, paths)
    ensures AllDigested(src, DigestPaths(src, paths))
    ensures fed == Stream(Records(src, DigestPaths(src, paths), encode))
  {
    hide WellFormed, Field, Stream, Packable, DigestPaths, Records, RecordOf, GoodPath;
    DigestedPathsGood(src, paths);
    GoodIsNotEmpty();
    ghost var files := DigestPaths(src, paths);
    ghost var n := 0;
    fed := [];
    NothingFed(src, paths, encode);
    for i := 0 to |paths|
      invariant n <= |files| && DigestPaths(src, paths[..i]) == files[..n]
      invariant fed == Stream(Records(src, files[..n], encode))
    {
      var p := paths[i];
      DigestPrefix(src, paths, i);
      if Digested(src, p) {
        FeedOne(src, files, n, p, encode);
        fed := fed + Field(encode(Join(p))) + Field(src[p].content);
        n := n + 1;
      }
    }
    assert paths[..|paths|] == paths && files[..n] == files;
  }

  lemma NothingFed(src: Source, paths: seq<Path>, encode: string -> Bytes)
    requires WellFormed(src) && Listing(src.Keys, paths)
    ensures DigestPaths(src, paths[..0]) == DigestPaths(src, paths)[..0]
    ensures AllDigested(src, []) && DigestPaths(src, paths)[..0] == [] && Stream(Records(src, [], encode)) == []
  {
  }

  lemma FeedOne(src: Source, files: seq<Path>, n: nat, p: Path, encode: string -> Bytes)
    requires AllDigested(src, files)
    requires n <= |files| && files[..n] + [p] <= files
    ensures n < |files| && files[..n + 1] == files[..n] + [p] && p in files
    ensures Stream(Records(src, files[..n + 1], encode)) ==
      Stream(Records(src, files[..n], encode)) + Field(encode(Join(p))) + Field(src[p].content)
  {
    hide Field, Stream, Packable, Join;
    assert files[..n + 1] == files[..n] + [p];
    assert files[n] == p;
    StreamAppend(Records(src, files[..n], encode), RecordOf(src, p, encode));
    assert Records(src, files[..n + 1], encode) == Records(src, files[..n], encode) + [RecordOf(src, p, encode)];
  }

  lemma DigestedPathsGood(src: Source, paths: seq<Path>)
    requires WellFormed(src) && Listing(src.Keys, paths)
    ensures SortedPaths(DigestPaths(src, paths))
    ensures forall p :: p in DigestPaths(src, paths) <==> Digested(src, p)
    ensures forall p :: p in DigestPaths(src, paths) ==> GoodPath(p)
    ensures AllDigested(src, DigestPaths(src, paths))
  {
    DigestPathsListed(src, paths);
    assert forall i :: 0 <= i < |DigestPaths(src, paths)| ==> DigestPaths(src, paths)[i] in DigestPaths(src, paths);
  }

  lemma DigestPrefix(src: Source, paths: seq<Path>, i: nat)
    requires i < |paths|
    ensures DigestPaths(src, paths[..i + 1]) ==
      DigestPaths(src, paths[..i]) + if Digested(src, paths[i]) then [paths[i]] else []
    ensures DigestPaths(src, paths[..i + 1]) <= DigestPaths(src, paths)
  {
    KeepStep(paths, p => Digested(src, p), i);
  }

  // ---- what the digest pins down ----

  ghost predicate SameFiles(a: Source, b: Source) {
    && (forall p :: Digested(a, p) <==> Digested(b, p))
    && (forall p :: Digested(a, p) ==> a[p].content == b[p].content)
  }

  ghost predicate Injective(encode: string -> Bytes) {
    forall x, y :: encode(x) == encode(y) ==> x == y
  }

  ghost function Fed(src: Source, paths: seq<Path>, encode: string -> Bytes): (fed: Bytes)
    requires WellFormed(src) && Listing(src.Keys, paths)
  {
    DigestedPathsGood(src, paths);
    Stream(Records(src, DigestPaths(src, paths), encode))
  }

  ghost predicate Encodable(src: Source, encode: string -> Bytes) {
    forall p :: Digested(src, p) && p != [] ==> Short(encode(Join(p))) && Short(src[p].content)
  }

  lemma {:induction false} SortedUnique(a: seq<Path>, b: seq<Path>)
    requires SortedPaths(a) && SortedPaths(b) && forall p :: p in a <==> p in b
    ensures a == b
  {
    assert a != [] ==> a[0] in b;
    assert b != [] ==> b[0] in a;
    if a != [] {
      HeadFirst(a, b[0]);
      HeadFirst(b, a[0]);
      if a[0] != b[0] {
        PathTransitive(a[0], b[0], a[0]);
        PathIrreflexive(a[0]);
      }
      forall p ensures p in a[1..] <==> p in b[1..] {
        TailWithoutHead(a, p);
        TailWithoutHead(b, p);
      }
      SortedUnique(a[1..], b[1..]);
      assert a == [a[0]] + a[1..] && b == [b[0]] + b[1..];
    }
  }

  lemma HeadFirst(a: seq<Path>, p: Path)
    requires SortedPaths(a) && p in a
    ensures p == a[0] || PathLess(a[0], p)
  {
    var i :| 0 <= i < |a| && a[i] == p;
  }

  lemma TailWithoutHead(a: seq<Path>, p: Path)
    requires SortedPaths(a) && a != []
    ensures p in a[1..] <==> p in a && p != a[0]
  {
    PathIrreflexive(a[0]);
    assert a == [a[0]] + a[1..];
  }

  lemma EqualRecordsSamePath(a: Source, p: Path, b: Source, q: Path, encode: string -> Bytes)
    requires Injective(encode) && Digested(a, p) && Digested(b, q) && GoodPath(p) && GoodPath(q)
    requires RecordOf(a, p, encode) == RecordOf(b, q, encode)
    ensures p == q && a[p].content == b[q].content
  {
    hide Digested, Packable;
    assert Join(p) == Join(q);
    PartsOfPacked(p);
    PartsOfPacked(q);
  }

  /** Two packages feed the hash the same bytes exactly when their source files agree. */
  lemma DigestPinsFiles(a: Source, as_: seq<Path>, b: Source, bs: seq<Path>, encode: string -> Bytes)
    requires WellFormed(a) && Listing(a.Keys, as_) && WellFormed(b) && Listing(b.Keys, bs)
    requires Injective(encode) && Encodable(a, encode) && Encodable(b, encode)
    ensures Fed(a, as_, encode) == Fed(b, bs, encode) <==> SameFiles(a, b)
  {
    hide WellFormed, Listing, Digested, Packable, Stream, GoodPath, PathLess;
    DigestedPathsGood(a, as_);
    DigestedPathsGood(b, bs);
    var fa, fb := DigestPaths(a, as_), DigestPaths(b, bs);
    GoodIsNotEmpty();
    if SameFiles(a, b) {
      SortedUnique(fa, fb);
      forall i | 0 <= i < |fa| ensures RecordOf(a, fa[i], encode) == RecordOf(b, fb[i], encode) {
        assert fa[i] in fa;
      }
      assert Records(a, fa, encode) == Records(b, fb, encode);
    }
    if Fed(a, as_, encode) == Fed(b, bs, encode) {
      var ra, rb := Records(a, fa, encode), Records(b, fb, encode);
      RecordsShort(a, fa, encode);
      RecordsShort(b, fb, encode);
      StreamInjective(ra, rb);
      assert |fa| == |ra| == |rb| == |fb|;
      forall i | 0 <= i < |fa| ensures fa[i] == fb[i] && a[fa[i]].content == b[fb[i]].content {
        assert fa[i] in fa && fb[i] in fb && ra[i] == rb[i];
        EqualRecordsSamePath(a, fa[i], b, fb[i], encode);
      }
      assert fa == fb;
      forall p | Digested(a, p) ensures Digested(b, p) && a[p].content == b[p].content {
        assert p in fa;
        var i :| 0 <= i < |fa| && fa[i] == p;
      }
    }
  }

  lemma GoodIsNotEmpty()
    ensures forall p :: GoodPath(p) ==> p != []
    ensures forall src: Source, p :: Digested(src, p) ==> p in src && src[p].FileEntry?
  {
  }

  lemma RecordsShort(src: Source, files: seq<Path>, encode: string -> Bytes)
    requires Encodable(src, encode) && AllDigested(src, files)
    ensures AllShort(Records(src, files, encode))
  {
    hide Packable, Join;
  }

  // ---- packing and extracting keeps the digest ----

  /** The extracted tree as a directory on disk: 0o755 for executables, 0o644 otherwise. */
  function OnDisk(tree: Tree): Source {
    map p | p in tree :: if tree[p].Dir? then DirEntry else FileEntry(tree[p].content, if tree[p].executable then 493 else 420, None)
  }

  lemma RestoredHasSameFiles(src: Source, tree: Tree)
    requires WellFormed(src) && Restores(src, tree)
    ensures WellFormed(OnDisk(tree)) && SameFiles(src, OnDisk(tree))
  {
    forall p, q | p in OnDisk(tree) && q != [] && Above(q, p) ensures q in OnDisk(tree) && OnDisk(tree)[q].DirEntry? {
      assert q in src && src[q].DirEntry?;
      assert Packable(q) by {
        assert forall i :: 0 <= i < |q| ==> q[i] == p[i];
      }
    }
  }

  /** Packing and extracting once more changes nothing. */
  lemma SecondRoundTrip(src: Source, tree: Tree, again: Tree)
    requires Restores(src, tree) && Restores(OnDisk(tree), again)
    ensures again == tree
  {
    assert AnyExecute(493) && !AnyExecute(420);
    hide Packable, AnyExecute;
    assert forall p :: p in again <==> p in tree;
    forall p | p in tree ensures again[p] == tree[p] {
      assert again[p] == Restored(OnDisk(tree)[p]);
    }
  }

  /** The worker's check passes on what it extracts: the hash is fed the same bytes before and after. */
  lemma DigestSurvivesPacking(
    src: Source, paths: seq<Path>, limit: ByteLimit, limits: Limits, tree: Tree, treePaths: seq<Path>, encode: string -> Bytes)
    requires WellFormed(src) && Listing(src.Keys, paths) && Packs(src, paths, limit)
    requires forall p :: p in PackedPaths(paths) ==> p in src && p != []
    requires Acceptable(Archive(src, PackedPaths(paths)), limits)
    requires IsTreeOf(tree, Archive(src, PackedPaths(paths)), |PackedPaths(paths)|)
    requires Listing(OnDisk(tree).Keys, treePaths) && Injective(encode) && Encodable(src, encode)
    ensures WellFormed(OnDisk(tree)) && Fed(OnDisk(tree), treePaths, encode) == Fed(src, paths, encode)
  {
    hide WellFormed, Listing, Packs, PackedPaths, IsTreeOf, Digested, Fed, Acceptable;
    PackedFromListing(src, paths, limit);
    RoundTrip(src, PackedPaths(paths), limits, tree);
    RestoredHasSameFiles(src, tree);
    DigestPinsFiles(src, paths, OnDisk(tree), treePaths, encode);
  }
}
