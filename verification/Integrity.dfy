/**
 The source integrity hash (scanners/file_discovery.py::compute_source_integrity_hash):
 one hash over sorted "path:content-hash" lines, taken before and after a scan.
 */
module Integrity {
  import opened Prelude
  import opened Sorting
  import opened Text
  import opened Discovery

  // -------------------------------------------------------- well-formed trees

  /** A name the file system can hold. */
  predicate GoodName(name: string) {
    name != [] && '/' !in name
  }

  /** Names are good, and no directory lists a name twice. */
  ghost predicate WellFormed(d: Directory) {
    && (forall f :: f in d.files ==> GoodName(f.name))
    && (forall i, j :: 0 <= i < j < |d.files| ==> d.files[i].name != d.files[j].name)
    && (forall i, j :: 0 <= i < j < |d.subdirs| ==> d.subdirs[i].name != d.subdirs[j].name)
    && (forall sub :: sub in d.subdirs ==> GoodName(sub.name) && WellFormed(sub))
  }

  // ----------------------------------------------------------- the manifest

  /** Every file under the directories the hash walks: no depth limit, no ignored files. */
  function AllFiles(v: Visit): seq<Located>
    decreases Size(v.dir), 0
  {
    ChildrenAreSmaller(v);
    LocatedIn(v.parts, v.dir.files) + AllFilesOf(Children(v))
  }

  function AllFilesOf(vs: seq<Visit>): seq<Located>
    decreases VisitSize(vs), 1
  {
    if vs == [] then [] else AllFiles(vs[0]) + AllFilesOf(vs[1..])
  }

  const SYMLINK_MARK := "symlink"
  const UNREADABLE_MARK := "unreadable"

  function Mark(digest: string -> string, f: FileEntry): string {
    if f.link == LinkUnknown then UNREADABLE_MARK
    else if f.link != NotALink then SYMLINK_MARK
    else if f.content.None? then UNREADABLE_MARK
    else digest(f.content.value)
  }

  function Entry(digest: string -> string, f: Located): string {
    Posix(f.parts) + ":" + Mark(digest, f.file)
  }

  function Entries(digest: string -> string, files: seq<Located>): seq<string> {
    Map((f: Located) => Entry(digest, f), files)
  }

  /** The sorted lines of a walk that meets the files in the given order. */
  function Manifest(digest: string -> string, files: seq<Located>): string {
    Join("\n", Sort(StringLe, Entries(digest, files)))
  }

  function Aggregate(digest: string -> string, files: seq<Located>): string {
    digest(Manifest(digest, files))
  }

  function SourceHash(digest: string -> string, root: Directory): string {
    Aggregate(digest, AllFiles(Visit(root, [])))
  }

  /**
   The line of each file: its path and its hash; or, for a link, that it is one; or, for a
   file that cannot be read or asked about, that it cannot.
   */
  lemma LineSays(digest: string -> string, f: Located)
    ensures Entry(digest, f) == Posix(f.parts) + ":" +
            match f.file.link
            case LinkUnknown => "unreadable"
            case LinkInside => "symlink"
            case LinkOutside => "symlink"
            case LinkUnresolvable => "symlink"
            case NotALink => (match f.file.content case Some(bytes) => digest(bytes) case None => "unreadable")
  {}

  method ComputeSourceIntegrityHash(digest: string -> string, root: Directory) returns (hash: string)
    ensures hash == SourceHash(digest, root)
  {
    var entries: seq<string> := [];
    var files := AllFiles(Visit(root, []));
    for i := 0 to |files|
      invariant entries == Entries(digest, files[..i])
    {
      var f := files[i];
      assert files[..i + 1] == files[..i] + [f];
      MapConcat((x: Located) => Entry(digest, x), files[..i], [f]);
      var rel := Posix(f.parts);
      if f.file.link == LinkUnknown {
        entries := entries + [rel + ":" + UNREADABLE_MARK];
      } else if f.file.link != NotALink {
        entries := entries + [rel + ":" + SYMLINK_MARK];
      } else if f.file.content.None? {
        entries := entries + [rel + ":" + UNREADABLE_MARK];
      } else {
        entries := entries + [rel + ":" + digest(f.file.content.value)];
      }
    }
    assert files[..|files|] == files;
    entries := Sort(StringLe, entries);
    hash := digest(Join("\n", entries));
  }

  // -------------------------------------------------------------- assumptions

  /** Hashes are 64 characters, none of them a colon or a line break. */
  ghost predicate HexDigest(digest: string -> string) {
    forall a :: |digest(a)| == 64 && ':' !in digest(a) && '\n' !in digest(a)
  }

  /** The file contents a walk hashes. */
  function Contents(files: seq<Located>): set<string> {
    set f | f in files && f.file.link == NotALink && f.file.content.Some? :: f.file.content.value
  }

  /** Everything one integrity hash feeds to the digest. */
  function Hashed(digest: string -> string, files: seq<Located>): set<string> {
    Contents(files) + {Manifest(digest, files)}
  }

  /** No two of these inputs have the same hash. */
  ghost predicate NoCollision(digest: string -> string, inputs: set<string>) {
    forall a, b :: a in inputs && b in inputs && digest(a) == digest(b) ==> a == b
  }

  /** The digest is well formed and tells apart whatever the two walks feed to it. */
  ghost predicate TellsApart(digest: string -> string, a: seq<Located>, b: seq<Located>) {
    HexDigest(digest) && NoCollision(digest, Hashed(digest, a) + Hashed(digest, b))
  }

  lemma MarkIsPlain(digest: string -> string, f: FileEntry)
    requires HexDigest(digest)
    ensures ':' !in Mark(digest, f) && '\n' !in Mark(digest, f)
  {}

  /** A mark tells content from the absence of content, and one content from another. */
  lemma MarkIsInjective(digest: string -> string, f: FileEntry, g: FileEntry)
    requires HexDigest(digest)
    requires f.content.Some? && g.content.Some? ==> NoCollision(digest, {f.content.value, g.content.value})
    requires Mark(digest, f) == Mark(digest, g)
    ensures f.link == NotALink && f.content.Some? ==> g.link == NotALink && g.content == f.content
  {
    assert |SYMLINK_MARK| == 7 && |UNREADABLE_MARK| == 10;
  }

  // ---------------------------------------------------------- reading it back

  lemma EntryReadsBack(p: string, m: string, q: string, n: string)
    requires ':' !in m && ':' !in n
    requires p + ":" + m == q + ":" + n
    ensures p == q && m == n
  {
    var e, e' := p + ":" + m, q + ":" + n;
    assert e[|p|] == ':' && e'[|q|] == ':';
    assert forall i :: |p| < i < |e| ==> e[i] == m[i - |p| - 1];
    assert forall i :: |q| < i < |e'| ==> e'[i] == n[i - |q| - 1];
    assert |p| == |q|;
    assert p == e[..|p|] && q == e'[..|q|];
    assert m == e[|p| + 1..] && n == e'[|q| + 1..];
  }

  lemma {:induction false} JoinKeepsNewlinesOut(parts: seq<string>)
    requires forall i :: 0 <= i < |parts| ==> '\n' !in parts[i]
    ensures '\n' !in Posix(parts)
  {
    if |parts| > 1 {
      JoinKeepsNewlinesOut(parts[1..]);
    }
  }

  /** Paths of good names determine their components. */
  lemma PosixIsInjective(a: seq<string>, b: seq<string>)
    requires a != [] && b != []
    requires forall i :: 0 <= i < |a| ==> '/' !in a[i]
    requires forall i :: 0 <= i < |b| ==> '/' !in b[i]
    requires Posix(a) == Posix(b)
    ensures a == b
  {
    SplitJoin('/', a);
    SplitJoin('/', b);
  }

  ghost predicate Lines(entries: seq<string>) {
    forall i :: 0 <= i < |entries| ==> entries[i] != [] && '\n' !in entries[i]
  }

  lemma SortKeepsLines(entries: seq<string>)
    requires Lines(entries)
    ensures Lines(Sort(StringLe, entries))
  {
    SortMembers(StringLe, entries);
    var sorted := Sort(StringLe, entries);
    forall i | 0 <= i < |sorted| ensures sorted[i] != [] && '\n' !in sorted[i] {
      assert sorted[i] in entries;
    }
  }

  /** Joined lines determine the lines. */
  lemma JoinedLinesReadBack(a: seq<string>, b: seq<string>)
    requires Lines(a) && Lines(b) && Join("\n", a) == Join("\n", b)
    ensures a == b
  {
    if a != [] {
      SplitJoin('\n', a);
    }
    if b != [] {
      SplitJoin('\n', b);
    }
    assert SplitOn('\n', "") == [""];
  }

  // ------------------------------------------------------- order independence

  /** The hash does not depend on the order in which the walk meets the files. */
  lemma WalkOrderIsIrrelevant(digest: string -> string, a: seq<Located>, b: seq<Located>)
    requires multiset(Entries(digest, a)) == multiset(Entries(digest, b))
    ensures Aggregate(digest, a) == Aggregate(digest, b)
  {
    StringOrder();
    SortCanonical(StringLe, Entries(digest, a), Entries(digest, b));
  }

  /** A manifest line stays one line: no name on the path holds a line break. */
  predicate OneLine(parts: seq<string>) {
    forall k :: 0 <= k < |parts| ==> '\n' !in parts[k]
  }

  ghost predicate OneLinePaths(files: seq<Located>) {
    forall i :: 0 <= i < |files| ==> OneLine(files[i].parts)
  }

  ghost predicate GoodParts(files: seq<Located>) {
    forall i :: 0 <= i < |files| ==>
      && files[i].parts != []
      && OneLine(files[i].parts)
      && forall k :: 0 <= k < |files[i].parts| ==> GoodName(files[i].parts[k])
  }

  lemma EntriesAreLines(digest: string -> string, files: seq<Located>)
    requires HexDigest(digest) && GoodParts(files)
    ensures Lines(Entries(digest, files))
  {
    forall i | 0 <= i < |files| ensures Entries(digest, files)[i] != [] && '\n' !in Entries(digest, files)[i] {
      JoinKeepsNewlinesOut(files[i].parts);
      MarkIsPlain(digest, files[i].file);
    }
  }

  /**
   The aggregate is exact: two walks have the same hash if and only if they list the same
   path-and-content lines, in whatever order and with the same multiplicity.
   */
  lemma AggregateIffSameLines(digest: string -> string, a: seq<Located>, b: seq<Located>)
    requires TellsApart(digest, a, b) && GoodParts(a) && GoodParts(b)
    ensures Aggregate(digest, a) == Aggregate(digest, b)
            <==> multiset(Entries(digest, a)) == multiset(Entries(digest, b))
  {
    var ea, eb := Entries(digest, a), Entries(digest, b);
    if Aggregate(digest, a) == Aggregate(digest, b) {
      EntriesAreLines(digest, a);
      EntriesAreLines(digest, b);
      SortKeepsLines(ea);
      SortKeepsLines(eb);
      JoinedLinesReadBack(Sort(StringLe, ea), Sort(StringLe, eb));
      SortPermutes(StringLe, ea);
      SortPermutes(StringLe, eb);
    }
    if multiset(ea) == multiset(eb) {
      WalkOrderIsIrrelevant(digest, a, b);
    }
  }

  /** Under equal hashes every file of one walk meets its counterpart in the other. */
  lemma Counterpart(digest: string -> string, a: seq<Located>, b: seq<Located>, f: Located) returns (g: Located)
    requires TellsApart(digest, a, b) && GoodParts(a) && GoodParts(b)
    requires Aggregate(digest, a) == Aggregate(digest, b) && f in a
    ensures g in b && g.parts == f.parts && Mark(digest, g.file) == Mark(digest, f.file)
  {
    AggregateIffSameLines(digest, a, b);
    var i :| 0 <= i < |a| && a[i] == f;
    assert Entries(digest, a)[i] in multiset(Entries(digest, b));
    var j :| 0 <= j < |b| && Entries(digest, b)[j] == Entries(digest, a)[i];
    g := b[j];
    MarkIsPlain(digest, f.file);
    MarkIsPlain(digest, g.file);
    EntryReadsBack(Posix(f.parts), Mark(digest, f.file), Posix(g.parts), Mark(digest, g.file));
    PosixIsInjective(f.parts, g.parts);
  }

  /** A hashed file's counterpart holds the same bytes. */
  lemma CounterpartContent(digest: string -> string, a: seq<Located>, b: seq<Located>, f: Located) returns (g: Located)
    requires TellsApart(digest, a, b) && GoodParts(a) && GoodParts(b)
    requires Aggregate(digest, a) == Aggregate(digest, b)
    requires f in a && f.file.link == NotALink && f.file.content.Some?
    ensures g in b && g.parts == f.parts && g.file.link == NotALink && g.file.content == f.file.content
  {
    g := Counterpart(digest, a, b, f);
    assert f.file.content.value in Contents(a);
    MarkSaysRegular(digest, f.file, g.file);
    assert g.file.content.value in Contents(b);
    MarkIsInjective(digest, f.file, g.file);
  }

  lemma MarkSaysRegular(digest: string -> string, f: FileEntry, g: FileEntry)
    requires HexDigest(digest) && Mark(digest, f) == Mark(digest, g)
    ensures f.link == NotALink && f.content.Some? ==> g.link == NotALink && g.content.Some?
  {
    assert |SYMLINK_MARK| == 7 && |UNREADABLE_MARK| == 10;
  }

  // ------------------------------------------------------- discovery is covered

  /** Every path below a visited directory extends its path by good names. */
  ghost predicate Below(parts: seq<string>, f: Located) {
    && |parts| < |f.parts|
    && f.parts[..|parts|] == parts
    && forall k :: |parts| <= k < |f.parts| ==> GoodName(f.parts[k])
  }

  lemma {:induction false} AllFilesBelow(v: Visit)
    requires WellFormed(v.dir)
    ensures forall f :: f in AllFiles(v) ==> Below(v.parts, f)
    decreases v.dir, 1
  {
    SubdirFilesBelow(v.dir.subdirs, v.parts);
  }

  lemma AllFilesOfFirst(v: Visit, vs: seq<Visit>)
    ensures AllFilesOf([v] + vs) == AllFiles(v) + AllFilesOf(vs)
  {
    assert ([v] + vs)[1..] == vs;
  }

  lemma {:induction false} SubdirFilesBelow(ds: seq<Directory>, parts: seq<string>)
    requires forall d :: d in ds ==> GoodName(d.name) && WellFormed(d)
    ensures forall f :: f in AllFilesOf(VisitsIn(ds, parts)) ==>
              Below(parts, f) && |f.parts| > |parts| + 1 && exists d :: d in ds && f.parts[|parts|] == d.name
    decreases ds, 0
  {
    if ds == [] {
      assert VisitsIn(ds, parts) == [];
    } else {
      var d := ds[0];
      SubdirFilesBelow(ds[1..], parts);
      VisitsInFirst(ds, parts);
      if Entered(d) {
        var first := Visit(d, parts + [d.name]);
        AllFilesBelow(first);
        AllFilesOfFirst(first, VisitsIn(ds[1..], parts));
        forall f | f in AllFiles(first)
            ensures Below(parts, f) && |f.parts| > |parts| + 1 && f.parts[|parts|] == d.name {
          BelowChild(parts, d.name, f);
        }
      }
    }
  }

  lemma BelowChild(parts: seq<string>, name: string, f: Located)
    requires Below(parts + [name], f) && GoodName(name)
    ensures Below(parts, f) && |f.parts| > |parts| + 1 && f.parts[|parts|] == name
  {
    assert f.parts[|parts|] == f.parts[..|parts| + 1][|parts|];
    assert f.parts[..|parts|] == f.parts[..|parts| + 1][..|parts|];
  }

  /** Everything discovery handles, the integrity hash covers. */
  lemma {:induction false} DiscoveredFilesAreHashed(settings: Settings, v: Visit)
    ensures forall f :: f in FilesUnder(settings, v) ==> f in AllFiles(v)
    decreases v.dir, 1
  {
    if |v.parts| <= settings.maxDepth {
      DiscoveredSubdirsAreHashed(settings, v.dir.subdirs, v.parts);
      FilesHereAreHashed(v);
      forall f | f in FilesUnder(settings, v) ensures f in AllFiles(v) {
        assert f in FilesHere(v) || f in FilesOf(settings, Children(v));
      }
    }
  }

  lemma LocatedMembers(parts: seq<string>, some: seq<FileEntry>, all: seq<FileEntry>)
    requires forall f :: f in some ==> f in all
    ensures forall f :: f in LocatedIn(parts, some) ==> f in LocatedIn(parts, all)
  {
    forall f | f in LocatedIn(parts, some) ensures f in LocatedIn(parts, all) {
      var i :| 0 <= i < |some| && LocatedIn(parts, some)[i] == f;
      assert some[i] in all;
      var j :| 0 <= j < |all| && all[j] == some[i];
      assert LocatedIn(parts, all)[j] == f;
    }
  }

  lemma FilesHereAreHashed(v: Visit)
    ensures forall f :: f in FilesHere(v) ==> f in AllFiles(v)
  {
    FilterMembers(Listed, Sort(NameLe, v.dir.files));
    SortMembers(NameLe, v.dir.files);
    LocatedMembers(v.parts, Filter(Listed, Sort(NameLe, v.dir.files)), v.dir.files);
  }

  lemma {:induction false} DiscoveredSubdirsAreHashed(settings: Settings, ds: seq<Directory>, parts: seq<string>)
    ensures forall f :: f in FilesOf(settings, VisitsIn(ds, parts)) ==> f in AllFilesOf(VisitsIn(ds, parts))
    decreases ds, 0
  {
    if ds == [] {
      assert VisitsIn(ds, parts) == [];
    } else {
      DiscoveredSubdirsAreHashed(settings, ds[1..], parts);
      VisitsInFirst(ds, parts);
      if Entered(ds[0]) {
        var first := Visit(ds[0], parts + [ds[0].name]);
        DiscoveredFilesAreHashed(settings, first);
        AllFilesOfFirst(first, VisitsIn(ds[1..], parts));
        FilesOfConcat(settings, [first], VisitsIn(ds[1..], parts));
        FilesOfOne(settings, first);
      }
    }
  }

  lemma TreePathsAreGood(root: Directory)
    requires WellFormed(root) && OneLinePaths(Walk(root))
    ensures GoodParts(AllFiles(Visit(root, [])))
  {
    AllFilesBelow(Visit(root, []));
    var files := AllFiles(Visit(root, []));
    forall i | 0 <= i < |files| ensures Below([], files[i]) {
      assert files[i] in files;
    }
  }

  function Walk(root: Directory): seq<Located> {
    AllFiles(Visit(root, []))
  }

  /** The digest tells apart whatever the hashes of two trees feed to it, and no name breaks a line. */
  ghost predicate Comparable(digest: string -> string, before: Directory, after: Directory) {
    && WellFormed(before) && WellFormed(after)
    && OneLinePaths(Walk(before)) && OneLinePaths(Walk(after))
    && TellsApart(digest, Walk(before), Walk(after))
  }

  /** Some file the walk of discovery found is the one this item records. */
  ghost predicate ItemOf(settings: Settings, root: Directory, item: Item, f: Located) {
    && item in Discover(settings, root).inventory
    && f in FilesUnder(settings, Visit(root, []))
    && Inventoried(settings, item, f)
  }

  lemma ItemHasFile(settings: Settings, root: Directory, item: Item) returns (f: Located)
    requires item in Discover(settings, root).inventory
    ensures ItemOf(settings, root, item, f) && f in Walk(root)
    ensures f.file.link == NotALink || f.file.link == LinkInside
    ensures !settings.followSymlinks ==> f.file.link == NotALink
  {
    var found := FilesUnder(settings, Visit(root, []));
    InventoryComesFromFiles(settings, found);
    f :| f in found && Inventoried(settings, item, f);
    DiscoveredFilesAreHashed(settings, Visit(root, []));
  }

  /**
   What an equal hash proves, whether or not links are followed: every inventoried item
   whose file is not a link is, in the tree afterwards, still a regular file at the same
   path with exactly the bytes the inventory hashed.
   */
  lemma UnfailedScanSawTheSameBytes(settings: Settings, before: Directory, after: Directory, item: Item, f: Located)
    returns (g: Located)
    requires Comparable(settings.digest, before, after)
    requires SourceHash(settings.digest, before) == SourceHash(settings.digest, after)
    requires ItemOf(settings, before, item, f) && f.file.link == NotALink
    ensures g in Walk(after) && g.parts == f.parts && item.relativePath == Posix(g.parts)
    ensures g.file.link == NotALink && g.file.content.Some? && g.file.content == f.file.content
    ensures item.contentHash == settings.digest(g.file.content.value)
  {
    DiscoveredFilesAreHashed(settings, Visit(before, []));
    TreePathsAreGood(before);
    TreePathsAreGood(after);
    g := CounterpartContent(settings.digest, Walk(before), Walk(after), f);
  }

  /** The whole manifest, both ways: a changed, added or removed regular file changes the hash. */
  lemma EqualHashEqualContents(digest: string -> string, before: Directory, after: Directory,
                               parts: seq<string>, content: string)
    requires Comparable(digest, before, after)
    requires SourceHash(digest, before) == SourceHash(digest, after)
    ensures HoldsContent(before, parts, content) <==> HoldsContent(after, parts, content)
  {
    TreePathsAreGood(before);
    TreePathsAreGood(after);
    if HoldsContent(before, parts, content) {
      var f :| f in Walk(before) && HasContent(f, parts, content);
      var g := CounterpartContent(digest, Walk(before), Walk(after), f);
      assert HasContent(g, parts, content);
    }
    if HoldsContent(after, parts, content) {
      TellsApartBothWays(digest, Walk(before), Walk(after));
      var f :| f in Walk(after) && HasContent(f, parts, content);
      var g := CounterpartContent(digest, Walk(after), Walk(before), f);
      assert HasContent(g, parts, content);
    }
  }

  lemma TellsApartBothWays(digest: string -> string, a: seq<Located>, b: seq<Located>)
    requires TellsApart(digest, a, b)
    ensures TellsApart(digest, b, a)
  {
    assert Hashed(digest, b) + Hashed(digest, a) == Hashed(digest, a) + Hashed(digest, b);
  }

  ghost predicate HasContent(f: Located, parts: seq<string>, content: string) {
    f.parts == parts && f.file.link == NotALink && f.file.content == Some(content)
  }

  ghost predicate HoldsContent(root: Directory, parts: seq<string>, content: string) {
    exists f :: f in Walk(root) && HasContent(f, parts, content)
  }

  // ------------------------------------------------------- one path, one file

  ghost predicate DistinctParts(files: seq<Located>) {
    forall i, j :: 0 <= i < j < |files| ==> files[i].parts != files[j].parts
  }

  ghost predicate AllBelow(parts: seq<string>, files: seq<Located>) {
    forall f :: f in files ==> Below(parts, f)
  }

  /** The file lies in a subdirectory that carries one of these names. */
  ghost predicate ThroughOneOf(ds: seq<Directory>, parts: seq<string>, f: Located) {
    |f.parts| > |parts| + 1 && Below(parts, f) && exists i :: 0 <= i < |ds| && ds[i].name == f.parts[|parts|]
  }

  lemma DistinctConcat(a: seq<Located>, b: seq<Located>)
    requires DistinctParts(a) && DistinctParts(b)
    requires forall f, g :: f in a && g in b ==> f.parts != g.parts
    ensures DistinctParts(a + b)
  {}

  lemma {:induction false} FilterDistinct<T>(keep: T -> bool, s: seq<T>)
    requires Distinct(s)
    ensures Distinct(Filter(keep, s))
  {
    if s != [] {
      var n := |s| - 1;
      assert s == s[..n] + [s[n]];
      FilterDistinct(keep, s[..n]);
      FilterMembers(keep, s[..n]);
      FilterSnoc(keep, s[..n], s[n]);
    }
  }

  /** The files have good names, no two the same. */
  ghost predicate NamedApart(files: seq<FileEntry>) {
    && (forall f :: f in files ==> GoodName(f.name))
    && (forall i, j :: 0 <= i < j < |files| ==> files[i].name != files[j].name)
  }

  /** Distinct files of a group named apart are named apart. */
  lemma SelectionNamedApart(files: seq<FileEntry>, chosen: seq<FileEntry>)
    requires NamedApart(files) && Distinct(chosen)
    requires forall f :: f in chosen ==> f in files
    ensures NamedApart(chosen)
  {
    forall i, j | 0 <= i < j < |chosen| ensures chosen[i].name != chosen[j].name {
      assert chosen[i] in chosen && chosen[j] in chosen;
      var a :| 0 <= a < |files| && files[a] == chosen[i];
      var b :| 0 <= b < |files| && files[b] == chosen[j];
      assert a < b ==> files[a].name != files[b].name;
      assert b < a ==> files[b].name != files[a].name;
    }
  }

  lemma NamedApartIsDistinct(files: seq<FileEntry>)
    requires NamedApart(files)
    ensures Distinct(files)
  {}

  lemma ListedFilesNamedApart(files: seq<FileEntry>)
    requires NamedApart(files)
    ensures NamedApart(Filter(Listed, Sort(NameLe, files)))
  {
    var sorted := Sort(NameLe, files);
    NamedApartIsDistinct(files);
    SortDistinct(NameLe, files);
    SortMembers(NameLe, files);
    FilterDistinct(Listed, sorted);
    FilterMembers(Listed, sorted);
    SelectionNamedApart(files, Filter(Listed, sorted));
  }

  lemma LocatedApart(parts: seq<string>, files: seq<FileEntry>)
    requires NamedApart(files)
    ensures DistinctParts(LocatedIn(parts, files))
    ensures forall f :: f in LocatedIn(parts, files) ==> Below(parts, f) && |f.parts| == |parts| + 1
  {
    var located := LocatedIn(parts, files);
    forall i, j | 0 <= i < j < |located| ensures located[i].parts != located[j].parts {
      assert located[i].parts[|parts|] == files[i].name && located[j].parts[|parts|] == files[j].name;
    }
    forall i | 0 <= i < |located| ensures Below(parts, located[i]) {
      assert files[i] in files;
    }
  }

  lemma FilesHereDistinct(v: Visit)
    requires WellFormed(v.dir)
    ensures DistinctParts(FilesHere(v))
    ensures forall f :: f in FilesHere(v) ==> Below(v.parts, f) && |f.parts| == |v.parts| + 1
  {
    ListedFilesNamedApart(v.dir.files);
    LocatedApart(v.parts, Filter(Listed, Sort(NameLe, v.dir.files)));
  }

  /** No two files that discovery handles share a path. */
  lemma {:induction false} FilesUnderDistinct(settings: Settings, v: Visit)
    requires WellFormed(v.dir)
    ensures DistinctParts(FilesUnder(settings, v)) && AllBelow(v.parts, FilesUnder(settings, v))
    decreases v.dir, 1
  {
    if |v.parts| <= settings.maxDepth {
      FilesHereDistinct(v);
      SubdirFilesDistinct(settings, v.dir.subdirs, v.parts);
      DistinctConcat(FilesHere(v), FilesOf(settings, Children(v)));
    }
  }

  lemma {:induction false} SubdirFilesDistinct(settings: Settings, ds: seq<Directory>, parts: seq<string>)
    requires forall d :: d in ds ==> GoodName(d.name) && WellFormed(d)
    requires forall i, j :: 0 <= i < j < |ds| ==> ds[i].name != ds[j].name
    ensures DistinctParts(FilesOf(settings, VisitsIn(ds, parts)))
    ensures forall f :: f in FilesOf(settings, VisitsIn(ds, parts)) ==> ThroughOneOf(ds, parts, f)
    decreases ds, 0
  {
    if ds == [] {
      assert VisitsIn(ds, parts) == [];
    } else {
      SubdirFilesDistinct(settings, ds[1..], parts);
      VisitsInFirst(ds, parts);
      var rest := FilesOf(settings, VisitsIn(ds[1..], parts));
      forall f | f in rest ensures ThroughOneOf(ds, parts, f) && f.parts[|parts|] != ds[0].name {
        var i :| 0 <= i < |ds| - 1 && ds[1..][i].name == f.parts[|parts|];
        assert ds[i + 1].name == f.parts[|parts|];
      }
      if Entered(ds[0]) {
        var first := Visit(ds[0], parts + [ds[0].name]);
        FilesUnderDistinct(settings, first);
        FilesOfConcat(settings, [first], VisitsIn(ds[1..], parts));
        FilesOfOne(settings, first);
        forall f | f in FilesUnder(settings, first)
            ensures ThroughOneOf(ds, parts, f) && f.parts[|parts|] == ds[0].name {
          BelowChild(parts, ds[0].name, f);
        }
        DistinctConcat(FilesUnder(settings, first), rest);
      }
    }
  }

  lemma DistinctPaths(files: seq<Located>)
    requires DistinctParts(files) && AllBelow([], files)
    ensures Distinct(FilePaths(files))
  {
    forall i, j | 0 <= i < j < |files| ensures FilePaths(files)[i] != FilePaths(files)[j] {
      assert files[i] in files && files[j] in files;
      if Posix(files[i].parts) == Posix(files[j].parts) {
        PosixIsInjective(files[i].parts, files[j].parts);
      }
    }
  }

  /** An inventory never lists a path twice, nor a path that was also skipped. */
  lemma InventoryPathsDistinct(settings: Settings, root: Directory)
    requires WellFormed(root)
    ensures var r := Discover(settings, root);
            && Distinct(ItemPaths(r.inventory))
            && forall path :: path in ItemPaths(r.inventory) ==> path !in SkippedPaths(r.skipped)
  {
    var files := FilesUnder(settings, Visit(root, []));
    var r := Discover(settings, root);
    FilesUnderDistinct(settings, Visit(root, []));
    DistinctPaths(files);
    EveryFileEndsOnce(settings, files);
    DistinctMultiset(FilePaths(files));
    var items, skips := multiset(ItemPaths(r.inventory)), multiset(SkippedPaths(r.skipped));
    forall path | path in ItemPaths(r.inventory) ensures items[path] == 1 && path !in SkippedPaths(r.skipped) {
      assert path in items + skips;
      assert path in multiset(FilePaths(files));
      assert (items + skips)[path] == 1;
      assert path in items;
      assert path !in skips;
    }
    SingleMultiplicityDistinct(ItemPaths(r.inventory));
  }

  // ------------------------------------------------------------ one-file trees

  function OneFileTree(name: string, link: Link, content: string): Directory {
    Directory("root", false, [FileEntry(name, link, Some(1), Some(content))], [])
  }

  /** The limits let the tree's one file into the inventory. */
  predicate Admits(settings: Settings, name: string, link: Link) {
    && settings.maxDepth >= 0 && settings.maxFileCount >= 1 && settings.maxFileSize >= 1 && settings.maxTotalSize >= 1
    && Supported(settings, name)
    && name !in IGNORED_FILES
    && (link == NotALink || (settings.followSymlinks && link == LinkInside))
  }

  lemma OneFileWalk(settings: Settings, name: string, link: Link, content: string)
    requires Admits(settings, name, link)
    ensures AllFiles(Visit(OneFileTree(name, link, content), []))
            == [Located([name], OneFileTree(name, link, content).files[0])]
    ensures FilesUnder(settings, Visit(OneFileTree(name, link, content), []))
            == [Located([name], OneFileTree(name, link, content).files[0])]
  {
    var v := Visit(OneFileTree(name, link, content), []);
    var f := v.dir.files[0];
    assert Children(v) == [];
    assert AllFilesOf([]) == [] && FilesOf(settings, []) == [];
    assert v.parts + [f.name] == [name];
    assert Sort(NameLe, [f]) == [f] by {
      assert [f][1..] == [];
    }
    assert Filter(Listed, [f]) == [f] by {
      assert [f][1..] == [];
    }
  }

  lemma HandleOneFile(settings: Settings, f: Located)
    ensures HandleAll(settings, [f]) == Handle(settings, EMPTY_RESULT, f)
  {
    HandleAllSnoc(settings, [], f);
    assert [] + [f] == [f];
  }

  lemma OneFileHandled(settings: Settings, name: string, link: Link, content: string)
    requires Admits(settings, name, link)
    ensures Handle(settings, EMPTY_RESULT, Located([name], OneFileTree(name, link, content).files[0]))
            == Result([Item(name, name, settings.lower(Suffix(name)), 1, settings.digest(content))], [], 1, 1, false)
  {
    assert Posix([name]) == name;
  }

  lemma OneFileDiscovered(settings: Settings, name: string, link: Link, content: string)
    requires Admits(settings, name, link)
    ensures Discover(settings, OneFileTree(name, link, content)) ==
            Result([Item(name, name, settings.lower(Suffix(name)), 1, settings.digest(content))], [], 1, 1, false)
  {
    OneFileWalk(settings, name, link, content);
    HandleOneFile(settings, Located([name], OneFileTree(name, link, content).files[0]));
    OneFileHandled(settings, name, link, content);
  }
}
