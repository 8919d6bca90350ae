/**
 How far the integrity hash reaches: an inventoried file keeps its bytes under an equal
 hash if and only if it is not a link. And the assumptions of the guarantee can be met.
 */
module IntegrityLimits {
  import opened Prelude
  import opened Sorting
  import opened Discovery
  import opened Integrity

  // ------------------------------------------------------ one path, one hashed file

  lemma {:induction false} AllFilesDistinct(v: Visit)
    requires WellFormed(v.dir)
    ensures DistinctParts(AllFiles(v))
    decreases v.dir, 1
  {
    LocatedApart(v.parts, v.dir.files);
    SubdirsDistinct(v.dir.subdirs, v.parts);
    SubdirFilesBelow(v.dir.subdirs, v.parts);
    DistinctConcat(LocatedIn(v.parts, v.dir.files), AllFilesOf(Children(v)));
  }

  lemma {:induction false} SubdirsDistinct(ds: seq<Directory>, parts: seq<string>)
    requires forall d :: d in ds ==> GoodName(d.name) && WellFormed(d)
    requires forall i, j :: 0 <= i < j < |ds| ==> ds[i].name != ds[j].name
    ensures DistinctParts(AllFilesOf(VisitsIn(ds, parts)))
    decreases ds, 0
  {
    if ds == [] {
      assert VisitsIn(ds, parts) == [];
    } else {
      SubdirsDistinct(ds[1..], parts);
      VisitsInFirst(ds, parts);
      if Entered(ds[0]) {
        FirstSubdirApart(ds, parts);
      }
    }
  }

  /** The first subdirectory shares no path with the others. */
  lemma FirstSubdirApart(ds: seq<Directory>, parts: seq<string>)
    requires ds != [] && forall d :: d in ds ==> GoodName(d.name) && WellFormed(d)
    requires forall i, j :: 0 <= i < j < |ds| ==> ds[i].name != ds[j].name
    requires DistinctParts(AllFilesOf(VisitsIn(ds[1..], parts)))
    ensures DistinctParts(AllFilesOf([Visit(ds[0], parts + [ds[0].name])] + VisitsIn(ds[1..], parts)))
    decreases ds[0], 2
  {
    var first := Visit(ds[0], parts + [ds[0].name]);
    var rest := AllFilesOf(VisitsIn(ds[1..], parts));
    AllFilesDistinct(first);
    AllFilesBelow(first);
    AllFilesOfFirst(first, VisitsIn(ds[1..], parts));
    SubdirFilesBelow(ds[1..], parts);
    forall f, g | f in AllFiles(first) && g in rest ensures f.parts != g.parts {
      BelowChild(parts, ds[0].name, f);
    }
    DistinctConcat(AllFiles(first), rest);
  }

  // -------------------------------------------------------- pointing links elsewhere

  function RepointFile(content: string, f: FileEntry): FileEntry {
    if f.link == LinkInside then f.(content := Some(content)) else f
  }

  function RepointLocated(content: string): Located -> Located {
    (l: Located) => Located(l.parts, RepointFile(content, l.file))
  }

  /** The tree with every link under the root made to lead to a file of the given content. */
  function Repoint(content: string, d: Directory): Directory
    decreases d, 1
  {
    d.(files := Map((f: FileEntry) => RepointFile(content, f), d.files), subdirs := RepointAll(content, d.subdirs))
  }

  function RepointAll(content: string, ds: seq<Directory>): seq<Directory>
    decreases ds, 0
  {
    if ds == [] then [] else [Repoint(content, ds[0])] + RepointAll(content, ds[1..])
  }

  lemma {:induction false} RepointAllInOrder(content: string, ds: seq<Directory>)
    ensures |RepointAll(content, ds)| == |ds|
    ensures forall i :: 0 <= i < |ds| ==> RepointAll(content, ds)[i] == Repoint(content, ds[i])
  {
    if ds != [] {
      RepointAllInOrder(content, ds[1..]);
    }
  }

  lemma {:induction false} RepointKeepsShape(content: string, d: Directory)
    requires WellFormed(d)
    ensures WellFormed(Repoint(content, d))
    decreases d
  {
    var after := Repoint(content, d);
    RepointAllInOrder(content, d.subdirs);
    forall i | 0 <= i < |d.subdirs| ensures GoodName(after.subdirs[i].name) && WellFormed(after.subdirs[i]) {
      assert d.subdirs[i] in d.subdirs;
      RepointKeepsShape(content, d.subdirs[i]);
    }
    forall i | 0 <= i < |d.files| ensures GoodName(after.files[i].name) && after.files[i].name == d.files[i].name {
      assert d.files[i] in d.files;
    }
  }

  lemma LocatedRepointed(content: string, parts: seq<string>, files: seq<FileEntry>)
    ensures LocatedIn(parts, Map((f: FileEntry) => RepointFile(content, f), files))
            == Map(RepointLocated(content), LocatedIn(parts, files))
  {}

  /** The walk of the repointed tree is the walk with its links repointed. */
  lemma {:induction false} WalkRepointed(content: string, v: Visit)
    ensures AllFiles(Visit(Repoint(content, v.dir), v.parts)) == Map(RepointLocated(content), AllFiles(v))
    decreases v.dir, 1
  {
    LocatedRepointed(content, v.parts, v.dir.files);
    SubdirsRepointed(content, v.dir.subdirs, v.parts);
    MapConcat(RepointLocated(content), LocatedIn(v.parts, v.dir.files), AllFilesOf(Children(v)));
  }

  lemma {:induction false} SubdirsRepointed(content: string, ds: seq<Directory>, parts: seq<string>)
    ensures AllFilesOf(VisitsIn(RepointAll(content, ds), parts))
            == Map(RepointLocated(content), AllFilesOf(VisitsIn(ds, parts)))
    decreases ds, 0
  {
    if ds == [] {
      assert VisitsIn(ds, parts) == [];
    } else {
      var after := RepointAll(content, ds);
      SubdirsRepointed(content, ds[1..], parts);
      VisitsInFirst(ds, parts);
      VisitsInFirst(after, parts);
      assert after[1..] == RepointAll(content, ds[1..]);
      if Entered(ds[0]) {
        var first := Visit(ds[0], parts + [ds[0].name]);
        WalkRepointed(content, first);
        AllFilesOfFirst(first, VisitsIn(ds[1..], parts));
        AllFilesOfFirst(Visit(after[0], first.parts), VisitsIn(after[1..], parts));
        MapConcat(RepointLocated(content), AllFiles(first), AllFilesOf(VisitsIn(ds[1..], parts)));
      }
    }
  }

  /** Neither the lines nor the contents that are hashed see where a link leads. */
  lemma RepointingIsUnseen(digest: string -> string, content: string, files: seq<Located>)
    ensures Entries(digest, Map(RepointLocated(content), files)) == Entries(digest, files)
    ensures Contents(Map(RepointLocated(content), files)) == Contents(files)
  {
    var after := Map(RepointLocated(content), files);
    forall i | 0 <= i < |files| ensures Entry(digest, after[i]) == Entry(digest, files[i]) {}
    forall f | f in files && f.file.link == NotALink ensures f in after {
      var i :| 0 <= i < |files| && files[i] == f;
      assert after[i] == f;
    }
    forall f | f in after && f.file.link == NotALink ensures f in files {
      var i :| 0 <= i < |after| && after[i] == f;
      assert files[i] == f;
    }
  }

  lemma RepointedIsComparable(digest: string -> string, before: Directory, content: string)
    requires Comparable(digest, before, before)
    ensures Comparable(digest, before, Repoint(content, before))
    ensures SourceHash(digest, before) == SourceHash(digest, Repoint(content, before))
  {
    RepointKeepsShape(content, before);
    WalkRepointed(content, Visit(before, []));
    RepointingIsUnseen(digest, content, Walk(before));
  }

  // ------------------------------------------------------------- the exact reach

  ghost predicate Keeps(after: Directory, f: Located) {
    exists g :: g in Walk(after) && g.parts == f.parts && g.file.content == f.file.content
  }

  /** Every tree with the same integrity hash holds the same bytes at the file's path. */
  ghost predicate Protected(digest: string -> string, before: Directory, f: Located) {
    forall after :: Comparable(digest, before, after) && SourceHash(digest, before) == SourceHash(digest, after)
                    ==> Keeps(after, f)
  }

  /** Under a repointed link the path holds the other content. */
  lemma RepointedLinkDiffers(before: Directory, f: Located, content: string)
    requires WellFormed(before) && f in Walk(before)
    requires f.file.link == LinkInside && f.file.content != Some(content)
    ensures !Keeps(Repoint(content, before), f)
  {
    WalkRepointed(content, Visit(before, []));
    AllFilesDistinct(Visit(before, []));
    var files := Walk(before);
    var after := Walk(Repoint(content, before));
    var i :| 0 <= i < |files| && files[i] == f;
    forall g | g in after && g.parts == f.parts ensures g.file.content == Some(content) {
      var j :| 0 <= j < |after| && after[j] == g;
      assert files[j].parts == files[i].parts;
    }
  }

  lemma RegularFileIsProtected(settings: Settings, before: Directory, item: Item, f: Located)
    requires ItemOf(settings, before, item, f) && f.file.link == NotALink
    ensures Protected(settings.digest, before, f)
  {
    forall after | Comparable(settings.digest, before, after)
                   && SourceHash(settings.digest, before) == SourceHash(settings.digest, after)
      ensures Keeps(after, f) {
      var g := UnfailedScanSawTheSameBytes(settings, before, after, item, f);
    }
  }

  lemma OneTreeUnprotects(digest: string -> string, before: Directory, after: Directory, f: Located)
    requires Comparable(digest, before, after) && SourceHash(digest, before) == SourceHash(digest, after)
    requires !Keeps(after, f)
    ensures !Protected(digest, before, f)
  {}

  lemma LinkIsNotProtected(digest: string -> string, before: Directory, f: Located, content: string)
    requires Comparable(digest, before, before)
    requires f in Walk(before) && f.file.link == LinkInside && f.file.content != Some(content)
    ensures !Protected(digest, before, f)
  {
    RepointedIsComparable(digest, before, content);
    RepointedLinkDiffers(before, f, content);
    OneTreeUnprotects(digest, before, Repoint(content, before), f);
  }

  lemma ItemFileIsHashed(settings: Settings, root: Directory, item: Item, f: Located)
    requires ItemOf(settings, root, item, f)
    ensures f in Walk(root) && f.file.content.Some? && (f.file.link == NotALink || f.file.link == LinkInside)
  {
    DiscoveredFilesAreHashed(settings, Visit(root, []));
  }

  /**
   The exact reach of the hash, whether or not links are followed: the bytes of an
   inventoried file are protected if and only if the file is not a link.
   */
  lemma ProtectedIff(settings: Settings, before: Directory, item: Item, f: Located)
    requires Comparable(settings.digest, before, before) && ItemOf(settings, before, item, f)
    ensures Protected(settings.digest, before, f) <==> f.file.link == NotALink
  {
    ItemFileIsHashed(settings, before, item, f);
    if f.file.link == NotALink {
      RegularFileIsProtected(settings, before, item, f);
    } else {
      var content := f.file.content.value;
      assert |content + "x"| > |content|;
      LinkIsNotProtected(settings.digest, before, f, content + "x");
    }
  }

  /** Concretely: one followed link, two contents, one hash. */
  lemma FollowedLinksAreNotCovered(settings: Settings, c: string, d: string)
    requires settings.followSymlinks && Admits(settings, "Makefile", LinkInside)
    requires settings.digest(c) != settings.digest(d)
    ensures SourceHash(settings.digest, OneFileTree("Makefile", LinkInside, c))
            == SourceHash(settings.digest, OneFileTree("Makefile", LinkInside, d))
    ensures Discover(settings, OneFileTree("Makefile", LinkInside, c)).inventory
            != Discover(settings, OneFileTree("Makefile", LinkInside, d)).inventory
  {
    var tc, td := OneFileTree("Makefile", LinkInside, c), OneFileTree("Makefile", LinkInside, d);
    OneFileWalk(settings, "Makefile", LinkInside, c);
    OneFileWalk(settings, "Makefile", LinkInside, d);
    OneFileDiscovered(settings, "Makefile", LinkInside, c);
    OneFileDiscovered(settings, "Makefile", LinkInside, d);
    assert Entries(settings.digest, Walk(tc)) == Entries(settings.digest, Walk(td));
  }

  // ------------------------------------------------- the assumptions can be met

  /** A digest of the right shape that tells the content "x" from everything else. */
  function SampleDigest(text: string): string {
    seq(64, i => if text == "x" then '0' else '1')
  }

  lemma SampleDigestTells()
    ensures HexDigest(SampleDigest)
    ensures forall text :: SampleDigest(text) == SampleDigest("x") ==> text == "x"
  {
    forall text ensures SampleDigest(text) == SampleDigest("x") ==> text == "x" {
      assert SampleDigest(text)[0] == if text == "x" then '0' else '1';
    }
  }

  lemma SampleManifest(file: Located)
    requires file.parts == ["Makefile"] && file.file.link == NotALink && file.file.content == Some("x")
    ensures HexDigest(SampleDigest) && TellsApart(SampleDigest, [file], [file])
  {
    var entries := Entries(SampleDigest, [file]);
    var line := entries[0];
    assert Posix(["Makefile"]) == "Makefile";
    assert line == "Makefile" + ":" + SampleDigest("x") && |line| > 1;
    assert entries == [line] && [line][1..] == [];
    assert Sort(StringLe, entries) == [line];
    assert Manifest(SampleDigest, [file]) == line;
    assert Contents([file]) <= {"x"};
    SampleDigestTells();
  }

  lemma SampleTreeIsWellFormed()
    ensures WellFormed(OneFileTree("Makefile", NotALink, "x")) && OneLine(["Makefile"])
  {
    assert '/' !in "Makefile" && '\n' !in "Makefile";
  }

  lemma SampleTreeWalk(settings: Settings)
    requires settings.digest == SampleDigest && Admits(settings, "Makefile", NotALink)
    ensures Comparable(SampleDigest, OneFileTree("Makefile", NotALink, "x"), OneFileTree("Makefile", NotALink, "x"))
  {
    OneFileWalk(settings, "Makefile", NotALink, "x");
    SampleTreeIsWellFormed();
    SampleManifest(Located(["Makefile"], OneFileTree("Makefile", NotALink, "x").files[0]));
  }

  lemma SampleItem(settings: Settings)
    requires settings.digest == SampleDigest && Admits(settings, "Makefile", NotALink)
    ensures var root := OneFileTree("Makefile", NotALink, "x");
            var r := Discover(settings, root);
            |r.inventory| == 1 && ItemOf(settings, root, r.inventory[0], Located(["Makefile"], root.files[0]))
  {
    OneFileWalk(settings, "Makefile", NotALink, "x");
    OneFileDiscovered(settings, "Makefile", NotALink, "x");
    assert Posix(["Makefile"]) == "Makefile";
  }

  /** A digest, a tree and an inventoried file that meet every assumption made here. */
  lemma AssumptionsCanBeMet() returns (settings: Settings, root: Directory, item: Item, f: Located)
    ensures Comparable(settings.digest, root, root)
    ensures ItemOf(settings, root, item, f) && f.file.link == NotALink
  {
    settings := Settings(1, 1, 1, 1, false, (text: string) => text, SampleDigest);
    root := OneFileTree("Makefile", NotALink, "x");
    f := Located(["Makefile"], root.files[0]);
    SampleTreeWalk(settings);
    SampleItem(settings);
    item := Discover(settings, root).inventory[0];
  }
}
