/**
 Which files the walks reach, said of the tree alone: a file is reached exactly by a chain of
 directories from the root, none of them ignored or a link, and discovery stops at its depth.
 */
module WalkReach {
  import opened Prelude
  import opened Sorting
  import opened Discovery
  import opened Integrity

  /** The subdirectory may be walked into. */
  predicate Walkable(d: Directory) {
    !d.isLink && d.name !in IGNORED_DIRS
  }

  /** The names lead from the directory to the file, through walkable directories. */
  ghost predicate Leads(d: Directory, parts: seq<string>, file: FileEntry) {
    if |parts| == 0 then false
    else if |parts| == 1 then file in d.files && file.name == parts[0]
    else exists i :: 0 <= i < |d.subdirs| && LeadsInto(d.subdirs[i], parts, file)
  }

  ghost predicate LeadsInto(sub: Directory, parts: seq<string>, file: FileEntry)
    requires |parts| > 1
  {
    Walkable(sub) && sub.name == parts[0] && Leads(sub, parts[1..], file)
  }

  ghost predicate LeadsThrough(ds: seq<Directory>, parts: seq<string>, file: FileEntry)
    requires |parts| > 1
  {
    exists i :: 0 <= i < |ds| && LeadsInto(ds[i], parts, file)
  }

  lemma LeadsThroughFirst(ds: seq<Directory>, parts: seq<string>, file: FileEntry)
    requires |parts| > 1 && ds != []
    ensures LeadsThrough(ds, parts, file) <==> LeadsInto(ds[0], parts, file) || LeadsThrough(ds[1..], parts, file)
  {
    if i :| 0 < i < |ds| && LeadsInto(ds[i], parts, file) {
      assert LeadsInto(ds[1..][i - 1], parts, file);
    }
    if i :| 0 <= i < |ds| - 1 && LeadsInto(ds[1..][i], parts, file) {
      assert LeadsInto(ds[i + 1], parts, file);
    }
  }

  /** The path of a file below a visited directory, as names from that directory. */
  predicate Extends(prefix: seq<string>, parts: seq<string>) {
    |prefix| < |parts| && parts[..|prefix|] == prefix
  }

  lemma LocatedIff(prefix: seq<string>, files: seq<FileEntry>, f: Located)
    ensures f in LocatedIn(prefix, files) <==> f.file in files && f.parts == prefix + [f.file.name]
  {
    if f.file in files && f.parts == prefix + [f.file.name] {
      var i :| 0 <= i < |files| && files[i] == f.file;
      assert LocatedIn(prefix, files)[i] == f;
    }
  }

  /** Going down one directory. */
  lemma Down(prefix: seq<string>, d: Directory, f: Located)
    ensures Extends(prefix + [d.name], f.parts)
            <==> Extends(prefix, f.parts) && |f.parts| > |prefix| + 1 && f.parts[|prefix|] == d.name
    ensures Extends(prefix + [d.name], f.parts) ==>
              f.parts[|prefix|..][1..] == f.parts[|prefix + [d.name]|..]
  {
    if Extends(prefix, f.parts) && |f.parts| > |prefix| + 1 && f.parts[|prefix|] == d.name {
      assert f.parts[..|prefix| + 1] == prefix + [d.name];
    }
    if Extends(prefix + [d.name], f.parts) {
      assert f.parts[..|prefix|] == f.parts[..|prefix| + 1][..|prefix|] == prefix;
      assert f.parts[|prefix|] == f.parts[..|prefix| + 1][|prefix|] == d.name;
    }
  }

  // ----------------------------------------------------------- the hash's walk

  ghost predicate ReachedFrom(v: Visit, f: Located) {
    Extends(v.parts, f.parts) && Leads(v.dir, f.parts[|v.parts|..], f.file)
  }

  ghost predicate ReachedThrough(ds: seq<Directory>, prefix: seq<string>, f: Located) {
    && Extends(prefix, f.parts) && |f.parts| > |prefix| + 1
    && LeadsThrough(ds, f.parts[|prefix|..], f.file)
  }

  lemma HereOrBelow(v: Visit, f: Located)
    ensures ReachedFrom(v, f)
            <==> (f.file in v.dir.files && f.parts == v.parts + [f.file.name])
                 || ReachedThrough(v.dir.subdirs, v.parts, f)
  {
    if Extends(v.parts, f.parts) {
      assert f.parts == v.parts + f.parts[|v.parts|..];
    }
  }

  /** The integrity hash covers a file exactly when names lead to it, at any depth. */
  lemma {:induction false} HashedIff(v: Visit, f: Located)
    ensures f in AllFiles(v) <==> ReachedFrom(v, f)
    decreases v.dir, 1
  {
    LocatedIff(v.parts, v.dir.files, f);
    HashedThroughIff(v.dir.subdirs, v.parts, f);
    HereOrBelow(v, f);
  }

  lemma {:induction false} HashedThroughIff(ds: seq<Directory>, prefix: seq<string>, f: Located)
    ensures f in AllFilesOf(VisitsIn(ds, prefix)) <==> ReachedThrough(ds, prefix, f)
    decreases ds, 0
  {
    if ds == [] {
      assert VisitsIn(ds, prefix) == [];
    } else {
      HashedThroughIff(ds[1..], prefix, f);
      VisitsInFirst(ds, prefix);
      Down(prefix, ds[0], f);
      if |f.parts| > |prefix| + 1 {
        LeadsThroughFirst(ds, f.parts[|prefix|..], f.file);
      }
      if Entered(ds[0]) {
        var first := Visit(ds[0], prefix + [ds[0].name]);
        HashedIff(first, f);
        AllFilesOfFirst(first, VisitsIn(ds[1..], prefix));
      }
    }
  }

  // --------------------------------------------------------- discovery's walk

  /** The file is not ignored, and its directory not too deep. */
  predicate InSight(settings: Settings, f: Located) {
    f.file.name !in IGNORED_FILES && |f.parts| - 1 <= settings.maxDepth
  }

  lemma HereIff(v: Visit, f: Located)
    ensures f in FilesHere(v) <==>
            f.file in v.dir.files && f.parts == v.parts + [f.file.name] && f.file.name !in IGNORED_FILES
  {
    FilterMembers(Listed, Sort(NameLe, v.dir.files));
    SortMembers(NameLe, v.dir.files);
    LocatedIff(v.parts, Filter(Listed, Sort(NameLe, v.dir.files)), f);
  }

  lemma {:induction false} FoundFromIff(settings: Settings, v: Visit, f: Located)
    ensures f in FilesUnder(settings, v) <==> ReachedFrom(v, f) && InSight(settings, f)
    decreases v.dir, 1
  {
    if |v.parts| <= settings.maxDepth {
      HereIff(v, f);
      FoundThroughIff(settings, v.dir.subdirs, v.parts, f);
    }
    HereOrBelow(v, f);
  }

  lemma {:induction false} FoundThroughIff(settings: Settings, ds: seq<Directory>, prefix: seq<string>, f: Located)
    ensures f in FilesOf(settings, VisitsIn(ds, prefix)) <==> ReachedThrough(ds, prefix, f) && InSight(settings, f)
    decreases ds, 0
  {
    if ds == [] {
      assert VisitsIn(ds, prefix) == [];
    } else {
      FoundThroughIff(settings, ds[1..], prefix, f);
      VisitsInFirst(ds, prefix);
      Down(prefix, ds[0], f);
      if |f.parts| > |prefix| + 1 {
        LeadsThroughFirst(ds, f.parts[|prefix|..], f.file);
      }
      if Entered(ds[0]) {
        var first := Visit(ds[0], prefix + [ds[0].name]);
        FoundFromIff(settings, first, f);
        FilesOfConcat(settings, [first], VisitsIn(ds[1..], prefix));
        FilesOfOne(settings, first);
      }
    }
  }

  /**
   Discovery comes to a file of the tree exactly when names lead to it through directories
   that are neither ignored nor links, its own name is not ignored, and its directory lies
   within the depth limit; the hash covers it under the first condition alone.
   */
  lemma WalksReach(settings: Settings, root: Directory, f: Located)
    ensures f in FilesUnder(settings, Visit(root, [])) <==> Leads(root, f.parts, f.file) && InSight(settings, f)
    ensures f in Walk(root) <==> Leads(root, f.parts, f.file)
  {
    FoundFromIff(settings, Visit(root, []), f);
    HashedIff(Visit(root, []), f);
    assert f.parts[0..] == f.parts;
  }

  // ---------------------------------------------------------------- file order

  predicate ByName(a: Located, b: Located) {
    StringLe(a.file.name, b.file.name)
  }

  lemma {:induction false} FilterKeepsOrder(files: seq<FileEntry>)
    requires SortedBy(NameLe, files)
    ensures SortedBy(NameLe, Filter(Listed, files))
  {
    if files != [] {
      FilterKeepsOrder(files[1..]);
      FilterMembers(Listed, files[1..]);
      forall i | 0 <= i < |Filter(Listed, files[1..])| ensures NameLe(files[0], Filter(Listed, files[1..])[i]) {
        var f := Filter(Listed, files[1..])[i];
        assert f in files[1..];
        var j :| 0 <= j < |files| - 1 && files[1..][j] == f;
        assert files[j + 1] == f;
      }
    }
  }

  /** The files of one directory are handled in the order of their names. */
  lemma FilesComeByName(v: Visit)
    ensures forall i, j :: 0 <= i < j < |FilesHere(v)| ==> ByName(FilesHere(v)[i], FilesHere(v)[j])
  {
    NameOrder();
    SortSorts(NameLe, v.dir.files);
    FilterKeepsOrder(Sort(NameLe, v.dir.files));
  }

  lemma NameOrder()
    ensures TotalPreorder(NameLe)
  {
    StringOrder();
    forall a: FileEntry, b: FileEntry ensures NameLe(a, b) || NameLe(b, a) {
      StringLeTotal(a.name, b.name);
    }
    forall a: FileEntry, b: FileEntry, c: FileEntry | NameLe(a, b) && NameLe(b, c) ensures NameLe(a, c) {
      StringLeTransitive(a.name, b.name, c.name);
    }
  }
}
