/**
 File discovery (scanners/file_discovery.py::discover_files): a top-down walk that
 prunes ignored directories and sorts every file into the inventory or the skipped list.

 A directory tree records, for each file, what the file system answers when asked.
 */
module Discovery {
  import opened Prelude
  import opened Sorting
  import opened Text

  datatype Link =
    | NotALink
    | LinkInside                 // resolves to the root or below it
    | LinkOutside
    | LinkUnresolvable           // resolving raises OSError
    | LinkUnknown                // asking whether it is a link raises OSError

  datatype FileEntry = FileEntry(
    name: string,
    link: Link,
    size: Option<nat>,           // stat().st_size, or OSError
    content: Option<string>)     // the bytes read, or OSError

  datatype Directory = Directory(name: string, isLink: bool, files: seq<FileEntry>, subdirs: seq<Directory>)

  datatype Settings = Settings(
    maxDepth: int,
    maxFileCount: int,
    maxFileSize: int,
    maxTotalSize: int,
    followSymlinks: bool,
    lower: string -> string,     // str.lower
    digest: string -> string)    // SHA-256 of a file's bytes, in hexadecimal

  datatype SkipReason = SizeLimit | TotalSizeLimit | CountLimit | Symlink | Unreadable | UnsupportedType

  datatype Item = Item(relativePath: string, fileName: string, extension: string, sizeBytes: nat, contentHash: string)

  datatype Skipped = Skipped(relativePath: string, reason: SkipReason)

  datatype Result = Result(inventory: seq<Item>, skipped: seq<Skipped>, totalFound: nat, totalBytes: nat,
                           truncated: bool)

  const EMPTY_RESULT := Result([], [], 0, 0, false)

  const IGNORED_DIRS: set<string> := {
    ".git", ".github", "node_modules", "venv", ".venv", "env", "__pycache__", ".pytest_cache", ".mypy_cache",
    "coverage", "dist", "build", "target", "bin", "obj", ".idea", ".vscode", ".tox", ".eggs", "htmlcov"}

  const IGNORED_FILES: set<string> := {".coverage", ".DS_Store", "Thumbs.db"}

  const SUPPORTED_EXTENSIONS: set<string> := {
    ".py", ".js", ".jsx", ".ts", ".tsx", ".java", ".cs", ".go", ".sh", ".bash", ".ps1", ".sql", ".json", ".yaml",
    ".yml", ".xml", ".toml", ".ini", ".cfg", ".conf", ".md", ".txt", ".csv", ".tf", ".tfvars", ".env",
    ".properties", ".dockerfile"}

  const SUPPORTED_NAMES: set<string> := {"Dockerfile", "docker-compose.yml", "docker-compose.yaml", "Makefile"}

  /** The index of the last `.`, or -1. */
  function LastDot(name: string): (i: int)
    ensures -1 <= i < |name|
  {
    if name == [] then -1
    else if name[|name| - 1] == '.' then |name| - 1
    else LastDot(name[..|name| - 1])
  }

  /** `Path(name).suffix` */
  function Suffix(name: string): string {
    var i := LastDot(name);
    if 0 < i < |name| - 1 then name[i..] else ""
  }

  predicate Supported(settings: Settings, name: string) {
    name in SUPPORTED_NAMES || settings.lower(Suffix(name)) in SUPPORTED_EXTENSIONS
  }

  // ---------------------------------------------------------------- the walk

  /** A directory reached by the walk, with the names leading to it. */
  datatype Visit = Visit(dir: Directory, parts: seq<string>)

  /** A file the walk comes to. */
  datatype Located = Located(parts: seq<string>, file: FileEntry)

  function Posix(parts: seq<string>): string {
    Join("/", parts)
  }

  predicate Entered(d: Directory) {
    d.name !in IGNORED_DIRS && !d.isLink
  }

  /** What `dir_names` holds after pruning, minus the links `os.walk` does not follow. */
  function Children(v: Visit): seq<Visit> {
    VisitsIn(v.dir.subdirs, v.parts)
  }

  function VisitsIn(ds: seq<Directory>, parts: seq<string>): seq<Visit> {
    Map((d: Directory) => Visit(d, parts + [d.name]), Filter(Entered, ds))
  }

  lemma VisitsInFirst(ds: seq<Directory>, parts: seq<string>)
    requires ds != []
    ensures VisitsIn(ds, parts) ==
            if Entered(ds[0]) then [Visit(ds[0], parts + [ds[0].name])] + VisitsIn(ds[1..], parts)
            else VisitsIn(ds[1..], parts)
  {}

  predicate NameLe(a: FileEntry, b: FileEntry) {
    StringLe(a.name, b.name)
  }

  predicate Listed(f: FileEntry) {
    f.name !in IGNORED_FILES
  }

  /** The files of one directory in the order they are handled. */
  function FilesHere(v: Visit): seq<Located> {
    LocatedIn(v.parts, Filter(Listed, Sort(NameLe, v.dir.files)))
  }

  function LocatedIn(parts: seq<string>, files: seq<FileEntry>): seq<Located> {
    Map((f: FileEntry) => Located(parts + [f.name], f), files)
  }

  function Size(d: Directory): nat {
    1 + SizeOfAll(d.subdirs)
  }

  function SizeOfAll(ds: seq<Directory>): nat {
    if ds == [] then 0 else Size(ds[0]) + SizeOfAll(ds[1..])
  }

  function VisitSize(vs: seq<Visit>): nat {
    if vs == [] then 0 else Size(vs[0].dir) + VisitSize(vs[1..])
  }

  lemma {:induction false} VisitsInSize(ds: seq<Directory>, parts: seq<string>)
    ensures VisitSize(VisitsIn(ds, parts)) <= SizeOfAll(ds)
  {
    if ds == [] {
      assert VisitsIn(ds, parts) == [];
    } else {
      VisitsInSize(ds[1..], parts);
      VisitsInFirst(ds, parts);
      if Entered(ds[0]) {
        assert VisitsIn(ds, parts)[1..] == VisitsIn(ds[1..], parts);
      }
    }
  }

  lemma ChildrenAreSmaller(v: Visit)
    ensures VisitSize(Children(v)) < Size(v.dir)
  {
    VisitsInSize(v.dir.subdirs, v.parts);
  }

  /** Every file below a directory that discovery handles, in walk order. */
  function FilesUnder(settings: Settings, v: Visit): seq<Located>
    decreases Size(v.dir), 0
  {
    if |v.parts| > settings.maxDepth then []
    else
      ChildrenAreSmaller(v);
      FilesHere(v) + FilesOf(settings, Children(v))
  }

  function FilesOf(settings: Settings, vs: seq<Visit>): seq<Located>
    decreases VisitSize(vs), 1
  {
    if vs == [] then [] else FilesUnder(settings, vs[0]) + FilesOf(settings, vs[1..])
  }

  lemma {:induction false} FilesOfConcat(settings: Settings, a: seq<Visit>, b: seq<Visit>)
    ensures FilesOf(settings, a + b) == FilesOf(settings, a) + FilesOf(settings, b)
    decreases |a|
  {
    if a == [] {
      assert a + b == b;
    } else {
      FilesOfConcat(settings, a[1..], b);
      assert (a + b)[1..] == a[1..] + b;
      AppendAssociates(FilesUnder(settings, a[0]), FilesOf(settings, a[1..]), FilesOf(settings, b));
    }
  }

  lemma {:induction false} VisitSizeConcat(a: seq<Visit>, b: seq<Visit>)
    ensures VisitSize(a + b) == VisitSize(a) + VisitSize(b)
    decreases |a|
  {
    if a == [] {
      assert a + b == b;
    } else {
      VisitSizeConcat(a[1..], b);
      assert (a + b)[1..] == a[1..] + b;
    }
  }

  // ------------------------------------------------------------ one file's fate

  function Skip(r: Result, path: string, reason: SkipReason): Result {
    r.(skipped := r.skipped + [Skipped(path, reason)])
  }

  /** The checks of one file, in order; `r` already counts the file. */
  function Classify(settings: Settings, r: Result, f: Located): Result {
    var path := Posix(f.parts);
    if r.totalFound > settings.maxFileCount then Skip(r, path, CountLimit).(truncated := true)
    else if f.file.link == LinkUnknown then Skip(r, path, Unreadable)
    else if f.file.link != NotALink && !settings.followSymlinks then Skip(r, path, Symlink)
    else if f.file.link == LinkUnresolvable then Skip(r, path, Unreadable)
    else if f.file.link == LinkOutside then Skip(r, path, Symlink)
    else if f.file.size.None? then Skip(r, path, Unreadable)
    else if f.file.size.value > settings.maxFileSize then Skip(r, path, SizeLimit)
    else if r.totalBytes + f.file.size.value > settings.maxTotalSize then
      Skip(r, path, TotalSizeLimit).(truncated := true)
    else if !Supported(settings, f.file.name) then Skip(r, path, UnsupportedType)
    else if f.file.content.None? then Skip(r, path, Unreadable)
    else
      r.(totalBytes := r.totalBytes + f.file.size.value,
         inventory := r.inventory + [Item(path, f.file.name, settings.lower(Suffix(f.file.name)), f.file.size.value,
                                          settings.digest(f.file.content.value))])
  }

  function Handle(settings: Settings, r: Result, f: Located): Result {
    Classify(settings, r.(totalFound := r.totalFound + 1), f)
  }

  function HandleAll(settings: Settings, files: seq<Located>): Result {
    if files == [] then EMPTY_RESULT
    else Handle(settings, HandleAll(settings, files[..|files| - 1]), files[|files| - 1])
  }

  function Discover(settings: Settings, root: Directory): Result {
    HandleAll(settings, FilesUnder(settings, Visit(root, [])))
  }

  // ----------------------------------------------------------- one file's verdict

  /** The link, if it is one, may be followed to a file below the root. */
  predicate Followable(settings: Settings, f: FileEntry) {
    match f.link
    case NotALink => true
    case LinkInside => settings.followSymlinks
    case _ => false
  }

  /** Refused as a link: links are not followed, or this one leaves the root. */
  predicate RefusedLink(settings: Settings, f: FileEntry) {
    match f.link
    case NotALink => false
    case LinkUnknown => false
    case LinkOutside => true
    case _ => !settings.followSymlinks
  }

  predicate HasSize(f: FileEntry, limit: int) {
    f.size.Some? && f.size.value <= limit
  }

  /** The inventory entry shows this file. */
  predicate ShowsFile(settings: Settings, item: Item, f: Located) {
    && item.relativePath == Posix(f.parts)
    && item.fileName == f.file.name
    && item.extension == settings.lower(Suffix(f.file.name))
    && f.file.size == Some(item.sizeBytes)
    && f.file.content.Some? && item.contentHash == settings.digest(f.file.content.value)
  }

  /**
   Why a file is skipped, when `n` files have been found with it and `bytes` are taken: too
   many files; a refused link; a file, or where it leads, that cannot be read; too large for
   the file limit or for what is left of the total; or of no supported kind.
   */
  predicate SkippedFor(settings: Settings, f: FileEntry, n: nat, bytes: nat, reason: SkipReason) {
    if n > settings.maxFileCount then reason == CountLimit
    else if RefusedLink(settings, f) then reason == Symlink
    else if !Followable(settings, f) || f.size.None? then reason == Unreadable
    else if !HasSize(f, settings.maxFileSize) then reason == SizeLimit
    else if !HasSize(f, settings.maxTotalSize - bytes) then reason == TotalSizeLimit
    else if !Supported(settings, f.name) then reason == UnsupportedType
    else f.content.None? && reason == Unreadable
  }

  /** Nothing speaks against the file. */
  predicate Scannable(settings: Settings, f: FileEntry, n: nat, bytes: nat) {
    && n <= settings.maxFileCount
    && Followable(settings, f)
    && HasSize(f, settings.maxFileSize) && HasSize(f, settings.maxTotalSize - bytes)
    && Supported(settings, f.name)
    && f.content.Some?
  }

  /** Each file found is inventoried when nothing speaks against it, and skipped for its reason otherwise. */
  ghost predicate HandledRight(settings: Settings, r: Result, f: Located, after: Result) {
    && after.totalFound == r.totalFound + 1
    && if Scannable(settings, f.file, r.totalFound + 1, r.totalBytes) then
         && |after.inventory| == |r.inventory| + 1 && r.inventory <= after.inventory
         && ShowsFile(settings, after.inventory[|r.inventory|], f)
         && after.skipped == r.skipped && after.truncated == r.truncated
         && after.totalBytes == r.totalBytes + f.file.size.value
       else
         && after.inventory == r.inventory && after.totalBytes == r.totalBytes
         && |after.skipped| == |r.skipped| + 1 && r.skipped <= after.skipped
         && var skip := after.skipped[|r.skipped|];
            && skip.relativePath == Posix(f.parts)
            && SkippedFor(settings, f.file, r.totalFound + 1, r.totalBytes, skip.reason)
            && (after.truncated <==> r.truncated || skip.reason == CountLimit || skip.reason == TotalSizeLimit)
  }

  lemma EveryFileIsHandledRight(settings: Settings, r: Result, f: Located)
    ensures HandledRight(settings, r, f, Handle(settings, r, f))
  {}

  /** The body of the inner loop; each early return is one of its eight exits. */
  method HandleFile(settings: Settings, sofar: Result, f: Located) returns (r: Result)
    ensures r == Handle(settings, sofar, f)
    ensures HandledRight(settings, sofar, f, r)
  {
    EveryFileIsHandledRight(settings, sofar, f);
    r := sofar.(totalFound := sofar.totalFound + 1);
    var path := Posix(f.parts);
    if r.totalFound > settings.maxFileCount {
      r := r.(skipped := r.skipped + [Skipped(path, CountLimit)]);
      r := r.(truncated := true);
      return;
    }
    if f.file.link == LinkUnknown {
      r := r.(skipped := r.skipped + [Skipped(path, Unreadable)]);
      return;
    }
    if f.file.link != NotALink {
      if !settings.followSymlinks {
        r := r.(skipped := r.skipped + [Skipped(path, Symlink)]);
        return;
      }
      if f.file.link == LinkUnresolvable {
        r := r.(skipped := r.skipped + [Skipped(path, Unreadable)]);
        return;
      }
      if f.file.link == LinkOutside {
        r := r.(skipped := r.skipped + [Skipped(path, Symlink)]);
        return;
      }
    }
    if f.file.size.None? {
      r := r.(skipped := r.skipped + [Skipped(path, Unreadable)]);
      return;
    }
    var size := f.file.size.value;
    if size > settings.maxFileSize {
      r := r.(skipped := r.skipped + [Skipped(path, SizeLimit)]);
      return;
    }
    if r.totalBytes + size > settings.maxTotalSize {
      r := r.(skipped := r.skipped + [Skipped(path, TotalSizeLimit)]);
      r := r.(truncated := true);
      return;
    }
    if !Supported(settings, f.file.name) {
      r := r.(skipped := r.skipped + [Skipped(path, UnsupportedType)]);
      return;
    }
    if f.file.content.None? {
      r := r.(skipped := r.skipped + [Skipped(path, Unreadable)]);
      return;
    }
    r := r.(totalBytes := r.totalBytes + size);
    r := r.(inventory := r.inventory + [Item(path, f.file.name, settings.lower(Suffix(f.file.name)), size,
                                             settings.digest(f.file.content.value))]);
  }

  lemma FilesOfOne(settings: Settings, v: Visit)
    ensures FilesOf(settings, [v]) == FilesUnder(settings, v)
  {
    assert [v][1..] == [];
    assert FilesOf(settings, []) == [];
  }

  lemma HandleAllSnoc(settings: Settings, files: seq<Located>, f: Located)
    ensures HandleAll(settings, files + [f]) == Handle(settings, HandleAll(settings, files), f)
  {
    assert (files + [f])[..|files|] == files;
  }

  lemma FilesOfShallow(settings: Settings, v: Visit, more: seq<Located>)
    requires |v.parts| <= settings.maxDepth
    ensures FilesUnder(settings, v) + more == FilesHere(v) + (FilesOf(settings, Children(v)) + more)
  {
    AppendAssociates(FilesHere(v), FilesOf(settings, Children(v)), more);
  }

  /** One popped directory, re-expanded into its own files and its children. */
  lemma Expand(settings: Settings, pending: seq<Visit>)
    requires pending != []
    ensures FilesOf(settings, pending) ==
            if |pending[0].parts| > settings.maxDepth then FilesOf(settings, pending[1..])
            else FilesHere(pending[0]) + FilesOf(settings, Children(pending[0]) + pending[1..])
  {
    if |pending[0].parts| <= settings.maxDepth {
      FilesOfShallow(settings, pending[0], FilesOf(settings, pending[1..]));
      FilesOfConcat(settings, Children(pending[0]), pending[1..]);
    }
  }

  lemma ExpandShrinks(pending: seq<Visit>)
    requires pending != []
    ensures VisitSize(Children(pending[0]) + pending[1..]) < VisitSize(pending)
    ensures VisitSize(pending[1..]) < VisitSize(pending)
  {
    ChildrenAreSmaller(pending[0]);
    VisitSizeConcat(Children(pending[0]), pending[1..]);
  }

  /** The inner loop: the files of one directory, after those already handled. */
  method HandleFiles(settings: Settings, sofar: Result, ghost handled: seq<Located>, here: seq<Located>)
      returns (r: Result)
    requires sofar == HandleAll(settings, handled)
    ensures r == HandleAll(settings, handled + here)
  {
    r := sofar;
    assert handled + here[..0] == handled;
    for i := 0 to |here|
      invariant r == HandleAll(settings, handled + here[..i])
    {
      HandleOneMore(settings, handled, here, i);
      r := HandleFile(settings, r, here[i]);
    }
    assert here[..|here|] == here;
  }

  lemma HandleOneMore(settings: Settings, handled: seq<Located>, here: seq<Located>, i: nat)
    requires i < |here|
    ensures HandleAll(settings, handled + here[..i + 1])
            == Handle(settings, HandleAll(settings, handled + here[..i]), here[i])
  {
    assert here[..i + 1] == here[..i] + [here[i]];
    AppendAssociates(handled, here[..i], [here[i]]);
    HandleAllSnoc(settings, handled + here[..i], here[i]);
  }

  /** What has been handled and what is pending make up the whole walk. */
  ghost predicate Remaining(settings: Settings, root: Directory, handled: seq<Located>, pending: seq<Visit>) {
    handled + FilesOf(settings, pending) == FilesUnder(settings, Visit(root, []))
  }

  lemma Advance(settings: Settings, root: Directory, handled: seq<Located>, pending: seq<Visit>)
    requires Remaining(settings, root, handled, pending) && pending != []
    ensures if |pending[0].parts| > settings.maxDepth then Remaining(settings, root, handled, pending[1..])
            else Remaining(settings, root, handled + FilesHere(pending[0]), Children(pending[0]) + pending[1..])
  {
    Expand(settings, pending);
    if |pending[0].parts| <= settings.maxDepth {
      AppendAssociates(handled, FilesHere(pending[0]), FilesOf(settings, Children(pending[0]) + pending[1..]));
    }
  }

  lemma WalkStarts(settings: Settings, root: Directory)
    ensures Remaining(settings, root, [], [Visit(root, [])])
  {
    FilesOfOne(settings, Visit(root, []));
    assert [] + FilesUnder(settings, Visit(root, [])) == FilesUnder(settings, Visit(root, []));
  }

  lemma WalkEnds(settings: Settings, root: Directory, handled: seq<Located>)
    requires Remaining(settings, root, handled, [])
    ensures HandleAll(settings, handled) == Discover(settings, root)
  {
    assert handled + [] == handled;
  }

  method DiscoverFiles(settings: Settings, root: Directory) returns (r: Result)
    ensures r == Discover(settings, root)
  {
    r := EMPTY_RESULT;
    var pending := [Visit(root, [])];
    ghost var handled: seq<Located> := [];
    WalkStarts(settings, root);
    while pending != []
      invariant r == HandleAll(settings, handled)
      invariant Remaining(settings, root, handled, pending)
      decreases VisitSize(pending)
    {
      Advance(settings, root, handled, pending);
      ExpandShrinks(pending);
      var current := pending[0];
      if |current.parts| > settings.maxDepth {
        pending := pending[1..];
      } else {
        var here := FilesHere(current);
        r := HandleFiles(settings, r, handled, here);
        handled := handled + here;
        pending := Children(current) + pending[1..];
      }
    }
    WalkEnds(settings, root, handled);
  }

  // ------------------------------------------------------------ what it yields

  /** A count of the visible files by the shape of the tree alone. */
  function VisibleCount(settings: Settings, d: Directory, depth: nat): nat
    decreases d
  {
    if depth > settings.maxDepth then 0
    else Count(Listed, d.files) + VisibleCountAll(settings, d.subdirs, depth + 1)
  }

  function VisibleCountAll(settings: Settings, ds: seq<Directory>, depth: nat): nat
    decreases ds
  {
    if ds == [] then 0
    else
      (if Entered(ds[0]) then VisibleCount(settings, ds[0], depth) else 0)
      + VisibleCountAll(settings, ds[1..], depth)
  }

  lemma {:induction false} WalkReachesEveryVisibleFile(settings: Settings, v: Visit)
    ensures |FilesUnder(settings, v)| == VisibleCount(settings, v.dir, |v.parts|)
    decreases v.dir, 1
  {
    if |v.parts| <= settings.maxDepth {
      ChildrenAreSmaller(v);
      FilterLength(Listed, Sort(NameLe, v.dir.files));
      SortPermutes(NameLe, v.dir.files);
      CountPermutation(Listed, Sort(NameLe, v.dir.files), v.dir.files);
      SubdirsReached(settings, v.dir.subdirs, v.parts);
    }
  }

  lemma {:induction false} SubdirsReached(settings: Settings, ds: seq<Directory>, parts: seq<string>)
    ensures |FilesOf(settings, VisitsIn(ds, parts))| == VisibleCountAll(settings, ds, |parts| + 1)
    decreases ds, 0
  {
    if ds == [] {
      assert VisitsIn(ds, parts) == [];
    } else {
      SubdirsReached(settings, ds[1..], parts);
      VisitsInFirst(ds, parts);
      if Entered(ds[0]) {
        var first := Visit(ds[0], parts + [ds[0].name]);
        WalkReachesEveryVisibleFile(settings, first);
        FilesOfConcat(settings, [first], VisitsIn(ds[1..], parts));
        FilesOfOne(settings, first);
      }
    }
  }

  function TotalSize(inventory: seq<Item>): nat {
    if inventory == [] then 0 else TotalSize(inventory[..|inventory| - 1]) + inventory[|inventory| - 1].sizeBytes
  }

  predicate BudgetSkip(s: Skipped) {
    s.reason == CountLimit || s.reason == TotalSizeLimit
  }

  ghost predicate SomeBudgetSkip(skipped: seq<Skipped>) {
    exists s :: s in skipped && BudgetSkip(s)
  }

  /** The accounting a discovery result always satisfies. */
  ghost predicate Accounts(settings: Settings, r: Result, files: nat) {
    && r.totalFound == |r.inventory| + |r.skipped| == files
    && r.totalBytes == TotalSize(r.inventory)
    && (r.inventory != [] ==> r.totalBytes <= settings.maxTotalSize && |r.inventory| <= settings.maxFileCount)
    && (r.truncated <==> SomeBudgetSkip(r.skipped))
  }

  lemma SkipSnoc(skipped: seq<Skipped>, s: Skipped)
    ensures SomeBudgetSkip(skipped + [s]) <==> SomeBudgetSkip(skipped) || BudgetSkip(s)
  {
    assert s in skipped + [s];
    if SomeBudgetSkip(skipped) {
      var earlier :| earlier in skipped && BudgetSkip(earlier);
      assert earlier in skipped + [s];
    }
  }

  /** What handling one file can do: append one skip, or append one item. */
  ghost predicate OneMore(settings: Settings, r: Result, after: Result, f: Located) {
    && after.totalFound == r.totalFound + 1
    && if |after.skipped| == |r.skipped| then
         && after.skipped == r.skipped
         && after.truncated == r.truncated
         && |after.inventory| == |r.inventory| + 1
         && var item := after.inventory[|r.inventory|];
            && after.inventory == r.inventory + [item]
            && Inventoried(settings, item, f)
            && after.totalBytes == r.totalBytes + item.sizeBytes <= settings.maxTotalSize
            && after.totalFound <= settings.maxFileCount
       else
         && after.inventory == r.inventory
         && after.totalBytes == r.totalBytes
         && |after.skipped| == |r.skipped| + 1
         && var skip := after.skipped[|r.skipped|];
            && after.skipped == r.skipped + [skip]
            && skip.relativePath == Posix(f.parts)
            && after.truncated == (r.truncated || BudgetSkip(skip))
  }

  lemma HandleIsOneMore(settings: Settings, r: Result, f: Located)
    ensures OneMore(settings, r, Handle(settings, r, f), f)
  {}

  lemma OneMoreKeepsAccounts(settings: Settings, r: Result, after: Result, f: Located, files: nat)
    requires Accounts(settings, r, files) && OneMore(settings, r, after, f)
    ensures Accounts(settings, after, files + 1)
  {
    if |after.skipped| > |r.skipped| {
      SkipSnoc(r.skipped, after.skipped[|r.skipped|]);
    } else {
      assert after.inventory[..|r.inventory|] == r.inventory;
    }
  }

  lemma {:induction false} HandleAllAccounts(settings: Settings, files: seq<Located>)
    ensures Accounts(settings, HandleAll(settings, files), |files|)
  {
    if files != [] {
      HandleAllAccounts(settings, files[..|files| - 1]);
      var r, f := HandleAll(settings, files[..|files| - 1]), files[|files| - 1];
      HandleIsOneMore(settings, r, f);
      OneMoreKeepsAccounts(settings, r, Handle(settings, r, f), f, |files| - 1);
    }
  }

  /**
   Nothing goes missing: over any tree and any limits, the files found are exactly the
   inventoried and the skipped ones and number the non-ignored files at allowed depth
   outside ignored directories; total bytes is the sum of the inventoried sizes and stays
   within the budget, the inventory within the count limit; and `truncated` holds exactly
   when some file was skipped for the count or the total-size limit.
   */
  lemma DiscoveryAccountsForEveryFile(settings: Settings, root: Directory)
    ensures Accounts(settings, Discover(settings, root), VisibleCount(settings, root, 0))
  {
    HandleAllAccounts(settings, FilesUnder(settings, Visit(root, [])));
    WalkReachesEveryVisibleFile(settings, Visit(root, []));
  }

  // ----------------------------------------------------- which file went where

  function ItemPaths(inventory: seq<Item>): seq<string> {
    Map((i: Item) => i.relativePath, inventory)
  }

  function SkippedPaths(skipped: seq<Skipped>): seq<string> {
    Map((s: Skipped) => s.relativePath, skipped)
  }

  function FilePaths(files: seq<Located>): seq<string> {
    Map((f: Located) => Posix(f.parts), files)
  }

  lemma OneMorePath(settings: Settings, r: Result, after: Result, f: Located)
    requires OneMore(settings, r, after, f)
    ensures multiset(ItemPaths(after.inventory)) + multiset(SkippedPaths(after.skipped))
            == multiset(ItemPaths(r.inventory)) + multiset(SkippedPaths(r.skipped)) + multiset{Posix(f.parts)}
  {
    if |after.skipped| > |r.skipped| {
      MapConcat((s: Skipped) => s.relativePath, r.skipped, [after.skipped[|r.skipped|]]);
      assert SkippedPaths(after.skipped) == SkippedPaths(r.skipped) + [Posix(f.parts)];
    } else {
      MapConcat((i: Item) => i.relativePath, r.inventory, [after.inventory[|r.inventory|]]);
      assert ItemPaths(after.inventory) == ItemPaths(r.inventory) + [Posix(f.parts)];
    }
  }

  lemma OneMoreEnds(settings: Settings, r: Result, f: Located)
    ensures var after := Handle(settings, r, f);
            multiset(ItemPaths(after.inventory)) + multiset(SkippedPaths(after.skipped))
            == multiset(ItemPaths(r.inventory)) + multiset(SkippedPaths(r.skipped)) + multiset{Posix(f.parts)}
  {
    HandleIsOneMore(settings, r, f);
    OneMorePath(settings, r, Handle(settings, r, f), f);
  }

  lemma FilePathsSnoc(files: seq<Located>, f: Located)
    ensures multiset(FilePaths(files + [f])) == multiset(FilePaths(files)) + multiset{Posix(f.parts)}
  {
    assert FilePaths(files + [f]) == FilePaths(files) + [Posix(f.parts)];
  }

  /** Every file found ends in exactly one of the two lists, under its own path. */
  lemma {:induction false} EveryFileEndsOnce(settings: Settings, files: seq<Located>)
    ensures var r := HandleAll(settings, files);
            multiset(ItemPaths(r.inventory)) + multiset(SkippedPaths(r.skipped)) == multiset(FilePaths(files))
  {
    if files != [] {
      var before, last := files[..|files| - 1], files[|files| - 1];
      EveryFileEndsOnce(settings, before);
      OneMoreEnds(settings, HandleAll(settings, before), last);
      FilePathsSnoc(before, last);
      assert files == before + [last];
    }
  }

  /** What put an item into the inventory. */
  ghost predicate Inventoried(settings: Settings, item: Item, f: Located) {
    && item.relativePath == Posix(f.parts)
    && (f.file.link == NotALink || (settings.followSymlinks && f.file.link == LinkInside))
    && f.file.size == Some(item.sizeBytes)
    && item.sizeBytes <= settings.maxFileSize
    && Supported(settings, f.file.name)
    && f.file.content.Some?
    && item.contentHash == settings.digest(f.file.content.value)
  }

  lemma {:induction false} InventoryComesFromFiles(settings: Settings, files: seq<Located>)
    ensures forall item :: item in HandleAll(settings, files).inventory ==>
              exists f :: f in files && Inventoried(settings, item, f)
  {
    if files != [] {
      var n := |files| - 1;
      InventoryComesFromFiles(settings, files[..n]);
      var before := HandleAll(settings, files[..n]).inventory;
      forall item | item in HandleAll(settings, files).inventory
        ensures exists f :: f in files && Inventoried(settings, item, f) {
        if item in before {
          var f :| f in files[..n] && Inventoried(settings, item, f);
          assert f in files;
        } else {
          assert Inventoried(settings, item, files[n]);
        }
      }
    }
  }

  // --------------------------------------------------------------- the limits

  /** A count of the non-ignored files outside ignored directories, whatever their depth. */
  function ListedCount(d: Directory): nat
    decreases d
  {
    Count(Listed, d.files) + ListedCountAll(d.subdirs)
  }

  function ListedCountAll(ds: seq<Directory>): nat
    decreases ds
  {
    if ds == [] then 0 else (if Entered(ds[0]) then ListedCount(ds[0]) else 0) + ListedCountAll(ds[1..])
  }

  /** Some non-ignored file outside ignored directories lies below the depth limit. */
  ghost predicate Hidden(settings: Settings, d: Directory, depth: nat)
    decreases d
  {
    || (depth > settings.maxDepth && exists f :: f in d.files && Listed(f))
    || exists i :: 0 <= i < |d.subdirs| && Entered(d.subdirs[i]) && Hidden(settings, d.subdirs[i], depth + 1)
  }

  ghost predicate HiddenInSome(settings: Settings, ds: seq<Directory>, depth: nat) {
    exists i :: 0 <= i < |ds| && Entered(ds[i]) && Hidden(settings, ds[i], depth)
  }

  lemma HiddenInFirst(settings: Settings, ds: seq<Directory>, depth: nat)
    requires ds != []
    ensures HiddenInSome(settings, ds, depth)
            <==> (Entered(ds[0]) && Hidden(settings, ds[0], depth)) || HiddenInSome(settings, ds[1..], depth)
  {
    if HiddenInSome(settings, ds[1..], depth) {
      var i :| 0 <= i < |ds| - 1 && Entered(ds[1..][i]) && Hidden(settings, ds[1..][i], depth);
      assert Entered(ds[i + 1]) && Hidden(settings, ds[i + 1], depth);
    }
    if i :| 0 < i < |ds| && Entered(ds[i]) && Hidden(settings, ds[i], depth) {
      assert Entered(ds[1..][i - 1]) && Hidden(settings, ds[1..][i - 1], depth);
    }
  }

  lemma {:induction false} NothingVisibleBelow(settings: Settings, ds: seq<Directory>, depth: nat)
    requires depth > settings.maxDepth
    ensures VisibleCountAll(settings, ds, depth) == 0
  {
    if ds != [] {
      NothingVisibleBelow(settings, ds[1..], depth);
    }
  }

  lemma {:induction false} HiddenIff(settings: Settings, d: Directory, depth: nat)
    ensures VisibleCount(settings, d, depth) <= ListedCount(d)
    ensures Hidden(settings, d, depth) <==> VisibleCount(settings, d, depth) < ListedCount(d)
    decreases d, 1
  {
    HiddenInSomeIff(settings, d.subdirs, depth + 1);
    CountPositiveIff(Listed, d.files);
    assert Hidden(settings, d, depth)
        <==> (depth > settings.maxDepth && Count(Listed, d.files) > 0) || HiddenInSome(settings, d.subdirs, depth + 1);
    if depth > settings.maxDepth {
      NothingVisibleBelow(settings, d.subdirs, depth + 1);
    }
  }

  lemma {:induction false} HiddenInSomeIff(settings: Settings, ds: seq<Directory>, depth: nat)
    ensures VisibleCountAll(settings, ds, depth) <= ListedCountAll(ds)
    ensures HiddenInSome(settings, ds, depth) <==> VisibleCountAll(settings, ds, depth) < ListedCountAll(ds)
    decreases ds, 0
  {
    if ds != [] {
      HiddenInSomeIff(settings, ds[1..], depth);
      HiddenIff(settings, ds[0], depth);
      HiddenInFirst(settings, ds, depth);
    }
  }

  /** The file comes to the test against the total-size budget, if it comes before the count limit. */
  predicate Weighed(settings: Settings, f: FileEntry) {
    && (f.link == NotALink || (settings.followSymlinks && f.link == LinkInside))
    && f.size.Some?
    && f.size.value <= settings.maxFileSize
  }

  /** The file goes into the inventory if no budget keeps it out. */
  predicate Wanted(settings: Settings, f: FileEntry) {
    Weighed(settings, f) && Supported(settings, f.name) && f.content.Some?
  }

  function WantedBytes(settings: Settings, files: seq<Located>): nat {
    if files == [] then 0
    else
      var last := files[|files| - 1].file;
      WantedBytes(settings, files[..|files| - 1]) + if Wanted(settings, last) then last.size.value else 0
  }

  /** File `k` alone does not fit beside all wanted files before it. */
  ghost predicate TooMuchAt(settings: Settings, files: seq<Located>, k: nat)
    requires k < |files|
  {
    && k < settings.maxFileCount
    && Weighed(settings, files[k].file)
    && WantedBytes(settings, files[..k]) + files[k].file.size.value > settings.maxTotalSize
  }

  /** More files than the count limit, or some file for which the total-size budget is too small. */
  ghost predicate OverBudget(settings: Settings, files: seq<Located>) {
    || (files != [] && |files| > settings.maxFileCount)
    || exists k :: 0 <= k < |files| && TooMuchAt(settings, files, k)
  }

  lemma OverBudgetSnoc(settings: Settings, files: seq<Located>)
    requires files != []
    ensures var n := |files| - 1;
            OverBudget(settings, files)
            <==> OverBudget(settings, files[..n]) || |files| > settings.maxFileCount || TooMuchAt(settings, files, n)
  {
    var n := |files| - 1;
    forall k | 0 <= k < n ensures TooMuchAt(settings, files, k) <==> TooMuchAt(settings, files[..n], k) {
      assert files[..n][..k] == files[..k];
    }
  }

  /** Until a budget cuts something, the bytes are those of the wanted files. */
  lemma {:induction false} TruncatedIff(settings: Settings, files: seq<Located>)
    ensures var r := HandleAll(settings, files);
            && r.totalFound == |files|
            && (r.truncated <==> OverBudget(settings, files))
            && (!r.truncated ==> r.totalBytes == WantedBytes(settings, files))
  {
    if files != [] {
      TruncatedIff(settings, files[..|files| - 1]);
      OverBudgetSnoc(settings, files);
    }
  }

  /** The tree, not the result, decides whether a budget cuts: by its visible files and their sizes. */
  ghost predicate TreeOverBudget(settings: Settings, root: Directory) {
    OverBudget(settings, FilesUnder(settings, Visit(root, [])))
  }

  /** Over the count limit means more visible files than the limit. */
  lemma TooManyFilesIff(settings: Settings, root: Directory)
    ensures var files := FilesUnder(settings, Visit(root, []));
            TreeOverBudget(settings, root)
            <==> || (VisibleCount(settings, root, 0) > 0 && VisibleCount(settings, root, 0) > settings.maxFileCount)
                 || exists k :: 0 <= k < |files| && TooMuchAt(settings, files, k)
  {
    WalkReachesEveryVisibleFile(settings, Visit(root, []));
  }

  /**
   What `truncated` tells, for any tree and any limits: it reports every file that was cut
   off, whether by a budget or by depth, if and only if the tree is over a budget or hides
   no file below the depth limit. Both can be read off the tree and the limits beforehand:
   the flag is set exactly when the tree is over a budget, and a file is cut by depth
   exactly when fewer files are found than the tree lists.
   */
  lemma TruncatedTellsIff(settings: Settings, root: Directory)
    ensures var r := Discover(settings, root);
            && (r.truncated <==> TreeOverBudget(settings, root))
            && (Hidden(settings, root, 0) <==> r.totalFound < ListedCount(root))
            && ((r.truncated <==> SomeBudgetSkip(r.skipped) || r.totalFound < ListedCount(root))
                <==> (TreeOverBudget(settings, root) || !Hidden(settings, root, 0)))
  {
    TruncatedIff(settings, FilesUnder(settings, Visit(root, [])));
    DiscoveryAccountsForEveryFile(settings, root);
    HiddenIff(settings, root, 0);
  }

  /**
   The failing case: a tree whose only files lie below the allowed depth yields
   an empty result that is not marked truncated.
   */
  lemma DepthLimitIsSilent(settings: Settings, deep: Directory)
    requires settings.maxDepth == 0 && Entered(deep)
    ensures Discover(settings, Directory("root", false, [], [deep])) == EMPTY_RESULT
  {
    var root := Directory("root", false, [], [deep]);
    WalkReachesEveryVisibleFile(settings, Visit(root, []));
    assert [deep][1..] == [];
    assert VisibleCountAll(settings, [], 1) == 0;
    assert VisibleCountAll(settings, [deep], 1) == 0;
  }
}
