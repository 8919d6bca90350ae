/**
 Which files discovery scans, said of their names; what becomes of each file it comes to; and
 the exact inventory of a walk that no budget cuts.
 */
module FileKinds {
  import opened Prelude
  import opened Discovery
  import Integrity

  // ------------------------------------------------------- names and extensions

  /** The name is a nonempty base, a dot and a nonempty extension without a dot. */
  predicate SplitsAs(name: string, base: string, ext: string) {
    name == base + "." + ext && base != [] && ext != [] && '.' !in ext
  }

  lemma {:induction false} LastDotIs(name: string, base: string, ext: string)
    requires name == base + "." + ext && '.' !in ext
    ensures LastDot(name) == |base|
  {
    if ext != [] {
      var n := |ext| - 1;
      assert name[..|name| - 1] == base + "." + ext[..n];
      LastDotIs(name[..|name| - 1], base, ext[..n]);
    }
  }

  lemma {:induction false} NoDot(name: string)
    ensures LastDot(name) == -1 <==> '.' !in name
    ensures LastDot(name) >= 0 ==> name[LastDot(name)] == '.' && '.' !in name[LastDot(name) + 1..]
  {
    if name != [] && name[|name| - 1] != '.' {
      var n := |name| - 1;
      NoDot(name[..n]);
      assert name == name[..n] + [name[n]];
      if LastDot(name) >= 0 {
        assert name[LastDot(name) + 1..] == name[..n][LastDot(name) + 1..] + [name[n]];
      }
    }
  }

  /** The suffix is the dotted extension of a name that has a base and an extension; other names have none. */
  lemma SuffixIff(name: string, base: string, ext: string)
    ensures SplitsAs(name, base, ext) ==> Suffix(name) == "." + ext
    ensures '.' !in name ==> Suffix(name) == ""
    ensures Suffix("." + ext) == "" || '.' in ext
    ensures Suffix(base + ".") == ""
  {
    if SplitsAs(name, base, ext) {
      LastDotIs(name, base, ext);
      assert name[|base|..] == "." + ext;
    }
    NoDot(name);
    if '.' !in ext {
      assert "." + ext == "" + "." + ext;
      LastDotIs("." + ext, "", ext);
    }
    assert base + "." == base + "." + "";
    LastDotIs(base + ".", base, "");
  }

  lemma CutAt(name: string, i: nat)
    requires i < |name|
    ensures name == name[..i] + [name[i]] + name[i + 1..] && name[i..] == [name[i]] + name[i + 1..]
  {}

  lemma SuffixSplits(name: string) returns (base: string, ext: string)
    requires Suffix(name) != ""
    ensures SplitsAs(name, base, ext) && Suffix(name) == "." + ext
  {
    NoDot(name);
    var i := LastDot(name);
    base, ext := name[..i], name[i + 1..];
    CutAt(name, i);
    assert [name[i]] == ".";
  }

  /** The extension, dotted and in lower case, is one of the supported ones. */
  ghost predicate SupportedExtension(settings: Settings, name: string) {
    exists base, ext :: SplitsAs(name, base, ext) && settings.lower("." + ext) in SUPPORTED_EXTENSIONS
  }

  /** A supported extension is the suffix, in lower case, of a name that has one. */
  lemma ExtensionIsSuffix(settings: Settings, name: string)
    ensures SupportedExtension(settings, name)
            <==> Suffix(name) != "" && settings.lower(Suffix(name)) in SUPPORTED_EXTENSIONS
  {
    if SupportedExtension(settings, name) {
      var base, ext :| SplitsAs(name, base, ext) && settings.lower("." + ext) in SUPPORTED_EXTENSIONS;
      SuffixIff(name, base, ext);
    }
    if Suffix(name) != "" {
      var base, ext := SuffixSplits(name);
      assert SplitsAs(name, base, ext) && "." + ext == Suffix(name);
    }
  }

  lemma ExtensionsAreDotted()
    ensures "" !in SUPPORTED_EXTENSIONS
  {}

  /** Files are scanned for one of four names, or for the extension after their last dot. */
  lemma SupportedIff(settings: Settings, name: string)
    requires settings.lower("") == ""
    ensures Supported(settings, name)
            <==> name in {"Dockerfile", "docker-compose.yml", "docker-compose.yaml", "Makefile"}
                 || SupportedExtension(settings, name)
  {
    ExtensionIsSuffix(settings, name);
    ExtensionsAreDotted();
  }

  // ------------------------------------------------------ the inventory in budget

  function WantedFiles(settings: Settings, files: seq<Located>): seq<Located> {
    Filter((f: Located) => Wanted(settings, f.file), files)
  }

  ghost predicate ShowsFiles(settings: Settings, items: seq<Item>, files: seq<Located>) {
    |items| == |files| && forall i :: 0 <= i < |items| ==> ShowsFile(settings, items[i], files[i])
  }

  lemma ShowsSnoc(settings: Settings, items: seq<Item>, item: Item, files: seq<Located>, f: Located)
    requires ShowsFiles(settings, items, files) && ShowsFile(settings, item, f)
    ensures ShowsFiles(settings, items + [item], files + [f])
  {}

  lemma LastOf(shorter: seq<Item>, longer: seq<Item>)
    requires shorter <= longer && |longer| == |shorter| + 1
    ensures longer == shorter + [longer[|shorter|]]
  {}

  lemma OneMoreShown(settings: Settings, r: Discovery.Result, before: seq<Located>, last: Located,
                     after: Discovery.Result)
    requires ShowsFiles(settings, r.inventory, WantedFiles(settings, before))
    requires HandledRight(settings, r, last, after)
    requires Scannable(settings, last.file, r.totalFound + 1, r.totalBytes) <==> Wanted(settings, last.file)
    ensures ShowsFiles(settings, after.inventory, WantedFiles(settings, before + [last]))
  {
    var wanted := WantedFiles(settings, before);
    FilterSnoc((f: Located) => Wanted(settings, f.file), before, last);
    if Wanted(settings, last.file) {
      LastOf(r.inventory, after.inventory);
      ShowsSnoc(settings, r.inventory, after.inventory[|r.inventory|], wanted, last);
    }
  }

  /** When no budget cuts the walk, the inventory is exactly its wanted files, in walk order. */
  lemma {:induction false} InventoryInBudget(settings: Settings, files: seq<Located>)
    requires !OverBudget(settings, files)
    ensures ShowsFiles(settings, HandleAll(settings, files).inventory, WantedFiles(settings, files))
  {
    if files != [] {
      var n := |files| - 1;
      var before, last := files[..n], files[n];
      assert files == before + [last];
      OverBudgetSnoc(settings, files);
      InventoryInBudget(settings, before);
      TruncatedIff(settings, before);
      var r := HandleAll(settings, before);
      EveryFileIsHandledRight(settings, r, last);
      InBudgetScannable(settings, files, r);
      OneMoreShown(settings, r, before, last, HandleAll(settings, files));
    }
  }

  lemma InBudgetScannable(settings: Settings, files: seq<Located>, r: Discovery.Result)
    requires files != [] && !OverBudget(settings, files)
    requires var n := |files| - 1; r.totalFound == n && r.totalBytes == WantedBytes(settings, files[..n])
    ensures var f := files[|files| - 1];
            Scannable(settings, f.file, r.totalFound + 1, r.totalBytes) <==> Wanted(settings, f.file)
  {
    var n := |files| - 1;
    assert !TooMuchAt(settings, files, n);
  }

  /**
   Within the limits a walked file is in the inventory exactly when it is a regular or
   followed file of a supported name, small enough and readable; its entry then shows its
   path, extension, size and hash.
   */
  lemma InventoriedIff(settings: Settings, root: Directory, f: Located)
    requires !TreeOverBudget(settings, root) && f in FilesUnder(settings, Visit(root, []))
    ensures Wanted(settings, f.file) <==>
            exists item :: item in Discover(settings, root).inventory && ShowsFile(settings, item, f)
                           && Inventoried(settings, item, f)
  {
    var files := FilesUnder(settings, Visit(root, []));
    var items := Discover(settings, root).inventory;
    InventoryInBudget(settings, files);
    FilterMembers((f: Located) => Wanted(settings, f.file), files);
    if Wanted(settings, f.file) {
      var wanted := WantedFiles(settings, files);
      var i :| 0 <= i < |wanted| && wanted[i] == f;
      assert items[i] in items && ShowsFile(settings, items[i], f);
    }
  }

  // ------------------------------------------------------------- two known names

  /** `str.lower` leaves this text alone. */
  predicate AlreadyLower(settings: Settings, text: string) {
    settings.lower(text) == text
  }

  lemma PythonFilesAreSupported(settings: Settings)
    requires AlreadyLower(settings, ".py")
    ensures Suffix("app.py") == ".py" && Supported(settings, "app.py")
  {
    assert "app.py" == "app" + "." + "py";
    SuffixIff("app.py", "app", "py");
    assert "." + "py" == ".py";
  }

  /** Concretely: a tree with one Python file has that file in its inventory. */
  lemma PythonFileIsInventoried(settings: Settings, content: string)
    requires AlreadyLower(settings, ".py")
    requires settings.maxDepth >= 0 && settings.maxFileCount >= 1
    requires settings.maxFileSize >= 1 && settings.maxTotalSize >= 1
    ensures var items := Discover(settings, Integrity.OneFileTree("app.py", NotALink, content)).inventory;
            |items| == 1 && items[0].relativePath == "app.py" && items[0].extension == ".py"
  {
    PythonFilesAreSupported(settings);
    Integrity.OneFileDiscovered(settings, "app.py", NotALink, content);
  }

  /** The failing case: ".env" is in the list of extensions, but a file of that name has no extension. */
  lemma DotEnvIsNotScanned(settings: Settings)
    requires AlreadyLower(settings, "")
    ensures ".env" in SUPPORTED_EXTENSIONS && !Supported(settings, ".env")
  {
    SuffixIff(".env", "", "env");
    assert "." + "env" == ".env";
    ExtensionsAreDotted();
  }
}
