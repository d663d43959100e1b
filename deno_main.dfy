/** The standalone Deno front end: its own exclusion filter, which splits
    the relative path on both separators and tests the patterns against the
    last segment, its unpruned file listing, and its skip rule. */
module DenoMain {
  import opened Common
  import opened Paths
  import opened Wildcard
  import opened Tree
  import SyncCore

  /** `/[/\\]/`: both separators. */
  const Seps: set<char> := {'/', '\\'}

  /** `shouldExclude(filePath, config)` of the Deno front end. */
  function ShouldExclude(config: Config, filePath: string): (excluded: bool)
    requires IsUnder(config.sourceDirectory, filePath)
    ensures var parts := Split(Relative(config.sourceDirectory, filePath), Seps);
      excluded <==>
        (config.excludeDirectories.Some? && SyncCore.HasListedSegment(parts, config.excludeDirectories.value)) ||
        (config.excludePatterns.Some? && SyncCore.AnyPatternFound(config.excludePatterns.value, parts[|parts| - 1]))
    ensures config.excludeDirectories.None? && config.excludePatterns.None? ==> !excluded
  {
    var parts := Split(Relative(config.sourceDirectory, filePath), Seps);
    if config.excludeDirectories.Some? && SyncCore.HasListedSegment(parts, config.excludeDirectories.value) then true
    else if config.excludePatterns.Some? then SyncCore.AnyPatternFound(config.excludePatterns.value, parts[|parts| - 1])
    else false
  }

  /** The last part of `a + "/" + b` is the last part of `b`. */
  lemma LastPartAfterSeparator(a: string, b: string, seps: set<char>)
    requires '/' in seps
    ensures var l, r := Split(a + "/" + b, seps), Split(b, seps); l[|l| - 1] == r[|r| - 1]
  {
    SplitAround(a, '/', b, seps);
  }

  /** For a relative path without backslashes the two filters agree. */
  lemma AgreesWithCoreWithoutBackslash(config: Config, filePath: string)
    requires IsUnder(config.sourceDirectory, filePath)
    requires forall k :: 0 <= k < |Relative(config.sourceDirectory, filePath)| ==> Relative(config.sourceDirectory, filePath)[k] != '\\'
    ensures ShouldExclude(config, filePath) == SyncCore.ShouldExclude(config, filePath)
  {
    var src := config.sourceDirectory;
    var rel := Relative(src, filePath);
    SplitExtraSeparator(rel, {'/'}, '\\');
    assert {'/'} + {'\\'} == Seps;
    LastPartAfterSeparator(src, rel, {'/'});
    assert filePath == src + "/" + rel;
  }

  /** The paths of the files of `fs` that `keep` accepts, in the walk's order. */
  function KeptPaths(keep: FoundFile -> bool, fs: seq<FoundFile>): (r: seq<string>)
    ensures forall i :: 0 <= i < |fs| && keep(fs[i]) ==> fs[i].path in r
    ensures forall x :: x in r ==> exists i :: 0 <= i < |fs| && keep(fs[i]) && fs[i].path == x
  {
    if fs == [] then []
    else
      var n := |fs| - 1;
      var r := KeptPaths(keep, fs[..n]) + (if keep(fs[n]) then [fs[n].path] else []);
      assert forall i :: 0 <= i < n ==> fs[..n][i] == fs[i];
      r
  }

  /** Filtering a walk split in two is filtering each half in turn. */
  lemma {:induction false} KeptPathsAppend(keep: FoundFile -> bool, a: seq<FoundFile>, b: seq<FoundFile>)
    ensures KeptPaths(keep, a + b) == KeptPaths(keep, a) + KeptPaths(keep, b)
    decreases |b|
  {
    if b == [] {
      assert a + b == a;
    } else {
      var n := |b| - 1;
      assert (a + b)[..|a + b| - 1] == a + b[..n];
      assert (a + b)[|a + b| - 1] == b[n];
      KeptPathsAppend(keep, a, b[..n]);
    }
  }

  /** The test `scanSourceFiles` applies to each walked file. */
  function Keep(config: Config): FoundFile -> bool
  {
    (f: FoundFile) => IsUnder(config.sourceDirectory, f.path) && !ShouldExclude(config, f.path)
  }

  /** The files `scanSourceFiles` lists from the walk `fs` of the source tree:
      every file whose own path is not excluded; directories are never
      tested, so nothing is pruned. */
  function ListedFiles(config: Config, fs: seq<FoundFile>): (r: seq<string>)
    requires forall i :: 0 <= i < |fs| ==> IsUnder(config.sourceDirectory, fs[i].path)
    ensures forall i :: 0 <= i < |r| ==> IsUnder(config.sourceDirectory, r[i]) && !ShouldExclude(config, r[i])
    ensures forall i :: 0 <= i < |fs| && !ShouldExclude(config, fs[i].path) ==> fs[i].path in r
  {
    var r := KeptPaths(Keep(config), fs);
    assert forall i :: 0 <= i < |r| ==> r[i] in r;
    r
  }

  /** Listing keeps the walk's order: the files of a walk split in two are
      those of its first part followed by those of its second. */
  lemma ListedFilesAppend(config: Config, a: seq<FoundFile>, b: seq<FoundFile>)
    requires forall i :: 0 <= i < |a| ==> IsUnder(config.sourceDirectory, a[i].path)
    requires forall i :: 0 <= i < |b| ==> IsUnder(config.sourceDirectory, b[i].path)
    ensures forall i :: 0 <= i < |a + b| ==> IsUnder(config.sourceDirectory, (a + b)[i].path)
    ensures ListedFiles(config, a + b) == ListedFiles(config, a) + ListedFiles(config, b)
  {
    KeptPathsAppend(Keep(config), a, b);
  }

  /** A one-file walk lists its file exactly when the file is not excluded. */
  lemma ListedFilesSingle(config: Config, g: FoundFile)
    requires IsUnder(config.sourceDirectory, g.path)
    ensures ListedFiles(config, [g]) == if ShouldExclude(config, g.path) then [] else [g.path]
  {
    assert [g][..0] == [];
    assert KeptPaths(Keep(config), [g]) == KeptPaths(Keep(config), []) + (if Keep(config)(g) then [g.path] else []);
  }

  /** Only walked paths are listed. */
  lemma ListedFilesAreWalked(config: Config, fs: seq<FoundFile>)
    requires forall i :: 0 <= i < |fs| ==> IsUnder(config.sourceDirectory, fs[i].path)
    ensures forall x :: x in ListedFiles(config, fs) ==> exists i :: 0 <= i < |fs| && fs[i].path == x
  {
    forall x | x in ListedFiles(config, fs) ensures exists i :: 0 <= i < |fs| && fs[i].path == x {
      var i :| 0 <= i < |fs| && Keep(config)(fs[i]) && fs[i].path == x;
    }
  }

  /** The shared core excludes a directory whose name is a literal pattern. */
  lemma CoreExcludesNamedDirectory(config: Config, name: string)
    requires config.excludeDirectories.None? && config.excludePatterns == Some([name])
    requires Literal(name) && NoSep(name, {'/'})
    ensures IsUnder(config.sourceDirectory, Join(config.sourceDirectory, name))
    ensures SyncCore.ShouldExclude(config, Join(config.sourceDirectory, name))
  {
    var dir := Join(config.sourceDirectory, name);
    SplitSeparatorFree(name, {'/'});
    LastPartAfterSeparator(config.sourceDirectory, name, {'/'});
    assert Basename(dir, {'/'}) == name;
    LiteralMatchesPrefix(name, name);
    assert MatchesPrefix(name, name[0..]);
    assert SyncCore.AnyPatternFound([name], name) by { assert Found([name][0], name); }
  }

  /** This scan keeps a file inside a top-level directory when the pattern
      does not occur in the file's own name. */
  lemma FileKeptHere(config: Config, name: string, file: string)
    requires config.excludeDirectories.None? && config.excludePatterns == Some([name])
    requires NoSep(name, Seps) && NoSep(file, Seps) && !Found(name, file)
    ensures IsUnder(config.sourceDirectory, Join(Join(config.sourceDirectory, name), file))
    ensures !ShouldExclude(config, Join(Join(config.sourceDirectory, name), file))
  {
    var src := config.sourceDirectory;
    var path := Join(Join(src, name), file);
    assert path[..|src| + 1] == src + "/";
    assert Relative(src, path) == name + ['/'] + file;
    SplitSeparatorFree(file, Seps);
    SplitAfterPart(name, '/', file, Seps);
    assert !SyncCore.AnyPatternFound([name], file);
  }

  /** A pattern naming a directory prunes it in the shared core but not here:
      with `name` as the only pattern, the file `file` inside directory
      `name` at the top of the source is dropped by the core walk and listed
      by this scan (when the pattern does not occur in the file's name). */
  lemma PatternPrunesOnlyInCore(config: Config, name: string, file: string, f: FileState)
    requires config.excludeDirectories.None? && config.excludePatterns == Some([name])
    requires Literal(name) && NoSep(name, Seps) && NoSep(file, Seps) && !Found(name, file)
    ensures var tree := [Dir(name, [File(file, f)])];
      SyncCore.Walk(config, config.sourceDirectory, tree) == [] &&
      ListedFiles(config, Files(config.sourceDirectory, tree)) == [Join(Join(config.sourceDirectory, name), file)]
  {
    var src := config.sourceDirectory;
    var dir := Join(src, name);
    var path := Join(dir, file);
    var tree := [Dir(name, [File(file, f)])];
    assert NoSep(name, {'/'});
    CoreExcludesNamedDirectory(config, name);
    assert tree[..0] == [];
    assert SyncCore.WalkEntry(config, src, tree[0]) == [];
    FileKeptHere(config, name, file);
    var inner := [File(file, f)];
    assert inner[..0] == [];
    assert Files(dir, inner) == [FoundFile(path, f, [])];
    var fs := Files(src, tree);
    assert FilesOf(src, tree[0]) == Within(dir, [FoundFile(path, f, [])]);
    assert Within(dir, [FoundFile(path, f, [])])[0] == FoundFile(path, f, [dir]);
    assert fs == Files(src, tree[..0]) + FilesOf(src, tree[0]);
    assert fs == [FoundFile(path, f, [dir])];
    ListedFilesSingle(config, FoundFile(path, f, [dir]));
  }

  /** A backslash inside a name splits it here but not in the shared core:
      with `a` as the only excluded directory, the file named `a\b` at the
      top of the source is excluded here and kept by the core. */
  lemma BackslashSplitsOnlyHere(config: Config, a: string, b: string)
    requires config.excludeDirectories == Some([a]) && config.excludePatterns.None?
    requires NoSep(a, Seps) && NoSep(b, Seps)
    ensures var path := Join(config.sourceDirectory, a + ['\\'] + b);
      ShouldExclude(config, path) && !SyncCore.ShouldExclude(config, path)
  {
    var src := config.sourceDirectory;
    var name := a + ['\\'] + b;
    var path := Join(src, name);
    assert path[..|src| + 1] == src + "/";
    assert Relative(src, path) == name;
    SplitSeparatorFree(b, Seps);
    SplitAfterPart(a, '\\', b, Seps);
    assert Split(name, Seps) == [a, b];
    assert SyncCore.HasListedSegment([a, b], [a]) by { assert [a, b][0] in [a]; }
    SplitSeparatorFree(name, {'/'});
    assert |name| > |a|;
    assert !SyncCore.HasListedSegment([name], [a]);
  }

  /** A source `stat`: the modification time may be unavailable. */
  datatype StatInfo = StatInfo(mtime: Option<int>, size: nat)

  /** The comparison in `copyFileIfNeeded`: the copy is skipped exactly when
      the source stat succeeds, the destination exists and its stat succeeds
      with the same modification time (both unavailable counts as equal) and
      the same size. Any error in these steps means copying. */
  function SkipCopy(src: Outcome<StatInfo>, destExists: Outcome<bool>, dest: Outcome<StatInfo>): (skip: bool)
    ensures skip ==> src.Ok? && destExists == Ok(true) && dest.Ok?
    ensures src.Ok? && destExists == Ok(true) && dest.Ok? ==>
      (skip <==> dest.value.mtime == src.value.mtime && dest.value.size == src.value.size)
  {
    match src
    case Err(_) => false
    case Ok(s) =>
      match destExists
      case Err(_) => false
      case Ok(present) =>
        if !present then false
        else match dest
          case Err(_) => false
          case Ok(d) => d.mtime == s.mtime && d.size == s.size
  }

  /** `copyFileIfNeeded(file, config)`: a failure to create the destination's
      directory rejects; otherwise the file is copied (`Ok(true)`) unless the
      comparison skips it (`Ok(false)`), and a failed copy rejects. */
  function CopyFileIfNeeded(ensureDir: Outcome<Unit>, src: Outcome<StatInfo>, destExists: Outcome<bool>,
                            dest: Outcome<StatInfo>, copy: Outcome<Unit>): (r: Outcome<bool>)
    ensures ensureDir.Err? ==> r == Err(ensureDir.error)
    ensures ensureDir.Ok? ==> (r == Ok(false) <==> SkipCopy(src, destExists, dest))
    ensures ensureDir.Ok? && !SkipCopy(src, destExists, dest) ==>
      (r == Ok(true) <==> copy.Ok?) && (copy.Err? ==> r == Err(copy.error))
  {
    if ensureDir.Err? then Err(ensureDir.error)
    else if SkipCopy(src, destExists, dest) then Ok(false)
    else if copy.Err? then Err(copy.error)
    else Ok(true)
  }
}
