/** The shared sync core: the exclusion filter, the pruning walk of the
    source tree, the target path of a source file and the copy-or-skip
    decision. Paths use the POSIX separator. */
module SyncCore {
  import opened Common
  import opened Paths
  import opened Wildcard
  import opened Tree
  import opened CacheManager
  import opened TransferManager
  import opened TelemetryCollector

  /** `path.sep`. */
  const Sep: char := '/'

  /** `p` is the source directory or a path below it. */
  predicate InSource(config: Config, p: string)
  {
    p == config.sourceDirectory || IsUnder(config.sourceDirectory, p)
  }

  /** Some segment of `parts` is a listed directory name. */
  predicate HasListedSegment(parts: seq<string>, names: seq<string>): (b: bool)
    ensures b ==> |parts| > 0 && |names| > 0
  {
    exists i :: 0 <= i < |parts| && parts[i] in names
  }

  /** Some pattern matches, unanchored, inside `name`. */
  predicate AnyPatternFound(patterns: seq<string>, name: string): (b: bool)
    ensures b ==> |patterns| > 0
  {
    exists j :: 0 <= j < |patterns| && Found(patterns[j], name)
  }

  /** `shouldExclude(filePath, config)`: a segment of the source-relative path
      is a listed directory, or else some pattern is found in the base name. */
  function ShouldExclude(config: Config, filePath: string): (excluded: bool)
    requires IsUnder(config.sourceDirectory, filePath)
    ensures config.excludeDirectories.Some? &&
            HasListedSegment(Split(Relative(config.sourceDirectory, filePath), {Sep}), config.excludeDirectories.value)
            ==> excluded
    ensures excluded <==>
      (config.excludeDirectories.Some? &&
         HasListedSegment(Split(Relative(config.sourceDirectory, filePath), {Sep}), config.excludeDirectories.value)) ||
      (config.excludePatterns.Some? && AnyPatternFound(config.excludePatterns.value, Basename(filePath, {Sep})))
    ensures config.excludeDirectories.None? && config.excludePatterns.None? ==> !excluded
  {
    var parts := Split(Relative(config.sourceDirectory, filePath), {Sep});
    if config.excludeDirectories.Some? && HasListedSegment(parts, config.excludeDirectories.value) then true
    else if config.excludePatterns.Some? then AnyPatternFound(config.excludePatterns.value, Basename(filePath, {Sep}))
    else false
  }

  lemma InSourceJoin(config: Config, dir: string, name: string)
    requires InSource(config, dir)
    ensures IsUnder(config.sourceDirectory, Join(dir, name))
  {
    var src := config.sourceDirectory;
    if dir != src {
      assert Join(dir, name)[..|src| + 1] == dir[..|src| + 1];
    }
  }

  /** The files `scanDir(dir)` lists for the listing `es` of `dir`, in order:
      an excluded entry is skipped, and an excluded directory is not entered. */
  function Walk(config: Config, dir: string, es: seq<Entry>): (r: seq<string>)
    requires InSource(config, dir)
    ensures forall i :: 0 <= i < |r| ==> IsUnder(dir, r[i]) && !ShouldExclude(config, r[i])
    decreases es, 1
  {
    if es == [] then []
    else Walk(config, dir, es[..|es| - 1]) + WalkEntry(config, dir, es[|es| - 1])
  }

  function WalkEntry(config: Config, dir: string, e: Entry): (r: seq<string>)
    requires InSource(config, dir)
    ensures forall i :: 0 <= i < |r| ==> IsUnder(dir, r[i]) && !ShouldExclude(config, r[i])
    decreases e, 0
  {
    var p := Join(dir, e.name);
    InSourceJoin(config, dir, e.name);
    if ShouldExclude(config, p) then []
    else match e
      case File(_, _) => [p]
      case Dir(_, cs) =>
        var sub := Walk(config, p, cs);
        assert forall i :: 0 <= i < |sub| ==> IsUnder(dir, sub[i]) by {
          forall i | 0 <= i < |sub| ensures IsUnder(dir, sub[i]) {
            UnderJoin(dir, e.name, sub[i]);
          }
        }
        sub
  }

  /** `scanDir(dir)`: appends to `files` every file the walk lists below
      `dir`, visiting the listing in order and recursing into the
      sub-directories that are not excluded. */
  method ScanDir(config: Config, dir: string, es: seq<Entry>, files: seq<string>) returns (out: seq<string>)
    requires InSource(config, dir)
    ensures out == files + Walk(config, dir, es)
    decreases es
  {
    out := files;
    for i := 0 to |es|
      invariant out == files + Walk(config, dir, es[..i])
    {
      assert es[..i + 1][..i] == es[..i];
      var full := Join(dir, es[i].name);
      InSourceJoin(config, dir, es[i].name);
      match es[i]
      case Dir(_, cs) =>
        if !ShouldExclude(config, full) {
          assert es[i] in es;
          out := ScanDir(config, full, cs, out);
        }
      case File(_, _) =>
        if !ShouldExclude(config, full) {
          out := out + [full];
        }
    }
    assert es[..|es|] == es;
  }

  /** `scanSourceFiles(config)` over the source tree whose top-level listing is `root`. */
  method ScanSourceFiles(config: Config, root: seq<Entry>) returns (files: seq<string>)
    ensures files == Walk(config, config.sourceDirectory, root)
  {
    files := ScanDir(config, config.sourceDirectory, root, []);
  }

  /** A file of the tree that the walk keeps: it lies in the source, and
      neither it nor any directory entered to reach it is excluded. */
  predicate Visible(config: Config, f: FoundFile)
  {
    IsUnder(config.sourceDirectory, f.path) && !ShouldExclude(config, f.path) &&
    forall k :: 0 <= k < |f.ancestors| ==>
      IsUnder(config.sourceDirectory, f.ancestors[k]) && !ShouldExclude(config, f.ancestors[k])
  }

  /** The paths of the visible files, in order. */
  function VisiblePaths(config: Config, fs: seq<FoundFile>): (r: seq<string>)
    ensures |r| <= |fs|
  {
    if fs == [] then []
    else VisiblePaths(config, fs[..|fs| - 1]) + (if Visible(config, fs[|fs| - 1]) then [fs[|fs| - 1].path] else [])
  }

  lemma {:induction false} VisiblePathsAppend(config: Config, a: seq<FoundFile>, b: seq<FoundFile>)
    ensures VisiblePaths(config, a + b) == VisiblePaths(config, a) + VisiblePaths(config, b)
    decreases |b|
  {
    if b == [] {
      assert a + b == a;
    } else {
      assert (a + b)[..|a + b| - 1] == a + b[..|b| - 1];
      VisiblePathsAppend(config, a, b[..|b| - 1]);
    }
  }

  /** A file reached through one more directory `d` that is not excluded is
      visible exactly when it was. */
  lemma VisibleBelowKeptDirectory(config: Config, d: string, g: FoundFile, f: FoundFile)
    requires IsUnder(config.sourceDirectory, d) && !ShouldExclude(config, d)
    requires g.ancestors == [d] + f.ancestors && g.path == f.path
    ensures Visible(config, g) <==> Visible(config, f)
  {
    if Visible(config, f) {
      forall k | 0 <= k < |g.ancestors|
        ensures IsUnder(config.sourceDirectory, g.ancestors[k]) && !ShouldExclude(config, g.ancestors[k])
      {
        if k > 0 {
          assert g.ancestors[k] == f.ancestors[k - 1];
        }
      }
    }
    if Visible(config, g) {
      forall k | 0 <= k < |f.ancestors|
        ensures IsUnder(config.sourceDirectory, f.ancestors[k]) && !ShouldExclude(config, f.ancestors[k])
      {
        assert f.ancestors[k] == g.ancestors[k + 1];
      }
    }
  }

  /** Reaching files through one more directory `d` hides them all when `d`
      is excluded and changes nothing otherwise. */
  lemma {:induction false} VisibleWithin(config: Config, d: string, fs: seq<FoundFile>)
    requires IsUnder(config.sourceDirectory, d)
    ensures VisiblePaths(config, Within(d, fs)) == if ShouldExclude(config, d) then [] else VisiblePaths(config, fs)
    decreases |fs|
  {
    if fs != [] {
      var n := |fs| - 1;
      assert Within(d, fs)[..n] == Within(d, fs[..n]);
      VisibleWithin(config, d, fs[..n]);
      var g := Within(d, fs)[n];
      assert g.ancestors == [d] + fs[n].ancestors && g.path == fs[n].path;
      assert g.ancestors[0] == d;
      if !ShouldExclude(config, d) {
        VisibleBelowKeptDirectory(config, d, g, fs[n]);
      } else {
        assert !Visible(config, g);
      }
    }
  }

  /** The pruning walk lists exactly the visible files of the tree, in
      depth-first order: pruning a directory is the same as hiding every
      file below it. */
  lemma {:induction false} WalkListsVisibleFiles(config: Config, dir: string, es: seq<Entry>)
    requires InSource(config, dir)
    ensures Walk(config, dir, es) == VisiblePaths(config, Files(dir, es))
    decreases es, 1
  {
    if es != [] {
      var n := |es| - 1;
      WalkListsVisibleFiles(config, dir, es[..n]);
      WalkEntryListsVisibleFiles(config, dir, es[n]);
      VisiblePathsAppend(config, Files(dir, es[..n]), FilesOf(dir, es[n]));
    }
  }

  lemma {:induction false} WalkEntryListsVisibleFiles(config: Config, dir: string, e: Entry)
    requires InSource(config, dir)
    ensures WalkEntry(config, dir, e) == VisiblePaths(config, FilesOf(dir, e))
    decreases e, 0
  {
    var p := Join(dir, e.name);
    InSourceJoin(config, dir, e.name);
    match e
    case File(name, f) =>
      assert FilesOf(dir, e) == [FoundFile(p, f, [])];
      assert [FoundFile(p, f, [])][..0] == [];
    case Dir(name, cs) =>
      VisibleWithin(config, p, Files(p, cs));
      if !ShouldExclude(config, p) {
        WalkListsVisibleFiles(config, p, cs);
      }
  }

  /** Everything below a directory whose source-relative path has a listed
      segment is excluded too. */
  lemma ListedDirectoryCoversDescendants(config: Config, d: string, p: string)
    requires IsUnder(config.sourceDirectory, d) && IsUnder(d, p)
    requires config.excludeDirectories.Some?
    requires HasListedSegment(Split(Relative(config.sourceDirectory, d), {Sep}), config.excludeDirectories.value)
    ensures IsUnder(config.sourceDirectory, p) && ShouldExclude(config, p)
  {
    var src := config.sourceDirectory;
    assert p[..|src| + 1] == d[..|src| + 1];
    var a, b := Relative(src, d), Relative(d, p);
    assert Relative(src, p) == a + [Sep] + b;
    SplitAround(a, Sep, b, {Sep});
    var parts := Split(a, {Sep});
    var i :| 0 <= i < |parts| && parts[i] in config.excludeDirectories.value;
    assert Split(Relative(src, p), {Sep})[i] == parts[i];
  }

  /** `ensureDirectories(config)`: a missing source directory rejects before
      the target is created; otherwise the target's creation decides. */
  function EnsureDirectories(config: Config, sourceExists: bool, ensureTarget: Outcome<Unit>): (r: Outcome<Unit>)
    ensures r.Ok? <==> sourceExists && ensureTarget.Ok?
    ensures !sourceExists ==> r == Err("Répertoire source introuvable: " + config.sourceDirectory)
    ensures sourceExists ==> r == ensureTarget
  {
    if !sourceExists then Err("Répertoire source introuvable: " + config.sourceDirectory) else ensureTarget
  }

  /** The target file of a source file: the same relative path below the
      target directory. */
  function TargetPath(config: Config, file: string): (target: string)
    requires IsUnder(config.sourceDirectory, file)
    ensures IsUnder(config.targetDirectory, target)
    ensures Relative(config.targetDirectory, target) == Relative(config.sourceDirectory, file)
  {
    Join(config.targetDirectory, Relative(config.sourceDirectory, file))
  }

  /** What the file system answers during one `copyFileIfNeeded`: creating
      the target's directory, the source `stat`, whether the target exists,
      the integrity check, and the transfer (its own directory creation and
      what each of its attempts meets). */
  datatype CopyEnv = CopyEnv(
    ensureDir: Outcome<Unit>,
    stat: Outcome<Stat>,
    targetExists: bool,
    integrity: Outcome<bool>,
    transferDir: Outcome<Unit>,
    attempts: nat -> AttemptEnv)

  /** The steps before the skip test succeeded and the cache and integrity
      check say the existing target is current. */
  predicate Skips(cwd: string, file: string, cache: Entries, env: CopyEnv)
  {
    env.ensureDir.Ok? && env.stat.Ok? && env.targetExists &&
    !NeedsSync(cwd, file, env.stat.value, cache) && env.integrity == Ok(true)
  }

  /** The integrity check is reached and rejects. */
  predicate IntegrityThrows(cwd: string, file: string, cache: Entries, env: CopyEnv)
  {
    env.ensureDir.Ok? && env.stat.Ok? && env.targetExists &&
    !NeedsSync(cwd, file, env.stat.value, cache) && env.integrity.Err?
  }

  /** `transferFile` resolves: its directory is created and one of its three
      attempts succeeds. */
  predicate TransferSucceeds(env: CopyEnv)
  {
    env.transferDir.Ok? && exists i :: 0 <= i < 3 && AttemptOf(env.attempts(i)).Ok?
  }

  /** The steps of `copyFileIfNeeded` apart from its telemetry calls: create
      the target's directory, `stat` the source, skip a current target, else
      transfer and record the new cache entry. `skipped` tells the skip apart
      from a failure. */
  method CopySteps(config: Config, file: string, cache: Cache, cwd: string, env: CopyEnv, now: int)
    returns (copied: bool, skipped: bool)
    requires IsUnder(config.sourceDirectory, file)
    modifies cache
    ensures skipped <==> Skips(cwd, file, old(cache.entries), env)
    ensures copied ==> !skipped
    ensures copied <==>
      env.ensureDir.Ok? && env.stat.Ok? && !Skips(cwd, file, old(cache.entries), env) &&
      !IntegrityThrows(cwd, file, old(cache.entries), env) && TransferSucceeds(env)
    ensures copied ==> cache.entries == old(cache.entries)[EntryKey(cwd, file) := EntryFor(env.stat.value, now)]
    ensures !copied ==> cache.entries == old(cache.entries)
  {
    var target := TargetPath(config, file);
    if env.ensureDir.Err? || env.stat.Err? {
      return false, false;
    }
    var stat := env.stat.value;
    if env.targetExists && !NeedsSync(cwd, file, stat, cache.entries) {
      match env.integrity
      case Err(_) =>
        return false, false;
      case Ok(same) =>
        if same {
          return false, true;
        }
    }
    var r, attempts := TransferFile(env.transferDir, env.attempts);
    if r.Err? {
      assert !TransferSucceeds(env) by {
        if env.transferDir.Ok? {
          forall i | 0 <= i < 3 ensures AttemptOf(env.attempts(i)).Err? {
            if i < 2 {
              assert i < attempts - 1;
            }
          }
        }
      }
      return false, false;
    }
    UpdateCacheEntry(cache, cwd, file, stat, now);
    return true, false;
  }

  /** `copyFileIfNeeded(file, config, cache, telemetry)` at time `now`. */
  method CopyFileIfNeeded(config: Config, file: string, cache: Cache, cwd: string,
                          telemetry: TelemetryCollector?, env: CopyEnv, now: int)
    returns (copied: bool)
    requires IsUnder(config.sourceDirectory, file)
    requires telemetry != null ==> telemetry.Valid()
    modifies cache, telemetry
    ensures telemetry != null ==> telemetry.Valid()
    ensures copied <==>
      env.ensureDir.Ok? && env.stat.Ok? && !Skips(cwd, file, old(cache.entries), env) &&
      !IntegrityThrows(cwd, file, old(cache.entries), env) && TransferSucceeds(env)
    ensures copied ==> cache.entries == old(cache.entries)[EntryKey(cwd, file) := EntryFor(env.stat.value, now)]
    ensures !copied ==> cache.entries == old(cache.entries)
    ensures telemetry != null ==>
      telemetry.batches == old(telemetry.batches) && telemetry.startTime == old(telemetry.startTime)
    ensures telemetry != null && copied ==>
      telemetry.filesCopied == old(telemetry.filesCopied) + 1 &&
      telemetry.bytesCopied == old(telemetry.bytesCopied) + env.stat.value.size &&
      telemetry.errors == old(telemetry.errors) &&
      telemetry.logs == Pushed(old(telemetry.logs), telemetry.maxLogs,
                               LogEntry(now, FileCopiedLog(Some(env.stat.value.size))))
    ensures telemetry != null && !copied && !Skips(cwd, file, old(cache.entries), env) ==>
      telemetry.errors == old(telemetry.errors) + 1 &&
      telemetry.filesCopied == old(telemetry.filesCopied) && telemetry.bytesCopied == old(telemetry.bytesCopied) &&
      telemetry.logs == Pushed(old(telemetry.logs), telemetry.maxLogs, LogEntry(now, ErrorLog))
    ensures telemetry != null && Skips(cwd, file, old(cache.entries), env) ==>
      telemetry.errors == old(telemetry.errors) && telemetry.filesCopied == old(telemetry.filesCopied) &&
      telemetry.bytesCopied == old(telemetry.bytesCopied) && telemetry.logs == old(telemetry.logs)
  {
    var skipped;
    copied, skipped := CopySteps(config, file, cache, cwd, env, now);
    if telemetry != null {
      if copied {
        telemetry.RecordFileCopied(Some(env.stat.value.size as int), now);
      } else if !skipped {
        telemetry.RecordError(now);
      }
    }
  }
}
