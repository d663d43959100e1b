/** The change scanner of the worker-pool engine: a recursive walk of the
    source tree that reports every file the metadata cache calls changed,
    with its size and full-content hash, and records it in the cache at once. */
module DeltaScanner {
  import opened Common
  import opened Paths
  import opened Tree
  import opened MetadataCache

  datatype Change = Change(path: string, size: nat, hash: Digest)

  /** What a walk has produced so far: the reported changes and the cache map. */
  datatype ScanState = ScanState(changes: seq<Change>, data: Data)

  /** The change reported for a file: its path, stat size and full hash. */
  function ChangeOf(md5: Hasher, f: FoundFile): Change
  {
    Change(f.path, f.file.Size(), md5(f.file.content))
  }

  /** One file of the walk: reported and recorded when it needs an update,
      otherwise left alone. */
  function Visit(md5: Hasher, st: ScanState, f: FoundFile): ScanState
  {
    if NeedsUpdate(st.data, md5, f.path, f.file) then
      ScanState(st.changes + [ChangeOf(md5, f)], st.data[f.path := EntryOf(md5, f.file)])
    else st
  }

  /** The files of a walk, visited in order. */
  function ScanFiles(md5: Hasher, st: ScanState, fs: seq<FoundFile>): ScanState
    decreases |fs|
  {
    if fs == [] then st
    else Visit(md5, ScanFiles(md5, st, fs[..|fs| - 1]), fs[|fs| - 1])
  }

  /** After visiting a file it is recorded and no other entry changes; a
      stale file adds exactly its change, an up-to-date one changes nothing. */
  lemma VisitRecordsFile(md5: Hasher, st: ScanState, f: FoundFile)
    ensures var r := Visit(md5, st, f);
      && r.data.Keys == st.data.Keys + {f.path}
      && !NeedsUpdate(r.data, md5, f.path, f.file)
      && (forall k :: k in st.data && k != f.path ==> r.data[k] == st.data[k])
      && (NeedsUpdate(st.data, md5, f.path, f.file) ==> r.changes == st.changes + [ChangeOf(md5, f)])
      && (!NeedsUpdate(st.data, md5, f.path, f.file) ==> r == st)
  {
  }

  /** After a walk the cache holds exactly the keys it had and the walked
      paths. */
  lemma {:induction false} ScanFilesKeys(md5: Hasher, st: ScanState, fs: seq<FoundFile>)
    ensures ScanFiles(md5, st, fs).data.Keys == st.data.Keys + set i | 0 <= i < |fs| :: fs[i].path
    decreases |fs|
  {
    if fs != [] {
      var init := fs[..|fs| - 1];
      ScanFilesKeys(md5, st, init);
      VisitRecordsFile(md5, ScanFiles(md5, st, init), fs[|fs| - 1]);
      var all, before := set i | 0 <= i < |fs| :: fs[i].path, set i | 0 <= i < |init| :: init[i].path;
      forall x | x in all
        ensures x in before + {fs[|fs| - 1].path}
      {
        var i :| 0 <= i < |fs| && fs[i].path == x;
        if i < |init| {
          assert init[i].path == x;
        }
      }
      assert all == before + {fs[|fs| - 1].path};
    }
  }

  /** The changes a walk reports, judged against the cache as it was before
      the walk. */
  function StaleChanges(md5: Hasher, data: Data, fs: seq<FoundFile>): (r: seq<Change>)
    ensures |r| <= |fs|
    ensures forall c :: c in r ==>
      exists i :: 0 <= i < |fs| && c == ChangeOf(md5, fs[i]) && NeedsUpdate(data, md5, fs[i].path, fs[i].file)
    ensures forall i :: 0 <= i < |fs| && NeedsUpdate(data, md5, fs[i].path, fs[i].file) ==> ChangeOf(md5, fs[i]) in r
    decreases |fs|
  {
    if fs == [] then []
    else
      var last := fs[|fs| - 1];
      StaleChanges(md5, data, fs[..|fs| - 1]) + (if NeedsUpdate(data, md5, last.path, last.file) then [ChangeOf(md5, last)] else [])
  }

  /** Every file of the list has its current entry in the cache. */
  predicate AllRecorded(md5: Hasher, data: Data, fs: seq<FoundFile>)
  {
    forall i :: 0 <= i < |fs| ==> !NeedsUpdate(data, md5, fs[i].path, fs[i].file)
  }

  lemma {:induction false} ScanFilesAppend(md5: Hasher, st: ScanState, a: seq<FoundFile>, b: seq<FoundFile>)
    ensures ScanFiles(md5, st, a + b) == ScanFiles(md5, ScanFiles(md5, st, a), b)
    decreases |b|
  {
    if b == [] {
      assert a + b == a;
    } else {
      assert (a + b)[..|a + b| - 1] == a + b[..|b| - 1];
      ScanFilesAppend(md5, st, a, b[..|b| - 1]);
    }
  }

  /** Visiting ignores how a file was reached. */
  lemma {:induction false} ScanFilesWithin(md5: Hasher, st: ScanState, d: string, fs: seq<FoundFile>)
    ensures ScanFiles(md5, st, Within(d, fs)) == ScanFiles(md5, st, fs)
    decreases |fs|
  {
    if fs != [] {
      assert Within(d, fs)[..|fs| - 1] == Within(d, fs[..|fs| - 1]);
      ScanFilesWithin(md5, st, d, fs[..|fs| - 1]);
    }
  }

  /** A walk only appends to the changes it was given. */
  lemma {:induction false} ChangesOnlyGrow(md5: Hasher, st: ScanState, fs: seq<FoundFile>)
    ensures |st.changes| <= |ScanFiles(md5, st, fs).changes|
    ensures ScanFiles(md5, st, fs).changes[..|st.changes|] == st.changes
    decreases |fs|
  {
    if fs != [] {
      ChangesOnlyGrow(md5, st, fs[..|fs| - 1]);
    }
  }

  /** Every change a walk adds names one of the walked files. */
  lemma {:induction false} ChangesNameWalkedFiles(md5: Hasher, st: ScanState, fs: seq<FoundFile>)
    ensures |st.changes| <= |ScanFiles(md5, st, fs).changes|
    ensures forall j :: |st.changes| <= j < |ScanFiles(md5, st, fs).changes| ==>
              ScanFiles(md5, st, fs).changes[j].path in PathsOf(fs)
    decreases |fs|
  {
    if fs != [] {
      var init := fs[..|fs| - 1];
      ChangesNameWalkedFiles(md5, st, init);
      assert forall i :: 0 <= i < |init| ==> PathsOf(init)[i] == PathsOf(fs)[i];
      assert fs[|fs| - 1].path == PathsOf(fs)[|fs| - 1];
    }
  }

  /** A walk leaves the entries of paths it does not visit alone. */
  lemma {:induction false} OtherEntriesUntouched(md5: Hasher, st: ScanState, fs: seq<FoundFile>, p: string)
    requires p !in PathsOf(fs)
    ensures p in ScanFiles(md5, st, fs).data <==> p in st.data
    ensures p in st.data ==> ScanFiles(md5, st, fs).data[p] == st.data[p]
    decreases |fs|
  {
    if fs != [] {
      assert PathsOf(fs[..|fs| - 1]) == PathsOf(fs)[..|fs| - 1];
      OtherEntriesUntouched(md5, st, fs[..|fs| - 1], p);
      assert fs[|fs| - 1].path == PathsOf(fs)[|fs| - 1];
    }
  }

  /** On a tree whose paths are distinct, the walk reports, in walk order,
      exactly the files that were stale in the cache it started from, each
      with its size and full hash. */
  lemma {:induction false} ScanReportsStaleFiles(md5: Hasher, st: ScanState, fs: seq<FoundFile>)
    requires DistinctPaths(fs)
    ensures ScanFiles(md5, st, fs).changes == st.changes + StaleChanges(md5, st.data, fs)
    decreases |fs|
  {
    if fs != [] {
      var init := fs[..|fs| - 1];
      var last := fs[|fs| - 1];
      ScanReportsStaleFiles(md5, st, init);
      assert last.path !in PathsOf(init) by {
        forall i | 0 <= i < |init| ensures PathsOf(init)[i] != last.path {
          assert init[i] == fs[i];
        }
      }
      OtherEntriesUntouched(md5, st, init, last.path);
      var mid := ScanFiles(md5, st, init);
      assert NeedsUpdate(mid.data, md5, last.path, last.file) == NeedsUpdate(st.data, md5, last.path, last.file);
    }
  }

  /** After a walk over a tree with distinct paths, every file of it is recorded. */
  lemma {:induction false} ScanRecordsAll(md5: Hasher, st: ScanState, fs: seq<FoundFile>)
    requires DistinctPaths(fs)
    ensures AllRecorded(md5, ScanFiles(md5, st, fs).data, fs)
    decreases |fs|
  {
    if fs != [] {
      var init := fs[..|fs| - 1];
      var last := fs[|fs| - 1];
      ScanRecordsAll(md5, st, init);
      var mid := ScanFiles(md5, st, init);
      var fin := ScanFiles(md5, st, fs);
      assert fin == Visit(md5, mid, last);
      forall i | 0 <= i < |fs| ensures !NeedsUpdate(fin.data, md5, fs[i].path, fs[i].file) {
        if i < |fs| - 1 {
          assert fs[i] == init[i];
          assert fs[i].path != last.path;
          assert !NeedsUpdate(mid.data, md5, init[i].path, init[i].file);
        }
      }
    }
  }

  /** A walk over files that are all recorded changes nothing. */
  lemma {:induction false} ScanOfRecordedIsIdle(md5: Hasher, st: ScanState, fs: seq<FoundFile>)
    requires AllRecorded(md5, st.data, fs)
    ensures ScanFiles(md5, st, fs) == st
    decreases |fs|
  {
    if fs != [] {
      ScanOfRecordedIsIdle(md5, st, fs[..|fs| - 1]);
      assert !NeedsUpdate(st.data, md5, fs[|fs| - 1].path, fs[|fs| - 1].file);
    }
  }

  /** Scanning an unchanged tree a second time reports nothing more and
      leaves the cache as the first scan left it. */
  lemma RescanReportsNothing(md5: Hasher, st: ScanState, fs: seq<FoundFile>)
    requires DistinctPaths(fs)
    ensures ScanFiles(md5, ScanFiles(md5, st, fs), fs) == ScanFiles(md5, st, fs)
  {
    ScanRecordsAll(md5, st, fs);
    ScanOfRecordedIsIdle(md5, ScanFiles(md5, st, fs), fs);
  }

  class DeltaScanner {
    const sourceDir: string
    const cache: MetadataCache
    var changes: seq<Change>

    constructor(sourceDir: string, cache: MetadataCache)
      ensures this.sourceDir == sourceDir && this.cache == cache && changes == []
    {
      this.sourceDir := sourceDir;
      this.cache := cache;
      changes := [];
    }

    /** `_scanDir(dir)` over the listing `es` of `dir`: descends into every
        sub-directory and visits every file, in listing order. */
    method ScanDir(dir: string, es: seq<Entry>)
      modifies this, cache
      ensures ScanState(changes, cache.data) == ScanFiles(cache.md5, ScanState(old(changes), old(cache.data)), Files(dir, es))
      decreases es
    {
      ghost var st0 := ScanState(changes, cache.data);
      for i := 0 to |es|
        invariant ScanState(changes, cache.data) == ScanFiles(cache.md5, st0, Files(dir, es[..i]))
      {
        ghost var before := ScanState(changes, cache.data);
        assert es[..i + 1][..i] == es[..i];
        ScanFilesAppend(cache.md5, st0, Files(dir, es[..i]), FilesOf(dir, es[i]));
        match es[i]
        case Dir(name, cs) =>
          assert es[i] in es;
          ScanDir(Join(dir, name), cs);
          ScanFilesWithin(cache.md5, before, Join(dir, name), Files(Join(dir, name), cs));
        case File(name, f) =>
          var full := Join(dir, name);
          if NeedsUpdate(cache.data, cache.md5, full, f) {
            var hash := cache.md5(f.content);
            changes := changes + [Change(full, f.Size(), hash)];
            cache.Update(full, f);
          }
          assert FilesOf(dir, es[i]) == [FoundFile(full, f, [])];
          assert ScanFiles(cache.md5, before, [FoundFile(full, f, [])]) == Visit(cache.md5, before, FoundFile(full, f, []));
      }
      assert es[..|es|] == es;
    }

    /** `scan()` of the source tree whose top-level listing is `root`: the
        walk's changes, appended to those of earlier scans of this instance. */
    method Scan(root: seq<Entry>) returns (result: seq<Change>)
      modifies this, cache
      ensures result == changes
      ensures ScanState(changes, cache.data) == ScanFiles(cache.md5, ScanState(old(changes), old(cache.data)), Files(sourceDir, root))
    {
      ScanDir(sourceDir, root);
      result := changes;
    }
  }
}
