/** The fingerprint map of the shared sync path: a path -> {mtime, size,
    lastUse} object that is consulted before each copy, upserted after it, and
    trimmed to a bound by evicting the least recently used entries. */
module CacheManager {
  import opened Common
  import opened Paths

  /** `evictCache`'s default bound. */
  const DefaultMaxEntries: nat := 1000

  /** The fields of an `fs.Stats` the cache looks at. */
  datatype Stat = Stat(mtimeMs: int, size: nat)

  datatype CacheEntry = CacheEntry(mtime: int, size: nat, lastUse: int)

  type Entries = map<string, CacheEntry>

  /** The cache object that the sync path passes around and mutates. */
  class Cache {
    var entries: Entries

    constructor()
      ensures entries == map[]
    {
      entries := map[];
    }
  }

  /** A segment that survives normalisation. */
  predicate NormalSegment(x: string)
  {
    x != "" && x != "." && x != ".." && NoSep(x, {'/'})
  }

  predicate AllNormal(segs: seq<string>)
  {
    forall i :: 0 <= i < |segs| ==> NormalSegment(segs[i])
  }

  predicate AllSepFree(segs: seq<string>)
  {
    forall i :: 0 <= i < |segs| ==> NoSep(segs[i], {'/'})
  }

  /** Resolves the segments onto `stack` the way `path.resolve` does: empty
      and "." segments vanish, ".." drops the last kept segment (and stays at
      the root when there is none). */
  function Normalize(stack: seq<string>, segs: seq<string>): (r: seq<string>)
    requires AllNormal(stack) && AllSepFree(segs)
    ensures AllNormal(r)
    decreases |segs|
  {
    if segs == [] then stack
    else if segs[0] == "" || segs[0] == "." then Normalize(stack, segs[1..])
    else if segs[0] == ".." then Normalize(if stack == [] then [] else stack[..|stack| - 1], segs[1..])
    else Normalize(stack + [segs[0]], segs[1..])
  }

  /** `entryKey(filePath)`, i.e. `path.resolve(filePath)` on a POSIX system
      whose working directory is `cwd`. */
  function EntryKey(cwd: string, filePath: string): (key: string)
    ensures |key| >= 1 && key[0] == '/'
  {
    var segs := if |filePath| > 0 && filePath[0] == '/' then Split(filePath, {'/'})
                else Split(cwd, {'/'}) + Split(filePath, {'/'});
    "/" + JoinWith(Normalize([], segs), '/')
  }

  /** `needsSync`: true when the resolved path has no entry, or when the stored
      mtime or size differs from the observed stat. */
  function NeedsSync(cwd: string, filePath: string, stat: Stat, cache: Entries): (r: bool)
    ensures !r <==> var key := EntryKey(cwd, filePath);
      key in cache && cache[key] == EntryFor(stat, cache[key].lastUse)
  {
    var key := EntryKey(cwd, filePath);
    key !in cache || cache[key].mtime != stat.mtimeMs || cache[key].size != stat.size
  }

  /** The entry `updateCacheEntry` writes. */
  function EntryFor(stat: Stat, now: int): (e: CacheEntry)
    ensures e.mtime == stat.mtimeMs && e.size == stat.size && e.lastUse == now
  {
    CacheEntry(stat.mtimeMs, stat.size, now)
  }

  /** `updateCacheEntry(cache, filePath, stat)` at time `now`: writes the one
      key `filePath` resolves to. Every path resolving to the same key is then
      up to date for this stat; every other key is left as it was. */
  method UpdateCacheEntry(cache: Cache, cwd: string, filePath: string, stat: Stat, now: int)
    modifies cache
    ensures cache.entries == old(cache.entries)[EntryKey(cwd, filePath) := EntryFor(stat, now)]
    ensures forall q :: EntryKey(cwd, q) == EntryKey(cwd, filePath) ==> !NeedsSync(cwd, q, stat, cache.entries)
    ensures forall k :: k != EntryKey(cwd, filePath) ==>
              (k in cache.entries <==> k in old(cache.entries)) &&
              (k in cache.entries ==> cache.entries[k] == old(cache.entries)[k])
  {
    var key := EntryKey(cwd, filePath);
    cache.entries := cache.entries[key := EntryFor(stat, now)];
  }

  /** Some entry has the smallest `lastUse`. */
  lemma {:induction false} LeastRecentlyUsedExists(m: Entries)
    requires m != map[]
    ensures exists k :: k in m && forall j :: j in m ==> m[k].lastUse <= m[j].lastUse
    decreases |m|
  {
    var k0 :| k0 in m;
    var rest := m - {k0};
    if rest == map[] {
      assert m.Keys - {k0} == rest.Keys == {};
      forall j | j in m ensures m[k0].lastUse <= m[j].lastUse {
        assert j in m.Keys - {k0} || j == k0;
      }
    } else {
      assert |rest| < |m| by {
        assert rest.Keys == m.Keys - {k0};
      }
      LeastRecentlyUsedExists(rest);
      var k1 :| k1 in rest && forall j :: j in rest ==> rest[k1].lastUse <= rest[j].lastUse;
      if m[k0].lastUse <= m[k1].lastUse {
        assert forall j :: j in m ==> m[k0].lastUse <= m[j].lastUse by {
          forall j | j in m ensures m[k0].lastUse <= m[j].lastUse {
            if j != k0 { assert j in rest; }
          }
        }
      } else {
        assert forall j :: j in m ==> m[k1].lastUse <= m[j].lastUse by {
          forall j | j in m ensures m[k1].lastUse <= m[j].lastUse {
            if j != k0 { assert j in rest; }
          }
        }
      }
    }
  }

  /** `evictCache(cache, maxEntries)`: nothing happens while the cache holds at
      most `maxEntries` entries; otherwise the least recently used entries are
      deleted one by one until exactly `maxEntries` remain. Kept entries are
      untouched and no deleted entry was used later than a kept one. */
  method EvictCache(cache: Cache, maxEntries: nat := DefaultMaxEntries)
    modifies cache
    ensures |old(cache.entries)| <= maxEntries ==> cache.entries == old(cache.entries)
    ensures |old(cache.entries)| > maxEntries ==> |cache.entries| == maxEntries
    ensures forall k :: k in cache.entries ==> k in old(cache.entries) && cache.entries[k] == old(cache.entries)[k]
    ensures forall r, k :: r in old(cache.entries) && r !in cache.entries && k in cache.entries ==>
              old(cache.entries)[r].lastUse <= cache.entries[k].lastUse
  {
    var n := |cache.entries|;
    if n <= maxEntries {
      return;
    }
    var i := 0;
    while i < n - maxEntries
      invariant 0 <= i <= n - maxEntries
      invariant |cache.entries| == n - i
      invariant forall k :: k in cache.entries ==> k in old(cache.entries) && cache.entries[k] == old(cache.entries)[k]
      invariant forall r, k :: r in old(cache.entries) && r !in cache.entries && k in cache.entries ==>
                  old(cache.entries)[r].lastUse <= cache.entries[k].lastUse
    {
      LeastRecentlyUsedExists(cache.entries);
      var oldest :| oldest in cache.entries &&
        forall j :: j in cache.entries ==> cache.entries[oldest].lastUse <= cache.entries[j].lastUse;
      assert (cache.entries - {oldest}).Keys == cache.entries.Keys - {oldest};
      cache.entries := cache.entries - {oldest};
      i := i + 1;
    }
  }

  /** Normalising segments that are already normal appends them unchanged. */
  lemma {:induction false} NormalizeNormal(stack: seq<string>, segs: seq<string>)
    requires AllNormal(stack) && AllNormal(segs)
    ensures AllSepFree(segs)
    ensures Normalize(stack, segs) == stack + segs
    decreases |segs|
  {
    if segs != [] {
      NormalizeNormal(stack + [segs[0]], segs[1..]);
      assert stack + [segs[0]] + segs[1..] == stack + segs;
    }
  }

  /** A key is already resolved: resolving it again gives it back, so every
      path and its key share one entry. */
  lemma EntryKeyIdempotent(cwd: string, filePath: string)
    ensures EntryKey(cwd, EntryKey(cwd, filePath)) == EntryKey(cwd, filePath)
  {
    var segs := if |filePath| > 0 && filePath[0] == '/' then Split(filePath, {'/'})
                else Split(cwd, {'/'}) + Split(filePath, {'/'});
    var st := Normalize([], segs);
    var key := "/" + JoinWith(st, '/');
    assert key == EntryKey(cwd, filePath);
    assert Split(key, {'/'}) == [""] + Split(JoinWith(st, '/'), {'/'}) by {
      assert key[1..] == JoinWith(st, '/');
    }
    if st == [] {
      assert Split(key, {'/'}) == ["", ""];
      assert Normalize([], ["", ""]) == [];
      assert Normalize([], Split(key, {'/'})) == st;
    } else {
      SplitJoin(st, '/');
      NormalizeNormal([], st);
      assert Normalize([], [""] + st) == Normalize([], st) by {
        assert ([""] + st)[1..] == st;
      }
      assert Normalize([], Split(key, {'/'})) == st;
    }
    assert EntryKey(cwd, key) == "/" + JoinWith(Normalize([], Split(key, {'/'})), '/');
  }

  /** The round trip of the source's own test: an empty cache needs a sync,
      an update clears it, and evicting down to zero entries brings it back. */
  method UpdateThenEvictAll(cwd: string, filePath: string, stat: Stat, now: int)
    returns (before: bool, afterUpdate: bool, afterEvict: bool)
    ensures before && !afterUpdate && afterEvict
  {
    var cache := new Cache();
    before := NeedsSync(cwd, filePath, stat, cache.entries);
    UpdateCacheEntry(cache, cwd, filePath, stat, now);
    afterUpdate := NeedsSync(cwd, filePath, stat, cache.entries);
    EvictCache(cache, 0);
    afterEvict := NeedsSync(cwd, filePath, stat, cache.entries);
  }
}
