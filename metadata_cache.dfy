/** The stricter fingerprint store of the worker-pool engine: per exact path
    string it keeps size, mtime and a "quick hash" of the first bytes of the
    file, and reports a file as changed when any of the three differs. */
module MetadataCache {
  import opened Common
  import opened Tree

  /** How many leading bytes `_quickHash` reads. */
  const QuickHashBytes: nat := 1024

  datatype MetaEntry = MetaEntry(size: nat, mtime: int, quickHash: Digest)

  type Data = map<string, MetaEntry>

  /** What the constructor finds on disk: no cache file, a file that does not
      parse as JSON, or a parsed map. */
  datatype StoredCache = Missing | Unparsable | Parsed(data: Data)

  /** `_quickHash`: the digest of the first min(1024, size) bytes. */
  function QuickHash(md5: Hasher, f: FileState): (h: Digest)
    ensures f.Size() <= QuickHashBytes ==> h == md5(f.content)
    ensures f.Size() > QuickHashBytes ==> h == md5(f.content[..QuickHashBytes])
  {
    assert f.content[..f.Size()] == f.content;
    md5(f.content[..Min(QuickHashBytes, f.Size())])
  }

  /** The entry `update` stores for a file. */
  function EntryOf(md5: Hasher, f: FileState): (e: MetaEntry)
    ensures e.size == f.Size() && e.mtime == f.mtimeMs && e.quickHash == QuickHash(md5, f)
  {
    MetaEntry(f.Size(), f.mtimeMs, QuickHash(md5, f))
  }

  /** `needsUpdate(filePath, stat)`: no entry under this exact path string, or
      a different size or mtime, or (only then is the file read) a different
      quick hash. */
  function NeedsUpdate(data: Data, md5: Hasher, filePath: string, f: FileState): (r: bool)
    ensures !r <==> filePath in data && data[filePath] == EntryOf(md5, f)
  {
    if filePath !in data then true
    else if data[filePath].size != f.Size() || data[filePath].mtime != f.mtimeMs then true
    else data[filePath].quickHash != QuickHash(md5, f)
  }

  /** Two states of a file with equal size and mtime and equal first 1024
      bytes look the same: a change further in is not detected. */
  lemma ChangesPastQuickHashUndetected(data: Data, md5: Hasher, filePath: string, f: FileState, g: FileState)
    requires f.mtimeMs == g.mtimeMs && f.Size() == g.Size()
    requires f.content[..Min(QuickHashBytes, f.Size())] == g.content[..Min(QuickHashBytes, g.Size())]
    ensures NeedsUpdate(data, md5, filePath, f) == NeedsUpdate(data, md5, filePath, g)
  {
  }

  class MetadataCache {
    var data: Data
    /** The digest `_quickHash` (and the scanner's full hash) use. */
    const md5: Hasher

    /** Loads the stored map; a missing or unparsable cache file gives an
        empty one. */
    constructor(stored: StoredCache, md5: Hasher)
      ensures this.md5 == md5
      ensures stored.Parsed? ==> data == stored.data
      ensures !stored.Parsed? ==> data == map[]
    {
      this.md5 := md5;
      data := if stored.Parsed? then stored.data else map[];
    }

    /** `update(filePath, stat)`: replaces the entry of this one path, after
        which the file is up to date until it changes. */
    method Update(filePath: string, f: FileState)
      modifies this
      ensures data == old(data)[filePath := EntryOf(md5, f)]
      ensures !NeedsUpdate(data, md5, filePath, f)
      ensures forall p :: p != filePath ==> (p in data <==> p in old(data)) && (p in data ==> data[p] == old(data)[p])
    {
      data := data[filePath := EntryOf(md5, f)];
    }
  }
}
