/** The file system as the walks see it: a directory listing is a sequence of
    entries in `readdir` order, each a file (anything `stat` does not report
    as a directory) or a sub-directory with its own listing. */
module Tree {
  import opened Common
  import opened Paths

  /** What a walk learns about one file: its modification time and its bytes
      (its size is the number of bytes). */
  datatype FileState = FileState(mtimeMs: int, content: Bytes)
  {
    function Size(): nat { |content| }
  }

  datatype Entry =
    | File(name: string, file: FileState)
    | Dir(name: string, children: seq<Entry>)

  /** A file met by a depth-first walk: its full path, its state and the full
      paths of the directories entered to reach it, outermost first. */
  datatype FoundFile = FoundFile(path: string, file: FileState, ancestors: seq<string>)

  /** The files below `dir`, in depth-first order of the listings. */
  function Files(dir: string, es: seq<Entry>): (r: seq<FoundFile>)
    ensures forall i :: 0 <= i < |r| ==> IsUnder(dir, r[i].path)
    decreases es, 1
  {
    if es == [] then []
    else Files(dir, es[..|es| - 1]) + FilesOf(dir, es[|es| - 1])
  }

  /** The files of one entry of the listing of `dir`. */
  function FilesOf(dir: string, e: Entry): (r: seq<FoundFile>)
    ensures forall i :: 0 <= i < |r| ==> IsUnder(dir, r[i].path)
    decreases e, 0
  {
    match e
    case File(name, f) => [FoundFile(Join(dir, name), f, [])]
    case Dir(name, cs) =>
      var sub := Files(Join(dir, name), cs);
      assert forall i :: 0 <= i < |sub| ==> IsUnder(dir, sub[i].path) by {
        forall i | 0 <= i < |sub| ensures IsUnder(dir, sub[i].path) {
          UnderJoin(dir, name, sub[i].path);
        }
      }
      Within(Join(dir, name), sub)
  }

  /** The same files, reached through one more directory. */
  function Within(d: string, fs: seq<FoundFile>): (r: seq<FoundFile>)
  {
    seq(|fs|, i requires 0 <= i < |fs| => fs[i].(ancestors := [d] + fs[i].ancestors))
  }

  function PathsOf(fs: seq<FoundFile>): seq<string>
  {
    seq(|fs|, i requires 0 <= i < |fs| => fs[i].path)
  }

  /** No two files of the walk share a path, as in a real file system. */
  predicate DistinctPaths(fs: seq<FoundFile>)
  {
    forall i, j :: 0 <= i < j < |fs| ==> fs[i].path != fs[j].path
  }
}
