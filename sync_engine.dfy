/** The worker-pool sync engine: mode and concurrency selection, the scan of
    changed files mapped to copy tasks, the per-task attempt protocol, and
    the sequential run over all tasks. */
module SyncEngine {
  import opened Common
  import opened Paths
  import opened Tree
  import opened MetadataCache
  import opened DeltaScanner
  import opened FileWorker
  import opened WorkerPool
  import NetworkOptimizer
  import SyncCore

  /** `detectMode()` for the command-line arguments `argv` and the
      executable's path: `--silent` wins over `--visual`; otherwise a run
      from a UNC path is a network run and any other a turbo run. */
  function DetectMode(argv: seq<string>, execPath: string): (mode: string)
    ensures "--silent" in argv ==> mode == "silent"
    ensures "--silent" !in argv && "--visual" in argv ==> mode == "visual"
    ensures "--silent" !in argv && "--visual" !in argv ==>
      (mode == "network" <==> NetworkOptimizer.IsUNCPath(execPath)) && (mode == "turbo" <==> !NetworkOptimizer.IsUNCPath(execPath))
  {
    if "--silent" in argv then "silent"
    else if "--visual" in argv then "visual"
    else if NetworkOptimizer.IsUNCPath(execPath) then "network"
    else "turbo"
  }

  /** The constructor's mode: a missing mode means 'auto', which is detected;
      any other mode is kept. */
  function ResolveMode(mode: Option<string>, argv: seq<string>, execPath: string): (r: string)
    ensures mode.Some? && mode.value != "auto" ==> r == mode.value
    ensures mode.None? || mode.value == "auto" ==> r == DetectMode(argv, execPath)
  {
    if mode.None? || mode.value == "auto" then DetectMode(argv, execPath) else mode.value
  }

  /** `getConcurrency()`: the pool size for a mode. */
  function GetConcurrency(mode: string): (n: nat)
    ensures mode == "turbo" ==> n == 16
    ensures mode == "network" ==> n == 4
    ensures mode != "turbo" && mode != "network" ==> n == 8
  {
    if mode == "turbo" then 16 else if mode == "network" then 4 else 8
  }

  /** A detected mode always yields a pool of 4, 8 or 16 workers: 4 exactly
      for a run from a UNC path without `--silent` or `--visual`. */
  lemma DetectedConcurrency(argv: seq<string>, execPath: string)
    ensures var n := GetConcurrency(DetectMode(argv, execPath));
      (n == 4 <==> "--silent" !in argv && "--visual" !in argv && NetworkOptimizer.IsUNCPath(execPath)) &&
      (n == 16 <==> "--silent" !in argv && "--visual" !in argv && !NetworkOptimizer.IsUNCPath(execPath)) &&
      (n == 8 <==> "--silent" in argv || "--visual" in argv)
  {
  }

  /** `scan()`'s mapping of the changes to copy tasks: each task copies a
      changed file to the same relative path below the target directory. */
  function ToTasks(config: Config, changes: seq<Change>): (tasks: seq<TaskData>)
    requires forall i :: 0 <= i < |changes| ==> IsUnder(config.sourceDirectory, changes[i].path)
    ensures |tasks| == |changes|
    ensures forall i :: 0 <= i < |tasks| ==>
      && tasks[i].source == changes[i].path && tasks[i].size == changes[i].size && tasks[i].attempt.None?
      && IsUnder(config.targetDirectory, tasks[i].target)
      && Relative(config.targetDirectory, tasks[i].target) == Relative(config.sourceDirectory, changes[i].path)
  {
    seq(|changes|, i requires 0 <= i < |changes| =>
      TaskData(changes[i].path, SyncCore.TargetPath(config, changes[i].path), changes[i].size, None))
  }

  /** What the worker running an attempt does: replies after its copy
      settles as `copy`, or emits an error. */
  datatype WorkerEvent = Replied(copy: Outcome<Unit>) | Crashed(error: string)

  /** The attempt protocol of one task from attempt number `attempt` on,
      where `events(k)` is what happens to attempt k + 1: the first attempt
      that succeeds or crashes decides, and a failed copy is retried until
      the third attempt fails. Returns the outcome and the attempts made. */
  function CopyRun(events: nat -> WorkerEvent, attempt: nat): (r: (Outcome<Unit>, nat))
    requires 1 <= attempt <= MaxAttempts
    ensures attempt <= r.1 <= MaxAttempts
    decreases MaxAttempts - attempt
  {
    match events(attempt - 1)
    case Crashed(e) => (Err(e), attempt)
    case Replied(Ok(_)) => (Ok(Unit), attempt)
    case Replied(Err(e)) => if attempt < MaxAttempts then CopyRun(events, attempt + 1) else (Err(e), attempt)
  }

  /** The copies of the first `n` tasks all resolve, where `events(i)` drives
      the copy of the i-th task. */
  predicate FirstCopiesSucceed(events: nat -> nat -> WorkerEvent, n: nat)
  {
    forall j :: 0 <= j < n ==> CopyRun(events(j), 1).0.Ok?
  }

  /** A task succeeds exactly when some attempt's copy succeeds after every
      earlier attempt's copy failed; the attempts made are those up to the
      deciding one. */
  lemma {:induction false} CopyRunSucceeds(events: nat -> WorkerEvent, attempt: nat)
    requires 1 <= attempt <= MaxAttempts
    ensures CopyRun(events, attempt).0.Ok? <==>
      exists k :: attempt - 1 <= k < MaxAttempts && events(k).Replied? && events(k).copy.Ok? &&
        forall j :: attempt - 1 <= j < k ==> events(j).Replied? && events(j).copy.Err?
    ensures forall j :: attempt - 1 <= j < CopyRun(events, attempt).1 - 1 ==> events(j).Replied? && events(j).copy.Err?
    decreases MaxAttempts - attempt
  {
    if events(attempt - 1).Replied? && events(attempt - 1).copy.Err? && attempt < MaxAttempts {
      CopyRunSucceeds(events, attempt + 1);
      if CopyRun(events, attempt).0.Ok? {
        var k :| attempt <= k < MaxAttempts && events(k).Replied? && events(k).copy.Ok? &&
          forall j :: attempt <= j < k ==> events(j).Replied? && events(j).copy.Err?;
        assert forall j :: attempt - 1 <= j < k ==> events(j).Replied? && events(j).copy.Err?;
      }
    }
  }

  /** The changes a fresh scanner reports for the source tree `root`, all
      of them below the source directory. */
  function ScannedChanges(md5: Hasher, data: Data, src: string, root: seq<Entry>): (changes: seq<Change>)
    ensures forall i :: 0 <= i < |changes| ==> IsUnder(src, changes[i].path)
  {
    var fs := Files(src, root);
    var changes := ScanFiles(md5, ScanState([], data), fs).changes;
    ChangesNameWalkedFiles(md5, ScanState([], data), fs);
    assert forall i :: 0 <= i < |changes| ==> IsUnder(src, changes[i].path) by {
      forall i | 0 <= i < |changes| ensures IsUnder(src, changes[i].path) {
        var k :| 0 <= k < |fs| && PathsOf(fs)[k] == changes[i].path;
      }
    }
    changes
  }

  class SyncEngine {
    const config: Config
    const mode: string
    const cache: MetadataCache
    const pool: WorkerPool
    /** `progress.total` and `progress.done`. */
    var total: nat
    var done: nat
    /** Whether `cache.save()` has run. */
    var saved: bool

    /** Between two copies: the pool is sound, no task waits or runs, and at
        least one worker is idle. */
    ghost predicate Ready()
      reads this, pool
    {
      pool.Valid() && pool.queue == [] && pool.current == map[] && pool.size >= 1
    }

    /** `new SyncEngine(config, mode)`: the mode is resolved, the cache loaded
        from what is stored, and a pool sized for the mode is started. */
    constructor(config: Config, mode: Option<string>, argv: seq<string>, execPath: string,
                stored: StoredCache, md5: Hasher)
      ensures this.config == config && this.mode == ResolveMode(mode, argv, execPath)
      ensures fresh(pool) && fresh(cache) && pool.size == GetConcurrency(this.mode)
      ensures cache.md5 == md5 && cache.data == (if stored.Parsed? then stored.data else map[])
      ensures Ready() && total == 0 && done == 0 && !saved
    {
      this.config := config;
      var m := ResolveMode(mode, argv, execPath);
      this.mode := m;
      cache := new MetadataCache(stored, md5);
      pool := new WorkerPool(GetConcurrency(m));
      total, done, saved := 0, 0, false;
    }

    /** `scan()` of the source tree whose top-level listing is `root`: a
        fresh scanner's changes (recorded in the cache as it goes), mapped
        to tasks in order. */
    method Scan(root: seq<Entry>) returns (tasks: seq<TaskData>)
      modifies cache
      ensures cache.data == ScanFiles(cache.md5, ScanState([], old(cache.data)), Files(config.sourceDirectory, root)).data
      ensures tasks == ToTasks(config, ScannedChanges(cache.md5, old(cache.data), config.sourceDirectory, root))
    {
      var scanner := new DeltaScanner(config.sourceDirectory, cache);
      var changes := scanner.Scan(root);
      assert changes == ScannedChanges(cache.md5, old(cache.data), config.sourceDirectory, root);
      tasks := ToTasks(config, changes);
    }

    /** `copy(change)`: the task is run on the pool; a retry message resends
        it with the next attempt number, a success counts one more file done,
        and a failure or a worker error rejects. `events(k)` is what the
        worker running attempt k + 1 does. */
    method Copy(change: TaskData, events: nat -> WorkerEvent) returns (r: Outcome<Unit>, attempts: nat)
      requires Ready() && change.attempt.None?
      modifies this, pool
      ensures Ready()
      ensures (r, attempts) == CopyRun(events, 1)
      ensures done == old(done) + (if r.Ok? then 1 else 0)
      ensures total == old(total) && saved == old(saved)
    {
      var task := change;
      var attempt: nat := 1;
      while true
        invariant 1 <= attempt <= MaxAttempts
        invariant Ready() && done == old(done) && total == old(total) && saved == old(saved)
        invariant task.attempt.GetOr(1) == attempt
        invariant CopyRun(events, attempt) == CopyRun(events, 1)
        decreases MaxAttempts - attempt
      {
        var w := pool.idle[0];
        var id := pool.Run(task);
        assert pool.current == map[w := Task(id, task)];
        match events(attempt - 1)
        case Crashed(e) =>
          pool.OnError(w);
          return Err(e), attempt;
        case Replied(c) =>
          var reply := Respond(task, c);
          pool.OnMessage(w, reply.msg);
          assert pool.current == map[];
          match reply.msg
          case Success(_, _) =>
            done := done + 1;
            return Ok(Unit), attempt;
          case Failure(_, _, e) =>
            return Err(e), attempt;
          case Retry(s, t, next) =>
            task := TaskData(s, t, change.size, Some(next));
            attempt := next;
      }
    }

    /** The loop of `sync()` over `tasks`, where `events(i)` drives the copy
        of the i-th task: the tasks are copied one after the other, and the
        first rejection ends the loop with that rejection. */
    method CopyAll(tasks: seq<TaskData>, events: nat -> nat -> WorkerEvent) returns (r: Outcome<Unit>)
      requires Ready() && forall i :: 0 <= i < |tasks| ==> tasks[i].attempt.None?
      modifies this, pool
      ensures Ready() && total == old(total) && saved == old(saved)
      ensures r.Ok? <==> FirstCopiesSucceed(events, |tasks|)
      ensures r.Ok? ==> done == old(done) + |tasks|
      ensures r.Err? ==> var k := done - old(done);
        0 <= k < |tasks| && r == CopyRun(events(k), 1).0 && FirstCopiesSucceed(events, k)
    {
      for i := 0 to |tasks|
        invariant Ready() && total == old(total) && saved == old(saved)
        invariant done == old(done) + i
        invariant FirstCopiesSucceed(events, i)
      {
        var res, _ := Copy(tasks[i], events(i));
        if res.Err? {
          return res;
        }
      }
      r := Ok(Unit);
    }

    /** `sync()` of the source tree `root`: the scan sets the total, the
        tasks are copied in order, and only when every copy resolved is the
        cache saved and the pool destroyed. */
    method Sync(root: seq<Entry>, events: nat -> nat -> WorkerEvent) returns (r: Outcome<Unit>, tasks: seq<TaskData>)
      requires Ready() && !saved
      modifies this, pool, cache
      ensures tasks == ToTasks(config, ScannedChanges(cache.md5, old(cache.data), config.sourceDirectory, root))
      ensures total == |tasks| && old(done) <= done <= old(done) + total
      ensures r.Ok? <==> FirstCopiesSucceed(events, |tasks|)
      ensures r.Ok? ==> done == old(done) + total && saved && forall w :: 0 <= w < pool.created ==> w in pool.terminated
      ensures r.Err? ==> !saved && Ready()
      ensures r.Err? ==> var k := done - old(done);
        k < |tasks| && r == CopyRun(events(k), 1).0 && FirstCopiesSucceed(events, k)
    {
      tasks := Scan(root);
      total := |tasks|;
      r := CopyAll(tasks, events);
      if r.Ok? {
        saved := true;
        pool.Destroy();
      }
    }
  }
}
