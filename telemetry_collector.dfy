/** Run metrics: counters updated in place by the record calls, a bounded log
    buffer that drops its oldest entry when full, and the end-of-run figures. */
module TelemetryCollector {
  import opened Common

  /** The log capacity when `maxLogs` is missing or 0. */
  const DefaultMaxLogs: int := 1000

  datatype LogKind = FileCopiedLog(bytes: Option<int>) | ErrorLog | BatchLog

  datatype LogEntry = LogEntry(time: int, kind: LogKind)

  /** `options.initialMetrics`: any counter it names replaces the default. */
  datatype InitialMetrics = InitialMetrics(
    startTime: Option<int>, filesCopied: Option<int>, errors: Option<int>,
    bytesCopied: Option<int>, batches: Option<int>)

  /** What `finish` adds to the metrics (host name and memory use are not
      modelled). */
  datatype Summary = Summary(
    endTime: int, durationMs: int, throughput: real, averageFileSize: real,
    filesCopied: int, errors: int, bytesCopied: int, logs: seq<LogEntry>)

  /** `options.maxLogs || 1000`. */
  function MaxLogsOf(maxLogs: Option<int>): (r: int)
    ensures r != 0
    ensures maxLogs.Some? && maxLogs.value != 0 ==> r == maxLogs.value
    ensures maxLogs.None? || maxLogs.value == 0 ==> r == DefaultMaxLogs
  {
    if maxLogs.None? || maxLogs.value == 0 then DefaultMaxLogs else maxLogs.value
  }

  /** How many entries the buffer can hold: `maxLogs`, but never fewer than
      the one entry just pushed. */
  function Capacity(maxLogs: int): (c: nat)
    ensures c >= 1 && c >= maxLogs
    ensures maxLogs >= 1 ==> c == maxLogs
  {
    if maxLogs >= 1 then maxLogs else 1
  }

  /** The buffer after `_addLog(entry)`: the oldest entry is shifted out when
      the buffer is full, then the new one is pushed. The result is the last
      `Min(|logs| + 1, Capacity(maxLogs))` entries of `logs + [entry]`. */
  function Pushed(logs: seq<LogEntry>, maxLogs: int, entry: LogEntry): (r: seq<LogEntry>)
    requires |logs| <= Capacity(maxLogs)
    ensures |r| == Min(|logs| + 1, Capacity(maxLogs))
    ensures r == (logs + [entry])[|logs| + 1 - |r|..]
  {
    (if |logs| >= maxLogs && |logs| > 0 then logs[1..] else logs) + [entry]
  }

  /** Bytes per second over a run: 0 for a run of no positive duration. */
  function Throughput(bytesCopied: int, durationMs: int): (rate: real)
    ensures durationMs <= 0 ==> rate == 0.0
    ensures durationMs > 0 ==> rate * (durationMs as real / 1000.0) == bytesCopied as real
  {
    if durationMs > 0 then bytesCopied as real / (durationMs as real / 1000.0) else 0.0
  }

  /** Average size of a copied file: 0 when no file was counted. */
  function AverageFileSize(bytesCopied: int, filesCopied: int): (avg: real)
    ensures filesCopied == 0 ==> avg == 0.0
    ensures filesCopied != 0 ==> avg * filesCopied as real == bytesCopied as real
  {
    if filesCopied != 0 then bytesCopied as real / filesCopied as real else 0.0
  }

  class TelemetryCollector {
    var startTime: int
    var filesCopied: int
    var errors: int
    var bytesCopied: int
    var batches: int
    var logs: seq<LogEntry>
    const maxLogs: int

    ghost predicate Valid()
      reads this
    {
      |logs| <= Capacity(maxLogs)
    }

    /** Starts at time `now` with zero counters unless `initial` overrides them. */
    constructor(initial: InitialMetrics, maxLogs: Option<int>, now: int)
      ensures Valid()
      ensures startTime == initial.startTime.GetOr(now)
      ensures filesCopied == initial.filesCopied.GetOr(0) && errors == initial.errors.GetOr(0)
      ensures bytesCopied == initial.bytesCopied.GetOr(0) && batches == initial.batches.GetOr(0)
      ensures logs == [] && this.maxLogs == MaxLogsOf(maxLogs)
    {
      startTime := initial.startTime.GetOr(now);
      filesCopied := initial.filesCopied.GetOr(0);
      errors := initial.errors.GetOr(0);
      bytesCopied := initial.bytesCopied.GetOr(0);
      batches := initial.batches.GetOr(0);
      logs := [];
      this.maxLogs := MaxLogsOf(maxLogs);
    }

    /** `_addLog`: drops the oldest entry when the buffer is full, then
        appends the new one last. */
    method AddLog(kind: LogKind, now: int)
      requires Valid()
      modifies this`logs
      ensures Valid()
      ensures logs == Pushed(old(logs), maxLogs, LogEntry(now, kind))
    {
      if |logs| >= maxLogs && |logs| > 0 {
        logs := logs[1..];
      }
      logs := logs + [LogEntry(now, kind)];
    }

    /** `recordFileCopied(bytes)`: one more file, its bytes added only when
        `bytes` is truthy, one log entry. */
    method RecordFileCopied(bytes: Option<int>, now: int)
      requires Valid()
      modifies this`filesCopied, this`bytesCopied, this`logs
      ensures Valid()
      ensures filesCopied == old(filesCopied) + 1
      ensures bytesCopied == old(bytesCopied) + (if bytes.Some? then bytes.value else 0)
      ensures logs == Pushed(old(logs), maxLogs, LogEntry(now, FileCopiedLog(bytes)))
    {
      filesCopied := filesCopied + 1;
      if bytes.Some? && bytes.value != 0 {
        bytesCopied := bytesCopied + bytes.value;
      }
      AddLog(FileCopiedLog(bytes), now);
    }

    /** `recordError()`: one more error, one log entry. */
    method RecordError(now: int)
      requires Valid()
      modifies this`errors, this`logs
      ensures Valid()
      ensures errors == old(errors) + 1
      ensures logs == Pushed(old(logs), maxLogs, LogEntry(now, ErrorLog))
    {
      errors := errors + 1;
      AddLog(ErrorLog, now);
    }

    /** `recordBatch()`: one more batch, one log entry. */
    method RecordBatch(now: int)
      requires Valid()
      modifies this`batches, this`logs
      ensures Valid()
      ensures batches == old(batches) + 1
      ensures logs == Pushed(old(logs), maxLogs, LogEntry(now, BatchLog))
    {
      batches := batches + 1;
      AddLog(BatchLog, now);
    }

    /** `finish()` at time `end`: the duration since the start, throughput and
        average file size, and a copy of the log buffer. */
    method Finish(end: int) returns (s: Summary)
      ensures s.endTime == end && s.durationMs == end - startTime
      ensures s.throughput == Throughput(bytesCopied, end - startTime)
      ensures s.averageFileSize == AverageFileSize(bytesCopied, filesCopied)
      ensures s.filesCopied == filesCopied && s.errors == errors && s.bytesCopied == bytesCopied
      ensures s.logs == logs
    {
      var duration := end - startTime;
      s := Summary(end, duration, Throughput(bytesCopied, duration), AverageFileSize(bytesCopied, filesCopied),
                   filesCopied, errors, bytesCopied, logs);
    }
  }

  /** Pushing the entry of time `times[i]` onto a buffer holding the entries
      of the last `|logs|` times before `i` keeps the entries of the last
      times up to `i`. */
  lemma PushKeepsRecent(logs: seq<LogEntry>, maxLogs: int, times: seq<int>, i: nat)
    requires |logs| <= Capacity(maxLogs) && |logs| <= i < |times|
    requires forall k :: 0 <= k < |logs| ==> logs[k] == LogEntry(times[i - |logs| + k], ErrorLog)
    ensures var r := Pushed(logs, maxLogs, LogEntry(times[i], ErrorLog));
      forall k :: 0 <= k < |r| ==> r[k] == LogEntry(times[i + 1 - |r| + k], ErrorLog)
  {
    var e := LogEntry(times[i], ErrorLog);
    var r := Pushed(logs, maxLogs, e);
    forall k | 0 <= k < |r| ensures r[k] == LogEntry(times[i + 1 - |r| + k], ErrorLog) {
      assert r[k] == (logs + [e])[|logs| + 1 - |r| + k];
    }
  }

  /** However many entries are recorded, the buffer keeps the most recent
      ones, at most `Capacity(maxLogs)` of them, newest last. */
  method RecordMany(maxLogs: Option<int>, times: seq<int>) returns (logs: seq<LogEntry>, errors: int)
    ensures errors == |times|
    ensures |logs| == Min(|times|, Capacity(MaxLogsOf(maxLogs)))
    ensures forall k :: 0 <= k < |logs| ==> logs[k] == LogEntry(times[|times| - |logs| + k], ErrorLog)
  {
    var t := new TelemetryCollector(InitialMetrics(None, None, None, None, None), maxLogs, 0);
    for i := 0 to |times|
      invariant t.Valid() && t.maxLogs == MaxLogsOf(maxLogs)
      invariant t.errors == i
      invariant |t.logs| == Min(i, Capacity(t.maxLogs))
      invariant forall k :: 0 <= k < |t.logs| ==> t.logs[k] == LogEntry(times[i - |t.logs| + k], ErrorLog)
    {
      PushKeepsRecent(t.logs, t.maxLogs, times, i);
      t.RecordError(times[i]);
    }
    logs, errors := t.logs, t.errors;
  }
}
