/** The transfer strategy: a copy method chosen by file size, a token-bucket
    throttle stage for chunked copies, and the retry wrapper around one
    transfer. */
module TransferManager {
  import opened Common
  import opened ErrorRecovery

  /** Files smaller than this take the compressed round trip. */
  const CompressBelow: nat := 100 * 1024
  /** Files larger than this are copied in chunks. */
  const ChunkAbove: nat := 50 * 1024 * 1024
  /** `chunkedCopy`'s default read buffer. */
  const DefaultChunkSize: nat := 8 * 1024 * 1024

  datatype CopyMethod = CompressedCopy | ChunkedCopy | DirectCopy

  /** The size test of `transferFile`: exactly one method per size. */
  function SelectMethod(size: nat): (m: CopyMethod)
    ensures m == CompressedCopy <==> size < CompressBelow
    ensures m == ChunkedCopy <==> size > ChunkAbove
    ensures m == DirectCopy <==> CompressBelow <= size <= ChunkAbove
  {
    if size < CompressBelow then CompressedCopy
    else if size > ChunkAbove then ChunkedCopy
    else DirectCopy
  }

  /** The throttle's credit after one chunk: what was owed, drained at `rate`
      bytes per second over `elapsedMs` and floored at zero, plus the chunk. */
  function NextCredit(remaining: real, elapsedMs: int, rate: real, chunkLength: nat): (credit: real)
    requires remaining >= 0.0
    ensures credit >= chunkLength as real
    ensures elapsedMs as real * rate >= 0.0 ==> credit <= remaining + chunkLength as real
    ensures elapsedMs as real * rate / 1000.0 >= remaining ==> credit == chunkLength as real
  {
    var drained := remaining - elapsedMs as real * rate / 1000.0;
    (if drained < 0.0 then 0.0 else drained) + chunkLength as real
  }

  /** The `Throttle` transform stage of a rate-limited chunked copy. */
  class Throttle {
    const rate: real
    var remaining: real
    var last: int

    ghost predicate Valid()
      reads this
    {
      rate != 0.0 && remaining >= 0.0
    }

    /** Created at time `now` for a truthy (non-zero) rate in bytes per second. */
    constructor(rate: real, now: int)
      requires rate != 0.0
      ensures Valid() && this.rate == rate && remaining == 0.0 && last == now
    {
      this.rate := rate;
      remaining := 0.0;
      last := now;
    }

    /** `_transform` of a chunk of `chunkLength` bytes at time `now`: updates
        the credit and the time of the last chunk, and returns the delay (ms)
        after which the chunk is passed on. */
    method Transform(chunkLength: nat, now: int) returns (delayMs: real)
      requires Valid()
      modifies this
      ensures Valid()
      ensures remaining == NextCredit(old(remaining), now - old(last), rate, chunkLength)
      ensures remaining >= chunkLength as real
      ensures last == now
      ensures delayMs == remaining / rate * 1000.0
      ensures rate > 0.0 ==> delayMs >= chunkLength as real / rate * 1000.0
    {
      var elapsed := now - last;
      remaining := remaining - elapsed as real * rate / 1000.0;
      if remaining < 0.0 {
        remaining := 0.0;
      }
      remaining := remaining + chunkLength as real;
      last := now;
      delayMs := remaining / rate * 1000.0;
      if rate > 0.0 {
        DivideMonotone(chunkLength as real, remaining, rate);
      }
    }
  }

  lemma DivideMonotone(a: real, b: real, rate: real)
    requires a <= b && rate > 0.0
    ensures a / rate * 1000.0 <= b / rate * 1000.0
  {
  }

  /** The options `transferFile` hands to `chunkedCopy`. */
  datatype CopyOptions = CopyOptions(chunkSize: Option<nat>, rateLimit: Option<int>)

  datatype Stage = ReadStream(highWaterMark: nat) | ThrottleStage(rate: int) | WriteStream

  /** The stages `chunkedCopy` pipes through: a read stream with the chunk
      size (8 MiB unless given), a throttle only for a truthy rate limit, and
      the write stream. */
  function ChunkedPipeline(opts: CopyOptions): (stages: seq<Stage>)
    ensures 2 <= |stages| <= 3
    ensures stages[0] == ReadStream(opts.chunkSize.GetOr(DefaultChunkSize))
    ensures stages[|stages| - 1] == WriteStream
    ensures |stages| == 3 <==> opts.rateLimit.Some? && opts.rateLimit.value != 0
    ensures |stages| == 3 ==> stages[1] == ThrottleStage(opts.rateLimit.value)
  {
    var read := ReadStream(opts.chunkSize.GetOr(DefaultChunkSize));
    if opts.rateLimit.Some? && opts.rateLimit.value != 0 then [read, ThrottleStage(opts.rateLimit.value), WriteStream]
    else [read, WriteStream]
  }

  /** What one attempt inside `transferFile` meets: the `stat` of the source
      and the copy by the chosen method. */
  datatype AttemptEnv = AttemptEnv(stat: Outcome<nat>, copy: Outcome<Unit>)

  /** One attempt: a failed `stat` or copy rejects it; otherwise it resolves
      with the method the size selected. */
  function AttemptOf(env: AttemptEnv): (r: Outcome<CopyMethod>)
    ensures r.Ok? <==> env.stat.Ok? && env.copy.Ok?
    ensures r.Ok? ==> r.value == SelectMethod(env.stat.value)
    ensures env.stat.Err? ==> r == Err(env.stat.error)
  {
    match env.stat
    case Err(e) => Err(e)
    case Ok(size) =>
      match env.copy
      case Err(e) => Err(e)
      case Ok(_) => Ok(SelectMethod(size))
  }

  function Attempts(env: nat -> AttemptEnv): nat -> Outcome<CopyMethod>
  {
    (i: nat) => AttemptOf(env(i))
  }

  /** `transferFile(src, dest, opts)`: after creating the destination's
      directory, the stat-and-copy step runs under `retryOperation` with its
      defaults (3 attempts, 500 ms base delay); `env(i)` is what the (i+1)-th
      attempt meets. */
  method TransferFile(ensureDir: Outcome<Unit>, env: nat -> AttemptEnv) returns (r: Outcome<CopyMethod>, attempts: nat)
    ensures ensureDir.Err? ==> r == Err(ensureDir.error) && attempts == 0
    ensures ensureDir.Ok? ==> 1 <= attempts <= 3
    ensures ensureDir.Ok? ==> forall i :: 0 <= i < attempts - 1 ==> AttemptOf(env(i)).Err?
    ensures ensureDir.Ok? ==> r == AttemptOf(env(attempts - 1))
    ensures ensureDir.Ok? && r.Err? ==> attempts == 3
  {
    if ensureDir.Err? {
      return Err(ensureDir.error), 0;
    }
    var run := RetryOperation(Attempts(env));
    RetryFromFacts(Attempts(env), DefaultRetries, DefaultDelayMs, 0);
    attempts := run.calls;
    match run.result
    case Returned(m) => r := Ok(m);
    case Threw(e) => r := Err(e);
  }
}
