/** The resilience layer: a bounded retry loop with exponential backoff, a
    resumable copy on byte sequences, and a circuit breaker whose clock is
    passed in. */
module ErrorRecovery {
  import opened Common

  const DefaultRetries: int := 3
  const DefaultDelayMs: int := 500
  const DefaultBreakerLimit: int := 5
  const DefaultBreakerTimeoutMs: int := 30000

  /** How `retryOperation` settles: with `fn`'s value, by rethrowing `fn`'s
      last error, or with `undefined` when it never called `fn`. */
  datatype RetryResult<T> = Returned(value: T) | Threw(error: string) | Undefined

  /** A whole run of the retry loop: how it settled, how many times `fn` ran,
      and the backoff delays (ms) it waited, in order. */
  datatype RetryRun<T> = RetryRun(result: RetryResult<T>, calls: nat, waits: seq<int>)

  /** The retry loop from `attempt` failures on; `fn(i)` is how the (i+1)-th
      call of `fn` settles. */
  function RetryFrom<T>(fn: nat -> Outcome<T>, retries: int, delay: int, attempt: nat): (r: RetryRun<T>)
    ensures r.result.Undefined? <==> attempt >= retries
    ensures attempt < retries ==> attempt < r.calls <= retries
    ensures attempt >= retries ==> r.calls == attempt && r.waits == []
    decreases retries - attempt
  {
    if attempt >= retries then RetryRun(Undefined, attempt, [])
    else match fn(attempt)
      case Ok(v) => RetryRun(Returned(v), attempt + 1, [])
      case Err(e) =>
        if attempt + 1 >= retries then RetryRun(Threw(e), attempt + 1, [])
        else
          var rest := RetryFrom(fn, retries, delay, attempt + 1);
          rest.(waits := [delay * Pow2(attempt + 1)] + rest.waits)
  }

  /** `retryOperation(fn, retries, delay)`. */
  function Retry<T>(fn: nat -> Outcome<T>, retries: int, delay: int): (r: RetryRun<T>)
    ensures r.result.Undefined? <==> retries <= 0
    ensures r.calls <= Max(retries, 0)
  {
    RetryFrom(fn, retries, delay, 0)
  }

  /** What a retry run does, from `attempt` earlier failures on: `fn` runs at
      most up to the bound, every call but the last failed, the last one
      decides the result, and the n-th wait is `delay * 2^n`. */
  lemma {:induction false} RetryFromFacts<T>(fn: nat -> Outcome<T>, retries: int, delay: int, attempt: nat)
    requires attempt < retries
    ensures var r := RetryFrom(fn, retries, delay, attempt);
      attempt + 1 <= r.calls <= retries &&
      |r.waits| == r.calls - attempt - 1 &&
      (forall j :: 0 <= j < |r.waits| ==> r.waits[j] == delay * Pow2(attempt + j + 1)) &&
      (forall i :: attempt <= i < r.calls - 1 ==> fn(i).Err?) &&
      !r.result.Undefined? &&
      (r.result.Returned? ==> fn(r.calls - 1) == Ok(r.result.value)) &&
      (r.result.Threw? ==> r.calls == retries && fn(r.calls - 1) == Err(r.result.error))
    decreases retries - attempt
  {
    if fn(attempt).Err? && attempt + 1 < retries {
      RetryFromFacts(fn, retries, delay, attempt + 1);
      var rest := RetryFrom(fn, retries, delay, attempt + 1);
      var r := RetryFrom(fn, retries, delay, attempt);
      assert r.waits == [delay * Pow2(attempt + 1)] + rest.waits;
      forall j | 0 <= j < |r.waits| ensures r.waits[j] == delay * Pow2(attempt + j + 1) {
        if j > 0 {
          assert r.waits[j] == rest.waits[j - 1];
        }
      }
    }
  }

  /** With `retries <= 0` the loop body never runs: `fn` is not called and
      the result is `undefined`. */
  lemma NoRetriesNoCalls<T>(fn: nat -> Outcome<T>, retries: int, delay: int)
    requires retries <= 0
    ensures Retry(fn, retries, delay) == RetryRun(Undefined, 0, [])
  {
  }

  /** `fn` failing `k` times and then succeeding, with `k < retries`: it runs
      exactly `k + 1` times and its value is returned. */
  lemma RetrySucceedsAfterFailures<T>(fn: nat -> Outcome<T>, retries: int, delay: int, k: nat)
    requires k < retries
    requires forall i :: 0 <= i < k ==> fn(i).Err?
    requires fn(k).Ok?
    ensures Retry(fn, retries, delay).result == Returned(fn(k).value)
    ensures Retry(fn, retries, delay).calls == k + 1
  {
    RetryFromFacts(fn, retries, delay, 0);
  }

  /** `fn` failing every time: it runs `retries` times, the last error is
      rethrown unchanged, and the waits are 2·delay, 4·delay, ... */
  lemma RetryExhausted<T>(fn: nat -> Outcome<T>, retries: int, delay: int)
    requires retries >= 1
    requires forall i :: 0 <= i < retries ==> fn(i).Err?
    ensures Retry(fn, retries, delay).result == Threw(fn(retries - 1).error)
    ensures Retry(fn, retries, delay).calls == retries
    ensures |Retry(fn, retries, delay).waits| == retries - 1
    ensures forall j :: 0 <= j < retries - 1 ==> Retry(fn, retries, delay).waits[j] == delay * Pow2(j + 1)
  {
    RetryFromFacts(fn, retries, delay, 0);
  }

  /** The loop of `retryOperation`, with its attempt counter. */
  method RetryOperation<T>(fn: nat -> Outcome<T>, retries: int := DefaultRetries, delay: int := DefaultDelayMs) returns (run: RetryRun<T>)
    ensures run == Retry(fn, retries, delay)
  {
    var attempt: nat := 0;
    var waits: seq<int> := [];
    while attempt < retries
      invariant attempt > 0 ==> attempt < retries
      invariant var r := RetryFrom(fn, retries, delay, attempt);
        Retry(fn, retries, delay) == RetryRun(r.result, r.calls, waits + r.waits)
      decreases retries - attempt
    {
      ghost var r0 := RetryFrom(fn, retries, delay, attempt);
      match fn(attempt)
      case Ok(v) =>
        return RetryRun(Returned(v), attempt + 1, waits);
      case Err(e) =>
        attempt := attempt + 1;
        if attempt >= retries {
          return RetryRun(Threw(e), attempt, waits);
        }
        assert r0.waits == [delay * Pow2(attempt)] + RetryFrom(fn, retries, delay, attempt).waits;
        waits := waits + [delay * Pow2(attempt)];
    }
    return RetryRun(Undefined, attempt, waits);
  }

  /** How `resumeCopy` ends: the destination's bytes and whether its size
      now equals the source's. */
  datatype ResumeResult = ResumeResult(dest: Bytes, complete: bool)

  /** `resumeCopy(src, dest)`: the destination keeps its current bytes (its
      size is where writing resumes; no destination means 0) and receives the
      source from that offset on. A destination longer than the source is
      not truncated, so the copy is then reported incomplete. */
  function ResumeCopy(src: Bytes, dest: Option<Bytes>): (r: ResumeResult)
    ensures var prior := dest.GetOr([]);
      (|prior| <= |src| ==> r.dest == prior + src[|prior|..] && r.complete) &&
      (|prior| > |src| ==> r.dest == prior && !r.complete)
  {
    var written := if dest.Some? then |dest.value| else 0;
    var kept := if written == 0 then [] else dest.value;
    var final := kept + src[Min(written, |src|)..];
    ResumeResult(final, |final| == |src|)
  }

  /** Resuming over a destination that holds a prefix of the source (the
      first 5 of 10 bytes, say) yields exactly the source, once. */
  lemma ResumeFromPrefix(src: Bytes, k: nat)
    requires k <= |src|
    ensures ResumeCopy(src, Some(src[..k])) == ResumeResult(src, true)
  {
    assert src[..k] + src[k..] == src;
  }

  /** Resuming a completed copy again changes nothing. */
  lemma ResumeIsIdempotent(src: Bytes, dest: Option<Bytes>)
    requires ResumeCopy(src, dest).complete
    ensures ResumeCopy(src, Some(ResumeCopy(src, dest).dest)) == ResumeCopy(src, dest)
  {
    var r := ResumeCopy(src, dest);
    assert src[|r.dest|..] == [];
    assert r.dest + [] == r.dest;
  }

  /** Only sizes are compared: any destination no longer than the source is
      reported complete, and the result equals the source exactly when the
      existing bytes were a prefix of it. */
  lemma ResumeChecksSizeNotContent(src: Bytes, d: Bytes)
    requires |d| <= |src|
    ensures ResumeCopy(src, Some(d)).complete
    ensures ResumeCopy(src, Some(d)).dest == src <==> d == src[..|d|]
  {
    var r := ResumeCopy(src, Some(d));
    assert r.dest == d + src[|d|..];
    if r.dest == src {
      assert r.dest[..|d|] == d;
    }
    if d == src[..|d|] {
      assert src[..|d|] + src[|d|..] == src;
    }
  }

  /** How one `exec(fn)` call settles: `fn`'s value, `fn`'s error rethrown,
      or the "Circuit open" error without `fn` being called. */
  datatype ExecResult<T> = Passed(value: T) | Failed(error: string) | CircuitOpen

  class CircuitBreaker {
    var failures: nat
    const limit: int
    const timeout: int
    var openUntil: int

    constructor(limit: int := DefaultBreakerLimit, timeout: int := DefaultBreakerTimeoutMs)
      ensures this.limit == limit && this.timeout == timeout
      ensures failures == 0 && openUntil == 0
    {
      failures := 0;
      this.limit := limit;
      this.timeout := timeout;
      openUntil := 0;
    }

    /** The breaker is open at time `now`. */
    predicate IsOpen(now: int)
      reads this
    {
      now < openUntil
    }

    /** `exec(fn)` entered at time `now`, where `outcome` is how `fn` settles
        if it is called and `doneAt` is the time it settles. */
    method Exec<T>(now: int, outcome: Outcome<T>, doneAt: int) returns (r: ExecResult<T>, invoked: bool)
      modifies this
      ensures old(IsOpen(now)) ==>
        r == CircuitOpen && !invoked && failures == old(failures) && openUntil == old(openUntil)
      ensures !old(IsOpen(now)) && outcome.Ok? ==>
        invoked && r == Passed(outcome.value) && failures == 0 && openUntil == old(openUntil)
      ensures !old(IsOpen(now)) && outcome.Err? ==>
        invoked && r == Failed(outcome.error) && failures == old(failures) + 1 &&
        openUntil == (if failures >= limit then doneAt + timeout else old(openUntil))
    {
      if now < openUntil {
        return CircuitOpen, false;
      }
      invoked := true;
      match outcome
      case Ok(v) =>
        failures := 0;
        r := Passed(v);
      case Err(e) =>
        failures := failures + 1;
        if failures >= limit {
          openUntil := doneAt + timeout;
        }
        r := Failed(e);
    }
  }

  /** A fresh breaker that sees `limit` failing calls at time `t` rejects the
      next call before the cooldown has passed, without calling `fn`, and
      calls `fn` again once it has. */
  method TripThenRecover(limit: int, timeout: int, t: int, e: string)
    returns (during: ExecResult<int>, calledDuring: bool, after: ExecResult<int>, calledAfter: bool)
    requires 1 <= limit && 0 < timeout && 0 <= t
    ensures during == CircuitOpen && !calledDuring
    ensures calledAfter && after == Passed(0)
  {
    var cb := new CircuitBreaker(limit, timeout);
    var i := 0;
    while i < limit
      invariant 0 <= i <= limit
      invariant cb.limit == limit && cb.timeout == timeout
      invariant cb.failures == i
      invariant cb.openUntil == if i == 0 then 0 else if i >= limit then t + timeout else 0
    {
      var r, called := cb.Exec<int>(t, Err(e), t);
      i := i + 1;
    }
    during, calledDuring := cb.Exec<int>(t + timeout - 1, Ok(0), t + timeout - 1);
    after, calledAfter := cb.Exec<int>(t + timeout, Ok(0), t + timeout);
  }
}
