/** The copy worker: one task in, one message out. */
module FileWorker {
  import opened Common

  /** A task as posted to a worker: `size` is what the pool orders by and
      `attempt` is absent on a first send. */
  datatype TaskData = TaskData(source: string, target: string, size: int, attempt: Option<nat>)

  /** The messages a worker posts back. */
  datatype Message =
    | Success(source: string, target: string)
    | Retry(source: string, target: string, attempt: nat)
    | Failure(source: string, target: string, error: string)

  /** A message and the delay before it is posted. */
  datatype Reply = Reply(msg: Message, delayMs: nat)

  /** Attempts a worker makes in all, counting the first. */
  const MaxAttempts: nat := 3

  /** The wait before a retry message: 2^attempt × 100 ms. */
  function RetryDelayMs(attempt: nat): (d: nat)
    ensures d >= 100
    ensures attempt >= 1 ==> d == 2 * RetryDelayMs(attempt - 1)
  {
    Pow2(attempt) * 100
  }

  /** The worker's reply to `task` when creating the target directory and
      copying settle as `copy`: success, a retry with the next attempt number
      while fewer than three attempts were made, or a terminal failure. */
  function Respond(task: TaskData, copy: Outcome<Unit>): (r: Reply)
    ensures var attempt := task.attempt.GetOr(1);
      && (r.msg.Success? <==> copy.Ok?)
      && (r.msg.Retry? <==> copy.Err? && attempt < MaxAttempts)
      && (r.msg.Failure? <==> copy.Err? && attempt >= MaxAttempts)
    ensures r.msg.source == task.source && r.msg.target == task.target
    ensures r.msg.Retry? ==> r.msg.attempt == task.attempt.GetOr(1) + 1 <= MaxAttempts &&
                             r.delayMs == RetryDelayMs(task.attempt.GetOr(1))
    ensures r.msg.Failure? ==> r.msg.error == copy.error && r.delayMs == 0
    ensures r.msg.Success? ==> r.delayMs == 0
  {
    var attempt := task.attempt.GetOr(1);
    match copy
    case Ok(_) => Reply(Success(task.source, task.target), 0)
    case Err(e) =>
      if attempt < MaxAttempts then Reply(Retry(task.source, task.target, attempt + 1), RetryDelayMs(attempt))
      else Reply(Failure(task.source, task.target, e), 0)
  }
}
