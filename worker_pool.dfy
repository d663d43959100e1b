/** The worker pool: a queue of pending tasks kept sorted by size, a list of
    idle workers, and the task each busy worker holds. The event handlers
    (`run`, a worker's message, a worker's error) are atomic steps, as the
    event loop runs them one at a time; workers are numbered in creation
    order. */
module WorkerPool {
  import opened Common
  import opened FileWorker

  type WorkerId = nat

  /** A queued or running task; `id` stands for its promise. */
  datatype Task = Task(id: nat, data: TaskData)

  /** A `postMessage` to a worker. */
  datatype Post = Post(worker: WorkerId, data: TaskData)

  /** How a task's promise settled. */
  datatype Settlement = Resolved(task: nat, msg: Message) | Rejected(task: nat)

  /** Smaller tasks first. */
  predicate Sorted(q: seq<Task>)
  {
    forall i, j :: 0 <= i < j < |q| ==> q[i].data.size <= q[j].data.size
  }

  predicate Distinct(s: seq<WorkerId>)
  {
    forall i, j :: 0 <= i < j < |s| ==> s[i] != s[j]
  }

  /** Where a stable sort places `t` pushed behind the sorted queue `q`:
      after every task that is not larger. */
  function InsertAt(q: seq<Task>, t: Task): (j: nat)
    requires Sorted(q)
    ensures j <= |q|
    ensures forall i :: 0 <= i < j ==> q[i].data.size <= t.data.size
    ensures forall i :: j <= i < |q| ==> q[i].data.size > t.data.size
  {
    if q == [] || q[0].data.size > t.data.size then 0 else 1 + InsertAt(q[1..], t)
  }

  /** `queue.push(t); queue.sort(by size)` on a sorted queue. */
  function Insert(q: seq<Task>, t: Task): (r: seq<Task>)
    requires Sorted(q)
    ensures Sorted(r)
    ensures |r| == |q| + 1 && multiset(r) == multiset(q) + multiset{t}
    ensures var j := InsertAt(q, t);
      r[j] == t && r[..j] + r[j + 1..] == q
  {
    var j := InsertAt(q, t);
    SplicedSorted(q, t, j);
    SplicedElements(q, t, j);
    q[..j] + [t] + q[j..]
  }

  /** Placing `t` at a point of the sorted `q` with nothing larger before it
      and nothing smaller after it keeps the queue sorted. */
  lemma SplicedSorted(q: seq<Task>, t: Task, j: nat)
    requires Sorted(q) && j <= |q|
    requires forall i :: 0 <= i < j ==> q[i].data.size <= t.data.size
    requires forall i :: j <= i < |q| ==> q[i].data.size > t.data.size
    ensures Sorted(q[..j] + [t] + q[j..])
  {
    var r := q[..j] + [t] + q[j..];
    assert forall i :: 0 <= i < |r| ==> r[i] == if i < j then q[i] else if i == j then t else q[i - 1];
  }

  /** Placing `t` at index `j` of `q` adds exactly `t`. */
  lemma SplicedElements(q: seq<Task>, t: Task, j: nat)
    requires j <= |q|
    ensures var r := q[..j] + [t] + q[j..];
      |r| == |q| + 1 && multiset(r) == multiset(q) + multiset{t} &&
      r[j] == t && r[..j] + r[j + 1..] == q
  {
    var r := q[..j] + [t] + q[j..];
    assert r[..j] == q[..j] && r[j + 1..] == q[j..];
    assert q == q[..j] + q[j..];
  }

  /** `idle` without `w`. */
  function Remove(s: seq<WorkerId>, w: WorkerId): (r: seq<WorkerId>)
    ensures forall x :: x in r <==> x in s && x != w
    ensures Distinct(s) ==> Distinct(r) && |r| == |s| - (if w in s then 1 else 0)
  {
    if s == [] then []
    else if s[0] == w then Remove(s[1..], w)
    else
      assert Distinct(s) ==> s[0] !in s[1..];
      [s[0]] + Remove(s[1..], w)
  }

  /** The idle list after worker `w` errors, as the handler is written: the
      spare worker `spare` is appended and `w` is not taken out. */
  function IdleAfterErrorAsWritten(idle: seq<WorkerId>, w: WorkerId, spare: WorkerId): (r: seq<WorkerId>)
    ensures forall x :: x in r <==> x in idle || x == spare
  {
    idle + [spare]
  }

  /** The handler as written breaks the pool's invariant whenever the worker
      that errors is idle: the terminated worker stays in the idle list, and
      one more worker counts as idle or busy than the pool's size. */
  lemma AsWrittenErrorBreaksInvariant(size: nat, created: nat, terminated: set<WorkerId>, idle: seq<WorkerId>,
                                      current: map<WorkerId, Task>, queue: seq<Task>, tasks: nat, settled: nat, w: WorkerId)
    requires PoolInvariant(size, created, terminated, idle, current, queue, tasks, settled)
    requires w in idle
    ensures var idle1 := IdleAfterErrorAsWritten(idle, w, created);
      w in idle1 && w in terminated + {w} && |idle1| + |current - {w}| == size + 1
    ensures !PoolInvariant(size, created + 1, terminated + {w}, IdleAfterErrorAsWritten(idle, w, created),
                           current - {w}, queue, tasks, settled)
  {
    assert w in IdleAfterErrorAsWritten(idle, w, created);
    assert (current - {w}).Keys == current.Keys;
  }

  /** The idle list after worker `w` errors, as intended: `w` leaves it and
      the spare worker joins at the end. */
  function IdleAfterError(idle: seq<WorkerId>, w: WorkerId, spare: WorkerId): (r: seq<WorkerId>)
    requires Distinct(idle) && spare !in idle
    ensures Distinct(r) && (w != spare ==> w !in r)
    ensures |r| == |idle| + 1 - (if w in idle then 1 else 0)
    ensures |r| >= 1 && r[|r| - 1] == spare
    ensures forall x :: x in r <==> (x in idle && x != w) || x == spare
  {
    Remove(idle, w) + [spare]
  }

  /** The pool's invariant: workers are numbered by creation; the live ones
      (not terminated) are exactly the idle and the busy ones, `size` of
      them; the queue is sorted; and each of the `tasks` tasks ever run is
      queued, running or one of the `settled` settled ones. */
  ghost predicate PoolInvariant(size: nat, created: nat, terminated: set<WorkerId>, idle: seq<WorkerId>,
                                current: map<WorkerId, Task>, queue: seq<Task>, tasks: nat, settled: nat)
  {
    && Distinct(idle)
    && (forall w :: w in idle ==> w < created && w !in terminated && w !in current)
    && (forall w :: w in current ==> w < created && w !in terminated)
    && (forall w :: w in terminated ==> w < created)
    && (forall w :: 0 <= w < created ==> w in terminated || w in idle || w in current)
    && |idle| + |current| == size
    && Sorted(queue)
    && tasks == |queue| + |current| + settled
  }

  /** Dispatching the first task to the first idle worker keeps the invariant. */
  lemma DispatchKeepsInvariant(size: nat, created: nat, terminated: set<WorkerId>, idle: seq<WorkerId>,
                               current: map<WorkerId, Task>, queue: seq<Task>, tasks: nat, settled: nat)
    requires PoolInvariant(size, created, terminated, idle, current, queue, tasks, settled)
    requires queue != [] && idle != []
    ensures PoolInvariant(size, created, terminated, idle[1..], current[idle[0] := queue[0]], queue[1..], tasks, settled)
  {
    forall x | x in idle[1..] ensures x in idle && x != idle[0] {
      var k :| 0 <= k < |idle[1..]| && idle[1..][k] == x;
      assert idle[k + 1] == x;
    }
    assert current[idle[0] := queue[0]].Keys == current.Keys + {idle[0]};
  }

  /** The error handler keeps the invariant: the errored worker is replaced,
      so `size` workers stay live, and its task (if any) is settled. */
  lemma {:induction false} ErrorKeepsInvariant(size: nat, created: nat, terminated: set<WorkerId>, idle: seq<WorkerId>,
                                               current: map<WorkerId, Task>, queue: seq<Task>, tasks: nat, settled: nat, w: WorkerId)
    requires PoolInvariant(size, created, terminated, idle, current, queue, tasks, settled)
    requires w in idle || w in current
    ensures PoolInvariant(size, created + 1, terminated + {w}, IdleAfterError(idle, w, created),
                          current - {w}, queue, tasks, settled + (if w in current then 1 else 0))
  {
    var spare := created;
    var idle1, current1, terminated1 := IdleAfterError(idle, w, spare), current - {w}, terminated + {w};
    assert current1.Keys == current.Keys - {w};
    assert |current1| == |current| - (if w in current then 1 else 0);
    assert w in idle <==> w !in current;
    forall x | 0 <= x < created + 1 ensures x in terminated1 || x in idle1 || x in current1 {
      if x < created && x != w {
        assert x in idle || x in current || x in terminated;
      }
    }
  }

  /** The workers numbered below `n`. */
  function Below(n: nat): (r: set<WorkerId>)
    ensures forall w: WorkerId :: w in r <==> w < n
  {
    if n == 0 then {} else Below(n - 1) + {n - 1}
  }

  class WorkerPool {
    const size: nat
    /** How many workers were ever created: `workers` lists the workers
        numbered below it, terminated ones included. */
    var created: nat
    var terminated: set<WorkerId>
    var idle: seq<WorkerId>
    /** `worker.currentTask` of the busy workers. */
    var current: map<WorkerId, Task>
    var queue: seq<Task>
    var nextTask: nat
    var posted: seq<Post>
    var settled: seq<Settlement>

    ghost predicate Valid()
      reads this
    {
      PoolInvariant(size, created, terminated, idle, current, queue, nextTask, |settled|)
    }

    /** `_addWorker()`: a new worker, recorded and idle. */
    method AddWorker()
      modifies this
      ensures created == old(created) + 1 && idle == old(idle) + [old(created)]
      ensures terminated == old(terminated) && current == old(current) && queue == old(queue)
      ensures nextTask == old(nextTask) && posted == old(posted) && settled == old(settled)
    {
      idle := idle + [created];
      created := created + 1;
    }

    /** `new WorkerPool(script, size)`: `size` workers, all idle in creation
        order, no task. */
    constructor(size: nat)
      ensures Valid()
      ensures this.size == size && created == size
      ensures |idle| == size && forall i :: 0 <= i < size ==> idle[i] == i
      ensures queue == [] && current == map[] && terminated == {} && nextTask == 0 && posted == [] && settled == []
    {
      this.size := size;
      created, idle, terminated, current, queue := 0, [], {}, map[], [];
      nextTask, posted, settled := 0, [], [];
      new;
      for i := 0 to size
        invariant created == i && |idle| == i && forall k :: 0 <= k < i ==> idle[k] == k
        invariant terminated == {} && current == map[] && queue == []
        invariant nextTask == 0 && posted == [] && settled == []
      {
        AddWorker();
      }
      assert forall w: WorkerId :: w in idle ==> w < size;
      forall w: WorkerId | w < created
        ensures w in idle
      {
        assert idle[w] == w;
      }
    }

    /** `_next()`: when a task waits and a worker is idle, the first idle
        worker takes the first (smallest) task. */
    method Next()
      modifies this
      ensures old(Valid()) ==> Valid()
      ensures if old(queue) != [] && old(idle) != [] then
          && queue == old(queue)[1..] && idle == old(idle)[1..]
          && current == old(current)[old(idle)[0] := old(queue)[0]]
          && posted == old(posted) + [Post(old(idle)[0], old(queue)[0].data)]
        else queue == old(queue) && idle == old(idle) && current == old(current) && posted == old(posted)
      ensures created == old(created) && terminated == old(terminated) && settled == old(settled)
      ensures nextTask == old(nextTask)
    {
      if queue == [] || idle == [] {
        return;
      }
      if Valid() {
        DispatchKeepsInvariant(size, created, terminated, idle, current, queue, nextTask, |settled|);
      }
      var w, t := idle[0], queue[0];
      idle := idle[1..];
      queue := queue[1..];
      current := current[w := t];
      posted := posted + [Post(w, t.data)];
    }

    /** `run(data)`: the task joins the queue in size order, then `_next`
        runs; `id` names the task's promise. */
    method Run(data: TaskData) returns (id: nat)
      requires Sorted(queue)
      modifies this
      ensures old(Valid()) ==> Valid()
      ensures id == old(nextTask) && nextTask == old(nextTask) + 1
      ensures var q := Insert(old(queue), Task(id, data));
        if old(idle) != [] then
          && queue == q[1..] && idle == old(idle)[1..]
          && current == old(current)[old(idle)[0] := q[0]]
          && posted == old(posted) + [Post(old(idle)[0], q[0].data)]
        else queue == q && idle == old(idle) && current == old(current) && posted == old(posted)
      ensures created == old(created) && terminated == old(terminated) && settled == old(settled)
    {
      id := nextTask;
      queue := Insert(queue, Task(id, data));
      nextTask := nextTask + 1;
      Next();
    }

    /** Worker `w` posts `msg`: its task's promise resolves with `msg`, `w`
        rejoins the end of the idle list, and `_next` runs. */
    method OnMessage(w: WorkerId, msg: Message)
      requires Valid() && w in current
      modifies this
      ensures Valid()
      ensures settled == old(settled) + [Resolved(old(current)[w].id, msg)]
      ensures var idle1 := old(idle) + [w];
        if old(queue) != [] then
          && queue == old(queue)[1..] && idle == idle1[1..]
          && current == (old(current) - {w})[idle1[0] := old(queue)[0]]
          && posted == old(posted) + [Post(idle1[0], old(queue)[0].data)]
        else queue == old(queue) && idle == idle1 && current == old(current) - {w} && posted == old(posted)
      ensures created == old(created) && terminated == old(terminated) && nextTask == old(nextTask)
    {
      var t := current[w];
      current := current - {w};
      idle := idle + [w];
      settled := settled + [Resolved(t.id, msg)];
      Next();
    }

    /** Live worker `w` emits an error, as the handler is written: it is
        terminated, a spare worker is added, and the task it held, if any, is
        rejected, but `w` is not taken out of the idle list. `_next` does not
        run. */
    method OnErrorAsWritten(w: WorkerId)
      requires w in idle || w in current
      modifies this
      ensures created == old(created) + 1 && terminated == old(terminated) + {w}
      ensures idle == IdleAfterErrorAsWritten(old(idle), w, old(created)) && current == old(current) - {w}
      ensures settled == old(settled) + (if w in old(current) then [Rejected(old(current)[w].id)] else [])
      ensures queue == old(queue) && posted == old(posted) && nextTask == old(nextTask)
    {
      var rejected := if w in current then [Rejected(current[w].id)] else [];
      terminated := terminated + {w};
      AddWorker();
      current := current - {w};
      settled := settled + rejected;
    }

    /** Live worker `w` emits an error, with the handler corrected: it is
        terminated and leaves the idle list, a spare worker is added, and the
        task it held, if any, is rejected. `_next` does not run. */
    method OnError(w: WorkerId)
      requires Valid() && (w in idle || w in current)
      modifies this
      ensures Valid()
      ensures created == old(created) + 1 && terminated == old(terminated) + {w}
      ensures idle == IdleAfterError(old(idle), w, old(created)) && current == old(current) - {w}
      ensures settled == old(settled) + (if w in old(current) then [Rejected(old(current)[w].id)] else [])
      ensures queue == old(queue) && posted == old(posted) && nextTask == old(nextTask)
    {
      ErrorKeepsInvariant(size, created, terminated, idle, current, queue, nextTask, |settled|, w);
      var rejected := if w in current then [Rejected(current[w].id)] else [];
      terminated := terminated + {w};
      idle := IdleAfterError(idle, w, created);
      created := created + 1;
      current := current - {w};
      settled := settled + rejected;
    }

    /** `destroy()`: every worker ever created is terminated; nothing else
        changes. */
    method Destroy()
      modifies this
      ensures terminated == old(terminated) + Below(created)
      ensures forall w :: 0 <= w < created ==> w in terminated
      ensures created == old(created) && idle == old(idle) && current == old(current) && queue == old(queue)
      ensures posted == old(posted) && settled == old(settled) && nextTask == old(nextTask)
    {
      terminated := terminated + Below(created);
    }
  }

  /** With the handler as written, a fresh pool whose first worker errors
      while idle (when its script fails to load, say) posts the next task to
      that terminated worker, whose promise then never settles. */
  method ErroredIdleWorkerTakesNextTask(size: nat, data: TaskData) returns (posted: seq<Post>, terminated: set<WorkerId>)
    requires size >= 1
    ensures posted == [Post(0, data)] && 0 in terminated
  {
    var pool := new WorkerPool(size);
    pool.OnErrorAsWritten(0);
    var id := pool.Run(data);
    posted, terminated := pool.posted, pool.terminated;
  }
}
