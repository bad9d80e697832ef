/** The viacheslavbondarchuk `Worker`: a thread with an unbounded FIFO queue of
    tasks, an `alive` flag and an optional completion listener, and the
    `WorkerNode` that forwards to it. Parking and unparking are left out: the
    model's run loop returns where the thread would park on an empty queue. */
module ThreadWorkers {
  import opened Lang
  import opened Futures
  import opened TaskOutcome
  import opened WorkerTasks

  /** One call an `OnWorkerTaskCompletion` listener receives. */
  datatype Notification =
    | OnSuccess(key: string, workerName: string, attributes: map<AttributeKey, AttributeValue>)
    | OnCancel(key: string, workerName: string, attributes: map<AttributeKey, AttributeValue>)
    | OnError(key: string, workerName: string, ex: Exception, attributes: map<AttributeKey, AttributeValue>)

  /** A listener that keeps every call it receives, in order. */
  class CompletionListener {
    var received: seq<Notification>

    constructor ()
      ensures received == []
    {
      received := [];
    }

    method Receive(n: Notification)
      modifies this
      ensures received == old(received) + [n]
    {
      received := received + [n];
    }
  }

  class Worker {
    const name: string
    /** Null when the service was built without a listener. */
    const listener: CompletionListener?
    var alive: bool
    var queue: seq<AbstractWorkerTask>
    /** The worker thread's interrupt flag. */
    var interrupted: bool

    constructor (name: string, listener: CompletionListener?)
      ensures this.name == name && this.listener == listener
      ensures alive && queue == [] && !interrupted
    {
      this.name := name;
      this.listener := listener;
      alive := true;
      queue := [];
      interrupted := false;
    }

    /** `shutdown()`: the compare-and-set from alive to dead; on a dead worker it does nothing. */
    method Shutdown()
      modifies this
      ensures !alive
      ensures queue == old(queue) && interrupted == old(interrupted)
    {
      if alive {
        alive := false;
      }
    }

    /** `execute(task)`: offers the task at the tail of the queue. The `assert alive`
        fires only when the JVM runs with assertions enabled; without them a dead
        worker still accepts the task, which then never runs. */
    method Execute(task: AbstractWorkerTask, assertionsEnabled: bool) returns (r: Result<()>)
      modifies this
      ensures r.Err? <==> assertionsEnabled && !old(alive)
      ensures r.Err? ==> r.error == AssertionError("Worker is dead") && queue == old(queue)
      ensures r.Ok? ==> queue == old(queue) + [task]
      ensures alive == old(alive) && interrupted == old(interrupted)
    {
      if assertionsEnabled && !alive {
        return Err(AssertionError("Worker is dead"));
      }
      queue := queue + [task];
      return Ok(());
    }

    /** `_execute(task)`: the outcome rule on one task, then the matching listener
        call carrying the task's attributes as they are after the run.
        InterruptedException also sets the thread's interrupt flag again. */
    method ExecuteTask(task: AbstractWorkerTask, startedAt: int, completedAt: int) returns (status: CompletionStatus)
      modifies this, task, task.future, listener
      ensures (task.future.state, status) == Dispatch(old(task.future.state), task.body)
      ensures status == CANCELLED ==> task.attributes == old(task.attributes)
      ensures status != CANCELLED ==>
        task.attributes == old(task.attributes)[StartedAt := Millis(startedAt)][CompletedAt := Millis(completedAt)]
      ensures interrupted <==> old(interrupted) || (status == ERROR && task.body == Throws(InterruptedException))
      ensures listener != null && status == SUCCESS ==>
        listener.received == old(listener.received) + [OnSuccess(task.key, name, task.attributes)]
      ensures listener != null && status == CANCELLED ==>
        listener.received == old(listener.received) + [OnCancel(task.key, name, task.attributes)]
      ensures listener != null && status == ERROR ==>
        listener.received == old(listener.received) + [OnError(task.key, name, task.body.exception, task.attributes)]
      ensures alive == old(alive) && queue == old(queue)
    {
      var future := task.GetCompletableFuture();
      if future.state != Cancelled {
        var outcome := task.Execute(startedAt, completedAt);
        match outcome
        case Returns(v) =>
          var _ := future.Complete(v);
          status := SUCCESS;
        case Throws(e) =>
          if e == InterruptedException {
            interrupted := true;
          }
          var _ := future.CompleteExceptionally(e);
          status := ERROR;
      } else {
        status := CANCELLED;
      }
      if listener != null {
        match status
        case SUCCESS => listener.Receive(OnSuccess(task.key, name, task.attributes));
        case CANCELLED => listener.Receive(OnCancel(task.key, name, task.attributes));
        case ERROR => listener.Receive(OnError(task.key, name, task.body.exception, task.attributes));
      }
    }

    /** `run()` from the state it finds: while alive it polls tasks in FIFO order
        and executes each, returning where the thread would park on an empty
        queue; a dead worker's loop exits at once and its queue stays as it is.
        Every timestamp taken in this run is `now`. Each queued task, with its
        own future, is one the service made for a single `execute` call. */
    method Run(now: int) returns (processed: seq<AbstractWorkerTask>)
      requires forall i, j | 0 <= i < j < |queue| :: queue[i] != queue[j] && queue[i].future != queue[j].future
      modifies this, listener, queue, set t | t in queue :: t.future
      ensures old(alive) ==> processed == old(queue) && queue == []
      ensures !old(alive) ==> processed == [] && queue == old(queue)
      ensures alive == old(alive)
      ensures forall i | 0 <= i < |processed| ::
        Reported(processed[i], old(processed[i].future.state), old(processed[i].attributes), now)
      ensures interrupted <==> old(interrupted) || exists i | 0 <= i < |processed| :: Interrupts(processed[i], old(processed[i].future.state))
      ensures listener != null ==> |listener.received| == |old(listener.received)| + |processed|
      ensures listener != null ==> forall i | 0 <= i < |processed| ::
        listener.received[|old(listener.received)| + i] == Notified(processed[i], old(processed[i].future.state), name)
    {
      if !alive {
        processed := [];
        return;
      }
      ghost var states, attributes := StatesOf(queue), AttributesOf(queue);
      ghost var notes;
      processed, notes := RunQueued(now, states, attributes);
      AnyInterruptsSome(old(queue), states, |processed|);
    }

    /** The loop of `run()` on a live worker, with the states and attributes
        the queued tasks had when it started passed in. */
    method RunQueued(now: int, ghost states: seq<FutureState>, ghost attributes: seq<map<AttributeKey, AttributeValue>>)
      returns (processed: seq<AbstractWorkerTask>, ghost notes: seq<Notification>)
      requires alive && Untouched(queue, states, attributes, 0)
      modifies this, listener, queue, set t | t in queue :: t.future
      ensures processed == old(queue) && queue == [] && alive
      ensures Ran(processed, states, attributes, notes, now, name, |processed|)
      ensures interrupted == (old(interrupted) || AnyInterrupts(processed, states, |processed|))
      ensures listener != null ==> listener.received == old(listener.received) + notes
    {
      var tasks := queue;
      ghost var before := if listener != null then listener.received else [];
      ghost var wasInterrupted := interrupted;
      notes := [];
      var n := 0;
      while n < |tasks|
        invariant Looping(tasks, states, attributes, before, wasInterrupted, notes, now, n)
        decreases |tasks| - n
      {
        notes := RunNext(now, tasks, states, attributes, before, wasInterrupted, notes, n);
        n := n + 1;
      }
      processed := tasks;
    }

    /** The loop of `run()` has run the first `n` of `tasks` on this live
        worker, which still has the rest queued: `notes` are the listener calls
        made since `before`, and the interrupt flag records the tasks run. */
    ghost predicate Looping(tasks: seq<AbstractWorkerTask>, states: seq<FutureState>,
                            attributes: seq<map<AttributeKey, AttributeValue>>, before: seq<Notification>,
                            wasInterrupted: bool, notes: seq<Notification>, now: int, n: nat)
      reads this, listener, set t | t in tasks, set t | t in tasks :: t.future
    {
      && alive && n <= |tasks| && queue == tasks[n..]
      && Polled(tasks, states, attributes, notes, now, name, n)
      && interrupted == (wasInterrupted || AnyInterrupts(tasks, states, n))
      && (listener != null ==> listener.received == before + notes)
    }

    /** Polls the next queued task and runs it, extending the loop's record by one. */
    method RunNext(now: int, ghost tasks: seq<AbstractWorkerTask>, ghost states: seq<FutureState>,
                   ghost attributes: seq<map<AttributeKey, AttributeValue>>, ghost before: seq<Notification>,
                   ghost wasInterrupted: bool, ghost notes: seq<Notification>, ghost n: nat)
      returns (ghost notes': seq<Notification>)
      requires n < |tasks| && Looping(tasks, states, attributes, before, wasInterrupted, notes, now, n)
      modifies this, listener, tasks[n], tasks[n].future
      ensures Looping(tasks, states, attributes, before, wasInterrupted, notes', now, n + 1)
    {
      var task := queue[0];
      queue := queue[1..];
      RunTask(task, now);
      notes' := notes + [Notified(task, states[n], name)];
      AppendAssociates(before, notes, Notified(task, states[n], name));
    }

    /** One turn of the loop: `_execute` on the polled task, stated in terms
        of the state its future was in when polled. */
    method RunTask(task: AbstractWorkerTask, now: int)
      modifies this, task, task.future, listener
      ensures alive == old(alive) && queue == old(queue)
      ensures Reported(task, old(task.future.state), old(task.attributes), now)
      ensures interrupted <==> old(interrupted) || Interrupts(task, old(task.future.state))
      ensures listener != null ==> listener.received == old(listener.received) + [Notified(task, old(task.future.state), name)]
    {
      var _ := ExecuteTask(task, now, now);
    }
  }

  /** Some task among the first `n` raised InterruptedException. */
  function AnyInterrupts(tasks: seq<AbstractWorkerTask>, states: seq<FutureState>, n: nat): bool
    requires n <= |tasks| && n <= |states|
  {
    n > 0 && (AnyInterrupts(tasks, states, n - 1) || Interrupts(tasks[n - 1], states[n - 1]))
  }

  lemma {:induction false} AnyInterruptsSome(tasks: seq<AbstractWorkerTask>, states: seq<FutureState>, n: nat)
    requires n <= |tasks| && n <= |states|
    ensures AnyInterrupts(tasks, states, n) <==> exists i | 0 <= i < n :: Interrupts(tasks[i], states[i])
  {
    if n > 0 {
      AnyInterruptsSome(tasks, states, n - 1);
    }
  }

  /** The loop's record after `n` turns. */
  ghost predicate Polled(tasks: seq<AbstractWorkerTask>, states: seq<FutureState>, attributes: seq<map<AttributeKey, AttributeValue>>,
                         notes: seq<Notification>, now: int, name: string, n: nat)
    reads set t | t in tasks, set t | t in tasks :: t.future
  {
    Ran(tasks, states, attributes, notes, now, name, n) && Untouched(tasks, states, attributes, n)
  }

  /** The first `n` tasks were run at `now` from the states and attributes
      they had when polled, and `notes` are the listener calls made for them. */
  ghost predicate Ran(tasks: seq<AbstractWorkerTask>, states: seq<FutureState>, attributes: seq<map<AttributeKey, AttributeValue>>,
                      notes: seq<Notification>, now: int, name: string, n: nat)
    reads set t | t in tasks, set t | t in tasks :: t.future
  {
    n <= |tasks| == |states| == |attributes| && |notes| == n &&
    forall i | 0 <= i < n :: Reported(tasks[i], states[i], attributes[i], now) && notes[i] == Notified(tasks[i], states[i], name)
  }

  /** The tasks from `n` on still have the states and attributes they had when queued. */
  ghost predicate Untouched(tasks: seq<AbstractWorkerTask>, states: seq<FutureState>, attributes: seq<map<AttributeKey, AttributeValue>>, n: nat)
    reads set t | t in tasks, set t | t in tasks :: t.future
  {
    |states| == |attributes| == |tasks| &&
    (forall i, j | 0 <= i < j < |tasks| :: tasks[i] != tasks[j] && tasks[i].future != tasks[j].future) &&
    forall j | n <= j < |tasks| :: tasks[j].future.state == states[j] && tasks[j].attributes == attributes[j]
  }

  lemma AppendAssociates<T>(a: seq<T>, b: seq<T>, x: T)
    ensures a + (b + [x]) == a + b + [x]
  {
  }

  /** The states of the tasks' futures. */
  ghost function StatesOf(tasks: seq<AbstractWorkerTask>): (r: seq<FutureState>)
    reads set t | t in tasks :: t.future
    ensures |r| == |tasks| && forall i | 0 <= i < |tasks| :: r[i] == tasks[i].future.state
  {
    if tasks == [] then [] else [tasks[0].future.state] + StatesOf(tasks[1..])
  }

  /** The tasks' attribute maps. */
  ghost function AttributesOf(tasks: seq<AbstractWorkerTask>): (r: seq<map<AttributeKey, AttributeValue>>)
    reads set t | t in tasks
    ensures |r| == |tasks| && forall i | 0 <= i < |tasks| :: r[i] == tasks[i].attributes
  {
    if tasks == [] then [] else [tasks[0].attributes] + AttributesOf(tasks[1..])
  }

  /** A task's attributes after `_execute` reported `status`: a cancelled task
      is not run and keeps them; any other gets its start and end stamps. */
  function Stamped(attributes: map<AttributeKey, AttributeValue>, status: CompletionStatus, startedAt: int, completedAt: int)
    : (r: map<AttributeKey, AttributeValue>)
    ensures status != CANCELLED ==> StartedAt in r && CompletedAt in r
    ensures status == CANCELLED ==> r == attributes
    ensures status != CANCELLED ==>
      && r.Keys == attributes.Keys + {StartedAt, CompletedAt}
      && r[StartedAt] == Millis(startedAt) && r[CompletedAt] == Millis(completedAt)
      && forall k | k in attributes && k != StartedAt && k != CompletedAt :: r[k] == attributes[k]
  {
    if status == CANCELLED then attributes
    else attributes[StartedAt := Millis(startedAt)][CompletedAt := Millis(completedAt)]
  }

  /** The task, whose future was in `state` when it was polled, was run with
      the outcome rule and stamped at `now`. */
  ghost predicate Reported(task: AbstractWorkerTask, state: FutureState, attributes: map<AttributeKey, AttributeValue>, now: int)
    reads task, task.future
  {
    var (settled, status) := Dispatch(state, task.body);
    task.future.state == settled && task.attributes == Stamped(attributes, status, now, now)
  }

  /** Running the task raised InterruptedException, which sets the interrupt flag. */
  predicate Interrupts(task: AbstractWorkerTask, state: FutureState)
  {
    state != Cancelled && task.body == Throws(InterruptedException)
  }

  /** The listener call `_execute` makes for the task, whose future was in `state`
      when it was polled, carrying the attributes the task has afterwards. */
  function Notified(task: AbstractWorkerTask, state: FutureState, workerName: string): (n: Notification)
    reads task
    ensures n.key == task.key && n.workerName == workerName && n.attributes == task.attributes
    ensures n.OnCancel? <==> state == Cancelled
    ensures n.OnSuccess? <==> state != Cancelled && task.body.Returns?
    ensures n.OnError? <==> state != Cancelled && task.body.Throws?
    ensures n.OnError? ==> n.ex == task.body.exception
  {
    if state == Cancelled then OnCancel(task.key, workerName, task.attributes)
    else match task.body
      case Returns(_) => OnSuccess(task.key, workerName, task.attributes)
      case Throws(e) => OnError(task.key, workerName, e, task.attributes)
  }

  /** The viacheslavbondarchuk `WorkerNode`: a named entry point into one worker. */
  datatype WorkerNode = WorkerNode(name: string, worker: Worker) {
    function GetName(): string
    {
      name
    }

    function GetWorkerName(): string
    {
      worker.name
    }

    /** `execute(task)`: hands the task to the node's worker. */
    method Execute(task: AbstractWorkerTask, assertionsEnabled: bool) returns (r: Result<()>)
      modifies worker
      ensures r.Err? <==> assertionsEnabled && !old(worker.alive)
      ensures r.Ok? ==> worker.queue == old(worker.queue) + [task]
      ensures r.Err? ==> worker.queue == old(worker.queue)
      ensures worker.alive == old(worker.alive)
    {
      r := worker.Execute(task, assertionsEnabled);
    }
  }
}
