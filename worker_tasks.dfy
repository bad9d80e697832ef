/** The viacheslavbondarchuk task: `AbstractWorkerTask` with its key, future,
    body and attribute map stamped with creation, start and completion times,
    and that package's `WorkerTaskEventHandler`, which applies the outcome rule
    to one task, re-asserting the thread's interrupt flag on InterruptedException. */
module WorkerTasks {
  import opened Futures
  import opened TaskOutcome

  /** Attribute names: the three the task stamps itself, and the caller's own. */
  datatype AttributeKey = CreatedAt | StartedAt | CompletedAt | Named(name: string)

  /** Attribute values: a millisecond timestamp or some other object. */
  datatype AttributeValue = Millis(time: int) | Object(id: nat)

  /** A caller's `Map<String, Object>`, which the caller may go on changing. */
  class AttributeMap {
    var entries: map<string, AttributeValue>

    constructor (entries: map<string, AttributeValue>)
      ensures this.entries == entries
    {
      this.entries := entries;
    }

    method Put(name: string, value: AttributeValue)
      modifies this
      ensures entries == old(entries)[name := value]
    {
      entries := entries[name := value];
    }
  }

  /** The task's own attribute table built from a caller's map. */
  function Imported(entries: map<string, AttributeValue>): (m: map<AttributeKey, AttributeValue>)
    ensures forall name :: Named(name) in m <==> name in entries
    ensures forall name | name in entries :: m[Named(name)] == entries[name]
    ensures CreatedAt !in m && StartedAt !in m && CompletedAt !in m
  {
    map name | name in entries :: Named(name) := entries[name]
  }

  class AbstractWorkerTask {
    const key: string
    const future: CompletableFuture
    /** What `_execute()` does: a `VoidTask` returns `Null` or throws, a
        `CallableTask` returns the callable's value or throws. */
    const body: Outcome
    var attributes: map<AttributeKey, AttributeValue>

    /** Copies the caller's attributes and stamps CREATED_AT with the time `now`. */
    constructor (key: string, future: CompletableFuture, body: Outcome, callerAttributes: AttributeMap, now: int)
      ensures this.key == key && this.future == future && this.body == body
      ensures attributes == Imported(callerAttributes.entries)[CreatedAt := Millis(now)]
    {
      this.key := key;
      this.future := future;
      this.body := body;
      attributes := Imported(callerAttributes.entries)[CreatedAt := Millis(now)];
    }

    function GetKey(): string
    {
      key
    }

    function GetCompletableFuture(): CompletableFuture
    {
      future
    }

    function GetAttributes(): map<AttributeKey, AttributeValue>
      reads this
    {
      attributes
    }

    /** `execute()`: stamps STARTED_AT, runs the body, and stamps COMPLETED_AT
        whether the body returned or threw; the body's outcome passes through unchanged. */
    method Execute(startedAt: int, completedAt: int) returns (outcome: Outcome)
      modifies this
      ensures outcome == body
      ensures attributes == old(attributes)[StartedAt := Millis(startedAt)][CompletedAt := Millis(completedAt)]
    {
      attributes := attributes[StartedAt := Millis(startedAt)];
      outcome := body;
      attributes := attributes[CompletedAt := Millis(completedAt)];
    }
  }

  /** A task's attribute table after construction and one run: the caller's
      entries, the creation time and both run stamps are all present. */
  lemma StampsAfterRun(caller: map<string, AttributeValue>, created: int, started: int, completed: int)
    ensures var m := Imported(caller)[CreatedAt := Millis(created)][StartedAt := Millis(started)][CompletedAt := Millis(completed)];
      m[CreatedAt] == Millis(created) && m[StartedAt] == Millis(started) && m[CompletedAt] == Millis(completed) &&
      forall name | name in caller :: Named(name) in m && m[Named(name)] == caller[name]
  {
  }

  /** The caller's map is copied: changing it after construction leaves the task's attributes alone. */
  method CallerChangesDoNotReachTask(future: CompletableFuture, body: Outcome, now: int, name: string, value: AttributeValue)
    returns (caller: AttributeMap, task: AbstractWorkerTask)
    ensures task.attributes == Imported(map[])[CreatedAt := Millis(now)]
    ensures caller.entries == map[name := value]
  {
    caller := new AttributeMap(map[]);
    task := new AbstractWorkerTask("key", future, body, caller, now);
    caller.Put(name, value);
  }

  /** The package's `WorkerTaskEventHandler.onEvent` for one task, with the
      running thread's interrupt flag passed in and returned. Metric calls are no-ops. */
  method OnTaskEvent(task: AbstractWorkerTask, interrupted: bool, startedAt: int, completedAt: int)
    returns (status: CompletionStatus, interruptedAfter: bool)
    modifies task, task.future
    ensures (task.future.state, status) == Dispatch(old(task.future.state), task.body)
    ensures interruptedAfter <==> interrupted || (old(task.future.state) != Cancelled && task.body == Throws(InterruptedException))
    ensures old(task.future.state) == Cancelled ==> task.attributes == old(task.attributes)
    ensures old(task.future.state) != Cancelled ==>
      task.attributes == old(task.attributes)[StartedAt := Millis(startedAt)][CompletedAt := Millis(completedAt)]
  {
    interruptedAfter := interrupted;
    if task.future.state != Cancelled {
      var outcome := task.Execute(startedAt, completedAt);
      match outcome
      case Returns(v) =>
        var _ := task.future.Complete(v);
        status := SUCCESS;
      case Throws(e) =>
        if e == InterruptedException {
          interruptedAfter := true;
        }
        var _ := task.future.CompleteExceptionally(e);
        status := ERROR;
    } else {
      status := CANCELLED;
    }
  }
}
