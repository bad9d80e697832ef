/** The ryntric ring-buffer slot protocol: a `WorkerTaskEvent` slot holds a task
    and its future; the translator fills a slot, and the handler runs the task
    of a published slot, settles its future and clears the slot. */
module TaskEvents {
  import opened Lang
  import opened Futures
  import opened TaskOutcome

  /** A ryntric `WorkerTask`: a name (null for `AbstractWorkerTask`), a creation
      timestamp, and the outcome `execute()` has when it runs. */
  datatype WorkerTask = WorkerTask(name: Option<string>, createdAt: int, body: Outcome)

  /** One preallocated slot of a ring buffer. `None` and `null` stand for Java's null. */
  class WorkerTaskEvent {
    var task: Option<WorkerTask>
    var future: CompletableFuture?

    /** The event factory's empty slot. */
    constructor ()
      ensures task == None && future == null
    {
      task := None;
      future := null;
    }

    function GetTask(): Option<WorkerTask>
      reads this
    {
      task
    }

    function GetFuture(): CompletableFuture?
      reads this
    {
      future
    }

    method SetTask(t: Option<WorkerTask>)
      modifies this
      ensures task == t && future == old(future)
    {
      task := t;
    }

    method SetFuture(f: CompletableFuture?)
      modifies this
      ensures future == f && task == old(task)
    {
      future := f;
    }

    /** `isCancelled()`: the held future's cancellation; a slot without a future
        throws NullPointerException. */
    method IsCancelled() returns (r: Result<bool>)
      ensures future == null <==> r.Err?
      ensures r.Err? ==> r.error.NullPointerException?
      ensures r.Ok? ==> r.value == future.IsCancelled()
    {
      if future == null {
        return Err(NullPointerException(""));
      }
      return Ok(future.state == Cancelled);
    }

    method Clear()
      modifies this
      ensures task == None && future == null
    {
      task := None;
      future := null;
    }
  }

  /** `WorkerTaskEventTranslator.translateTo`: fills a slot; the sequence number
      plays no part. */
  method TranslateTo(event: WorkerTaskEvent, sequence: int, task: WorkerTask, future: CompletableFuture)
    modifies event
    ensures event.task == Some(task) && event.future == future
  {
    event.SetTask(Some(task));
    event.SetFuture(future);
  }

  /** `WorkerTaskEventHandler.onEvent` for a published slot: the outcome rule
      applied to the slot's future, then the slot cleared. Metric calls are no-ops. */
  method OnEvent(event: WorkerTaskEvent, sequence: int, endOfBatch: bool) returns (status: CompletionStatus)
    requires event.task.Some? && event.future != null
    modifies event, event.future
    ensures old(event.future).state == Dispatch(old(event.future.state), old(event.task.value.body)).0
    ensures status == Dispatch(old(event.future.state), old(event.task.value.body)).1
    ensures event.task == None && event.future == null
  {
    var task := event.GetTask().value;
    var future := event.GetFuture();
    var cancelled := event.IsCancelled();
    if !cancelled.value {
      match task.body
      case Returns(v) =>
        var _ := future.Complete(v);
        status := SUCCESS;
      case Throws(e) =>
        var _ := future.CompleteExceptionally(e);
        status := ERROR;
    } else {
      status := CANCELLED;
    }
    event.Clear();
  }
}
