/** `java.util.concurrent.CompletableFuture` as far as the worker services use it:
    a cell that is settled at most once, by a result, by an exception or by
    cancellation. Task bodies are supplied outcomes. */
module Futures {

  /** A Java object reference produced by a task; `Null` is what a
      `Runnable` body delivers. */
  datatype Value = Null | Ref(id: nat)

  /** The exceptions a task body can throw. */
  datatype Exception = InterruptedException | TaskException(description: string)

  /** What running a task body does: return a value or throw. */
  datatype Outcome = Returns(value: Value) | Throws(exception: Exception)

  datatype FutureState = Pending | Completed(value: Value) | Failed(exception: Exception) | Cancelled

  /** Settling a state: only a pending future takes the new state; a settled
      one keeps its first settlement. */
  function Settle(s: FutureState, t: FutureState): (r: FutureState)
    requires t != Pending
    ensures s == Pending ==> r == t
    ensures s != Pending ==> r == s
    ensures r != Pending
  {
    if s == Pending then t else s
  }

  /** Once settled, a future never changes again, whatever later settlements are tried. */
  lemma SettleIsFinal(s: FutureState, t: FutureState, u: FutureState)
    requires t != Pending && u != Pending
    ensures Settle(Settle(s, t), u) == Settle(s, t)
  {
  }

  class CompletableFuture {
    var state: FutureState

    constructor ()
      ensures state == Pending
    {
      state := Pending;
    }

    predicate IsDone()
      reads this
    {
      state != Pending
    }

    predicate IsCancelled()
      reads this
    {
      state == Cancelled
    }

    /** Cancellation counts as exceptional completion in Java. */
    predicate IsCompletedExceptionally()
      reads this
    {
      state.Failed? || state.Cancelled?
    }

    /** `complete(v)`: returns whether this call settled the future. */
    method Complete(v: Value) returns (settled: bool)
      modifies this
      ensures settled <==> old(state) == Pending
      ensures state == Settle(old(state), Completed(v))
    {
      settled := state == Pending;
      if settled {
        state := Completed(v);
      }
    }

    /** `completeExceptionally(e)`: returns whether this call settled the future. */
    method CompleteExceptionally(e: Exception) returns (settled: bool)
      modifies this
      ensures settled <==> old(state) == Pending
      ensures state == Settle(old(state), Failed(e))
    {
      settled := state == Pending;
      if settled {
        state := Failed(e);
      }
    }

    /** `cancel(...)`: returns whether the future is cancelled afterwards. */
    method Cancel() returns (cancelled: bool)
      modifies this
      ensures state == Settle(old(state), Cancelled)
      ensures cancelled <==> state == Cancelled
    {
      if state == Pending {
        state := Cancelled;
      }
      cancelled := state == Cancelled;
    }
  }
}
