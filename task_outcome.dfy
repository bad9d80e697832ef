/** The outcome rule every task handler of both packages applies to one task:
    a cancelled task is skipped; otherwise its body runs and its future is
    completed with the result, or completed exceptionally with what it threw.
    Exactly one completion status is reported. */
module TaskOutcome {
  import opened Futures

  datatype CompletionStatus = SUCCESS | ERROR | CANCELLED

  /** The state a pending future takes when the body's outcome is delivered to it. */
  function Delivered(body: Outcome): (s: FutureState)
    ensures s != Pending && s != Cancelled
    ensures body.Returns? <==> s.Completed?
  {
    match body
    case Returns(v) => Completed(v)
    case Throws(e) => Failed(e)
  }

  /** The future's new state and the reported status, for a future in `state`
      whose task body would have `body` as outcome. */
  function Dispatch(state: FutureState, body: Outcome): (r: (FutureState, CompletionStatus))
    ensures r.1 == CANCELLED <==> state == Cancelled
    ensures r.1 == SUCCESS <==> state != Cancelled && body.Returns?
    ensures r.1 == ERROR <==> state != Cancelled && body.Throws?
    ensures state == Pending ==> r.0 == Delivered(body)
    ensures state != Pending ==> r.0 == state
    ensures r.0 != Pending
  {
    if state == Cancelled then (state, CANCELLED)
    else (Settle(state, Delivered(body)), if body.Returns? then SUCCESS else ERROR)
  }
}
