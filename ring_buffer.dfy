/** The bounded transport of the ryntric service: a Disruptor ring buffer of
    preallocated `WorkerTaskEvent` slots with one producer and one consumer,
    the `Disruptor` that owns it, and the `WorkerNode` that publishes into it.
    Sequences are numbered from 0; sequence s lives in slot s mod bufferSize. */
module RingBuffers {
  import opened Lang
  import opened JavaInts
  import opened Futures
  import opened TaskOutcome
  import opened TaskEvents

  /** What a published, not yet consumed slot carries. */
  datatype Entry = Entry(task: WorkerTask, future: CompletableFuture)

  ghost predicate Holds(e: WorkerTaskEvent, entry: Entry)
    reads e
  {
    e.task == Some(entry.task) && e.future == entry.future
  }

  /** No entry before `n` holds the future of entry `j`. */
  predicate NotHeldBefore(entries: seq<Entry>, j: int, n: int)
    requires 0 <= j < |entries| && n <= |entries|
  {
    forall k | 0 <= k < n :: entries[k].future != entries[j].future
  }

  /** Entry `i` is the first to hold its future. */
  predicate FirstHolder(entries: seq<Entry>, i: int)
    requires 0 <= i < |entries|
  {
    NotHeldBefore(entries, i, i)
  }

  /** The futures of the entries, in states `before`, after the consumer ran
      every entry in order and they are in states `after`: all are settled, a
      future settled before keeps its state, and a pending one takes the outcome
      of the first entry that holds it. */
  predicate Drained(entries: seq<Entry>, before: seq<FutureState>, after: seq<FutureState>)
    requires |before| == |entries| && |after| == |entries|
  {
    && (forall i | 0 <= i < |entries| :: after[i] != Pending)
    && (forall i | 0 <= i < |entries| && before[i] != Pending :: after[i] == before[i])
    && (forall i | 0 <= i < |entries| && before[i] == Pending && FirstHolder(entries, i) ::
          after[i] == Delivered(entries[i].task.body))
  }

  /** Entries that share a future are given the same state. */
  predicate Consistent(entries: seq<Entry>, states: seq<FutureState>)
    requires |states| == |entries|
  {
    forall i, j | 0 <= i < |entries| && 0 <= j < |entries| && entries[i].future == entries[j].future :: states[i] == states[j]
  }

  /** The states of the entries' futures. */
  ghost function StatesOf(entries: seq<Entry>): (r: seq<FutureState>)
    reads set e | e in entries :: e.future
    ensures |r| == |entries| && forall i | 0 <= i < |entries| :: r[i] == entries[i].future.state
  {
    if entries == [] then [] else [entries[0].future.state] + StatesOf(entries[1..])
  }

  /** Sequences less than a buffer length apart live in different slots. */
  lemma DistinctSlots(a: int, b: int, n: int)
    requires n > 0 && a < b < a + n
    ensures a % n != b % n
  {
    if a % n == b % n {
      var qa, qb := a / n, b / n;
      assert a == n * qa + a % n && b == n * qb + b % n;
      assert b - a == n * (qb - qa);
      if qb - qa >= 1 {
        MulAtLeast(n, qb - qa);
      } else {
        MulAtLeast(n, qa - qb + 1);
      }
    }
  }

  class RingBuffer {
    const bufferSize: nat
    const slots: array<WorkerTaskEvent>
    /** The cursor: the highest published sequence, -1 before the first. */
    var published: int
    /** The highest sequence handed out to the producer. */
    var claimed: int
    /** The consumer's sequence: the highest one it has processed. */
    var consumed: int
    /** The published entries the consumer has yet to process, oldest first. */
    ghost var Contents: seq<Entry>
    ghost var Repr: set<object>

    ghost predicate Valid()
      reads this, Repr
    {
      this in Repr && slots in Repr &&
      (forall i | 0 <= i < slots.Length :: slots[i] in Repr) &&
      (forall o: object | o in Repr :: !(o is CompletableFuture)) &&
      slots.Length == bufferSize > 0 &&
      (forall i, j | 0 <= i < j < slots.Length :: slots[i] != slots[j]) &&
      -1 <= consumed <= published <= claimed <= consumed + bufferSize &&
      |Contents| == published - consumed &&
      (forall k | 0 <= k < |Contents| :: Holds(slots[(consumed + 1 + k) % bufferSize], Contents[k]))
    }

    /** No sequence is claimed but unpublished. */
    predicate Idle()
      reads this
    {
      claimed == published
    }

    /** A buffer of `bufferSize` empty slots. */
    constructor (bufferSize: nat)
      requires bufferSize > 0
      ensures Valid() && Idle() && fresh(Repr)
      ensures this.bufferSize == bufferSize && Contents == []
    {
      var first := new WorkerTaskEvent();
      var a := new WorkerTaskEvent[bufferSize](_ => first);
      var i := 1;
      while i < bufferSize
        invariant 1 <= i <= bufferSize
        invariant a[0] == first
        invariant forall j | 0 <= j < bufferSize :: fresh(a[j])
        invariant forall j, k | 0 <= j < k < i :: a[j] != a[k]
      {
        a[i] := new WorkerTaskEvent();
        i := i + 1;
      }
      this.bufferSize := bufferSize;
      slots := a;
      published, claimed, consumed := -1, -1, -1;
      Contents := [];
      Repr := {this, a} + set j | 0 <= j < bufferSize :: a[j];
    }

    /** The slot of a sequence. */
    function Get(sequence: int): (e: WorkerTaskEvent)
      requires Valid() && sequence >= 0
      reads this, Repr
      ensures e in Repr
    {
      slots[sequence % bufferSize]
    }

    /** `tryNext()`: claims the next sequence unless the buffer is full, in
        which case it throws InsufficientCapacityException and changes nothing. */
    method TryNext() returns (r: Result<int>)
      requires Valid()
      modifies this
      ensures Valid() && Repr == old(Repr) && Contents == old(Contents)
      ensures published == old(published) && consumed == old(consumed)
      ensures r.Err? <==> old(claimed) == consumed + bufferSize
      ensures r.Err? ==> r.error == InsufficientCapacityException && claimed == old(claimed)
      ensures r.Ok? ==> r.value == claimed == old(claimed) + 1
    {
      if claimed + 1 > consumed + bufferSize {
        return Err(InsufficientCapacityException);
      }
      claimed := claimed + 1;
      return Ok(claimed);
    }

    /** `next()` when a slot is free; a full buffer would make it wait for the consumer. */
    method Next() returns (sequence: int)
      requires Valid() && claimed < consumed + bufferSize
      modifies this
      ensures Valid() && Repr == old(Repr) && Contents == old(Contents)
      ensures published == old(published) && consumed == old(consumed)
      ensures sequence == claimed == old(claimed) + 1
    {
      claimed := claimed + 1;
      sequence := claimed;
    }

    /** Writing into the slot of a claimed, unpublished sequence leaves every
        published entry in place. */
    twostate lemma FillClaimedSlotKeepsEntries(sequence: int)
      requires old(Valid()) && published == old(published) < sequence <= old(claimed)
      requires Repr == old(Repr) && Contents == old(Contents)
      requires consumed == old(consumed) && claimed == old(claimed)
      requires forall o | o in Repr && o != slots[sequence % bufferSize] :: unchanged(o)
      ensures Valid()
    {
      forall k | 0 <= k < |Contents|
        ensures Holds(slots[(consumed + 1 + k) % bufferSize], Contents[k])
      {
        DistinctSlots(consumed + 1 + k, sequence, bufferSize);
        assert old(Holds(slots[(consumed + 1 + k) % bufferSize], Contents[k]));
      }
    }

    /** `publish(sequence)`: makes the filled slot of the next sequence visible
        to the consumer, after every entry published before it. */
    method Publish(sequence: int)
      requires Valid() && sequence == published + 1 && sequence <= claimed
      requires Get(sequence).task.Some? && Get(sequence).future != null
      modifies this
      ensures Valid() && Repr == old(Repr) && claimed == old(claimed) && consumed == old(consumed)
      ensures published == sequence
      ensures Contents == old(Contents) + [Entry(old(Get(sequence)).task.value, old(Get(sequence)).future)]
    {
      var e := Get(sequence);
      Contents := Contents + [Entry(e.task.value, e.future)];
      published := sequence;
    }

    /** `publishEvent(translator, task, future)` while a slot is free: claim,
        fill through the translator, publish. */
    method PublishEvent(task: WorkerTask, future: CompletableFuture)
      requires Valid() && Idle() && |Contents| < bufferSize
      modifies Repr
      ensures Valid() && Idle() && Repr == old(Repr)
      ensures Contents == old(Contents) + [Entry(task, future)]
      ensures consumed == old(consumed)
    {
      var sequence := Next();
      var event := Get(sequence);
      label claimedOnly:
      TranslateTo(event, sequence, task, future);
      FillClaimedSlotKeepsEntries@claimedOnly(sequence);
      Publish(sequence);
    }

    /** The consumer's step: run the handler on the oldest published entry,
        which settles that entry's future and clears its slot. */
    method ProcessNext() returns (status: CompletionStatus)
      requires Valid() && |Contents| > 0
      modifies this, slots[(consumed + 1) % bufferSize], Contents[0].future
      ensures Valid() && Repr == old(Repr) && Contents == old(Contents)[1..]
      ensures published == old(published) && claimed == old(claimed) && consumed == old(consumed) + 1
      ensures old(Contents[0].future).state == Dispatch(old(Contents[0].future.state), old(Contents[0].task.body)).0
      ensures status == Dispatch(old(Contents[0].future.state), old(Contents[0].task.body)).1
    {
      var sequence := consumed + 1;
      var event := Get(sequence);
      assert Holds(event, Contents[0]);
      status := OnEvent(event, sequence, sequence == published);
      consumed := sequence;
      Contents := Contents[1..];
      ConsumeKeepsEntries();
    }

    /** The wait of `Disruptor.shutdown()` for its backlog: the consumer
        processes every published entry, oldest first. The first entry to hold
        a future settles it by `Dispatch` of its own task; a later entry with
        the same future finds it settled and leaves it so. */
    method Drain()
      requires Valid() && Idle()
      modifies Repr, set e | e in Contents :: e.future
      ensures Valid() && Idle() && Repr == old(Repr) && Contents == []
      ensures Drained(old(Contents), old(StatesOf(Contents)), StatesOf(old(Contents)))
    {
      ghost var entries, states := Contents, StatesOf(Contents);
      ghost var n := 0;
      while consumed < published
        invariant Draining(entries, states, old(Repr), n)
        decreases published - consumed
      {
        DrainNext(entries, states, old(Repr), n);
        n := n + 1;
      }
      DrainingDone(entries, states, old(Repr), n);
    }

    /** With no backlog left, every entry has been processed. */
    lemma DrainingDone(entries: seq<Entry>, states: seq<FutureState>, repr: set<object>, n: nat)
      requires Draining(entries, states, repr, n) && consumed == published
      ensures Contents == [] && Drained(entries, states, StatesOf(entries))
    {
    }

    /** The drain has processed the first `n` of `entries`, whose futures were
        in `states` when it began, and the rest are still queued. */
    ghost predicate Draining(entries: seq<Entry>, states: seq<FutureState>, repr: set<object>, n: nat)
      reads this, Repr, set e | e in entries :: e.future
    {
      && Valid() && Idle() && Repr == repr
      && n <= |entries| == |states| && Contents == entries[n..] && Consistent(entries, states)
      && (forall i | 0 <= i < n :: entries[i].future.state != Pending)
      && (forall i | 0 <= i < n && states[i] != Pending :: entries[i].future.state == states[i])
      && (forall i | 0 <= i < n && states[i] == Pending && FirstHolder(entries, i) ::
            entries[i].future.state == Delivered(entries[i].task.body))
      && (forall j | n <= j < |entries| && NotHeldBefore(entries, j, n) :: entries[j].future.state == states[j])
    }

    /** One turn of the drain: the consumer processes entry `n`. */
    method DrainNext(ghost entries: seq<Entry>, ghost states: seq<FutureState>, ghost repr: set<object>, ghost n: nat)
      requires Draining(entries, states, repr, n) && consumed < published
      modifies Repr, entries[n].future
      ensures Draining(entries, states, repr, n + 1)
    {
      var _ := ProcessNext();
    }

    /** Clearing the slot of the oldest entry and moving the consumer past it
        leaves every later entry in place. */
    twostate lemma ConsumeKeepsEntries()
      requires old(Valid()) && old(|Contents|) > 0
      requires Repr == old(Repr) && Contents == old(Contents)[1..]
      requires published == old(published) && claimed == old(claimed) && consumed == old(consumed) + 1
      requires unchanged(slots)
      requires forall i | 0 <= i < slots.Length && i != consumed % bufferSize :: unchanged(slots[i])
      ensures Valid()
    {
      var c := consumed;
      forall k | 0 <= k < |Contents|
        ensures Holds(slots[(c + 1 + k) % bufferSize], Contents[k])
      {
        DistinctSlots(c, c + 1 + k, bufferSize);
        assert old(Holds(slots[(c + 1 + k) % bufferSize], Contents[k + 1]));
      }
    }
  }

  /** A Disruptor: its ring buffer plus the lifecycle calls the services make. */
  class Disruptor {
    const ringBuffer: RingBuffer
    var started: bool
    /** How many times `shutdown()` was called. */
    var shutdowns: nat

    constructor (bufferSize: nat)
      requires bufferSize > 0
      ensures ringBuffer.Valid() && ringBuffer.Idle() && fresh(ringBuffer.Repr)
      ensures ringBuffer.bufferSize == bufferSize && ringBuffer.Contents == []
      ensures this !in ringBuffer.Repr
      ensures !started && shutdowns == 0
    {
      ringBuffer := new RingBuffer(bufferSize);
      started := false;
      shutdowns := 0;
    }

    method Start()
      modifies this
      ensures started && shutdowns == old(shutdowns)
    {
      started := true;
    }

    /** `shutdown()`: waits until the consumer has processed every published
        event, then halts it. */
    method Shutdown()
      requires ringBuffer.Valid() && ringBuffer.Idle() && this !in ringBuffer.Repr
      modifies this, ringBuffer.Repr, set e | e in ringBuffer.Contents :: e.future
      ensures shutdowns == old(shutdowns) + 1 && started == old(started)
      ensures ringBuffer.Valid() && ringBuffer.Idle() && ringBuffer.Repr == old(ringBuffer.Repr) && ringBuffer.Contents == []
      ensures Drained(old(ringBuffer.Contents), old(StatesOf(ringBuffer.Contents)), StatesOf(old(ringBuffer.Contents)))
    {
      ringBuffer.Drain();
      shutdowns := shutdowns + 1;
    }
  }

  /** A ryntric `WorkerNode`: a named entry point into one ring buffer. Both
      of its fields are final, so the node is a value. */
  datatype WorkerNode = WorkerNode(name: string, ringBuffer: RingBuffer) {
    function GetName(): string
    {
      name
    }

    /** `execute`: publishes (task, future) behind every earlier entry. A full
        buffer would block until the consumer frees a slot. */
    method Execute(task: WorkerTask, future: CompletableFuture)
      requires ringBuffer.Valid() && ringBuffer.Idle()
      requires |ringBuffer.Contents| < ringBuffer.bufferSize
      modifies ringBuffer.Repr
      ensures ringBuffer.Valid() && ringBuffer.Idle() && ringBuffer.Repr == old(ringBuffer.Repr)
      ensures ringBuffer.Contents == old(ringBuffer.Contents) + [Entry(task, future)]
    {
      ringBuffer.PublishEvent(task, future);
    }

    /** `tryExecute`: claim a sequence, fill its slot through the translator,
        publish it; on a full buffer InsufficientCapacityException propagates
        and the buffer is left as it was. */
    method TryExecute(task: WorkerTask, future: CompletableFuture) returns (r: Result<()>)
      requires ringBuffer.Valid() && ringBuffer.Idle()
      modifies ringBuffer.Repr
      ensures ringBuffer.Valid() && ringBuffer.Idle() && ringBuffer.Repr == old(ringBuffer.Repr)
      ensures r.Err? <==> |old(ringBuffer.Contents)| == ringBuffer.bufferSize
      ensures r.Err? ==> r.error == InsufficientCapacityException && ringBuffer.Contents == old(ringBuffer.Contents)
      ensures r.Ok? ==> ringBuffer.Contents == old(ringBuffer.Contents) + [Entry(task, future)]
    {
      var claim := ringBuffer.TryNext();
      if claim.Err? {
        return Err(claim.error);
      }
      var sequence := claim.value;
      var event := ringBuffer.Get(sequence);
      label claimedOnly:
      TranslateTo(event, sequence, task, future);
      ringBuffer.FillClaimedSlotKeepsEntries@claimedOnly(sequence);
      ringBuffer.Publish(sequence);
      return Ok(());
    }
  }
}
