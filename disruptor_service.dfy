/** The ryntric `DisruptorWorkerService`: `workerCount` started Disruptors,
    `replicaCount` virtual nodes per Disruptor in a ring keyed by node-name
    hashes, a submit path that fences on an `alive` flag, and a shutdown that
    flips that flag once. The compare-and-set is modelled as check-then-set. */
module DisruptorServices {
  import opened Lang
  import opened JavaInts
  import opened Futures
  import opened TaskOutcome
  import opened TaskEvents
  import opened WorkerUtil
  import opened HashRing
  import opened RingBuffers
  import opened NodeNames
  import NodeFactory
  import NodeSelectors

  datatype ProducerType = SINGLE | MULTI

  /** A Disruptor wait strategy; the service only passes it on. */
  datatype WaitStrategy = WaitStrategy(name: string)

  /** What the service reads from its `WorkerServiceConfig`; `None` is Java's null. */
  datatype WorkerServiceConfig = WorkerServiceConfig(
    name: Option<string>,
    workerCount: Int32,
    replicaCount: Int32,
    bufferSize: Int32,
    hashFunction: Option<HashFunction>,
    waitStrategy: Option<WaitStrategy>,
    producerType: Option<ProducerType>)

  /** The conditions `checkConfig` asserts, in its order. */
  predicate ConfigAccepted(config: WorkerServiceConfig)
  {
    config.workerCount > 0 && config.replicaCount > 0 &&
    config.hashFunction.Some? && config.name.Some? &&
    config.waitStrategy.Some? && config.producerType.Some? &&
    IntBitCount(config.bufferSize) == 1
  }

  /** `checkConfig`: Java `assert`s, so they throw AssertionError only when the
      JVM runs with assertions enabled; the first failing one names its field. */
  function CheckConfig(config: WorkerServiceConfig, assertionsEnabled: bool): (r: Result<()>)
    ensures r.Ok? <==> !assertionsEnabled || ConfigAccepted(config)
    ensures r.Err? ==> r.error.AssertionError?
    ensures assertionsEnabled && config.workerCount <= 0 ==> r == Err(AssertionError("workerCount must be greater than 0"))
    ensures assertionsEnabled && config.workerCount > 0 && config.replicaCount <= 0 ==>
      r == Err(AssertionError("replicaCount must be greater than 0"))
    ensures (assertionsEnabled && config.workerCount > 0 && config.replicaCount > 0 && config.hashFunction.None?) ==>
      r == Err(AssertionError("hashFunction must not be null"))
    ensures (assertionsEnabled && config.workerCount > 0 && config.replicaCount > 0 && config.hashFunction.Some? &&
             config.name.None?) ==>
      r == Err(AssertionError("name must not be null"))
    ensures (assertionsEnabled && config.workerCount > 0 && config.replicaCount > 0 && config.hashFunction.Some? &&
             config.name.Some? && config.waitStrategy.None?) ==>
      r == Err(AssertionError("waitStrategy must not be null"))
    ensures (assertionsEnabled && config.workerCount > 0 && config.replicaCount > 0 && config.hashFunction.Some? &&
             config.name.Some? && config.waitStrategy.Some? && config.producerType.None?) ==>
      r == Err(AssertionError("producerType must not be null"))
    ensures (assertionsEnabled && config.workerCount > 0 && config.replicaCount > 0 && config.hashFunction.Some? &&
             config.name.Some? && config.waitStrategy.Some? && config.producerType.Some? &&
             IntBitCount(config.bufferSize) != 1) ==>
      r == Err(AssertionError("bufferSize must be a power of 2"))
  {
    if !assertionsEnabled then Ok(())
    else if config.workerCount <= 0 then Err(AssertionError("workerCount must be greater than 0"))
    else if config.replicaCount <= 0 then Err(AssertionError("replicaCount must be greater than 0"))
    else if config.hashFunction.None? then Err(AssertionError("hashFunction must not be null"))
    else if config.name.None? then Err(AssertionError("name must not be null"))
    else if config.waitStrategy.None? then Err(AssertionError("waitStrategy must not be null"))
    else if config.producerType.None? then Err(AssertionError("producerType must not be null"))
    else if IntBitCount(config.bufferSize) != 1 then Err(AssertionError("bufferSize must be a power of 2"))
    else Ok(())
  }

  /** The one-bit test admits exactly the positive powers of two and Integer.MIN_VALUE,
      whose only set bit is the sign bit. */
  lemma CheckConfigAdmitsIntMin(config: WorkerServiceConfig)
    requires CheckConfig(config, true).Ok?
    ensures (config.bufferSize > 0 && IsPowerOfTwo(config.bufferSize)) || config.bufferSize == INT_MIN
    ensures CheckConfig(config.(bufferSize := INT_MIN), true).Ok?
  {
    SingleBitInts(config.bufferSize);
    SingleBitInts(INT_MIN);
  }

  /** `checkConfig` with the buffer size also required to be positive. */
  predicate ConfigAcceptedCorrected(config: WorkerServiceConfig)
  {
    ConfigAccepted(config) && config.bufferSize > 0
  }

  /** Every buffer size the corrected check admits is a positive power of two, and every one is admitted. */
  lemma CorrectedCheckAdmitsPowersOfTwo(config: WorkerServiceConfig)
    requires config.workerCount > 0 && config.replicaCount > 0
    requires config.hashFunction.Some? && config.name.Some? && config.waitStrategy.Some? && config.producerType.Some?
    ensures ConfigAcceptedCorrected(config) <==> config.bufferSize > 0 && IsPowerOfTwo(config.bufferSize)
  {
    SingleBitInts(config.bufferSize);
  }

  /** Disruptors with pairwise separate, valid, idle ring buffers of the
      given size, whose objects all lie in `owned` and none of which is a
      Disruptor. */
  ghost predicate Started(ws: seq<Disruptor>, owned: set<object>, bufferSize: nat)
    reads owned
  {
    (forall j | 0 <= j < |ws| ::
      ws[j] !in owned && ws[j].ringBuffer in owned && ws[j].ringBuffer.Repr <= owned &&
      ws[j].ringBuffer.Valid() && ws[j].ringBuffer.Idle() && ws[j].ringBuffer.bufferSize == bufferSize) &&
    (forall j, k | 0 <= j < |ws| && 0 <= k < |ws| :: ws[j] !in ws[k].ringBuffer.Repr) &&
    (forall j, k | 0 <= j < k < |ws| :: ws[j] != ws[k] && ws[j].ringBuffer.Repr !! ws[k].ringBuffer.Repr)
  }

  /** Disruptors, all in `ds`, that are started, were never shut down, and
      whose buffers, in `owned`, hold nothing. */
  ghost predicate Launched(ws: seq<Disruptor>, ds: set<object>, owned: set<object>)
    reads ds, owned
  {
    forall j | 0 <= j < |ws| ::
      ws[j] in ds && ws[j].started && ws[j].shutdowns == 0 &&
      ws[j].ringBuffer in owned && ws[j].ringBuffer.Contents == []
  }

  /** The loop of `init` that creates and starts one Disruptor per worker;
      `ds` collects the Disruptors and `owned` the objects of their ring buffers. */
  method StartDisruptors(count: nat, bufferSize: nat) returns (ws: seq<Disruptor>, ghost ds: set<object>, ghost owned: set<object>)
    requires bufferSize > 0
    ensures |ws| == count && Started(ws, owned, bufferSize) && fresh(owned)
    ensures Launched(ws, ds, owned) && fresh(ds)
  {
    ws, ds, owned := [], {}, {};
    for i := 0 to count
      invariant |ws| == i && Started(ws, owned, bufferSize) && fresh(owned)
      invariant Launched(ws, ds, owned) && fresh(ds)
    {
      var d := new Disruptor(bufferSize);
      d.Start();
      ws := ws + [d];
      ds := ds + {d};
      owned := owned + d.ringBuffer.Repr;
    }
  }

  /** Every node of the table built from the factory's nodes forwards to one of the workers. */
  lemma TableOwnedByWorkers(made: seq<WorkerNode>, ws: seq<Disruptor>, hf: HashFunction, table: map<int, WorkerNode>)
    requires table == RingOf(NodeSelectors.NodeEntries(made, hf))
    requires forall k | 0 <= k < |made| :: made[k].ringBuffer in NodeFactory.BuffersOf(ws)
    ensures forall h | h in table :: table[h].ringBuffer in NodeFactory.BuffersOf(ws)
    ensures |made| > 0 ==> |table| > 0
  {
    var entries := NodeSelectors.NodeEntries(made, hf);
    forall h | h in table
      ensures table[h].ringBuffer in NodeFactory.BuffersOf(ws)
    {
      var k := RingOfValueFrom(entries, h);
      assert table[h] == made[k];
    }
    if |made| > 0 {
      RingOfKeys(entries);
      assert entries[0].0 in table;
    }
  }

  /** The published entries of each Disruptor's ring buffer, oldest first. */
  ghost function QueuesOf(ws: seq<Disruptor>): (r: seq<seq<Entry>>)
    reads set j | 0 <= j < |ws| :: ws[j].ringBuffer
    ensures |r| == |ws| && forall j | 0 <= j < |ws| :: r[j] == ws[j].ringBuffer.Contents
  {
    if ws == [] then [] else [ws[0].ringBuffer.Contents] + QueuesOf(ws[1..])
  }

  /** The futures the entries hold. */
  function FuturesOf(queues: seq<seq<Entry>>): set<CompletableFuture>
  {
    set j, e | 0 <= j < |queues| && e in queues[j] :: e.future
  }

  /** The states of the entries' futures, queue by queue. */
  ghost function QueueStates(queues: seq<seq<Entry>>): (r: seq<seq<FutureState>>)
    reads FuturesOf(queues)
    ensures |r| == |queues| && forall j | 0 <= j < |queues| :: r[j] == StatesOf(queues[j])
  {
    if queues == [] then [] else [StatesOf(queues[0])] + QueueStates(queues[1..])
  }

  /** `states` gives a state to every entry of `queues`. */
  predicate Shaped(queues: seq<seq<Entry>>, states: seq<seq<FutureState>>)
  {
    |states| == |queues| && forall j | 0 <= j < |queues| :: |states[j]| == |queues[j]|
  }

  /** Entry k of queue j is the only entry of all the queues that holds its future. */
  predicate SoleHolder(queues: seq<seq<Entry>>, j: int, k: int)
    requires 0 <= j < |queues| && 0 <= k < |queues[j]|
  {
    forall j', k' | 0 <= j' < |queues| && 0 <= k' < |queues[j']| && (j' != j || k' != k) ::
      queues[j'][k'].future != queues[j][k].future
  }

  /** The futures of all the queues, in states `before`, once the consumers
      have run every queue in order and they are in states `after`: all are
      settled, a future settled before keeps its state, and a pending future
      held by one entry only takes that entry's outcome. */
  predicate AllDrained(queues: seq<seq<Entry>>, before: seq<seq<FutureState>>, after: seq<seq<FutureState>>)
    requires Shaped(queues, before) && Shaped(queues, after)
  {
    DrainedUpTo(queues, before, after, |queues|)
  }

  /** The first `i` queues are drained; the sole futures of the others are as they were. */
  predicate DrainedUpTo(queues: seq<seq<Entry>>, before: seq<seq<FutureState>>, now: seq<seq<FutureState>>, i: int)
    requires Shaped(queues, before) && Shaped(queues, now)
  {
    && (forall j, k | 0 <= j < |queues| && j < i && 0 <= k < |queues[j]| :: now[j][k] != Pending)
    && (forall j, k | 0 <= j < |queues| && 0 <= k < |queues[j]| && before[j][k] != Pending :: now[j][k] == before[j][k])
    && (forall j, k | 0 <= j < |queues| && j < i && 0 <= k < |queues[j]| && before[j][k] == Pending && SoleHolder(queues, j, k) ::
          now[j][k] == Delivered(queues[j][k].task.body))
    && (forall j, k | 0 <= j < |queues| && i <= j && 0 <= k < |queues[j]| && SoleHolder(queues, j, k) :: now[j][k] == before[j][k])
  }

  /** Entries that share a future are given the same state. */
  predicate SameFutureSameState(queues: seq<seq<Entry>>, states: seq<seq<FutureState>>)
    requires Shaped(queues, states)
  {
    forall j, k, j', k' | 0 <= j < |queues| && 0 <= k < |queues[j]| && 0 <= j' < |queues| && 0 <= k' < |queues[j']| &&
      queues[j][k].future == queues[j'][k'].future :: states[j][k] == states[j'][k']
  }

  /** Draining queue `i` moves the loop of `shutdown` on by one queue. */
  lemma {:induction false} DrainOneMore(queues: seq<seq<Entry>>, before: seq<seq<FutureState>>,
                                        pre: seq<seq<FutureState>>, post: seq<seq<FutureState>>, i: int)
    requires 0 <= i < |queues| && Shaped(queues, before) && Shaped(queues, pre) && Shaped(queues, post)
    requires SameFutureSameState(queues, pre) && SameFutureSameState(queues, post)
    requires DrainedUpTo(queues, before, pre, i)
    requires Drained(queues[i], pre[i], post[i])
    requires forall j, k | 0 <= j < |queues| && 0 <= k < |queues[j]| && queues[j][k].future !in (set e | e in queues[i] :: e.future) ::
      post[j][k] == pre[j][k]
    ensures DrainedUpTo(queues, before, post, i + 1)
  {
    forall j, k | 0 <= j < |queues| && 0 <= k < |queues[j]|
      ensures j <= i ==> post[j][k] != Pending
      ensures before[j][k] != Pending ==> post[j][k] == before[j][k]
    {
      if queues[j][k].future in (set e | e in queues[i] :: e.future) {
        var m :| 0 <= m < |queues[i]| && queues[i][m].future == queues[j][k].future;
        assert post[j][k] == post[i][m];
        if before[j][k] != Pending {
          assert pre[i][m] == pre[j][k];
        }
      }
    }
    forall k | 0 <= k < |queues[i]| && before[i][k] == Pending && SoleHolder(queues, i, k)
      ensures post[i][k] == Delivered(queues[i][k].task.body)
    {
      assert FirstHolder(queues[i], k);
    }
    forall j, k | 0 <= j < |queues| && j != i && 0 <= k < |queues[j]| && SoleHolder(queues, j, k)
      ensures post[j][k] == pre[j][k]
    {
      if queues[j][k].future in (set e | e in queues[i] :: e.future) {
        assert false;
      }
    }
  }

  /** How many times each Disruptor has been shut down. */
  ghost function ShutdownsOf(ws: seq<Disruptor>): (r: seq<nat>)
    reads set j | 0 <= j < |ws| :: ws[j]
    ensures |r| == |ws| && forall j | 0 <= j < |ws| :: r[j] == ws[j].shutdowns
  {
    if ws == [] then [] else [ws[0].shutdowns] + ShutdownsOf(ws[1..])
  }

  /** Whether each Disruptor has been started. */
  ghost function StartsOf(ws: seq<Disruptor>): (r: seq<bool>)
    reads set j | 0 <= j < |ws| :: ws[j]
    ensures |r| == |ws| && forall j | 0 <= j < |ws| :: r[j] == ws[j].started
  {
    if ws == [] then [] else [ws[0].started] + StartsOf(ws[1..])
  }

  /** Shuts every Disruptor down once, in order; each waits until its
      consumer has drained its ring buffer. */
  method ShutdownAll(ws: seq<Disruptor>, ghost owned: set<object>, ghost bufferSize: nat)
    requires Started(ws, owned, bufferSize)
    modifies ws, owned, FuturesOf(QueuesOf(ws))
    ensures Started(ws, owned, bufferSize)
    ensures forall j | 0 <= j < |ws| :: ws[j].shutdowns == old(ws[j].shutdowns) + 1 && ws[j].ringBuffer.Contents == []
    ensures forall j | 0 <= j < |ws| :: ws[j].started == old(ws[j].started)
    ensures AllDrained(old(QueuesOf(ws)), old(QueueStates(QueuesOf(ws))), QueueStates(old(QueuesOf(ws))))
  {
    ghost var queues := QueuesOf(ws);
    ghost var before, counts, starts := QueueStates(queues), ShutdownsOf(ws), StartsOf(ws);
    for i := 0 to |ws|
      invariant Stopping(ws, owned, bufferSize, queues, before, counts, starts, i)
    {
      StopNext(ws, owned, bufferSize, queues, before, counts, starts, i);
    }
  }

  /** The shutdown loop has shut down and drained the first `i` Disruptors;
      the others are as they were. */
  ghost predicate Stopping(ws: seq<Disruptor>, owned: set<object>, bufferSize: nat, queues: seq<seq<Entry>>,
                           before: seq<seq<FutureState>>, counts: seq<nat>, starts: seq<bool>, i: int)
    reads ws, owned, FuturesOf(queues)
  {
    Halted(ws, owned, bufferSize, queues, counts, starts, i) && Shaped(queues, before) &&
    DrainedUpTo(queues, before, QueueStates(queues), i)
  }

  /** The first `i` Disruptors are shut down once more than `counts` says and
      their buffers are empty; the others are as `counts` and `queues` say. */
  ghost predicate Halted(ws: seq<Disruptor>, owned: set<object>, bufferSize: nat, queues: seq<seq<Entry>>, counts: seq<nat>, starts: seq<bool>, i: int)
    reads ws, owned
  {
    && Started(ws, owned, bufferSize) && |queues| == |counts| == |starts| == |ws| && 0 <= i <= |ws|
    && (forall j | 0 <= j < |ws| :: ws[j].started == starts[j])
    && (forall j | 0 <= j < |ws| :: ws[j].shutdowns == counts[j] + (if j < i then 1 else 0))
    && (forall j | 0 <= j < |ws| :: ws[j].ringBuffer.Contents == (if j < i then [] else queues[j]))
  }

  /** Moves the shutdown loop past Disruptor `i`. */
  method StopNext(ws: seq<Disruptor>, ghost owned: set<object>, ghost bufferSize: nat, ghost queues: seq<seq<Entry>>,
                  ghost before: seq<seq<FutureState>>, ghost counts: seq<nat>, ghost starts: seq<bool>, i: int)
    requires 0 <= i < |ws| && Stopping(ws, owned, bufferSize, queues, before, counts, starts, i)
    modifies ws[i], ws[i].ringBuffer.Repr, set e | e in queues[i] :: e.future
    ensures Stopping(ws, owned, bufferSize, queues, before, counts, starts, i + 1)
  {
    ghost var pre := QueueStates(queues);
    StopOne(ws, owned, bufferSize, queues, counts, starts, i);
    ghost var post := QueueStates(queues);
    DrainOneMore(queues, before, pre, post, i);
  }

  /** Shuts Disruptor `i` down, leaving the others and the futures it does
      not hold as they were. */
  method StopOne(ws: seq<Disruptor>, ghost owned: set<object>, ghost bufferSize: nat, ghost queues: seq<seq<Entry>>,
                 ghost counts: seq<nat>, ghost starts: seq<bool>, i: int)
    requires 0 <= i < |ws| && Halted(ws, owned, bufferSize, queues, counts, starts, i)
    modifies ws[i], ws[i].ringBuffer.Repr, set e | e in queues[i] :: e.future
    ensures Halted(ws, owned, bufferSize, queues, counts, starts, i + 1)
    ensures Drained(queues[i], old(StatesOf(queues[i])), StatesOf(queues[i]))
    ensures forall j, k | 0 <= j < |queues| && 0 <= k < |queues[j]| && queues[j][k].future !in (set e | e in queues[i] :: e.future) ::
      queues[j][k].future.state == old(queues[j][k].future.state)
  {
    ShutdownAt(ws, owned, bufferSize, queues, i);
  }

  /** Shuts Disruptor `i` down; the other Disruptors, their buffers and the
      futures its buffer does not hold keep their state. */
  method ShutdownAt(ws: seq<Disruptor>, ghost owned: set<object>, ghost bufferSize: nat, ghost queues: seq<seq<Entry>>, i: int)
    requires 0 <= i < |ws| && Started(ws, owned, bufferSize)
    modifies ws[i], ws[i].ringBuffer.Repr, set e | e in ws[i].ringBuffer.Contents :: e.future
    ensures Started(ws, owned, bufferSize)
    ensures ws[i].shutdowns == old(ws[i].shutdowns) + 1 && ws[i].ringBuffer.Contents == []
    ensures forall j | 0 <= j < |ws| :: ws[j].started == old(ws[j].started)
    ensures Drained(old(ws[i].ringBuffer.Contents), old(StatesOf(ws[i].ringBuffer.Contents)), StatesOf(old(ws[i].ringBuffer.Contents)))
    ensures forall j | 0 <= j < |ws| && j != i ::
      ws[j].shutdowns == old(ws[j].shutdowns) && ws[j].ringBuffer.Contents == old(ws[j].ringBuffer.Contents)
    ensures forall j, k | 0 <= j < |queues| && 0 <= k < |queues[j]| && queues[j][k].future !in (set e | e in old(ws[i].ringBuffer.Contents) :: e.future) ::
      queues[j][k].future.state == old(queues[j][k].future.state)
  {
    ws[i].Shutdown();
  }

  /** The parts `init` builds: started Disruptors, the factory's nodes over
      them, and the table of those nodes under their name hashes. */
  method Assemble(config: WorkerServiceConfig, uuid: nat -> string)
    returns (ws: seq<Disruptor>, ghost ds: set<object>, ghost owned: set<object>, made: seq<WorkerNode>, table: map<int, WorkerNode>)
    requires ConfigAcceptedCorrected(config)
    ensures |ws| == config.workerCount && Started(ws, owned, config.bufferSize as nat) && fresh(owned)
    ensures Launched(ws, ds, owned) && fresh(ds)
    ensures |made| == config.workerCount * config.replicaCount
    ensures NodeFactory.RyntricLayout(made, ws, config.replicaCount as nat, uuid)
    ensures table == RingOf(NodeSelectors.NodeEntries(made, config.hashFunction.value))
    ensures |table| > 0 && forall h | h in table :: table[h].ringBuffer in NodeFactory.BuffersOf(ws)
  {
    ws, ds, owned := StartDisruptors(config.workerCount, config.bufferSize);
    made := NodeFactory.CreateAndConsume(ws, config.replicaCount, uuid);
    table := NodeSelectors.PutAll(made, config.hashFunction.value);
    TableOwnedByWorkers(made, ws, config.hashFunction.value, table);
  }

  class DisruptorWorkerService {
    const name: string
    const workerCount: Int32
    const replicaCount: Int32
    const bufferSize: Int32
    const hashFunction: HashFunction
    const producerType: ProducerType
    const workers: seq<Disruptor>
    /** The `TreeMap` from node-name hash to node. */
    const nodes: map<int, WorkerNode>
    /** The nodes the factory produced, in the order the consumer received them. */
    ghost const created: seq<WorkerNode>
    var alive: bool
    ghost const Repr: set<object>

    ghost function Buffers(): set<RingBuffer>
    {
      NodeFactory.BuffersOf(workers)
    }

    /** The table holds the factory's `workerCount * replicaCount` nodes under their name hashes. */
    ghost predicate Built()
    {
      |created| == workerCount * replicaCount &&
      nodes == RingOf(NodeSelectors.NodeEntries(created, hashFunction))
    }

    ghost predicate Valid()
      reads Repr
    {
      this !in Repr &&
      |workers| == workerCount > 0 && replicaCount > 0 && bufferSize > 0 &&
      (forall i | 0 <= i < |workers| ::
        workers[i] !in Repr && workers[i].ringBuffer in Repr && workers[i].ringBuffer.Repr <= Repr &&
        this !in workers[i].ringBuffer.Repr) &&
      (forall i | 0 <= i < |workers| ::
        workers[i].ringBuffer.Valid() && workers[i].ringBuffer.Idle() && workers[i].ringBuffer.bufferSize == bufferSize) &&
      (forall i, j | 0 <= i < j < |workers| ::
        workers[i] != workers[j] && workers[i].ringBuffer.Repr !! workers[j].ringBuffer.Repr) &&
      |nodes| > 0 &&
      (forall h | h in nodes :: nodes[h].ringBuffer in Buffers())
    }

    /** The buffer of the node a key is routed to. */
    function TargetBuffer(key: Key): RingBuffer
      requires |nodes| > 0
    {
      GetWorkerNode(KeyHash(key, hashFunction)).value.ringBuffer
    }

    /** Builds and starts `workerCount` Disruptors, then puts each virtual node
        the factory makes into the table under its name hash. `uuid(k)` is the
        k-th UUID drawn. Construction past a failed `checkConfig` is not modelled. */
    constructor (config: WorkerServiceConfig, uuid: nat -> string)
      requires ConfigAcceptedCorrected(config)
      ensures Valid() && Built() && alive && fresh(Repr)
      ensures name == config.name.value && hashFunction == config.hashFunction.value
      ensures workerCount == config.workerCount && replicaCount == config.replicaCount && bufferSize == config.bufferSize
      ensures forall i | 0 <= i < |workers| ::
        fresh(workers[i]) && workers[i].started && workers[i].shutdowns == 0 && workers[i].ringBuffer.Contents == []
      ensures NodeFactory.RyntricLayout(created, workers, replicaCount, uuid)
    {
      var ws, ds, owned, made, table := Assemble(config, uuid);
      name := config.name.value;
      workerCount := config.workerCount;
      replicaCount := config.replicaCount;
      bufferSize := config.bufferSize;
      hashFunction := config.hashFunction.value;
      producerType := config.producerType.value;
      workers := ws;
      nodes := table;
      created := made;
      alive := true;
      Repr := owned;
      new;
      EstablishValid(owned);
    }

    /** The facts `init` establishes make the service valid. */
    lemma EstablishValid(owned: set<object>)
      requires |workers| == workerCount > 0 && replicaCount > 0 && bufferSize > 0
      requires Started(workers, owned, bufferSize)
      requires Repr == owned && this !in owned
      requires |nodes| > 0
      requires forall h | h in nodes :: nodes[h].ringBuffer in Buffers()
      ensures Valid()
    {
    }

    /** `getWorkerNodeId`: the first table key at or after the hash, else the first key. */
    function GetWorkerNodeId(keyHashCode: Int64): (r: Result<int>)
      ensures r.Err? <==> nodes == map[]
      ensures r.Ok? ==> IsSuccessor(nodes.Keys, keyHashCode, r.value)
    {
      GetNodeId(nodes.Keys, keyHashCode)
    }

    /** `getWorkerNode`: the node stored under `getWorkerNodeId`. */
    function GetWorkerNode(keyHashCode: Int64): (r: Result<WorkerNode>)
      ensures r.Err? <==> nodes == map[]
      ensures r.Ok? ==> GetWorkerNodeId(keyHashCode).Ok? && r.value == nodes[GetWorkerNodeId(keyHashCode).value]
    {
      match GetWorkerNodeId(keyHashCode)
      case Ok(id) => Ok(nodes[id])
      case Err(e) => Err(e)
    }

    function GetName(): string { name }

    function GetBufferSize(): Int32 { bufferSize }

    function GetProducerType(): ProducerType { producerType }

    /** `getWorkerCount` */
    function GetWorkerCount(): (n: Int32)
      reads Repr
      requires Valid()
      ensures n == |workers|
    {
      workerCount
    }

    /** `getWorkerNodeCount` returns the replica count, not the number of nodes. */
    function GetWorkerNodeCount(): (n: Int32)
      reads Repr
      requires Valid() && Built()
      ensures n == |created| / |workers|
    {
      MulAtLeast(workerCount, replicaCount);
      DivModUnique(|created|, workerCount, replicaCount, 0);
      replicaCount
    }

    /** The table holds at most one node per virtual node made, and exactly
        that many when no two node names hash alike. */
    lemma NodeTableSize()
      requires Built()
      ensures |nodes| <= workerCount * replicaCount
      ensures (forall i, j | 0 <= i < j < |created| ::
        KeyHash(StringKey(created[i].name), hashFunction) != KeyHash(StringKey(created[j].name), hashFunction)) ==>
        |nodes| == workerCount * replicaCount
    {
      var entries := NodeSelectors.NodeEntries(created, hashFunction);
      RingOfSize(entries);
    }

    /** Every buffer of a valid service is valid and lies inside the service's footprint. */
    lemma BufferOfService(b: RingBuffer)
      requires Valid() && b in Buffers()
      ensures b.Valid() && b.Repr <= Repr && b.bufferSize == bufferSize
    {
      var i := OwnerOf(b);
    }

    /** Finds the index of the worker owning a buffer of the table. */
    lemma OwnerOf(b: RingBuffer) returns (i: nat)
      requires b in Buffers()
      ensures i < |workers| && workers[i].ringBuffer == b
    {
      i :| 0 <= i < |workers| && workers[i].ringBuffer == b;
    }

    /** `_execute`: a null task is rejected before liveness is checked; a dead
        service throws and touches no node; otherwise a fresh future goes to the
        key's node together with the task, behind everything queued there. A
        full buffer would block the caller until a slot frees. */
    method Execute(key: Key, task: Option<WorkerTask>) returns (r: Result<CompletableFuture>)
      requires Valid()
      requires task.Some? && alive ==> |TargetBuffer(key).Contents| < bufferSize
      modifies Repr
      ensures Valid() && alive == old(alive)
      ensures task.None? ==> r == Err(IllegalArgumentException("task must not be null"))
      ensures task.Some? && !alive ==> r == Err(WorkerServiceDeadException)
      ensures task.Some? && alive ==> r.Ok? && fresh(r.value) && r.value.state == Pending
      ensures r.Ok? ==> TargetBuffer(key).Contents == old(TargetBuffer(key).Contents) + [Entry(task.value, r.value)]
      ensures forall b | b in Buffers() && (r.Err? || b != TargetBuffer(key)) :: b.Contents == old(b.Contents)
    {
      if task.None? {
        return Err(IllegalArgumentException("task must not be null"));
      }
      if !alive {
        return Err(WorkerServiceDeadException);
      }
      var future := PublishOn(key, task.value);
      r := Ok(future);
    }

    /** The node the key routes to publishes (task, future) for a fresh future. */
    method PublishOn(key: Key, task: WorkerTask) returns (future: CompletableFuture)
      requires Valid() && |TargetBuffer(key).Contents| < bufferSize
      modifies Repr
      ensures Valid() && fresh(future) && future.state == Pending
      ensures TargetBuffer(key).Contents == old(TargetBuffer(key).Contents) + [Entry(task, future)]
      ensures forall b | b in Buffers() && b != TargetBuffer(key) :: b.Contents == old(b.Contents)
    {
      var node := GetWorkerNode(KeyHash(key, hashFunction)).value;
      var target := OwnerOf(node.ringBuffer);
      future := new CompletableFuture();
      node.Execute(task, future);
      OthersUnchanged(target);
    }

    /** `_tryExecute`: as `_execute`, but a full buffer makes the node throw
        InsufficientCapacityException, which propagates with no future returned
        and no buffer changed. */
    method TryExecute(key: Key, task: Option<WorkerTask>) returns (r: Result<CompletableFuture>)
      requires Valid()
      modifies Repr
      ensures Valid() && alive == old(alive)
      ensures task.None? ==> r == Err(IllegalArgumentException("task must not be null"))
      ensures task.Some? && !alive ==> r == Err(WorkerServiceDeadException)
      ensures task.Some? && alive && |old(TargetBuffer(key).Contents)| == bufferSize ==> r == Err(InsufficientCapacityException)
      ensures task.Some? && alive && |old(TargetBuffer(key).Contents)| < bufferSize ==> r.Ok? && fresh(r.value) && r.value.state == Pending
      ensures r.Ok? ==> TargetBuffer(key).Contents == old(TargetBuffer(key).Contents) + [Entry(task.value, r.value)]
      ensures forall b | b in Buffers() && (r.Err? || b != TargetBuffer(key)) :: b.Contents == old(b.Contents)
    {
      if task.None? {
        return Err(IllegalArgumentException("task must not be null"));
      }
      if !alive {
        return Err(WorkerServiceDeadException);
      }
      r := TryPublishOn(key, task.value);
    }

    /** The node the key routes to tries to publish (task, future) for a fresh
        future; a full buffer rejects it and nothing changes. */
    method TryPublishOn(key: Key, task: WorkerTask) returns (r: Result<CompletableFuture>)
      requires Valid()
      modifies Repr
      ensures Valid()
      ensures r.Err? <==> |old(TargetBuffer(key).Contents)| == bufferSize
      ensures r.Err? ==> r.error == InsufficientCapacityException
      ensures r.Ok? ==> fresh(r.value) && r.value.state == Pending
      ensures r.Ok? ==> TargetBuffer(key).Contents == old(TargetBuffer(key).Contents) + [Entry(task, r.value)]
      ensures forall b | b in Buffers() && (r.Err? || b != TargetBuffer(key)) :: b.Contents == old(b.Contents)
    {
      var node := GetWorkerNode(KeyHash(key, hashFunction)).value;
      var target := OwnerOf(node.ringBuffer);
      var future := new CompletableFuture();
      var published := node.TryExecute(task, future);
      OthersUnchanged(target);
      if published.Err? {
        return Err(published.error);
      }
      r := Ok(future);
    }

    /** After a step that may change only worker `target`'s buffer and keeps that
        buffer valid and idle, the service is valid and every other buffer is as it was. */
    twostate lemma OthersUnchanged(target: nat)
      requires old(Valid()) && target < |workers|
      requires alive == old(alive)
      requires forall o | o in Repr && o !in workers[target].ringBuffer.Repr :: unchanged(o)
      requires workers[target].ringBuffer.Repr == old(workers[target].ringBuffer.Repr)
      requires workers[target].ringBuffer.Valid() && workers[target].ringBuffer.Idle()
      ensures Valid()
      ensures forall i | 0 <= i < |workers| && i != target ::
        workers[i].ringBuffer.Contents == old(workers[i].ringBuffer.Contents)
    {
      forall i | 0 <= i < |workers| && i != target
        ensures workers[i].ringBuffer.Repr == old(workers[i].ringBuffer.Repr)
        ensures workers[i].ringBuffer.Contents == old(workers[i].ringBuffer.Contents)
        ensures workers[i].ringBuffer.Valid() && workers[i].ringBuffer.Idle()
      {
        assert old(workers[i].ringBuffer.Valid());
        assert unchanged(workers[i].ringBuffer.Repr);
      }
    }

    /** `shutdown`: only the call that finds the service alive flips the flag
        and shuts every Disruptor down; later calls do nothing. */
    method Shutdown()
      requires Valid()
      modifies this, workers, Repr, FuturesOf(QueuesOf(workers))
      ensures Valid() && !alive
      ensures forall i | 0 <= i < |workers| ::
        workers[i].shutdowns == old(workers[i].shutdowns) + (if old(alive) then 1 else 0)
      ensures old(alive) ==> forall b | b in Buffers() :: b.Contents == []
      ensures old(alive) ==> AllDrained(old(QueuesOf(workers)), old(QueueStates(QueuesOf(workers))), QueueStates(old(QueuesOf(workers))))
      ensures !old(alive) ==> forall b | b in Buffers() :: b.Contents == old(b.Contents)
      ensures !old(alive) ==> forall f | f in FuturesOf(old(QueuesOf(workers))) :: f.state == old(f.state)
      ensures forall i | 0 <= i < |workers| :: workers[i].started == old(workers[i].started)
    {
      if alive {
        Halt();
      }
    }

    /** The first `shutdown`: the flag goes down, then every Disruptor is shut down. */
    method Halt()
      requires Valid() && alive
      modifies this, workers, Repr, FuturesOf(QueuesOf(workers))
      ensures Valid() && !alive
      ensures forall i | 0 <= i < |workers| :: workers[i].shutdowns == old(workers[i].shutdowns) + 1
      ensures forall i | 0 <= i < |workers| :: workers[i].started == old(workers[i].started)
      ensures forall b | b in Buffers() :: b.Contents == []
      ensures AllDrained(old(QueuesOf(workers)), old(QueueStates(QueuesOf(workers))), QueueStates(old(QueuesOf(workers))))
    {
      alive := false;
      FlagOnly();
      StopWorkers();
    }

    /** Lowering the flag leaves the workers, their buffers and the queued
        futures as they were. */
    twostate lemma FlagOnly()
      requires old(Valid())
      requires unchanged(Repr) && unchanged(workers) && unchanged(FuturesOf(old(QueuesOf(workers))))
      ensures Valid()
      ensures QueuesOf(workers) == old(QueuesOf(workers))
      ensures QueueStates(QueuesOf(workers)) == old(QueueStates(QueuesOf(workers)))
      ensures ShutdownsOf(workers) == old(ShutdownsOf(workers)) && StartsOf(workers) == old(StartsOf(workers))
    {
    }

    /** The Disruptors' part of `shutdown`, once the flag is down. */
    method StopWorkers()
      requires Valid()
      modifies workers, Repr, FuturesOf(QueuesOf(workers))
      ensures Valid()
      ensures forall i | 0 <= i < |workers| :: workers[i].shutdowns == old(workers[i].shutdowns) + 1
      ensures forall i | 0 <= i < |workers| :: workers[i].started == old(workers[i].started)
      ensures forall b | b in Buffers() :: b.Contents == []
      ensures AllDrained(old(QueuesOf(workers)), old(QueueStates(QueuesOf(workers))), QueueStates(old(QueuesOf(workers))))
    {
      ShutdownAll(workers, Repr, bufferSize as nat);
      EstablishValid(Repr);
    }

    /** `close` is `shutdown`. */
    method Close()
      requires Valid()
      modifies this, workers, Repr, FuturesOf(QueuesOf(workers))
      ensures Valid() && !alive
      ensures forall i | 0 <= i < |workers| ::
        workers[i].shutdowns == old(workers[i].shutdowns) + (if old(alive) then 1 else 0)
      ensures old(alive) ==> forall b | b in Buffers() :: b.Contents == []
      ensures old(alive) ==> AllDrained(old(QueuesOf(workers)), old(QueueStates(QueuesOf(workers))), QueueStates(old(QueuesOf(workers))))
      ensures !old(alive) ==> forall b | b in Buffers() :: b.Contents == old(b.Contents)
      ensures !old(alive) ==> forall f | f in FuturesOf(old(QueuesOf(workers))) :: f.state == old(f.state)
      ensures forall i | 0 <= i < |workers| :: workers[i].started == old(workers[i].started)
    {
      Shutdown();
    }
  }

  /** A service with one-slot buffers: a second `tryExecute` on a key is
      rejected while the first task still waits in the buffer, and the first
      future completes once the consumer runs the task. */
  method CapacityOneRejectsSecondTry(workerCount: Int32, replicaCount: Int32, hf: HashFunction,
                                     uuid: nat -> string, key: Key, first: WorkerTask, second: WorkerTask)
    returns (r1: Result<CompletableFuture>, r2: Result<CompletableFuture>, status: CompletionStatus)
    requires workerCount > 0 && replicaCount > 0
    ensures r1.Ok? && r2 == Err(InsufficientCapacityException)
    ensures r1.value.state == Delivered(first.body)
    ensures status == (if first.body.Returns? then SUCCESS else ERROR)
  {
    var config := WorkerServiceConfig(Some("test"), workerCount, replicaCount, 1, Some(hf),
                                      Some(WaitStrategy("blocking")), Some(MULTI));
    assert IntBitCount(1) == 1;
    var service := new DisruptorWorkerService(config, uuid);
    var owner := service.OwnerOf(service.TargetBuffer(key));
    r1, r2, status := TryTwiceThenProcess(service, key, first, second);
  }

  /** On a live service whose one-slot buffer for the key is empty, the first
      `tryExecute` is accepted, the second rejected, and the consumer then runs
      the first task. */
  method TryTwiceThenProcess(service: DisruptorWorkerService, key: Key, first: WorkerTask, second: WorkerTask)
    returns (r1: Result<CompletableFuture>, r2: Result<CompletableFuture>, status: CompletionStatus)
    requires service.Valid() && service.alive && service.bufferSize == 1
    requires service.TargetBuffer(key).Contents == []
    modifies service.Repr
    ensures r1.Ok? && r2 == Err(InsufficientCapacityException)
    ensures r1.value.state == Delivered(first.body)
    ensures status == (if first.body.Returns? then SUCCESS else ERROR)
  {
    var buffer := service.TargetBuffer(key);
    r1 := service.TryExecute(key, Some(first));
    var future := r1.value;
    assert buffer.Contents == [Entry(first, future)];
    r2 := service.TryExecute(key, Some(second));
    service.BufferOfService(buffer);
    status := RunOnly(buffer, first, future);
  }

  /** The consumer runs the one waiting task and completes its pending future. */
  method RunOnly(buffer: RingBuffer, task: WorkerTask, future: CompletableFuture) returns (status: CompletionStatus)
    requires buffer.Valid() && buffer.Contents == [Entry(task, future)] && future.state == Pending
    modifies buffer.Repr, future
    ensures future.state == Delivered(task.body)
    ensures status == (if task.body.Returns? then SUCCESS else ERROR)
  {
    status := buffer.ProcessNext();
  }

  /** After `shutdown`, submitting throws WorkerServiceDeadException and no buffer changes. */
  method ShutdownFencesSubmission(config: WorkerServiceConfig, uuid: nat -> string, key: Key, task: WorkerTask)
    returns (r: Result<CompletableFuture>)
    requires ConfigAcceptedCorrected(config)
    ensures r == Err(WorkerServiceDeadException)
  {
    var service := new DisruptorWorkerService(config, uuid);
    service.Shutdown();
    r := service.Execute(key, Some(task));
  }
}
