/** The two viacheslavbondarchuk worker services, `WorkerServiceImpl` and
    `DefaultWorkerService`: `workerCount` thread workers, `replicaCount` virtual
    nodes per worker in a ring keyed by the hashes of the node names, a submit
    path that fences on an `alive` flag, and a shutdown that flips that flag
    once. String keys are hashed as UTF-8. The compare-and-set is modelled as
    check-then-set; `poolId` is the value the worker factory's pool counter
    hands out and `uuid(k)` is the k-th UUID drawn for a node name. */
module WorkerServices {
  import opened Lang
  import opened JavaInts
  import opened Futures
  import opened WorkerUtil
  import opened HashRing
  import opened NodeNames
  import opened WorkerTasks
  import opened ThreadWorkers
  import NodeFactory

  /** `String.format("%s-worker-%d-%d", name, poolId, workerId)`. */
  function WorkerName(name: string, poolId: nat, workerId: nat): (s: string)
  {
    name + "-worker-" + Decimal(poolId) + "-" + Decimal(workerId)
  }

  /** What `%s` prints for a string that may be null. */
  function Formatted(name: Option<string>): string
  {
    if name.Some? then name.value else "null"
  }

  /** The ring entries of a node list: each node's name hash with the node. */
  function Entries(nodes: seq<WorkerNode>, hasher: HashFunction): (entries: seq<(int, WorkerNode)>)
    ensures |entries| == |nodes|
    ensures forall i | 0 <= i < |nodes| :: entries[i] == (StringKeyHash(nodes[i].name, hasher, UTF_8) as int, nodes[i])
  {
    seq(|nodes|, i requires 0 <= i < |nodes| => (StringKeyHash(nodes[i].name, hasher, UTF_8) as int, nodes[i]))
  }

  /** `new ArrayList<>(initialCapacity)` rejects a negative capacity. */
  function IllegalCapacity(workerCount: int): (e: JavaError)
    requires workerCount < 0
    ensures e.IllegalArgumentException?
  {
    IllegalArgumentException("Illegal Capacity: -" + Decimal(-workerCount))
  }

  /** The worker factory: the list allocation throws on a negative count;
      otherwise the loop makes `workerCount` fresh, live workers with empty
      queues, named after the service, the pool and their position. */
  method CreateWorkers(name: string, workerCount: int, listener: CompletionListener?, poolId: nat)
    returns (r: Result<seq<Worker>>)
    ensures r.Err? <==> workerCount < 0
    ensures r.Err? ==> r.error == IllegalCapacity(workerCount)
    ensures r.Ok? ==> |r.value| == workerCount
    ensures r.Ok? ==> forall i | 0 <= i < |r.value| ::
      fresh(r.value[i]) && r.value[i].name == WorkerName(name, poolId, i) && r.value[i].listener == listener &&
      r.value[i].alive && r.value[i].queue == [] && !r.value[i].interrupted
    ensures r.Ok? ==> forall i, j | 0 <= i < j < |r.value| :: r.value[i] != r.value[j]
  {
    if workerCount < 0 {
      return Err(IllegalCapacity(workerCount));
    }
    var ws: seq<Worker> := [];
    var i := 0;
    while i < workerCount
      invariant 0 <= i == |ws| <= workerCount
      invariant forall j | 0 <= j < i ::
        fresh(ws[j]) && ws[j].name == WorkerName(name, poolId, j) && ws[j].listener == listener &&
        ws[j].alive && ws[j].queue == [] && !ws[j].interrupted
      invariant forall j, k | 0 <= j < k < i :: ws[j] != ws[k]
    {
      var w := new Worker(WorkerName(name, poolId, i), listener);
      ws := ws + [w];
      i := i + 1;
    }
    r := Ok(ws);
  }

  /** `init`: `put(getKeyHash(node.getName()), node)` for every node, in order, into an empty `TreeMap`. */
  method PutNodes(nodes: seq<WorkerNode>, hasher: HashFunction) returns (ring: map<int, WorkerNode>)
    ensures ring == RingOf(Entries(nodes, hasher))
  {
    var entries := Entries(nodes, hasher);
    ring := map[];
    for i := 0 to |nodes|
      invariant ring == RingOf(entries[..i])
    {
      assert entries[..i + 1][..i] == entries[..i];
      ring := ring[StringKeyHash(nodes[i].name, hasher, UTF_8) := nodes[i]];
    }
    assert entries[..|nodes|] == entries;
  }

  /** Every node in the ring built from the factory's nodes forwards to one of
      the workers, and a non-empty node list leaves a non-empty ring. */
  lemma RingOwnedByWorkers(made: seq<WorkerNode>, ws: seq<Worker>, hasher: HashFunction, ring: map<int, WorkerNode>)
    requires ring == RingOf(Entries(made, hasher))
    requires forall k | 0 <= k < |made| :: made[k].worker in NodeFactory.WorkersOf(ws)
    ensures forall h | h in ring :: ring[h].worker in NodeFactory.WorkersOf(ws)
    ensures |made| > 0 ==> |ring| > 0
  {
    var entries := Entries(made, hasher);
    forall h | h in ring
      ensures ring[h].worker in NodeFactory.WorkersOf(ws)
    {
      var k := RingOfValueFrom(entries, h);
      assert ring[h] == made[k];
    }
    if |made| > 0 {
      RingOfKeys(entries);
      assert entries[0].0 in ring;
    }
  }

  /** The argument checks of the `WorkerServiceImpl` constructor, in their
      order: Guava `checkArgument` on the counts, then `checkNotNull` on the
      name and the hasher. */
  function CheckArguments(name: Option<string>, workerCount: Int32, replicaCount: Int32, hasher: Option<HashFunction>)
    : (r: Result<()>)
    ensures r.Ok? <==> replicaCount > 0 && workerCount > 0 && name.Some? && hasher.Some?
    ensures replicaCount <= 0 ==> r == Err(IllegalArgumentException("replicaCount must be greater than 0"))
    ensures replicaCount > 0 && workerCount <= 0 ==> r == Err(IllegalArgumentException("workerCount must be greater than 0"))
    ensures replicaCount > 0 && workerCount > 0 && name.None? ==> r == Err(NullPointerException("Worker name should not be null"))
    ensures replicaCount > 0 && workerCount > 0 && name.Some? && hasher.None? ==>
      r == Err(NullPointerException("Hasher should not be null"))
  {
    if replicaCount <= 0 then Err(IllegalArgumentException("replicaCount must be greater than 0"))
    else if workerCount <= 0 then Err(IllegalArgumentException("workerCount must be greater than 0"))
    else if name.None? then Err(NullPointerException("Worker name should not be null"))
    else if hasher.None? then Err(NullPointerException("Hasher should not be null"))
    else Ok(())
  }

  class WorkerServiceImpl {
    const workers: seq<Worker>
    /** The `TreeMap` from node-name hash to node. */
    const replicas: map<int, WorkerNode>
    const hasher: HashFunction
    const workerCount: Int32
    const replicaCount: Int32
    var alive: bool
    /** The nodes the factory produced, in order. */
    ghost const created: seq<WorkerNode>

    ghost function Workers(): set<Worker>
    {
      NodeFactory.WorkersOf(workers)
    }

    /** The ring holds the factory's `workerCount * replicaCount` nodes under their name hashes. */
    ghost predicate Built()
    {
      |created| == workerCount * replicaCount &&
      replicas == RingOf(Entries(created, hasher))
    }

    ghost predicate Valid()
      reads this, Workers()
    {
      |workers| == workerCount > 0 && replicaCount > 0 &&
      |replicas| > 0 &&
      (forall h | h in replicas :: replicas[h].worker in Workers()) &&
      (forall i | 0 <= i < |workers| :: workers[i].alive == alive)
    }

    /** Builds `workerCount` workers, then puts each virtual node the factory
        makes into the ring under its name hash. */
    constructor (name: string, workerCount: Int32, replicaCount: Int32, hasher: HashFunction,
                 listener: CompletionListener?, poolId: nat, uuid: nat -> string)
      requires workerCount > 0 && replicaCount > 0
      ensures Valid() && Built() && alive
      ensures this.workerCount == workerCount && this.replicaCount == replicaCount && this.hasher == hasher
      ensures forall i | 0 <= i < |workers| ::
        fresh(workers[i]) && workers[i].name == WorkerName(name, poolId, i) &&
        workers[i].listener == listener && workers[i].queue == []
      ensures NodeFactory.WorkerLayout(created, workers, replicaCount as nat, uuid)
    {
      var built := CreateWorkers(name, workerCount, listener, poolId);
      var ws := built.value;
      var made := NodeFactory.CreateAndConsumeWorkers(ws, replicaCount, uuid);
      var ring := PutNodes(made, hasher);
      RingOwnedByWorkers(made, ws, hasher, ring);
      workers := ws;
      replicas := ring;
      this.hasher := hasher;
      this.workerCount := workerCount;
      this.replicaCount := replicaCount;
      alive := true;
      created := made;
    }

    /** `getWorkerNodeId`: the first ring key at or after the key's hash, else the first key. */
    function GetWorkerNodeId(key: string): (r: Result<int>)
      ensures r.Err? <==> |replicas| == 0
      ensures r.Ok? ==> IsSuccessor(replicas.Keys, StringKeyHash(key, hasher, UTF_8), r.value)
    {
      GetNodeId(replicas.Keys, StringKeyHash(key, hasher, UTF_8))
    }

    /** `getWorkerNode`: the node stored under `getWorkerNodeId`. */
    function GetWorkerNode(key: string): (r: Result<WorkerNode>)
      ensures r.Err? <==> |replicas| == 0
      ensures r.Ok? ==> GetWorkerNodeId(key).Ok? && r.value == replicas[GetWorkerNodeId(key).value]
    {
      match GetWorkerNodeId(key)
      case Ok(id) => Ok(replicas[id])
      case Err(e) => Err(e)
    }

    /** The worker a key is routed to. */
    function TargetWorker(key: string): Worker
      requires |replicas| > 0
    {
      GetWorkerNode(key).value.worker
    }

    /** Both `execute` overloads: a dead service throws and touches no worker;
        otherwise the key's node receives one task carrying the key, a fresh
        future, the task's body and a copy of the attributes stamped with the
        creation time, and that future is returned. A `VoidTask` body returns
        Null or throws, a `CallableTask` body returns the callable's value or throws. */
    method Execute(key: string, body: Outcome, attributes: AttributeMap, now: int, assertionsEnabled: bool)
      returns (r: Result<CompletableFuture>)
      requires Valid()
      modifies Workers()
      ensures Valid() && alive == old(alive)
      ensures !alive ==> r == Err(RuntimeException("Worker service is dead"))
      ensures alive ==> r.Ok? && fresh(r.value) && r.value.state == Pending
      ensures r.Ok? ==>
        var q := TargetWorker(key).queue;
        |q| == |old(TargetWorker(key).queue)| + 1 && q[..|q| - 1] == old(TargetWorker(key).queue) &&
        fresh(q[|q| - 1]) && q[|q| - 1].key == key && q[|q| - 1].future == r.value && q[|q| - 1].body == body &&
        q[|q| - 1].attributes == Imported(old(attributes.entries))[CreatedAt := Millis(now)]
      ensures forall w | w in Workers() && (r.Err? || w != TargetWorker(key)) :: w.queue == old(w.queue)
      ensures forall w | w in Workers() :: w.alive == old(w.alive)
    {
      if !alive {
        return Err(RuntimeException("Worker service is dead"));
      }
      var node := GetWorkerNode(key).value;
      var future := new CompletableFuture();
      var task := new AbstractWorkerTask(key, future, body, attributes, now);
      var handed := node.Execute(task, assertionsEnabled);
      r := Ok(future);
    }

    /** `getWorkerCount` */
    function GetWorkerCount(): (n: Int32)
      reads this, Workers()
      requires Valid()
      ensures n == |workers|
    {
      workerCount
    }

    /** `getWorkerNodeCount`: the product in 32-bit arithmetic, which is the
        number of nodes made while that number fits in an int. */
    function GetWorkerNodeCount(): (n: Int32)
      requires Built()
      ensures n == Wrap32(|created|)
      ensures |created| <= INT_MAX ==> n == |created|
    {
      Wrap32(workerCount * replicaCount)
    }

    /** `shutdown`: only the call that finds the service alive flips the flag
        and shuts every worker down; later calls change nothing. No queued
        task is dropped by the service itself. */
    method Shutdown()
      requires Valid()
      modifies this, Workers()
      ensures Valid() && !alive
      ensures forall w | w in Workers() :: !w.alive && w.queue == old(w.queue) && w.interrupted == old(w.interrupted)
      ensures !old(alive) ==> forall w | w in Workers() :: unchanged(w)
    {
      if alive {
        alive := false;
        for i := 0 to |workers|
          invariant !alive
          invariant forall j | 0 <= j < i :: !workers[j].alive
          invariant forall w | w in Workers() :: w.queue == old(w.queue) && w.interrupted == old(w.interrupted)
        {
          workers[i].Shutdown();
        }
      }
    }

    /** `close` is `shutdown`. */
    method Close()
      requires Valid()
      modifies this, Workers()
      ensures Valid() && !alive
      ensures forall w | w in Workers() :: !w.alive && w.queue == old(w.queue) && w.interrupted == old(w.interrupted)
      ensures !old(alive) ==> forall w | w in Workers() :: unchanged(w)
    {
      Shutdown();
    }
  }

  /** The five-argument constructor with its argument checks: a rejected
      argument throws before any worker is made. */
  method NewWorkerService(name: Option<string>, workerCount: Int32, replicaCount: Int32, hasher: Option<HashFunction>,
                          listener: CompletionListener?, poolId: nat, uuid: nat -> string)
    returns (r: Result<WorkerServiceImpl>)
    ensures r.Err? <==> CheckArguments(name, workerCount, replicaCount, hasher).Err?
    ensures r.Err? ==> r.error == CheckArguments(name, workerCount, replicaCount, hasher).error
    ensures r.Ok? ==> (fresh(r.value) && r.value.Valid() && r.value.Built() && r.value.alive &&
                       r.value.workerCount == workerCount && r.value.replicaCount == replicaCount)
  {
    var checked := CheckArguments(name, workerCount, replicaCount, hasher);
    if checked.Err? {
      return Err(checked.error);
    }
    var service := new WorkerServiceImpl(name.value, workerCount, replicaCount, hasher.value, listener, poolId, uuid);
    r := Ok(service);
  }

  /** The three-argument constructor: one replica per worker and no listener. */
  method NewSingleReplicaService(name: Option<string>, workerCount: Int32, hasher: Option<HashFunction>,
                                 poolId: nat, uuid: nat -> string)
    returns (r: Result<WorkerServiceImpl>)
    ensures r.Err? <==> workerCount <= 0 || name.None? || hasher.None?
    ensures r.Ok? ==> (r.value.Valid() && r.value.Built() && r.value.replicaCount == 1 &&
                       |r.value.created| == workerCount)
  {
    r := NewWorkerService(name, workerCount, 1, hasher, null, poolId, uuid);
  }

  /** After `shutdown`, `execute` throws and no worker's queue grows. */
  method ShutdownFencesExecute(name: string, workerCount: Int32, replicaCount: Int32, hasher: HashFunction,
                               uuid: nat -> string, key: string, body: Outcome, now: int)
    returns (r: Result<CompletableFuture>, queued: nat)
    requires workerCount > 0 && replicaCount > 0
    ensures r == Err(RuntimeException("Worker service is dead"))
    ensures queued == 0
  {
    var service := new WorkerServiceImpl(name, workerCount, replicaCount, hasher, null, 0, uuid);
    service.Shutdown();
    var attributes := new AttributeMap(map[]);
    r := service.Execute(key, body, attributes, now, true);
    var target := service.TargetWorker(key);
    assert target in service.Workers();
    queued := |target.queue|;
  }

  /* ---------------------------------------------------------------------- */

  /** What `DefaultWorkerService` reads from its `WorkerServiceConfig`; `None` is Java's null. */
  datatype WorkerServiceConfig = WorkerServiceConfig(
    name: Option<string>,
    workerCount: Int32,
    replicaCount: Int32,
    hashFunction: Option<HashFunction>)

  /** `checkConfig`: Java `assert`s, so they throw AssertionError only when the
      JVM runs with assertions enabled; the first failing one names its field. */
  function CheckConfig(config: WorkerServiceConfig, assertionsEnabled: bool): (r: Result<()>)
    ensures r.Ok? <==> (!assertionsEnabled ||
                        (config.workerCount > 0 && config.replicaCount > 0 && config.hashFunction.Some? && config.name.Some?))
    ensures r.Err? ==> r.error.AssertionError?
    ensures assertionsEnabled && config.workerCount <= 0 ==> r == Err(AssertionError("workerCount must be greater than 0"))
    ensures assertionsEnabled && config.workerCount > 0 && config.replicaCount <= 0 ==>
      r == Err(AssertionError("replicaCount must be greater than 0"))
    ensures (assertionsEnabled && config.workerCount > 0 && config.replicaCount > 0 && config.hashFunction.None?) ==>
      r == Err(AssertionError("hashFunction must not be null"))
    ensures (assertionsEnabled && config.workerCount > 0 && config.replicaCount > 0 && config.hashFunction.Some? &&
             config.name.None?) ==>
      r == Err(AssertionError("name must not be null"))
  {
    if !assertionsEnabled then Ok(())
    else if config.workerCount <= 0 then Err(AssertionError("workerCount must be greater than 0"))
    else if config.replicaCount <= 0 then Err(AssertionError("replicaCount must be greater than 0"))
    else if config.hashFunction.None? then Err(AssertionError("hashFunction must not be null"))
    else if config.name.None? then Err(AssertionError("name must not be null"))
    else Ok(())
  }

  class DefaultWorkerService {
    const name: Option<string>
    const workers: seq<Worker>
    /** The `TreeMap` from node-name hash to node. */
    const nodes: map<int, WorkerNode>
    const hashFunction: Option<HashFunction>
    const workerCount: Int32
    const replicaCount: Int32
    var alive: bool
    ghost const created: seq<WorkerNode>

    ghost function Workers(): set<Worker>
    {
      NodeFactory.WorkersOf(workers)
    }

    /** The table holds the factory's nodes under their name hashes; without a
        hash function no node can have been put. */
    ghost predicate Built()
    {
      |created| == |workers| * NodeFactory.PerWorker(replicaCount) &&
      (hashFunction.Some? ==> nodes == RingOf(Entries(created, hashFunction.value))) &&
      (hashFunction.None? ==> created == [] && |nodes| == 0)
    }

    /** With assertions disabled the worker count may be zero and the replica
        count zero or negative: the loops then make no worker or no node, and
        the table stays empty. A negative worker count never gets this far. */
    ghost predicate Valid()
      reads this, Workers()
    {
      |workers| == NodeFactory.PerWorker(workerCount) &&
      (forall h | h in nodes :: nodes[h].worker in Workers()) &&
      (forall i | 0 <= i < |workers| :: workers[i].alive == alive)
    }

    /** The construction that follows a passed `checkConfig`. A negative
        worker count makes `createWorkers` throw, and a missing hash function
        makes `init` throw as soon as one node is to be put, so the latter is
        admitted only when no node is made. */
    constructor (config: WorkerServiceConfig, poolId: nat, uuid: nat -> string)
      requires config.workerCount >= 0
      requires config.hashFunction.Some? ||
        NodeFactory.PerWorker(config.workerCount) * NodeFactory.PerWorker(config.replicaCount) == 0
      ensures Valid() && Built() && alive
      ensures name == config.name && hashFunction == config.hashFunction
      ensures workerCount == config.workerCount && replicaCount == config.replicaCount
      ensures forall i | 0 <= i < |workers| ::
        fresh(workers[i]) && workers[i].name == WorkerName(Formatted(config.name), poolId, i) &&
        workers[i].listener == null && workers[i].queue == []
      ensures NodeFactory.WorkerLayout(created, workers, NodeFactory.PerWorker(replicaCount), uuid)
    {
      var built := CreateWorkers(Formatted(config.name), config.workerCount, null, poolId);
      var ws := built.value;
      var made := NodeFactory.CreateAndConsumeWorkers(ws, config.replicaCount, uuid);
      var table: map<int, WorkerNode> := map[];
      if config.hashFunction.Some? {
        table := PutNodes(made, config.hashFunction.value);
        RingOwnedByWorkers(made, ws, config.hashFunction.value, table);
      }
      name := config.name;
      workers := ws;
      nodes := table;
      hashFunction := config.hashFunction;
      workerCount := config.workerCount;
      replicaCount := config.replicaCount;
      alive := true;
      created := made;
    }

    /** `getWorkerNodeId`: hashing with a null hash function throws
        NullPointerException; on an empty table `firstKey` throws
        NoSuchElementException; otherwise the tail-wrap successor of the hash. */
    function GetWorkerNodeId(key: string): (r: Result<int>)
      ensures hashFunction.None? ==> r.Err? && r.error.NullPointerException?
      ensures hashFunction.Some? && |nodes| == 0 ==> r == Err(NoSuchElementException)
      ensures hashFunction.Some? && |nodes| > 0 ==>
        r.Ok? && IsSuccessor(nodes.Keys, StringKeyHash(key, hashFunction.value, UTF_8), r.value)
    {
      match hashFunction
      case None => Err(NullPointerException(""))
      case Some(hf) => GetNodeId(nodes.Keys, StringKeyHash(key, hf, UTF_8))
    }

    /** `getWorkerNode`: the node stored under `getWorkerNodeId`. */
    function GetWorkerNode(key: string): (r: Result<WorkerNode>)
      ensures r.Ok? <==> GetWorkerNodeId(key).Ok?
      ensures r.Ok? ==> r.value == nodes[GetWorkerNodeId(key).value]
      ensures r.Err? ==> r.error == GetWorkerNodeId(key).error
    {
      match GetWorkerNodeId(key)
      case Ok(id) => Ok(nodes[id])
      case Err(e) => Err(e)
    }

    /** The worker a key is routed to. */
    function TargetWorker(key: string): Worker
      requires hashFunction.Some? && |nodes| > 0
    {
      GetWorkerNode(key).value.worker
    }

    function GetName(): Option<string>
    {
      name
    }

    /** Both `execute` overloads: a dead service throws before any node is
        touched; a failed lookup propagates; otherwise the key's node receives
        one task with the key, a fresh future, the body and no caller
        attributes, and that future is returned. */
    method Execute(key: string, body: Outcome, now: int, assertionsEnabled: bool) returns (r: Result<CompletableFuture>)
      requires Valid()
      modifies Workers()
      ensures Valid() && alive == old(alive)
      ensures !alive ==> r == Err(RuntimeException("Worker service is dead"))
      ensures alive && GetWorkerNode(key).Err? ==> r == Err(GetWorkerNode(key).error)
      ensures alive && GetWorkerNode(key).Ok? ==> r.Ok? && fresh(r.value) && r.value.state == Pending
      ensures r.Ok? ==>
        hashFunction.Some? && |nodes| > 0 &&
        var q := TargetWorker(key).queue;
        |q| == |old(TargetWorker(key).queue)| + 1 && q[..|q| - 1] == old(TargetWorker(key).queue) &&
        fresh(q[|q| - 1]) && q[|q| - 1].key == key && q[|q| - 1].future == r.value && q[|q| - 1].body == body &&
        q[|q| - 1].attributes == map[CreatedAt := Millis(now)]
      ensures forall w | w in Workers() && (r.Err? || w != GetWorkerNode(key).value.worker) :: w.queue == old(w.queue)
      ensures forall w | w in Workers() :: w.alive == old(w.alive)
    {
      if !alive {
        return Err(RuntimeException("Worker service is dead"));
      }
      var found := GetWorkerNode(key);
      if found.Err? {
        return Err(found.error);
      }
      var node := found.value;
      var future := new CompletableFuture();
      var noAttributes := new AttributeMap(map[]);
      var task := new AbstractWorkerTask(key, future, body, noAttributes, now);
      assert Imported(map[]) == map[];
      var handed := node.Execute(task, assertionsEnabled);
      r := Ok(future);
    }

    /** `getWorkerCount` */
    function GetWorkerCount(): (n: Int32)
      reads this, Workers()
      requires Valid() && workerCount >= 0
      ensures n == |workers|
    {
      workerCount
    }

    /** `getWorkerNodeCount` as written: the replica count, which is the
        number of nodes of one worker, not of all of them. */
    function GetWorkerNodeCount(): (n: Int32)
      reads this, Workers()
      requires Valid() && Built()
      ensures n == replicaCount
      ensures workerCount > 0 && replicaCount > 0 ==> n == |created| / |workers|
    {
      if workerCount > 0 && replicaCount > 0 then
        DivModUnique(|created|, workerCount, replicaCount, 0);
        replicaCount
      else
        replicaCount
    }

    /** The sum of the nodes of all workers, as the `WorkerService` interface
        documents `getWorkerNodeCount`, in 32-bit arithmetic. */
    function GetWorkerNodeCountCorrected(): (n: Int32)
      reads this, Workers()
      requires Valid() && Built()
      ensures n == Wrap32(|created|)
      ensures |created| <= INT_MAX ==> n == |created|
    {
      Wrap32(NodeFactory.PerWorker(workerCount) * NodeFactory.PerWorker(replicaCount))
    }

    /** `shutdown`: only the call that finds the service alive flips the flag
        and shuts every worker down; later calls change nothing. */
    method Shutdown()
      requires Valid()
      modifies this, Workers()
      ensures Valid() && !alive
      ensures forall w | w in Workers() :: !w.alive && w.queue == old(w.queue) && w.interrupted == old(w.interrupted)
      ensures !old(alive) ==> forall w | w in Workers() :: unchanged(w)
    {
      if alive {
        alive := false;
        for i := 0 to |workers|
          invariant !alive
          invariant forall j | 0 <= j < i :: !workers[j].alive
          invariant forall w | w in Workers() :: w.queue == old(w.queue) && w.interrupted == old(w.interrupted)
        {
          workers[i].Shutdown();
        }
      }
    }

    /** `close` is `shutdown`. */
    method Close()
      requires Valid()
      modifies this, Workers()
      ensures Valid() && !alive
      ensures forall w | w in Workers() :: !w.alive && w.queue == old(w.queue) && w.interrupted == old(w.interrupted)
      ensures !old(alive) ==> forall w | w in Workers() :: unchanged(w)
    {
      Shutdown();
    }
  }

  /** The `DefaultWorkerService` constructor: `checkConfig`, then construction.
      With assertions disabled a negative worker count passes the check and
      `createWorkers` throws IllegalArgumentException; a null hash function
      that passes the check makes `init` throw NullPointerException as soon
      as a node is to be put. */
  method NewDefaultWorkerService(config: WorkerServiceConfig, assertionsEnabled: bool, poolId: nat, uuid: nat -> string)
    returns (r: Result<DefaultWorkerService>)
    ensures CheckConfig(config, assertionsEnabled).Err? ==> r == Err(CheckConfig(config, assertionsEnabled).error)
    ensures CheckConfig(config, assertionsEnabled).Ok? && config.workerCount < 0 ==>
      r == Err(IllegalCapacity(config.workerCount))
    ensures (CheckConfig(config, assertionsEnabled).Ok? && config.hashFunction.None? &&
             config.workerCount > 0 && config.replicaCount > 0) ==> r.Err? && r.error.NullPointerException?
    ensures r.Ok? ==> (fresh(r.value) && r.value.Valid() && r.value.Built() && r.value.alive &&
                       r.value.workerCount == config.workerCount && r.value.replicaCount == config.replicaCount)
    ensures assertionsEnabled ==> (r.Ok? <==> CheckConfig(config, true).Ok?)
  {
    var checked := CheckConfig(config, assertionsEnabled);
    if checked.Err? {
      return Err(checked.error);
    }
    if config.workerCount < 0 {
      return Err(IllegalCapacity(config.workerCount));
    }
    if config.hashFunction.None? &&
       NodeFactory.PerWorker(config.workerCount) * NodeFactory.PerWorker(config.replicaCount) != 0 {
      return Err(NullPointerException(""));
    }
    var service := new DefaultWorkerService(config, poolId, uuid);
    r := Ok(service);
  }

  /** With assertions disabled a zero worker count passes `checkConfig`; the
      service then has no node, and every `execute` on it throws
      NoSuchElementException from `firstKey`. */
  method ZeroWorkersPassUnchecked(hf: HashFunction, uuid: nat -> string, key: string, body: Outcome, now: int)
    returns (r: Result<CompletableFuture>)
    ensures r == Err(NoSuchElementException)
  {
    var config := WorkerServiceConfig(Some("service"), 0, 200, Some(hf));
    var service := new DefaultWorkerService(config, 0, uuid);
    r := service.Execute(key, body, now, false);
  }

  /** `getWorkerNodeCount` as written falls short of the number of nodes as
      soon as there are two workers; the corrected count agrees with it. */
  lemma NodeCountFallsShort(s: DefaultWorkerService)
    requires s.Valid() && s.Built() && s.workerCount >= 2 && s.replicaCount > 0
    requires s.workerCount * s.replicaCount <= INT_MAX
    ensures s.GetWorkerNodeCount() < |s.created|
    ensures s.GetWorkerNodeCountCorrected() == |s.created|
  {
    var w, r := s.workerCount as int, s.replicaCount as int;
    assert |s.created| == w * r;
    ProductExceedsFactor(w, r);
    assert s.GetWorkerNodeCount() == r;
  }

  lemma ProductExceedsFactor(w: int, r: int)
    requires w >= 2 && r > 0
    ensures w * r > r
  {
    MulAtLeast(r, w - 1);
    assert w * r == r + r * (w - 1);
  }
}
