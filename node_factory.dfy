/** Both `WorkerNodeFactory.createAndConsume` methods: `quantity` virtual nodes
    per worker, in worker order, named with a fresh UUID and a running index.
    The consumer callback is replaced by returning the nodes in the order the
    consumer would receive them; `uuid(k)` is the k-th UUID the generator draws. */
module NodeFactory {
  import opened JavaInts
  import opened NodeNames
  import opened RingBuffers
  import ThreadWorkers

  /** How many nodes the inner loop makes per worker. */
  function PerWorker(quantity: int): (n: nat)
    ensures quantity <= 0 ==> n == 0
    ensures quantity > 0 ==> n == quantity
  {
    if quantity > 0 then quantity else 0
  }

  /** Index arithmetic of the nested loops: node idx = w * quantity + i belongs to worker w. */
  lemma OwnerOfIndex(w: nat, i: nat, quantity: nat, count: nat)
    requires i < quantity && w < count
    ensures 0 <= w * quantity + i < count * quantity
    ensures (w * quantity + i) / quantity == w
  {
    DivModUnique(w * quantity + i, quantity, w, i);
    assert (w + 1) * quantity == w * quantity + quantity;
    if w + 1 < count {
      MulAtLeast(quantity, count - (w + 1));
      assert count * quantity == (w + 1) * quantity + (count - (w + 1)) * quantity;
    }
  }

  /** Node k is named with the k-th UUID and index k, and is backed by worker k / quantity. */
  ghost predicate RyntricNodeAt(nodes: seq<WorkerNode>, workers: seq<Disruptor>, q: nat, uuid: nat -> string, k: nat)
    requires k < |nodes|
  {
    q > 0 && k / q < |workers| && nodes[k].name == NodeName(uuid(k), k) && nodes[k].ringBuffer == workers[k / q].ringBuffer
  }

  /** Every node is where the nested loops put it. */
  ghost predicate RyntricLayout(nodes: seq<WorkerNode>, workers: seq<Disruptor>, q: nat, uuid: nat -> string)
  {
    forall k | 0 <= k < |nodes| :: RyntricNodeAt(nodes, workers, q, uuid, k)
  }

  lemma ExtendRyntricLayout(nodes: seq<WorkerNode>, workers: seq<Disruptor>, q: nat, uuid: nat -> string, w: nat, i: nat, node: WorkerNode)
    requires RyntricLayout(nodes, workers, q, uuid)
    requires |nodes| == w * q + i && i < q && w < |workers|
    requires node.name == NodeName(uuid(|nodes|), |nodes|) && node.ringBuffer == workers[w].ringBuffer
    ensures RyntricLayout(nodes + [node], workers, q, uuid)
  {
    OwnerOfIndex(w, i, q, |workers|);
    forall k | 0 <= k < |nodes| + 1
      ensures RyntricNodeAt(nodes + [node], workers, q, uuid, k)
    {
      if k < |nodes| {
        assert RyntricNodeAt(nodes, workers, q, uuid, k);
      }
    }
  }

  /** The ring buffers of a sequence of Disruptors. */
  ghost function BuffersOf(workers: seq<Disruptor>): set<RingBuffer>
  {
    set j | 0 <= j < |workers| :: workers[j].ringBuffer
  }

  /** The ryntric factory. Its text hands the `Disruptor` itself to the node;
      the node is built over that Disruptor's ring buffer. */
  method CreateAndConsume(workers: seq<Disruptor>, quantity: int, uuid: nat -> string) returns (nodes: seq<WorkerNode>)
    ensures |nodes| == |workers| * PerWorker(quantity)
    ensures |workers| > 0 && quantity > 0 ==> |nodes| >= |workers|
    ensures RyntricLayout(nodes, workers, PerWorker(quantity), uuid)
    ensures forall k | 0 <= k < |nodes| :: nodes[k].ringBuffer in BuffersOf(workers)
    ensures forall j, k | 0 <= j < k < |nodes| :: nodes[j].name != nodes[k].name
  {
    var q := PerWorker(quantity);
    nodes := [];
    var idx := 0;
    for w := 0 to |workers|
      invariant idx == |nodes| == w * q
      invariant RyntricLayout(nodes, workers, q, uuid)
      invariant forall k | 0 <= k < |nodes| :: nodes[k].ringBuffer in BuffersOf(workers)
    {
      var i := 0;
      while i < quantity
        invariant 0 <= i <= q
        invariant idx == |nodes| == w * q + i
        invariant RyntricLayout(nodes, workers, q, uuid)
        invariant forall k | 0 <= k < |nodes| :: nodes[k].ringBuffer in BuffersOf(workers)
      {
        var node := WorkerNode(NodeName(uuid(idx), idx), workers[w].ringBuffer);
        ExtendRyntricLayout(nodes, workers, q, uuid, w, i, node);
        assert node.ringBuffer in BuffersOf(workers);
        nodes := nodes + [node];
        idx := idx + 1;
        i := i + 1;
      }
      assert w * q + q == (w + 1) * q;
    }
    if |workers| > 0 && quantity > 0 {
      MulAtLeast(|workers|, quantity);
    }
    forall j, k | 0 <= j < k < |nodes|
      ensures nodes[j].name != nodes[k].name
    {
      assert RyntricNodeAt(nodes, workers, q, uuid, j) && RyntricNodeAt(nodes, workers, q, uuid, k);
      NodeNamesDistinct(uuid(j), j, uuid(k), k);
    }
  }

  /** The workers of a sequence, as a set. */
  ghost function WorkersOf(workers: seq<ThreadWorkers.Worker>): set<ThreadWorkers.Worker>
  {
    set j | 0 <= j < |workers| :: workers[j]
  }

  /** Node k is named with the k-th UUID and index k, and forwards to worker k / quantity. */
  ghost predicate WorkerNodeAt(nodes: seq<ThreadWorkers.WorkerNode>, workers: seq<ThreadWorkers.Worker>, q: nat, uuid: nat -> string, k: nat)
    requires k < |nodes|
  {
    q > 0 && k / q < |workers| && nodes[k] == ThreadWorkers.WorkerNode(NodeName(uuid(k), k), workers[k / q])
  }

  /** Every node is where the nested loops put it. */
  ghost predicate WorkerLayout(nodes: seq<ThreadWorkers.WorkerNode>, workers: seq<ThreadWorkers.Worker>, q: nat, uuid: nat -> string)
  {
    forall k | 0 <= k < |nodes| :: WorkerNodeAt(nodes, workers, q, uuid, k)
  }

  lemma ExtendWorkerLayout(nodes: seq<ThreadWorkers.WorkerNode>, workers: seq<ThreadWorkers.Worker>, q: nat, uuid: nat -> string, w: nat, i: nat)
    requires WorkerLayout(nodes, workers, q, uuid)
    requires |nodes| == w * q + i && i < q && w < |workers|
    ensures WorkerLayout(nodes + [ThreadWorkers.WorkerNode(NodeName(uuid(|nodes|), |nodes|), workers[w])], workers, q, uuid)
  {
    OwnerOfIndex(w, i, q, |workers|);
    var extended := nodes + [ThreadWorkers.WorkerNode(NodeName(uuid(|nodes|), |nodes|), workers[w])];
    forall k | 0 <= k < |extended|
      ensures WorkerNodeAt(extended, workers, q, uuid, k)
    {
      if k < |nodes| {
        assert WorkerNodeAt(nodes, workers, q, uuid, k);
      }
    }
  }

  /** The viacheslavbondarchuk factory, over the `Worker`s its `WorkerNode` forwards to. */
  method CreateAndConsumeWorkers(workers: seq<ThreadWorkers.Worker>, quantity: int, uuid: nat -> string)
    returns (nodes: seq<ThreadWorkers.WorkerNode>)
    ensures |nodes| == |workers| * PerWorker(quantity)
    ensures |workers| > 0 && quantity > 0 ==> |nodes| >= |workers|
    ensures WorkerLayout(nodes, workers, PerWorker(quantity), uuid)
    ensures forall k | 0 <= k < |nodes| :: nodes[k].worker in WorkersOf(workers)
    ensures forall j, k | 0 <= j < k < |nodes| :: nodes[j].name != nodes[k].name
  {
    var q := PerWorker(quantity);
    nodes := [];
    var idx := 0;
    for w := 0 to |workers|
      invariant idx == |nodes| == w * q
      invariant WorkerLayout(nodes, workers, q, uuid)
      invariant forall k | 0 <= k < |nodes| :: nodes[k].worker in WorkersOf(workers)
    {
      var i := 0;
      while i < quantity
        invariant 0 <= i <= q
        invariant idx == |nodes| == w * q + i
        invariant WorkerLayout(nodes, workers, q, uuid)
        invariant forall k | 0 <= k < |nodes| :: nodes[k].worker in WorkersOf(workers)
      {
        ExtendWorkerLayout(nodes, workers, q, uuid, w, i);
        assert workers[w] in WorkersOf(workers);
        nodes := nodes + [ThreadWorkers.WorkerNode(NodeName(uuid(idx), idx), workers[w])];
        idx := idx + 1;
        i := i + 1;
      }
      assert w * q + q == (w + 1) * q;
    }
    if |workers| > 0 && quantity > 0 {
      MulAtLeast(|workers|, quantity);
    }
    forall j, k | 0 <= j < k < |nodes|
      ensures nodes[j].name != nodes[k].name
    {
      assert WorkerNodeAt(nodes, workers, q, uuid, j) && WorkerNodeAt(nodes, workers, q, uuid, k);
      NodeNamesDistinct(uuid(j), j, uuid(k), k);
    }
  }
}
