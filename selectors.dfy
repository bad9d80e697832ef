/** The ryntric node selectors: `select(key)` is `getNode` of the key's hash;
    the tail-wrap selector looks the hash up on a ring of node-name hashes, the
    modulo selector indexes the node array by the hash, and the two round-robin
    selectors ignore the key and step a counter. A Java `WorkerNode[]` the
    selectors only read is a sequence here. */
module NodeSelectors {
  import opened Lang
  import opened JavaInts
  import opened WorkerUtil
  import opened HashRing
  import opened RingBuffers

  /** The ring entries a node array yields: each node's name hash with the node. */
  function NodeEntries(nodes: seq<WorkerNode>, hf: HashFunction): (entries: seq<(int, WorkerNode)>)
    ensures |entries| == |nodes|
    ensures forall i | 0 <= i < |nodes| :: entries[i] == (KeyHash(StringKey(nodes[i].name), hf), nodes[i])
  {
    seq(|nodes|, i requires 0 <= i < |nodes| => (KeyHash(StringKey(nodes[i].name), hf) as int, nodes[i]))
  }

  /** `ring.put(getKeyHash(node.getName()), node)` for every node, in order, into an empty `TreeMap`. */
  method PutAll(nodes: seq<WorkerNode>, hf: HashFunction) returns (ring: map<int, WorkerNode>)
    ensures ring == RingOf(NodeEntries(nodes, hf))
  {
    var entries := NodeEntries(nodes, hf);
    ring := map[];
    for i := 0 to |nodes|
      invariant ring == RingOf(entries[..i])
    {
      assert entries[..i + 1][..i] == entries[..i];
      ring := ring[KeyHash(StringKey(nodes[i].name), hf) := nodes[i]];
    }
    assert entries[..|nodes|] == entries;
  }

  /** `TWNodeSelector`: the tail-wrap ring over the nodes' name hashes. */
  class TWNodeSelector {
    const hashFunction: HashFunction
    const ring: map<int, WorkerNode>

    /** Puts every node into the ring under its name hash, in array order,
        so a colliding later node replaces an earlier one. */
    constructor (hashFunction: HashFunction, nodes: seq<WorkerNode>)
      ensures this.hashFunction == hashFunction
      ensures ring == RingOf(NodeEntries(nodes, hashFunction))
    {
      this.hashFunction := hashFunction;
      var table := PutAll(nodes, hashFunction);
      ring := table;
    }

    /** `getNode`: the node at the smallest ring key at or after the hash,
        wrapping to the smallest key; an empty ring throws NoSuchElementException. */
    function GetNode(keyHashCode: Int64): (r: Result<WorkerNode>)
      ensures r.Err? <==> ring == map[]
      ensures r.Err? ==> r.error == NoSuchElementException
      ensures r.Ok? ==> exists id :: IsSuccessor(ring.Keys, keyHashCode, id) && ring[id] == r.value
    {
      HashRing.GetNode(ring, keyHashCode)
    }

    /** `select(key)` for each key type: the node the ring assigns to the key's hash. */
    function Select(key: Key): (r: Result<WorkerNode>)
      ensures r.Err? <==> ring == map[]
      ensures r.Ok? ==> exists id :: IsSuccessor(ring.Keys, KeyHash(key, hashFunction), id) && ring[id] == r.value
    {
      GetNode(KeyHash(key, hashFunction))
    }
  }

  /** Every node whose name hash no later node shares is the ring's entry for that hash. */
  lemma RingHoldsEachNode(nodes: seq<WorkerNode>, hf: HashFunction, j: nat)
    requires j < |nodes|
    requires forall j' | j < j' < |nodes| :: KeyHash(StringKey(nodes[j'].name), hf) != KeyHash(StringKey(nodes[j].name), hf)
    ensures var h := KeyHash(StringKey(nodes[j].name), hf);
      h in RingOf(NodeEntries(nodes, hf)) && RingOf(NodeEntries(nodes, hf))[h] == nodes[j]
  {
    RingOfLastPutWins(NodeEntries(nodes, hf), j);
  }

  /** A node's own name hash selects that node on the ring, unless a later node shares the hash. */
  lemma NodeNameSelectsNode(s: TWNodeSelector, nodes: seq<WorkerNode>, j: nat)
    requires s.ring == RingOf(NodeEntries(nodes, s.hashFunction))
    requires j < |nodes|
    requires forall j' | j < j' < |nodes| ::
      KeyHash(StringKey(nodes[j'].name), s.hashFunction) != KeyHash(StringKey(nodes[j].name), s.hashFunction)
    ensures s.Select(StringKey(nodes[j].name)) == Ok(nodes[j])
  {
    var h := KeyHash(StringKey(nodes[j].name), s.hashFunction);
    RingHoldsEachNode(nodes, s.hashFunction, j);
    GetNodeIdExactHit(s.ring.Keys, h);
  }

  /** `ModuloNodeSelector`: index `(int) (Math.abs(-h) % length)`. */
  class ModuloNodeSelector {
    const hashFunction: HashFunction
    const nodes: seq<WorkerNode>
    const length: Int32

    constructor (hashFunction: HashFunction, nodes: seq<WorkerNode>)
      requires |nodes| <= INT_MAX
      ensures this.hashFunction == hashFunction && this.nodes == nodes && length == |nodes|
    {
      this.hashFunction := hashFunction;
      this.nodes := nodes;
      length := |nodes|;
    }

    /** `getNode` as written: an empty array divides by zero; for every hash
        but Long.MIN_VALUE the index is |h| mod length. */
    function GetNode(keyHashCode: Int64): (r: Result<WorkerNode>)
      requires length == |nodes|
      ensures length == 0 ==> r == Err(ArithmeticException)
      ensures length > 0 && keyHashCode != LONG_MIN ==> r == Ok(nodes[Abs(keyHashCode) % length])
    {
      if length == 0 then Err(ArithmeticException)
      else
        var index := Wrap32(Rem(AbsLong(Wrap64(-(keyHashCode as int))), length));
        if index < 0 then Err(ArrayIndexOutOfBoundsException(index)) else Ok(nodes[index])
    }

    function Select(key: Key): (r: Result<WorkerNode>)
      requires length == |nodes|
      ensures length == 0 ==> r == Err(ArithmeticException)
      ensures length > 0 && KeyHash(key, hashFunction) != LONG_MIN ==> r == Ok(nodes[Abs(KeyHash(key, hashFunction)) % length])
    {
      GetNode(KeyHash(key, hashFunction))
    }

    /** `getNode` with the index taken as `Math.abs(h % length)`: the remainder
        is below length in size, so its absolute value is always an index. */
    function GetNodeCorrected(keyHashCode: Int64): (r: Result<WorkerNode>)
      requires length == |nodes|
      ensures length == 0 <==> r == Err(ArithmeticException)
      ensures length > 0 ==> r == Ok(nodes[Abs(keyHashCode) % length])
    {
      if length == 0 then Err(ArithmeticException)
      else Ok(nodes[Abs(Rem(keyHashCode, length))])
    }
  }

  /** Hashes h and -h select the same node, Long.MIN_VALUE aside. */
  lemma ModuloIgnoresSign(s: ModuloNodeSelector, h: Int64)
    requires s.length == |s.nodes| && h != LONG_MIN
    ensures s.GetNode(h) == s.GetNode(-h)
  {
  }

  /** The corrected index makes h and its 64-bit negation select the same node for every h. */
  lemma CorrectedIgnoresSign(s: ModuloNodeSelector, h: Int64)
    requires s.length == |s.nodes|
    ensures s.GetNodeCorrected(h) == s.GetNodeCorrected(Wrap64(-(h as int)))
  {
  }

  /** As written, Long.MIN_VALUE over three nodes gives index -2: `-h` and
      `Math.abs` both overflow back to Long.MIN_VALUE, whose remainder is negative. */
  lemma ModuloMinValueOutOfBounds(s: ModuloNodeSelector)
    requires s.length == |s.nodes| == 3
    ensures s.GetNode(LONG_MIN) == Err(ArrayIndexOutOfBoundsException(-2))
    ensures s.GetNodeCorrected(LONG_MIN) == Ok(s.nodes[2])
  {
  }

  /** The node a round-robin selector picks on its k-th call (counting from 0). */
  function RoundRobinChoice(nodes: seq<WorkerNode>, k: nat): (n: WorkerNode)
    requires |nodes| > 0
    ensures n in nodes
  {
    nodes[k % |nodes|]
  }

  /** Round-robin returns to the same node after one pass over the array. */
  lemma RoundRobinCycles(nodes: seq<WorkerNode>, k: nat)
    requires |nodes| > 0
    ensures RoundRobinChoice(nodes, k + |nodes|) == RoundRobinChoice(nodes, k)
  {
    DivModUnique(k + |nodes|, |nodes|, k / |nodes| + 1, k % |nodes|);
  }

  /** The index `(int) (counter % length)` both round-robin selectors take,
      with its two Java failure modes. */
  function RoundRobinIndex(nodes: seq<WorkerNode>, counter: Int64): (r: Result<WorkerNode>)
    requires |nodes| <= INT_MAX
    ensures |nodes| == 0 ==> r == Err(ArithmeticException)
    ensures |nodes| > 0 && counter >= 0 ==> r == Ok(RoundRobinChoice(nodes, counter))
  {
    if |nodes| == 0 then Err(ArithmeticException)
    else
      var index := Wrap32(Rem(counter, |nodes|));
      if index < 0 then Err(ArrayIndexOutOfBoundsException(index)) else Ok(nodes[index])
  }

  /** `SPRRNodeSelector`: a plain `long next` counter. */
  class SPRRNodeSelector {
    const hashFunction: HashFunction
    const nodes: seq<WorkerNode>
    const length: Int32
    var next: Int64
    /** How many times `getNode` has run. */
    ghost var calls: nat

    ghost predicate Valid()
      reads this
    {
      length == |nodes| && next == Wrap64(calls)
    }

    constructor (hashFunction: HashFunction, nodes: seq<WorkerNode>)
      requires |nodes| <= INT_MAX
      ensures Valid() && calls == 0 && next == 0
      ensures this.hashFunction == hashFunction && this.nodes == nodes
    {
      this.hashFunction := hashFunction;
      this.nodes := nodes;
      length := |nodes|;
      next := 0;
      calls := 0;
    }

    /** `getNode(ignored)`: `next++ % length`. The counter moves before the
        division, so it moves even when an empty array makes the division throw. */
    method GetNode(ignored: Int64) returns (r: Result<WorkerNode>)
      requires Valid()
      modifies this
      ensures Valid() && calls == old(calls) + 1 && next == Wrap64(old(next) + 1)
      ensures r == RoundRobinIndex(nodes, old(next))
      ensures length > 0 && old(calls) <= LONG_MAX ==> r == Ok(RoundRobinChoice(nodes, old(calls)))
    {
      var current := next;
      Wrap64Increment(calls);
      next := Wrap64(next + 1);
      calls := calls + 1;
      r := RoundRobinIndex(nodes, current);
    }

    /** Every `select` overload ignores its key and calls `getNode(0L)`. */
    method Select(key: Key) returns (r: Result<WorkerNode>)
      requires Valid()
      modifies this
      ensures Valid() && calls == old(calls) + 1 && next == Wrap64(old(next) + 1)
      ensures r == RoundRobinIndex(nodes, old(next))
      ensures length > 0 && old(calls) <= LONG_MAX ==> r == Ok(RoundRobinChoice(nodes, old(calls)))
    {
      r := GetNode(0);
    }
  }

  /** `java.util.concurrent.atomic.AtomicLong`, used from one thread at a time. */
  class AtomicLong {
    var value: Int64

    constructor ()
      ensures value == 0
    {
      value := 0;
    }

    method GetAndIncrement() returns (previous: Int64)
      modifies this
      ensures previous == old(value) && value == Wrap64(old(value) + 1)
    {
      previous := value;
      value := Wrap64(value + 1);
    }
  }

  /** `MPRRNodeSelector`: the same rotation over an `AtomicLong` counter. */
  class MPRRNodeSelector {
    const hashFunction: HashFunction
    const nodes: seq<WorkerNode>
    const length: Int32
    const next: AtomicLong
    ghost var calls: nat

    ghost predicate Valid()
      reads this, next
    {
      length == |nodes| && next.value == Wrap64(calls)
    }

    constructor (hashFunction: HashFunction, nodes: seq<WorkerNode>)
      requires |nodes| <= INT_MAX
      ensures Valid() && calls == 0 && fresh(next)
      ensures this.hashFunction == hashFunction && this.nodes == nodes
    {
      this.hashFunction := hashFunction;
      this.nodes := nodes;
      length := |nodes|;
      next := new AtomicLong();
      calls := 0;
    }

    /** `getNode(ignored)`: `next.getAndIncrement() % length`. */
    method GetNode(ignored: Int64) returns (r: Result<WorkerNode>)
      requires Valid()
      modifies this, next
      ensures Valid() && calls == old(calls) + 1 && next.value == Wrap64(old(next.value) + 1)
      ensures r == RoundRobinIndex(nodes, old(next.value))
      ensures length > 0 && old(calls) <= LONG_MAX ==> r == Ok(RoundRobinChoice(nodes, old(calls)))
    {
      Wrap64Increment(calls);
      var current := next.GetAndIncrement();
      calls := calls + 1;
      r := RoundRobinIndex(nodes, current);
    }

    /** Every `select` overload ignores its key and calls `getNode(0L)`. */
    method Select(key: Key) returns (r: Result<WorkerNode>)
      requires Valid()
      modifies this, next
      ensures Valid() && calls == old(calls) + 1 && next.value == Wrap64(old(next.value) + 1)
      ensures r == RoundRobinIndex(nodes, old(next.value))
      ensures length > 0 && old(calls) <= LONG_MAX ==> r == Ok(RoundRobinChoice(nodes, old(calls)))
    {
      r := GetNode(0);
    }
  }

  datatype SelectorType = TAIL_WRAP | MODULO | ROUND_ROBIN_SINGLE_PRODUCER | ROUND_ROBIN_MULTI_PRODUCER

  /** A `WorkerNodeSelector` of one of the four kinds. */
  datatype Selector =
    | TailWrap(tw: TWNodeSelector)
    | Modulo(modulo: ModuloNodeSelector)
    | SingleProducerRoundRobin(sprr: SPRRNodeSelector)
    | MultiProducerRoundRobin(mprr: MPRRNodeSelector)

  /** `WorkerNodeSelectorFactory.create`: a new selector of the requested kind over the nodes. */
  method Create(nodes: seq<WorkerNode>, selectorType: SelectorType, hashFunction: HashFunction) returns (s: Selector)
    requires |nodes| <= INT_MAX
    ensures selectorType == TAIL_WRAP <==> s.TailWrap?
    ensures selectorType == MODULO <==> s.Modulo?
    ensures selectorType == ROUND_ROBIN_SINGLE_PRODUCER <==> s.SingleProducerRoundRobin?
    ensures selectorType == ROUND_ROBIN_MULTI_PRODUCER <==> s.MultiProducerRoundRobin?
    ensures s.TailWrap? ==> fresh(s.tw) && s.tw.hashFunction == hashFunction && s.tw.ring == RingOf(NodeEntries(nodes, hashFunction))
    ensures s.Modulo? ==> fresh(s.modulo) && s.modulo.hashFunction == hashFunction && s.modulo.nodes == nodes && s.modulo.length == |nodes|
    ensures s.SingleProducerRoundRobin? ==> fresh(s.sprr) && s.sprr.Valid() && s.sprr.hashFunction == hashFunction && s.sprr.nodes == nodes && s.sprr.calls == 0
    ensures s.MultiProducerRoundRobin? ==> fresh(s.mprr) && s.mprr.Valid() && s.mprr.hashFunction == hashFunction && s.mprr.nodes == nodes && s.mprr.calls == 0
  {
    match selectorType
    case TAIL_WRAP =>
      var tw := new TWNodeSelector(hashFunction, nodes);
      s := TailWrap(tw);
    case MODULO =>
      var m := new ModuloNodeSelector(hashFunction, nodes);
      s := Modulo(m);
    case ROUND_ROBIN_SINGLE_PRODUCER =>
      var sp := new SPRRNodeSelector(hashFunction, nodes);
      s := SingleProducerRoundRobin(sp);
    case ROUND_ROBIN_MULTI_PRODUCER =>
      var mp := new MPRRNodeSelector(hashFunction, nodes);
      s := MultiProducerRoundRobin(mp);
  }
}
