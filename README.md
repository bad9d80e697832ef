# Sharded task executor — a Dafny model

This project models the routing and bookkeeping core of `ryntric/workers`, a
Java library that runs keyed tasks on a fixed pool of single-consumer workers.
A task carries a key. The key is hashed, the hash is looked up on a ring of
virtual nodes, and each virtual node forwards to one worker, so all tasks
with the same key run on the same worker, one after another. The repository
holds two packages from different revisions of the library:

- `io/github/ryntric`. A `DisruptorWorkerService` feeds each worker through a
  bounded Disruptor ring buffer. It has pluggable node selectors (tail-wrap
  ring, modulo, and two round-robin counters), a hash-code provider, sizing
  utilities and metric-tag switches.
- `io/github/viacheslavbondarchuk`. `WorkerServiceImpl` and
  `DefaultWorkerService` feed plain `Worker` threads with unbounded queues.
  The package also has its own task class, with attribute timestamps, its own
  event handler and its own metric-tag switches.

The model has one module per concern:

| file | module | what it holds |
|---|---|---|
| `lang.dfy` | `Lang` | `Option`, `Result`, the Java exceptions the code throws |
| `java_ints.dfy` | `JavaInts` | 32- and 64-bit two's-complement wrap-around, `%` truncating toward zero, exclusive or on unsigned readings, powers of two, bit counts |
| `futures.dfy` | `Futures` | `CompletableFuture` as a cell that settles once |
| `task_outcome.dfy` | `TaskOutcome` | the outcome rule shared by every handler: cancelled → skip, returns → complete, throws → complete exceptionally |
| `worker_util.dfy` | `WorkerUtil` | Guava `HashCode` widening and the `getKeyHash` overloads; the hash function is an uninterpreted value |
| `hash_code_provider.dfy` | `HashCodeProvider` | `DefaultHashCodeProvider` and its `h ^ (h >>> 16)` spreader |
| `sizing_util.dfy` | `SizingUtil` | `util/WorkerUtil`: `getWorkerCount`, `ceilPowerOfTwo` |
| `node_names.dfy` | `NodeNames` | virtual node names `"<uuid>-vwn-<idx>"` and their distinctness |
| `hash_ring.dfy` | `HashRing` | the `TreeMap` ring: `put` in order, then tail-or-first lookup |
| `task_events.dfy` | `TaskEvents` | ryntric `WorkerTaskEvent` slots, the translator and the handler |
| `ring_buffer.dfy` | `RingBuffers` | the Disruptor ring buffer of slots, the `Disruptor` and the ryntric `WorkerNode` |
| `node_factory.dfy` | `NodeFactory` | both `WorkerNodeFactory.createAndConsume` loops |
| `selectors.dfy` | `NodeSelectors` | the four ryntric node selectors and their factory |
| `disruptor_service.dfy` | `DisruptorServices` | ryntric `DisruptorWorkerService` |
| `worker_tasks.dfy` | `WorkerTasks` | viacheslavbondarchuk `AbstractWorkerTask` and `WorkerTaskEventHandler` |
| `thread_worker.dfy` | `ThreadWorkers` | viacheslavbondarchuk `Worker` and `WorkerNode` |
| `worker_services.dfy` | `WorkerServices` | `WorkerServiceImpl`, `DefaultWorkerService` and the worker factory loop |
| `metric_flags.dfy` | `MetricFlags` | the flag byte: test, set, clear, toggle |
| `metrics.dfy` | `MetricTags` | ryntric `MetricConfig` and `MetricTagCompositor` |
| `metric_switches.dfy` | `MetricSwitches` | viacheslavbondarchuk `MetricConfig` |

How Java constructs are represented:

- Objects whose fields change become classes: services, workers, ring
  buffers, slots, selectors with counters, metric configs.
- Objects with only final fields become datatypes, such as both
  `WorkerNode`s.
- Java `int` and `long` are integers kept in range, and every overflow the
  code can reach is written out.
- Java `null` is `None`, or a nullable reference.
- An exception is the `Err` branch of a `Result`.
- Time, UUIDs and the processor count are parameters.
- A JVM `assert` depends on a parameter `assertionsEnabled`.

Some files do not compile together, because they come from several
revisions. Each file is modelled on its own text:

- The ryntric `WorkerNodeFactory` hands a `Disruptor` where the ryntric
  `WorkerNode` wants a `RingBuffer`. The model passes that Disruptor's ring
  buffer.
- The viacheslavbondarchuk services call `WorkerFactory.getNewWorkerFactory().create`,
  `WorkerNodeFactory.getNewWorkerNodeFactory().create` and
  `WorkerNodeFactory.createWorkerNodes`, and the three-argument `VoidTask`
  constructor. This revision's text defines none
  of them. They are modelled with the factory loops it does define:
  `WorkerServices.CreateWorkers` (worker names `"%s-worker-%d-%d"`) and
  `NodeFactory.CreateAndConsumeWorkers`. `DefaultWorkerService` passes no
  attributes, so its tasks start from an empty attribute map.

## Model

Paths are relative to the repository root.
Plain field getters (`getName`, `getBufferSize`, `getProducerType`, `getWorkerName`, `getKey`, `getCompletableFuture`, `getAttributes`), which return one field as it stands, have no row.

| member | source | states |
|---|---|---|
| TaskOutcome.Delivered | src/main/java/io/github/ryntric/WorkerTaskEventHandler.java:35-41 | a returned value completes the future and a thrown exception fails it; never pending, never cancelled |
| TaskOutcome.Dispatch | src/main/java/io/github/ryntric/WorkerTaskEventHandler.java:34-44 | exactly one status per task: CANCELLED iff the future was cancelled, SUCCESS iff not cancelled and the body returned, ERROR iff not cancelled and it threw; a pending future takes the body's outcome, a settled one keeps its state |
| Futures.SettleIsFinal | src/main/java/io/github/ryntric/WorkerTaskEventHandler.java:36-41 | once a future is settled, no later completion changes it |
| WorkerUtil.GetHashCode | src/main/java/io/github/ryntric/WorkerUtil.java:19-21 | codes wider than 32 bits give their long value, 32-bit codes their int value sign-extended; the low 32 bits are always the code's int |
| WorkerUtil.NarrowKeyHashInIntRange | src/main/java/io/github/ryntric/WorkerUtil.java:19-21 | with a hash function of at most 32 bits, every key hash lies in the int range and is never Long.MIN_VALUE |
| WorkerUtil.AvailableProcessors | src/main/java/io/github/ryntric/WorkerUtil.java:15-17 | p - 1 when p > 1, else p; at least 1 and at most p when p >= 1 |
| HashCodeProvider.Normalize | src/main/java/io/github/ryntric/DefaultHashCodeProvider.java:23-25 | the result, read unsigned, is u xor (u >>> 16) of the input's unsigned reading u |
| HashCodeProvider.NormalizeHalves | src/main/java/io/github/ryntric/DefaultHashCodeProvider.java:24 | the upper 16 bits are kept; the lower 16 bits become lower xor upper |
| HashCodeProvider.NormalizeInvolution | src/main/java/io/github/ryntric/DefaultHashCodeProvider.java:23-25 | normalize is its own inverse |
| HashCodeProvider.ProvideIntInjective | src/main/java/io/github/ryntric/DefaultHashCodeProvider.java:33-35 | distinct int keys get distinct hashes |
| HashCodeProvider.ProvideIntZero | src/main/java/io/github/ryntric/DefaultHashCodeProvider.java:33-35 | `provide(0)` is 0 |
| HashCodeProvider.LongHashCode | src/main/java/io/github/ryntric/DefaultHashCodeProvider.java:38-40 | `Long.hashCode(k)` is the low 32 bits of k xor (k >>> 32) |
| HashCodeProvider.ProvideLongAgreesWithInt | src/main/java/io/github/ryntric/DefaultHashCodeProvider.java:38-40 | for 0 <= k < 2^31, `provide(long k)` equals `provide(int k)` |
| HashCodeProvider.ProvideLongMinusOneIsZero | src/main/java/io/github/ryntric/DefaultHashCodeProvider.java:38-40 | the long keys -1 and 0 collide |
| HashCodeProvider.ProvideInt | src/main/java/io/github/ryntric/DefaultHashCodeProvider.java:33-35 | normalizing the result gives back the key |
| HashCodeProvider.ProvideLong | src/main/java/io/github/ryntric/DefaultHashCodeProvider.java:38-40 | normalizing the result gives back `Long.hashCode` of the key |
| HashCodeProvider.ProvideString | src/main/java/io/github/ryntric/DefaultHashCodeProvider.java:28-30 | normalizing the result gives back `String.hashCode` of the key |
| HashCodeProvider.ProvideBytes | src/main/java/io/github/ryntric/DefaultHashCodeProvider.java:43-45 | normalizing the result gives back `Arrays.hashCode` of the key |
| HashCodeProvider.StringHashAppend | src/main/java/io/github/ryntric/DefaultHashCodeProvider.java:29 | the `String.hashCode` fold over s + t continues from its value over s |
| HashCodeProvider.StringHashIsPolynomial | src/main/java/io/github/ryntric/DefaultHashCodeProvider.java:29 | `String.hashCode` is s[0]*31^(n-1) + ... + s[n-1] reduced to a 32-bit int |
| HashCodeProvider.BytesHashAppend | src/main/java/io/github/ryntric/DefaultHashCodeProvider.java:44 | the `Arrays.hashCode` fold over a + b continues from its value over a |
| HashCodeProvider.BytesHashIsPolynomial | src/main/java/io/github/ryntric/DefaultHashCodeProvider.java:44 | `Arrays.hashCode(byte[])` is 31^n + b[0]*31^(n-1) + ... + b[n-1] reduced to a 32-bit int |
| HashCodeProvider.ProvideNullableString | src/main/java/io/github/ryntric/DefaultHashCodeProvider.java:28-30 | a null string throws NullPointerException; any other string is hashed as `ProvideString` |
| HashCodeProvider.ProvideNullableBytes | src/main/java/io/github/ryntric/DefaultHashCodeProvider.java:43-45 | a null byte array gives 0; any other array is hashed as `ProvideBytes` |
| HashCodeProvider.NullBytesLikeEmptyString | src/main/java/io/github/ryntric/DefaultHashCodeProvider.java:27-45 | a null byte array collides with the empty string, not with the empty byte array |
| HashCodeProvider.EmptyKeys | src/main/java/io/github/ryntric/DefaultHashCodeProvider.java:27-45 | the empty string hashes to 0 and the empty byte array to 1 |
| HashCodeProvider.ProvideStringCollision | src/main/java/io/github/ryntric/DefaultHashCodeProvider.java:28-30 | "Aa" and "BB" get the same hash |
| SizingUtil.GetWorkerCount | src/main/java/io/github/ryntric/util/WorkerUtil.java:9-11 | the same leave-one-free rule as `getAvailableProcessors`; strictly below p when p > 1 |
| SizingUtil.CeilPowerOfTwo | src/main/java/io/github/ryntric/util/WorkerUtil.java:17-20 | 1 for every n <= 0, and 0 for n == 1 as written |
| SizingUtil.CeilPowerOfTwoInRange | src/main/java/io/github/ryntric/util/WorkerUtil.java:19 | for 2 <= n <= 2^30, a power of two with n <= r < 2n |
| SizingUtil.CeilPowerOfTwoFixesPowers | src/main/java/io/github/ryntric/util/WorkerUtil.java:19 | a power of two n >= 2 maps to itself |
| SizingUtil.CeilPowerOfTwoOverflows | src/main/java/io/github/ryntric/util/WorkerUtil.java:19 | above 2^30 the shift overflows to Integer.MIN_VALUE |
| SizingUtil.CeilPowerOfTwoOfOne | src/main/java/io/github/ryntric/util/WorkerUtil.java:19 | as written, n == 1 gives 0, which is no power of two |
| SizingUtil.CeilPowerOfTwoCorrected | src/main/java/io/github/ryntric/util/WorkerUtil.java:17-20 | 1 for n <= 1, the written result above |
| SizingUtil.CeilPowerOfTwoCorrectedInRange | src/main/java/io/github/ryntric/util/WorkerUtil.java:17-20 | for every 1 <= n <= 2^30, a power of two with n <= r < 2n |
| NodeNames.NodeName | src/main/java/io/github/ryntric/WorkerNodeFactory.java:12 | a name ends in '-' followed by the decimal index |
| NodeNames.NodeNamesDistinct | src/main/java/io/github/ryntric/WorkerNodeFactory.java:22 | names with different indices differ, whatever UUIDs were drawn |
| HashRing.RingOfKeys | src/main/java/io/github/ryntric/TWNodeSelector.java:20-22 | the ring's keys are exactly the hashes that were put |
| HashRing.RingOfLastPutWins | src/main/java/io/github/ryntric/TWNodeSelector.java:20-22 | each hash holds the node of its last `put` |
| HashRing.RingOfValueFrom | src/main/java/io/github/ryntric/TWNodeSelector.java:20-22 | every node in the ring was put under its key |
| HashRing.RingOfSize | src/main/java/io/github/ryntric/DisruptorWorkerService.java:46-52 | at most one entry per put, exactly one when the hashes are distinct |
| HashRing.FirstKey | src/main/java/io/github/ryntric/TWNodeSelector.java:28 | `firstKey()` is the least key of a non-empty table |
| HashRing.TailKeys | src/main/java/io/github/ryntric/TWNodeSelector.java:27 | `tailMap(h)` holds exactly the keys at or after h |
| HashRing.GetNodeId | src/main/java/io/github/ryntric/DisruptorWorkerService.java:95-99 | an error iff the table is empty (NoSuchElementException); otherwise the least key >= h, or the least key when none is |
| HashRing.SuccessorIsUnique | src/main/java/io/github/ryntric/DisruptorWorkerService.java:95-99 | the key a hash is routed to is unique, so lookup is deterministic |
| HashRing.GetNode | src/main/java/io/github/ryntric/TWNodeSelector.java:25-30 | the node stored at the successor key; NoSuchElementException iff the ring is empty |
| HashRing.GetNodeIdExactHit | src/main/java/io/github/ryntric/TWNodeSelector.java:27-29 | a hash equal to a key finds that key |
| HashRing.GetNodeIdWraps | src/main/java/io/github/ryntric/TWNodeSelector.java:28 | when every key lies below the hash, the lookup wraps to the least key |
| HashRing.AddKeyMovesOnlyToNewKey | src/main/java/io/github/ryntric/DisruptorWorkerService.java:95-99 | adding a key moves a hash only onto the new key |
| TaskEvents.WorkerTaskEvent.SetTask | src/main/java/io/github/ryntric/WorkerTaskEvent.java:18-20 | only the task field changes |
| TaskEvents.WorkerTaskEvent.SetFuture | src/main/java/io/github/ryntric/WorkerTaskEvent.java:22-24 | only the future field changes |
| TaskEvents.WorkerTaskEvent.IsCancelled | src/main/java/io/github/ryntric/WorkerTaskEvent.java:26-28 | the held future's cancellation; NullPointerException iff no future is held |
| TaskEvents.WorkerTaskEvent.Clear | src/main/java/io/github/ryntric/WorkerTaskEvent.java:30-33 | task and future are both null afterwards |
| TaskEvents.TranslateTo | src/main/java/io/github/ryntric/WorkerTaskEventTranslator.java:15-19 | the slot holds the given task and future, whatever the sequence |
| TaskEvents.OnEvent | src/main/java/io/github/ryntric/WorkerTaskEventHandler.java:27-47 | the slot's future and the status follow `Dispatch`, and the slot is cleared on every path |
| RingBuffers.RingBuffer.constructor | src/main/java/io/github/ryntric/DisruptorFactory.java:26 | `bufferSize` distinct empty slots, nothing published |
| RingBuffers.RingBuffer.TryNext | src/main/java/io/github/ryntric/WorkerNode.java:22 | claims the next sequence; InsufficientCapacityException iff the buffer is full, and then nothing changes |
| RingBuffers.RingBuffer.Publish | src/main/java/io/github/ryntric/WorkerNode.java:24 | the filled slot becomes the last published entry, behind all earlier ones |
| RingBuffers.RingBuffer.PublishEvent | src/main/java/io/github/ryntric/WorkerNode.java:17-19 | one entry (task, future) is appended after every earlier entry |
| RingBuffers.RingBuffer.ProcessNext | src/main/java/io/github/ryntric/WorkerTaskEventHandler.java:27-47 | the oldest entry is consumed in FIFO order, its future settled by `Dispatch`, the rest kept |
| RingBuffers.RingBuffer.Drain | src/main/java/io/github/ryntric/WorkerTaskEventHandler.java:27-47 | the consumer handles every published entry in FIFO order: the buffer ends empty, every entry's future ends settled, one settled before keeps its state, and a pending one first held by that entry takes its `Dispatch` outcome |
| RingBuffers.Disruptor.Shutdown | src/main/java/io/github/ryntric/DisruptorWorkerService.java:214 | `Disruptor.shutdown` waits for the backlog: the buffer is drained as `Drain` says, then the Disruptor counts one more shutdown |
| RingBuffers.WorkerNode.Execute | src/main/java/io/github/ryntric/WorkerNode.java:17-19 | the buffer's contents grow by exactly (task, future) at the end |
| RingBuffers.WorkerNode.TryExecute | src/main/java/io/github/ryntric/WorkerNode.java:21-25 | a full buffer throws InsufficientCapacityException and is unchanged; otherwise exactly (task, future) is appended |
| NodeFactory.CreateAndConsume | src/main/java/io/github/ryntric/WorkerNodeFactory.java:17-25 | workers × quantity nodes (none for quantity <= 0); node k is named with index k and backed by worker k / quantity; names pairwise distinct |
| NodeFactory.CreateAndConsumeWorkers | src/main/java/io/github/viacheslavbondarchuk/WorkerNodeFactory.java:14-21 | the same layout over `Worker`s |
| NodeSelectors.PutAll | src/main/java/io/github/ryntric/TWNodeSelector.java:20-22 | the loop builds the ring of the nodes' name hashes, put in array order |
| NodeSelectors.TWNodeSelector.constructor | src/main/java/io/github/ryntric/TWNodeSelector.java:18-23 | the ring is that of the nodes' name hashes |
| NodeSelectors.TWNodeSelector.GetNode | src/main/java/io/github/ryntric/TWNodeSelector.java:25-30 | the node at the successor key; NoSuchElementException iff the ring is empty |
| NodeSelectors.TWNodeSelector.Select | src/main/java/io/github/ryntric/WorkerNodeSelector.java:20-34 | the node the ring assigns to the key's hash, for every key type |
| NodeSelectors.RingHoldsEachNode | src/main/java/io/github/ryntric/TWNodeSelector.java:20-22 | a node whose hash no later node shares is the ring's entry for that hash |
| NodeSelectors.NodeNameSelectsNode | src/main/java/io/github/ryntric/TWNodeSelector.java:18-30 | a node's own name selects that node, unless a later node shares its hash |
| NodeSelectors.ModuloNodeSelector.GetNode | src/main/java/io/github/ryntric/ModuloNodeSelector.java:21-25 | an empty array throws ArithmeticException; any other hash than Long.MIN_VALUE picks index \|h\| mod length |
| NodeSelectors.ModuloNodeSelector.Select | src/main/java/io/github/ryntric/WorkerNodeSelector.java:20-34 | `getNode` of the key's hash |
| NodeSelectors.ModuloIgnoresSign | src/main/java/io/github/ryntric/ModuloNodeSelector.java:23 | h and -h select the same node, Long.MIN_VALUE aside |
| NodeSelectors.ModuloMinValueOutOfBounds | src/main/java/io/github/ryntric/ModuloNodeSelector.java:23 | as written, Long.MIN_VALUE over three nodes yields index -2 |
| NodeSelectors.ModuloNodeSelector.GetNodeCorrected | src/main/java/io/github/ryntric/ModuloNodeSelector.java:23 | every hash picks index \|h\| mod length |
| NodeSelectors.CorrectedIgnoresSign | src/main/java/io/github/ryntric/ModuloNodeSelector.java:23 | with the correction, h and its 64-bit negation always agree |
| NodeSelectors.RoundRobinChoice | src/main/java/io/github/ryntric/SPRRNodeSelector.java:26-27 | the k-th call's node is one of the nodes |
| NodeSelectors.RoundRobinCycles | src/main/java/io/github/ryntric/SPRRNodeSelector.java:26-27 | after length calls the same node comes round again |
| NodeSelectors.RoundRobinIndex | src/main/java/io/github/ryntric/SPRRNodeSelector.java:26-27 | an empty array throws ArithmeticException; a non-negative counter c picks node c mod length |
| NodeSelectors.SPRRNodeSelector.constructor | src/main/java/io/github/ryntric/SPRRNodeSelector.java:18-22 | the counter starts at 0 |
| NodeSelectors.SPRRNodeSelector.GetNode | src/main/java/io/github/ryntric/SPRRNodeSelector.java:25-28 | the counter grows by one (wrapping at 64 bits); the k-th call returns node k mod length |
| NodeSelectors.SPRRNodeSelector.Select | src/main/java/io/github/ryntric/SPRRNodeSelector.java:30-48 | every overload ignores its key and advances the same counter |
| NodeSelectors.MPRRNodeSelector.constructor | src/main/java/io/github/ryntric/MPRRNodeSelector.java:18-23 | a fresh counter at 0 |
| NodeSelectors.MPRRNodeSelector.GetNode | src/main/java/io/github/ryntric/MPRRNodeSelector.java:26-29 | `getAndIncrement` advances by one; the k-th call returns node k mod length |
| NodeSelectors.MPRRNodeSelector.Select | src/main/java/io/github/ryntric/MPRRNodeSelector.java:31-49 | every overload ignores its key and advances the same counter |
| NodeSelectors.Create | src/main/java/io/github/ryntric/WorkerNodeSelectorFactory.java:15-32 | each selector type yields a new selector of exactly its kind over the given nodes, with the given hash function |
| DisruptorServices.CheckConfig | src/main/java/io/github/ryntric/DisruptorWorkerService.java:55-63 | with assertions enabled, accepts iff every asserted condition holds; otherwise the first failing one, in the order workerCount, replicaCount, hashFunction, name, waitStrategy, producerType, bufferSize, throws AssertionError with its own message |
| DisruptorServices.CheckConfigAdmitsIntMin | src/main/java/io/github/ryntric/DisruptorWorkerService.java:62 | the one-bit test admits the positive powers of two and also Integer.MIN_VALUE |
| DisruptorServices.CorrectedCheckAdmitsPowersOfTwo | src/main/java/io/github/ryntric/DisruptorWorkerService.java:55-63 | the corrected check admits exactly the positive powers of two |
| DisruptorServices.StartDisruptors | src/main/java/io/github/ryntric/DisruptorWorkerService.java:46-50 | `workerCount` fresh, started Disruptors with separate empty buffers |
| DisruptorServices.TableOwnedByWorkers | src/main/java/io/github/ryntric/DisruptorWorkerService.java:52 | every node of the table forwards to one of the workers' buffers |
| DisruptorServices.Assemble | src/main/java/io/github/ryntric/DisruptorWorkerService.java:41-53 | `init`: the workers, the factory's workerCount × replicaCount nodes, and the table of their name hashes |
| DisruptorServices.DisruptorWorkerService.constructor | src/main/java/io/github/ryntric/DisruptorWorkerService.java:27-39 | a live service over the built workers and table |
| DisruptorServices.DisruptorWorkerService.NodeTableSize | src/main/java/io/github/ryntric/DisruptorWorkerService.java:46-52 | at most workerCount × replicaCount entries, exactly that many when the name hashes are distinct |
| DisruptorServices.DisruptorWorkerService.GetWorkerNodeId | src/main/java/io/github/ryntric/DisruptorWorkerService.java:95-99 | the successor key of the hash on the table |
| DisruptorServices.DisruptorWorkerService.GetWorkerNode | src/main/java/io/github/ryntric/DisruptorWorkerService.java:101-105 | the node stored under `getWorkerNodeId` |
| DisruptorServices.DisruptorWorkerService.Execute | src/main/java/io/github/ryntric/DisruptorWorkerService.java:71-84 | null task → IllegalArgumentException before liveness; dead → WorkerServiceDeadException; otherwise a fresh pending future, appended with the task to the target buffer only |
| DisruptorServices.DisruptorWorkerService.TryExecute | src/main/java/io/github/ryntric/DisruptorWorkerService.java:86-93 | as `Execute`, and a full target buffer throws InsufficientCapacityException with no buffer changed |
| DisruptorServices.DisruptorWorkerService.PublishOn | src/main/java/io/github/ryntric/DisruptorWorkerService.java:80-83 | the task and a fresh pending future are appended to the buffer of the key's node; every other buffer keeps its contents |
| DisruptorServices.DisruptorWorkerService.TryPublishOn | src/main/java/io/github/ryntric/DisruptorWorkerService.java:89-92 | fails with InsufficientCapacityException exactly when the target buffer is full, changing no buffer; otherwise appends like `PublishOn` |
| DisruptorServices.ShutdownAll | src/main/java/io/github/ryntric/DisruptorWorkerService.java:214 | every Disruptor of the list is shut down exactly once, in order, and its buffer ends empty; across all buffers every future ends settled, one settled before keeps its state, and a pending one held by a single entry takes that entry's `Dispatch` outcome |
| DisruptorServices.DrainOneMore | src/main/java/io/github/ryntric/DisruptorWorkerService.java:214 | draining the next buffer, touching only the futures it holds, extends the drained prefix by one buffer |
| DisruptorServices.DisruptorWorkerService.Halt | src/main/java/io/github/ryntric/DisruptorWorkerService.java:212-214 | the flag goes down, then every Disruptor is shut down once more and drained as `ShutdownAll` says, the service still valid |
| DisruptorServices.DisruptorWorkerService.StopWorkers | src/main/java/io/github/ryntric/DisruptorWorkerService.java:214 | every Disruptor shut down once more, every buffer empty, every queued future settled as `ShutdownAll` says, the service still valid |
| DisruptorServices.DisruptorWorkerService.GetWorkerCount | src/main/java/io/github/ryntric/DisruptorWorkerService.java:201-204 | the number of workers |
| DisruptorServices.DisruptorWorkerService.GetWorkerNodeCount | src/main/java/io/github/ryntric/DisruptorWorkerService.java:206-209 | the replica count, that is, the nodes made per worker |
| DisruptorServices.DisruptorWorkerService.Shutdown | src/main/java/io/github/ryntric/DisruptorWorkerService.java:211-216 | afterwards dead; on the first call each Disruptor is shut down once, every buffer ends empty and every queued future is settled as `ShutdownAll` says; a later call shuts nothing down and changes no buffer and no queued future; no Disruptor's `started` flag changes |
| DisruptorServices.DisruptorWorkerService.Close | src/main/java/io/github/ryntric/DisruptorWorkerService.java:218-221 | the same as `shutdown`: the first call drains and settles as `ShutdownAll` says; a later call changes no buffer, no queued future and no shutdown count |
| DisruptorServices.ShutdownFencesSubmission | src/main/java/io/github/ryntric/DisruptorWorkerService.java:65-69 | after `shutdown`, submitting throws WorkerServiceDeadException |
| DisruptorServices.CapacityOneRejectsSecondTry | src/test/java/io/github/ryntric/DisruptorWorkerServiceTest.java:161-169 | with one-slot buffers the second `tryExecute` on a key is rejected and the first task still completes |
| WorkerTasks.Imported | src/main/java/io/github/viacheslavbondarchuk/AbstractWorkerTask.java:17 | the caller's entries are copied one for one, with no timestamp yet |
| WorkerTasks.AbstractWorkerTask.constructor | src/main/java/io/github/viacheslavbondarchuk/AbstractWorkerTask.java:16-25 | key, future and body are kept; attributes are the caller's copy plus CREATED_AT |
| WorkerTasks.AbstractWorkerTask.Execute | src/main/java/io/github/viacheslavbondarchuk/AbstractWorkerTask.java:35-42 | STARTED_AT then COMPLETED_AT are stamped on both outcomes, and the body's outcome passes through unchanged |
| WorkerTasks.StampsAfterRun | src/main/java/io/github/viacheslavbondarchuk/AbstractWorkerTask.java:16-42 | after construction and a run, all three stamps and every caller entry are present |
| WorkerTasks.CallerChangesDoNotReachTask | src/main/java/io/github/viacheslavbondarchuk/AbstractWorkerTask.java:16-21 | changing the caller's map after construction leaves the task's attributes alone |
| WorkerTasks.OnTaskEvent | src/main/java/io/github/viacheslavbondarchuk/WorkerTaskEventHandler.java:26-47 | the outcome rule; InterruptedException also sets the interrupt flag; a cancelled task is not run |
| ThreadWorkers.Worker.constructor | src/main/java/io/github/viacheslavbondarchuk/Worker.java:21-25 | alive, an empty queue, the given name and listener |
| ThreadWorkers.Worker.Shutdown | src/main/java/io/github/viacheslavbondarchuk/Worker.java:39-43 | dead afterwards; the queue is untouched, and a second call changes nothing |
| ThreadWorkers.Worker.Execute | src/main/java/io/github/viacheslavbondarchuk/Worker.java:45-49 | the task goes at the tail of the queue; AssertionError iff assertions are on and the worker is dead |
| ThreadWorkers.Worker.ExecuteTask | src/main/java/io/github/viacheslavbondarchuk/Worker.java:51-84 | the outcome rule, then exactly the matching listener call (none with a null listener); InterruptedException sets the interrupt flag |
| ThreadWorkers.Worker.Run | src/main/java/io/github/viacheslavbondarchuk/Worker.java:86-96 | a live worker runs its whole queue in FIFO order and empties it; each future takes the outcome its task's body gives from the state it was polled in (a cancelled one stays cancelled), each task not cancelled gets its start and end stamps, and the listener receives exactly the matching notification for each task, in queue order; the interrupt flag is set iff some task run threw InterruptedException; a dead worker leaves queue, futures and listener as they are |
| ThreadWorkers.Worker.RunQueued | src/main/java/io/github/viacheslavbondarchuk/Worker.java:88-93 | the polling loop on a live worker: the whole queue is run, each task from the state and attributes it had when queued, with the listener calls appended in order |
| ThreadWorkers.Worker.RunNext | src/main/java/io/github/viacheslavbondarchuk/Worker.java:89-92 | polling takes the head of the queue and running it extends the record of tasks run, their notifications and the interrupt flag by exactly that task |
| ThreadWorkers.Worker.RunTask | src/main/java/io/github/viacheslavbondarchuk/Worker.java:67-84 | one `_execute`: the future settles to the body's outcome unless cancelled, the stamps and the one matching notification follow, and the queue and liveness are untouched |
| ThreadWorkers.Stamped | src/main/java/io/github/viacheslavbondarchuk/AbstractWorkerTask.java:35-42 | a cancelled task keeps its attributes; any other gains exactly the start and completion stamps and keeps every other attribute |
| ThreadWorkers.Notified | src/main/java/io/github/viacheslavbondarchuk/Worker.java:51-65 | onCancel iff the future was cancelled when polled, onSuccess iff not cancelled and the body returns, onError iff not cancelled and the body throws, carrying its exception; always the task's key, the worker's name and the task's attributes |
| ThreadWorkers.AnyInterruptsSome | src/main/java/io/github/viacheslavbondarchuk/Worker.java:73-74 | the interrupt record of a run is set iff some task among those run threw InterruptedException from a state that was not cancelled |
| ThreadWorkers.WorkerNode.Execute | src/main/java/io/github/viacheslavbondarchuk/WorkerNode.java:12-14 | forwards to the node's worker |
| WorkerServices.CreateWorkers | src/main/java/io/github/viacheslavbondarchuk/WorkerFactory.java:24-34 | a negative count throws IllegalArgumentException ("Illegal Capacity") from the list allocation; otherwise `workerCount` fresh, distinct, live workers named `"<name>-worker-<pool>-<i>"` |
| WorkerServices.PutNodes | src/main/java/io/github/viacheslavbondarchuk/WorkerServiceImpl.java:41-44 | the ring of the nodes' name hashes, put in order |
| WorkerServices.RingOwnedByWorkers | src/main/java/io/github/viacheslavbondarchuk/WorkerServiceImpl.java:41-44 | every ring node forwards to one of the workers |
| WorkerServices.CheckArguments | src/main/java/io/github/viacheslavbondarchuk/WorkerServiceImpl.java:27-30 | accepts iff both counts are positive and name and hasher are non-null; otherwise the first failing check's exception and message |
| WorkerServices.WorkerServiceImpl.constructor | src/main/java/io/github/viacheslavbondarchuk/WorkerServiceImpl.java:26-44 | a live service over fresh workers and the ring of the factory's nodes |
| WorkerServices.NewWorkerService | src/main/java/io/github/viacheslavbondarchuk/WorkerServiceImpl.java:26-39 | fails exactly as the argument checks do; otherwise a live service |
| WorkerServices.NewSingleReplicaService | src/main/java/io/github/viacheslavbondarchuk/WorkerServiceImpl.java:22-24 | one replica per worker and no listener |
| WorkerServices.WorkerServiceImpl.GetWorkerNodeId | src/main/java/io/github/viacheslavbondarchuk/WorkerServiceImpl.java:46-49 | the successor key of the key's hash |
| WorkerServices.WorkerServiceImpl.GetWorkerNode | src/main/java/io/github/viacheslavbondarchuk/WorkerServiceImpl.java:51-54 | the node under that key |
| WorkerServices.WorkerServiceImpl.Execute | src/main/java/io/github/viacheslavbondarchuk/WorkerServiceImpl.java:56-78 | dead → RuntimeException("Worker service is dead") with no queue changed; otherwise a fresh pending future, and one new task (key, future, body, stamped copy of the attributes) at the tail of the target worker's queue only |
| WorkerServices.WorkerServiceImpl.GetWorkerCount | src/main/java/io/github/viacheslavbondarchuk/WorkerServiceImpl.java:80-83 | the number of workers |
| WorkerServices.WorkerServiceImpl.GetWorkerNodeCount | src/main/java/io/github/viacheslavbondarchuk/WorkerServiceImpl.java:85-88 | the number of nodes made, in 32-bit arithmetic |
| WorkerServices.WorkerServiceImpl.Shutdown | src/main/java/io/github/viacheslavbondarchuk/WorkerServiceImpl.java:90-97 | every worker dead, queues kept; a second call changes no worker |
| WorkerServices.WorkerServiceImpl.Close | src/main/java/io/github/viacheslavbondarchuk/WorkerServiceImpl.java:99-102 | the same as `shutdown` |
| WorkerServices.ShutdownFencesExecute | src/main/java/io/github/viacheslavbondarchuk/WorkerServiceImpl.java:56-69 | after `shutdown`, `execute` throws and the target queue stays empty |
| WorkerServices.CheckConfig | src/main/java/io/github/viacheslavbondarchuk/DefaultWorkerService.java:34-39 | with assertions enabled, accepts iff both counts are positive and hash function and name are non-null; otherwise the first failing one, in the order workerCount, replicaCount, hashFunction, name, throws AssertionError with its own message |
| WorkerServices.DefaultWorkerService.constructor | src/main/java/io/github/viacheslavbondarchuk/DefaultWorkerService.java:23-44 | for a non-negative worker count, a live service over fresh workers and the ring of the factory's nodes |
| WorkerServices.NewDefaultWorkerService | src/main/java/io/github/viacheslavbondarchuk/DefaultWorkerService.java:23-44 | `checkConfig` first; a negative worker count that passes it throws IllegalArgumentException from `createWorkers`; a missing hash function then throws NullPointerException once a node is to be put |
| WorkerServices.DefaultWorkerService.GetWorkerNodeId | src/main/java/io/github/viacheslavbondarchuk/DefaultWorkerService.java:46-49 | NullPointerException without a hash function, NoSuchElementException on an empty ring, else the successor key |
| WorkerServices.DefaultWorkerService.GetWorkerNode | src/main/java/io/github/viacheslavbondarchuk/DefaultWorkerService.java:51-54 | the node under that key, or its error |
| WorkerServices.DefaultWorkerService.Execute | src/main/java/io/github/viacheslavbondarchuk/DefaultWorkerService.java:56-81 | dead → RuntimeException before any node is touched; otherwise a fresh pending future wrapped into one task at the tail of the target worker's queue only |
| WorkerServices.ZeroWorkersPassUnchecked | src/main/java/io/github/viacheslavbondarchuk/DefaultWorkerService.java:34-39 | with assertions off a zero worker count passes, and `execute` then throws NoSuchElementException |
| WorkerServices.DefaultWorkerService.GetWorkerCount | src/main/java/io/github/viacheslavbondarchuk/DefaultWorkerService.java:83-86 | the number of workers |
| WorkerServices.DefaultWorkerService.GetWorkerNodeCount | src/main/java/io/github/viacheslavbondarchuk/DefaultWorkerService.java:88-91 | as written, the replica count on every service, zero-worker ones included; with positive counts that is the nodes per worker, the node total divided by the worker count |
| WorkerServices.DefaultWorkerService.GetWorkerNodeCountCorrected | src/main/java/io/github/viacheslavbondarchuk/WorkerService.java:63-68 | the number of nodes of all workers |
| WorkerServices.NodeCountFallsShort | src/main/java/io/github/viacheslavbondarchuk/DefaultWorkerService.java:88-91 | with two or more workers the written count is below the number of nodes, and the corrected count equals it |
| WorkerServices.DefaultWorkerService.Shutdown | src/main/java/io/github/viacheslavbondarchuk/DefaultWorkerService.java:93-98 | every worker dead, queues kept; a second call changes nothing |
| WorkerServices.DefaultWorkerService.Close | src/main/java/io/github/viacheslavbondarchuk/DefaultWorkerService.java:100-103 | the same as `shutdown` |
| MetricFlags.ClearedSpec | src/main/java/io/github/ryntric/MetricConfig.java:26-28 | clearing switches the flag off, keeps every other single-bit flag, and is idempotent |
| MetricFlags.SetSpec | src/main/java/io/github/ryntric/MetricConfig.java:30-32 | setting switches the flag on, keeps every other flag, and is idempotent |
| MetricFlags.ToggledSpec | src/main/java/io/github/viacheslavbondarchuk/MetricConfig.java:25-27 | toggling inverts the flag and keeps the others; twice undoes it, so it is not idempotent |
| MetricTags.MetricTagName.Flag | src/main/java/io/github/ryntric/MetricTagName.java:5-7 | each tag's flag is a single bit |
| MetricTags.TagsDistinct | src/main/java/io/github/ryntric/MetricTagName.java:5-7 | different tags have different single-bit flags and different keys |
| MetricTags.MetricConfig.constructor | src/main/java/io/github/ryntric/MetricConfig.java:11 | every tag starts enabled |
| MetricTags.MetricConfig.DisableTag | src/main/java/io/github/ryntric/MetricConfig.java:26-28 | the tag is disabled and every other tag keeps its state |
| MetricTags.MetricConfig.EnableTag | src/main/java/io/github/ryntric/MetricConfig.java:30-32 | the tag is enabled and every other tag keeps its state |
| MetricTags.MetricTagCompositor.constructor | src/main/java/io/github/ryntric/MetricTagCompositor.java:10-12 | no tags yet |
| MetricTags.MetricTagCompositor.Add | src/main/java/io/github/ryntric/MetricTagCompositor.java:14-19 | a null value or a disabled tag leaves the tags alone; otherwise the key now maps to the value; returns the same compositor |
| MetricTags.MetricTagCompositor.Clear | src/main/java/io/github/ryntric/MetricTagCompositor.java:25-27 | the tags are empty afterwards |
| MetricTags.AddedAllKeys | src/main/java/io/github/ryntric/MetricTagCompositor.java:14-19 | after a chain of `add`s the keys are the old ones plus every enabled tag added with a non-null value |
| MetricTags.EveryTagKeys | src/test/java/io/github/ryntric/MetricTagCompositorTest.java:14-28 | for any flag byte, adding each tag once leaves exactly the keys of the enabled tags |
| MetricTags.AddEveryTag | src/test/java/io/github/ryntric/MetricTagCompositorTest.java:14-28 | adding every tag collects exactly the enabled tags' keys |
| MetricTags.AllEnabled | src/test/java/io/github/ryntric/MetricTagCompositorTest.java:14-28 | all three tags are collected |
| MetricTags.OnlyOneEnabled | src/test/java/io/github/ryntric/MetricTagCompositorTest.java:30-46 | only the enabled tag is collected |
| MetricTags.AllDisabled | src/test/java/io/github/ryntric/MetricTagCompositorTest.java:48-63 | nothing is collected |
| MetricTags.OnlyOneDisabled | src/test/java/io/github/ryntric/MetricTagCompositorTest.java:65-82 | every tag but the disabled one is collected |
| MetricSwitches.MetricTagName.Flag | src/main/java/io/github/viacheslavbondarchuk/MetricTagName.java:4-8 | each of the five flags is a single bit |
| MetricSwitches.TagsDistinct | src/main/java/io/github/viacheslavbondarchuk/MetricTagName.java:4-8 | different tags have different single-bit flags |
| MetricSwitches.MetricConfig.constructor | src/main/java/io/github/viacheslavbondarchuk/MetricConfig.java:10 | name, task name and service name start enabled; task key and completion status start disabled |
| MetricSwitches.MetricConfig.DisableTag | src/main/java/io/github/viacheslavbondarchuk/MetricConfig.java:25-27 | as written, the tag's state is inverted and every other tag keeps its state |
| MetricSwitches.MetricConfig.EnableTag | src/main/java/io/github/viacheslavbondarchuk/MetricConfig.java:29-31 | the tag is enabled, idempotently, and every other tag keeps its state |
| MetricSwitches.DisableOfDisabledEnables | src/main/java/io/github/viacheslavbondarchuk/MetricConfig.java:25-27 | disabling the default-disabled task key enables it |
| MetricSwitches.MetricConfig.DisableTagCorrected | src/main/java/io/github/viacheslavbondarchuk/MetricConfig.java:25-27 | the tag is disabled whatever its state, and every other tag keeps its state |
| MetricSwitches.DisableEveryTagCorrected | src/main/java/io/github/viacheslavbondarchuk/MetricConfig.java:25-27 | disabling every tag leaves no flag set |

## Left out

- Threads, `LockSupport.park`/`unpark` and the `parked` flag, `Thread.start`, thread groups, and the Disruptor's consumer thread and wait strategies. Compare-and-set and atomics are modelled sequentially, as check-then-set on a plain field. The worker run loop returns where the thread would park.
- Metric emission (Micrometer timers and counters, `MetricService`) is a no-op in both handlers. Micrometer `Tags` is modelled as a map from key to value. The `meterRegistry` getter and setter of both `MetricConfig`s hold no logic.
- Wall-clock time, latency, `UUID` generation and `Runtime.availableProcessors()` are parameters.
- Guava hash functions are uninterpreted: the model has no real key distribution, so statistical claims (even spread, the share of keys remapped when the ring grows) are not stated. `String.hashCode` counts UTF-16 code units, and a Dafny `char` stands for one.
- DisruptorServices.DisruptorWorkerService.Execute: a full ring buffer blocks `publishEvent` until the consumer frees a slot. Blocking is modelled as the precondition that the target buffer has room.
- RingBuffers.WorkerNode.Execute: the same blocking `publishEvent`, with the same precondition.
- DisruptorServices.DisruptorWorkerService.PublishOn: requires room in the target buffer for the same reason; the wait for the consumer is not modelled.
- DisruptorServices.DisruptorWorkerService.constructor: it requires the corrected configuration check (positive power-of-two buffer size, positive counts, non-null fields). Construction after a failed `checkConfig`, or with assertions disabled, is not modelled for the ryntric service. `DisruptorServices.CheckConfig` models the check itself.
- `WorkerTaskEventTranslator.getInstance` and other static singletons are not modelled, nor is the static counters' shared state; `WorkerServices.CreateWorkers` takes the pool id as a parameter.
- Null keys are not modelled in any service. In the ryntric `DisruptorWorkerService` the key hash is computed before `checkTask`, so a null `Integer` or `Long` key throws NullPointerException on unboxing and a null `String` or `byte[]` key throws inside the hash function, even when the task is null too; the model's keys are never null, so `execute(null, null)` there is not modelled. The hash-code provider's null arguments are modelled by `HashCodeProvider.ProvideNullableString` and `HashCodeProvider.ProvideNullableBytes`.
- WorkerUtil.GetHashCode: a `HashCode` is modelled at the widths Guava's own hash functions yield, positive multiples of 32 bits. A user-supplied `HashFunction` whose codes are narrower than 32 bits (then `asInt()` throws IllegalStateException) or between 33 and 63 bits (then `asLong()` throws) is not modelled.
- Null `Runnable`/`Callable` bodies and null attribute maps in the viacheslavbondarchuk services are not modelled, and neither are null tag names.
- The running node index `idx` of both factories is an `int` that could overflow past 2^31 nodes. Indices are unbounded here.
- The viacheslavbondarchuk services call `WorkerFactory.getNewWorkerFactory().create`, `WorkerNodeFactory.getNewWorkerNodeFactory().create`, `WorkerNodeFactory.createWorkerNodes` (`DefaultWorkerService.java:43`) and a three-argument `VoidTask` constructor, which this revision's text does not define. The factory loops it does define stand in for them, and `DefaultWorkerService` tasks start with no caller attributes.
- The viacheslavbondarchuk `WorkerNodeFactory` text takes `Disruptor`s although its `WorkerNode` wraps a `Worker`. It is modelled over `Worker`s.
- The ryntric `MetricTagCompositorTest` adds a `WORKER_TASK_COMPLETION_STATUS` tag that the ryntric `MetricTagName` does not declare. The scenarios are modelled with the three declared tags, so "all enabled" collects three keys rather than four, and "one disabled" two rather than three.
- `src/test/java/io/github/ryntric/WorkerServiceTest.java` uses a `publishEvent`/`EventTranslator` service API that no source file of this revision defines. WorkerServiceTest is not part of this model.
- A JVM `NullPointerException` with no message is written `NullPointerException("")`. `WorkerServiceDeadException` carries no message.
- ThreadWorkers.Worker.ExecuteTask: listener callbacks are assumed not to throw. In the source an `onSuccess` that throws is caught by the task's own `catch (Exception)`, which then fails the (already completed) future to no effect and calls `onError` as well, so that task gets two notifications; this path is not modelled.
- ThreadWorkers.Worker.Run: requires the queued tasks, and their futures, to be pairwise distinct, as every `execute` call creates a fresh task and future. A task queued twice, or two tasks sharing a future, are not modelled.
- `java.lang.Error` thrown by a task body (not an `Exception`) escapes the handlers. Task bodies here only return or throw an `Exception`.
- `DisruptorFactory`, `WorkerThreadFactory`, `Workers` (including its clock `getCurrentTimeInMillis`, which is a parameter here), `Main` and `WorkerTaskEventFactory` are wiring with no logic of their own. They are not part of this model.
- The viacheslavbondarchuk `WorkerUtil` holds `getKeyHash`, which `DefaultWorkerService` uses to hash node names and keys; `WorkerUtil.StringKeyHash` stands in for it. Its interrupt helper is not modelled.
- WorkerServices.DefaultWorkerService.constructor: its workers are built with no listener. The source's `WorkerFactory.createWorkers` (viacheslavbondarchuk `WorkerFactory.java:31`) passes the `MetricService` where the worker expects its listener; metric emission is not modelled, so the listener calls it would receive are left out.
- The viacheslavbondarchuk `WorkerTaskEventHandler` calls `isCancelled`, `complete`, `getName` and `getCreatedAtNs` on a `WorkerTask`, which this revision's `WorkerTask` does not declare. The model reads the cancellation state and settles the result through the task's future instead.
- DisruptorServices.DisruptorWorkerService.Shutdown: the outcome of a pending future is stated only when a single queued entry holds it (and, inside one buffer, for the first entry that holds it). Every `execute` creates a fresh future, so no two entries share one.

## Findings

| source | as written | input that shows it | evidently intended | confidence | as-written member | corrected member |
|---|---|---|---|---|---|---|
| src/main/java/io/github/ryntric/util/WorkerUtil.java:19 | `ceilPowerOfTwo(1)` is `highestOneBit(0) << 1` = 0 | n = 1 | 1, the least power of two not below 1 | high; not executed | SizingUtil.CeilPowerOfTwoOfOne | SizingUtil.CeilPowerOfTwoCorrectedInRange |
| src/main/java/io/github/ryntric/ModuloNodeSelector.java:23 | `Math.abs(-h) % length` stays negative for h = Long.MIN_VALUE, since both the negation and `abs` overflow | h = Long.MIN_VALUE over 3 nodes gives index -2 (ArrayIndexOutOfBoundsException) | an index in [0, length) for every hash | high; not executed | NodeSelectors.ModuloMinValueOutOfBounds | NodeSelectors.ModuloNodeSelector.GetNodeCorrected |
| src/main/java/io/github/ryntric/DisruptorWorkerService.java:62 | `Integer.bitCount(bufferSize) == 1` also accepts Integer.MIN_VALUE | bufferSize = -2147483648 passes the check | only positive powers of two | medium; not executed | DisruptorServices.CheckConfigAdmitsIntMin | DisruptorServices.CorrectedCheckAdmitsPowersOfTwo |
| src/main/java/io/github/viacheslavbondarchuk/MetricConfig.java:26 | `disableTag` toggles with `^=` | `disableTag(WORKER_TASK_KEY)` on a fresh config enables that tag | clearing the bit, as the ryntric version does with `&= ~` | high; not executed | MetricSwitches.DisableOfDisabledEnables | MetricSwitches.MetricConfig.DisableTagCorrected |
| src/main/java/io/github/viacheslavbondarchuk/DefaultWorkerService.java:90 | `getWorkerNodeCount` returns `replicaCount` | workerCount = 2, replicaCount = 3 gives 3 for 6 nodes | the number of nodes of all workers, as the interface documents and `WorkerServiceImpl` returns | medium; not executed | WorkerServices.NodeCountFallsShort | WorkerServices.DefaultWorkerService.GetWorkerNodeCountCorrected |
