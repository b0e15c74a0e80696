# Portask, modelled and verified in Dafny

Portask is a message broker written in Go. This project models its stateful core and proves what that core keeps over
every run: the lock-free ring queues, the consumer-group coordinator with its partition assignors, the two batch
writers, AMQP from the bytes of a connection to queues and delivery, the two rate limiters, the transactional producer,
and the checksum and the three wire formats. `dafny verify dfyconfig.toml` checks everything; it turns Dafny's automatic
induction off, and no proof needs it.

How the parts are modelled:

- Code that updates fields or slices in place is a class, or a method with loops, proved against functions on values;
  the theorems are about those functions.
- Concurrency is a machine of atomic steps: `Apply` gives the state after one action and is total, and a run is any list
  of actions, so a theorem about `Run` covers every interleaving. A step is one atomic load, store or compare-and-swap
  (ring queues), or one stretch under a mutex (coordinator, broker, producer, rate limiters).
- State fields called history in the comments (tickets won, bodies published, tags handed out and the like) are never
  read by a step. They only give the theorems something to speak about.
- Clock readings, generated names, and success or failure of a store are parameters. Iteration over a Go map is any
  order: a parameter for the assignors, a choice for the group coordinator.
- References to messages are numbers with 0 for nil. 32-bit wrap-around is modelled where the source counts in int32
  (generations, sequence numbers) or truncates (lengths, channels, frame types, hashes).

Where the code does not do what its documentation or its name promises, the model follows the code, a lemma exhibits
the failing run, and another says exactly when the promise holds:

| promise | fails | holds exactly |
|---|---|---|
| a full `DropOldest` queue makes room | from two slots on it refuses every later message (`LockFreeQueue.JamIsForever`); with one slot it stores the new message over the old one and never returns a message again (`LockFreeQueue.OverrunIsForever`) | from two slots on, on runs that never meet a full queue (`LockFreeQueue.DropOldestExactly`); with one slot, on runs in which no Dequeue comes after an Enqueue on the full slot (`LockFreeQueue.OneSlotExactly`) |
| a queue never holds more than its capacity, and never overwrites a message it accepted | with one slot (`LockFreeLimits.OneSlotLosesMessages`), and under `DropOldest` with any number of slots, since its branch for a full ring sets dequeuePos from a position read earlier (`LockFreeLimits.MoreThanCapacity`, `LockFreeLimits.DropOldestDoublesAndLoses`) | from two slots on, without `DropOldest` (`LockFreeLimits.CapacityExactly`, `LockFreeLimits.KeptExactly`) |
| no message is returned twice, or in place of another | with one slot, under any policy (`LockFreeLimits.OneSlotReturnsTwice`), and under `DropOldest` with any number of slots (`LockFreeLimits.DropOldestDoublesAndLoses`) | from two slots on, without `DropOldest` (`LockFreeLimits.DeliveredOnceExactly`) |
| the batch queue never leaves its fast paths | with one slot the consumer enters its slow loop (`UltraQueue.OneSlotIsNotEnough`) and goes round it for ever, whatever the producer does (`UltraQueue.StuckForever`) | from two slots on (`UltraQueue.FastExactly`) |
| a stale generation is refused | after the group has been empty (`GroupCoordinator.EmptyingReopensGenerations`) | while the group lives, unless the counter has wrapped (`GroupCoordinator.Fencing`) |
| stopping flushes what was accepted | what is still in the channel stays (`ParallelWriter.StopCanLose`) | if each worker finds its channel empty when it sees the stop, nothing is sent into it later, and its buffer is empty or a storage call still succeeds (`ParallelWriter.StopStoresAllExactly`) |
| a batch is stored once, whatever fails before | an attempt that failed midway leaves its part behind (`BatchWriter.RetryDoubles`), and so does a flush that failed and is made again (`BatchWriter.KeptBatchDoubles`) | over whole histories, with an all-or-nothing store and a retry bound that is not negative (`BatchWriter.ExactlyOnceExactly`); of one flush that succeeds, also without retries or for a single message (`BatchWriter.StoredOnceExactly`) |
| no accepted message is lost | with a negative retry bound the next flush throws it away (`ParallelWriter.NegativeRetriesLose`) | with a bound that is not negative (`ParallelWriter.ConservedExactly`) |
| a negative acknowledgement requeues | it requeues and redelivers, one copy more (`AmqpBroker.NackDoublesExactly`) | as "no copy more" only for an unknown tag (the same lemma) |
| every published AMQP message is put together as it was sent and joins its queue | one without body frames never is put together; two connections that use one channel number mix their messages (`AmqpContent.SharedChannelMixes`), and a queue misses one (`AmqpTraffic.SharedChannelLoses`) | with at least one body frame (`AmqpContent.OneContent`), and in every interleaving if no two connections use the same channel number: put together (`AmqpContent.ArriveExactly`), and in every queue there is (`AmqpTraffic.QueuesExactly`) |
| a message goes where its routing key says, for any AMQP 0-9-1 client | the reserved field of the standard layout is read as two empty strings, exchange and key, so the message joins the queue its channel is bound to (`AmqpRouting.Misrouted`, `AmqpRouting.WrongQueue`) | it has the same target if it has no key or its key is the bound queue (`AmqpRouting.SameTargetExactly`), and leaves the queues as meant also if neither of the two queues is there (`AmqpRouting.RoutedExactly`) |
| the network handler returns when the client disconnects | never, since the end of the stream reaches it wrapped in another error and counts as recoverable (`Framing.NeverReturns`) | on no input (the same lemma) |
| at most R requests a second | 2R within a nanosecond (`RateLimiter.BoundReached`) | only if R admits nothing (`RateLimiter.RatePerSecondExactly`); R(2 + whole seconds) is reached, and holds on every run in which no cleanup removes a bucket between a call's lookup and its use (`RateLimiter.UndisturbedBound`), on all runs only if R admits nothing (`RateLimiter.OvertakenExactly`) |
| at most burst and what the rate adds | twice burst across a cleanup (`AdvancedLimiter.CleanupBreaksBound`); more than burst at once when cleanups overtake calls (`AdvancedLimiter.OvertakenBreak`) | if a bucket fills up before it is removed and no cleanup overtakes a call (`AdvancedLimiter.BoundExactly`, `AdvancedLimiter.UndisturbedExactly`); with overtaking, only if burst admits nothing (`AdvancedLimiter.OvertakenExactly`) |
| tokens come back at the rate | every call throws away the fraction of a token that its gap leaves; a caller that hurries never gets one (`AdvancedLimiter.HastyStarves`) | over a run of calls, exactly if the fractions thrown away add up to less than a token (`AdvancedLimiter.BackAtRateExactly`); nothing comes back exactly if every gap is worth less than a token (`AdvancedLimiter.StarvesExactly`) |
| removing stale buckets is invisible | if a bucket has not refilled by then, or the clock moves on within a call | `AdvancedLimiter.CleanupExactly`, `RateLimiter.LagExactly` |
| batch decoding inverts encoding | for an empty last chunk, and for a lone chunk uncompressed | `BatchCodec.PlainExactly`, `BatchCodec.CompressedExactly` |
| an aborted transaction's messages stay unsent | a flush before the abort or after it sends them (`Transactions.AbortedStillSent`) | if nothing was sent to the partition in the transaction, or no flush came after (`Transactions.AbortKeepsBackExactly`) |

## Model

| member | source | states |
|---|---|---|
| LockFreeProtocol.RunInv | pkg/queue/lockfree.go:75-180 | in every interleaving of any number of threads' atomic steps (two or more slots, not DropOldest) the ring's invariant holds: tickets, slot sequences, slot contents and the threads inside slots fit together |
| LockFreeProtocol.StepInv | pkg/queue/lockfree.go:75-180 | every atomic step of a call keeps that invariant |
| LockFreeProtocol.ExclusiveSlots | pkg/queue/lockfree.go:75-180 | two threads that have won tickets and not yet released them are never in the same slot |
| LockFreeProtocol.RoomToClaim | pkg/queue/lockfree.go:82-91 | a winning compare-and-swap of an Enqueue finds fewer than capacity messages and its slot still free, although it was read earlier |
| LockFreeProtocol.PublishedToTake | pkg/queue/lockfree.go:145-154 | a winning compare-and-swap of a Dequeue finds its slot published with the message claimed under that ticket |
| LockFreeSafety.Safety | pkg/queue/lockfree.go:75-180 | over every run: at most capacity messages, the message under a ticket is returned only by the Dequeue that won it, none is returned twice or invented, refused messages are not stored, and the three counters count what they say |
| LockFreeSafety.Conservation | pkg/queue/lockfree.go:75-135 | over every run and policy: each message offered is claimed once, refused once or still undecided in its call |
| LockFreeSafety.FifoRefinement | pkg/queue/lockfree.go:75-180 | each atomic step is a step of a bounded first-in first-out queue: a won claim appends, a won take removes the head, everything else changes nothing |
| LockFreeSafety.Quiescence | pkg/queue/lockfree.go:75-192 | with no call in flight, every message offered was returned, is in the queue or was refused, and the count difference is the queue's length |
| LockFreeLimits.OneSlotLosesMessages | pkg/queue/lockfree.go:51-135 | with a single slot, and any policy, two messages are accepted and the second overwrites the first |
| LockFreeLimits.MoreThanCapacity | pkg/queue/lockfree.go:75-180 | under DropOldest, with any number of slots, a run in which more tickets are out than there are slots |
| LockFreeLimits.DropOldestDoublesAndLoses | pkg/queue/lockfree.go:75-180 | under DropOldest, with any number of slots, a run in which two Dequeue calls return the same message and the slot of an accepted one that is still to be taken is wiped out |
| LockFreeLimits.OneSlotReturnsTwice | pkg/queue/lockfree.go:82-176 | with a single slot, and any policy, a run in which two Dequeue calls with different tickets both return the second message, and the first is never returned |
| LockFreeLimits.CapacityExactly | pkg/queue/lockfree.go:51-180 | no run has more tickets out than there are slots if and only if there are at least two slots and the policy is not DropOldest |
| LockFreeLimits.TicketsDistinctExactly | pkg/queue/lockfree.go:75-180 | with any number of slots, no two Dequeue calls of any run return under the same ticket if and only if the policy is not DropOldest |
| LockFreeLimits.DeliveredOnceExactly | pkg/queue/lockfree.go:51-180 | in every run each Dequeue that returned a message returned the one stored under its ticket, and no two had the same ticket, if and only if there are at least two slots and the policy is not DropOldest |
| LockFreeLimits.KeptExactly | pkg/queue/lockfree.go:51-180 | in every run every accepted message that is still to be taken is in its slot, published, if and only if there are at least two slots and the policy is not DropOldest |
| LockFreeQueue.Queue.constructor | pkg/queue/lockfree.go:51-72 | the queue starts empty, with the requested capacity rounded up to a power of two; 0 and negative requests give no slot at all |
| LockFreeQueue.Queue.Enqueue | pkg/queue/lockfree.go:75-135 | the retry loop, run alone, has the effect and answer of the specification on the whole ring, for all three policies |
| LockFreeQueue.Queue.Dequeue | pkg/queue/lockfree.go:138-180 | the same for Dequeue |
| LockFreeQueue.Queue.TryForceEnqueueDropOldest | pkg/queue/lockfree.go:218-225 | a Dequeue followed by an Enqueue under DropOldest, nothing otherwise |
| LockFreeQueue.EmptyHolds | pkg/queue/lockfree.go:51-72 | the ring the constructor sets up holds the empty queue |
| LockFreeQueue.EnqueueRefines | pkg/queue/lockfree.go:75-135 | accepted if and only if not full, and then appended at the tail; otherwise only the drop counter moves (not DropOldest) |
| LockFreeQueue.DequeueRefines | pkg/queue/lockfree.go:138-180 | finds something if and only if not empty, and then it is the head |
| LockFreeQueue.FifoRefinement | pkg/queue/lockfree.go:75-225 | any list of calls gets the answers of a bounded first-in first-out queue and leaves its contents |
| LockFreeQueue.CountsGiveSize | pkg/queue/lockfree.go:188-214 | after any calls the size is the enqueue count less the dequeue count |
| LockFreeQueue.FullPutJams | pkg/queue/lockfree.go:92-127 | under DropOldest an Enqueue on a full queue ends refused, with one drop counted and the head moved past an unread message |
| LockFreeQueue.JamIsForever | pkg/queue/lockfree.go:92-127 | from then on every Enqueue of every run is refused |
| LockFreeQueue.FullGetPutKills | pkg/queue/lockfree.go:92-180 | after one more Dequeue and Enqueue the queue is dead |
| LockFreeQueue.DeadIsForever | pkg/queue/lockfree.go:92-180 | a dead queue never accepts or returns a message again |
| LockFreeQueue.DropOldestExactly | pkg/queue/lockfree.go:92-103 | with two slots or more, DropOldest answers as promised on a run if and only if no Enqueue of the run meets a full queue |
| LockFreeQueue.EmptyHoldsInOne | pkg/queue/lockfree.go:51-72 | a ring of one slot, as the constructor sets it up, holds the empty queue |
| LockFreeQueue.OverrunIsForever | pkg/queue/lockfree.go:82-180 | with one slot, once a message was stored over another, every Enqueue is accepted and every Dequeue finds nothing, for ever |
| LockFreeQueue.OneSlotExactly | pkg/queue/lockfree.go:75-225 | with one slot, DropNewest and Block answer as promised on a run if and only if no Enqueue meets the full slot, DropOldest if and only if no Dequeue comes after such an Enqueue |
| Bits.NextPowerOf2 | pkg/queue/lockfree.go:831-844 | bit smearing gives the least power of two not below n, 1 for 0, and 0 above 2^63 |
| Bits.NextPowerOf2Loop | pkg/memory/pool.go:497-513 | the doubling loop gives the same least power of two |
| Bits.LoopEndsExactly | pkg/memory/pool.go:507-512 | on 64-bit signed integers some number of doublings reaches n if and only if n is at most 2^62; above, the loop never ends |
| Bits.PowerTest | pkg/memory/pool.go:497-513 | n & (n-1) is 0 if and only if n is a power of two |
| Bits.MaskIsModulo | pkg/queue/lockfree.go:82-84 | masking with a power of two less one is the remainder |
| UltraQueue.RunInv | pkg/queue/ultra_performance.go:104-223 | one producer and one consumer, any interleaving of their steps without compare-and-swap: the ring's invariant holds, also while the dequeue position is ahead |
| UltraQueue.ProducerSees | pkg/queue/ultra_performance.go:132-167 | what the producer reads in its slot tells exactly whether the ring is full |
| UltraQueue.ConsumerSees | pkg/queue/ultra_performance.go:189-223 | what the consumer reads in its slot tells exactly whether the ring is empty |
| UltraQueue.PrefixDelivery | pkg/queue/ultra_performance.go:104-223 | at every moment the batches handed out are a prefix of the messages accepted (without the nil ones), and the slow paths are never entered |
| UltraQueue.Drained | pkg/queue/ultra_performance.go:104-186 | between calls nothing is lost: accepted messages are those handed out and those in the ring, in order |
| UltraQueue.OneSlotIsNotEnough | pkg/queue/ultra_performance.go:104-223 | with one slot a batch of two is accepted, the second message over the first, and the next dequeue enters its slow loop with the slot's sequence above the one it waits for |
| UltraQueue.StuckForever | pkg/queue/ultra_performance.go:204-223 | from there, whatever either side does next, the consumer goes round its slow loop and its call never returns |
| UltraQueue.FastExactly | pkg/queue/ultra_performance.go:104-223 | no run enters a slow path if and only if there are at least two slots |
| GroupCoordinator.Coordinator.JoinGroup | pkg/kafka/group_coordinator.go:60-134 | the group takes the join step, other groups are untouched, and only the leader is told the members |
| GroupCoordinator.Coordinator.SyncGroup | pkg/kafka/group_coordinator.go:137-180 | refused for an unknown group, a wrong generation or an unknown member; a leader's assignments reach the members and make the group Stable |
| GroupCoordinator.Coordinator.HeartbeatGroup | pkg/kafka/group_coordinator.go:183-209 | refused like a sync, otherwise only the member's time changes |
| GroupCoordinator.Coordinator.LeaveGroup | pkg/kafka/group_coordinator.go:212-248 | the member is gone; an empty group is reset, otherwise a new generation begins, under some remaining member if the leader left |
| GroupCoordinator.Coordinator.CheckHeartbeats | pkg/kafka/group_coordinator.go:309-364 | every group takes the expiry step |
| GroupCoordinator.ExpireMembers | pkg/kafka/group_coordinator.go:320-359 | the loop over a group's members removes exactly the expired ones and then acts as a leave does |
| GroupCoordinator.EveryStateInv | pkg/kafka/group_coordinator.go:60-364 | in every state of every run: no members if and only if Empty, and then no leader and generation 0; otherwise the leader is a member |
| GroupCoordinator.StepEpoch | pkg/kafka/group_coordinator.go:105-110 | a step that does not empty the group never lowers the generation count, raises it by one when it leaves Stable or loses a member, and keeps members and leader while Stable |
| GroupCoordinator.EpochMonotone | pkg/kafka/group_coordinator.go:212-248 | until the group empties the count of generations never falls |
| GroupCoordinator.OneStablePeriod | pkg/kafka/group_coordinator.go:153-173 | between two Stable states of one generation the group was Stable throughout, with the same members and leader |
| GroupCoordinator.OneStablePeriodPerGeneration | pkg/kafka/group_coordinator.go:153-173 | the same for equal 32-bit generation numbers, in stretches shorter than 2^32 steps |
| GroupCoordinator.Fencing | pkg/kafka/group_coordinator.go:137-209 | after a leave or an expiry, a generation from before is refused by sync and heartbeat, if and only if the counts differ modulo 2^32 |
| GroupCoordinator.EmptyingReopensGenerations | pkg/kafka/group_coordinator.go:212-248 | after the group has emptied, a generation from before is valid again |
| GroupCoordinator.AssignmentDelivered | pkg/kafka/group_coordinator.go:153-180 | what the leader assigns to a member is what that member's sync returns, as long as nobody joins, leaves or expires |
| Crc32.StandardCRC32 | pkg/processor/processor.go:812-825 | the two nested loops compute the checksum of section 8 of RFC 1952, as a fold over bytes of eight bit steps |
| Crc32.TableStep | pkg/processor/processor.go:812-825 | eight bit steps are one step of the table-driven form |
| Crc32.RegisterLinear | pkg/processor/processor.go:812-825 | the register is linear over exclusive or, for inputs of equal length |
| Crc32.CollisionExactly | pkg/processor/processor.go:812-825 | two inputs of equal length collide if and only if their difference takes the zero register to zero |
| Crc32.RegisterFeeds | pkg/processor/processor.go:812-825 | reading bytes, eight bit steps each, is feeding the payload's bits one by one, the lowest of each byte first |
| Crc32.DetectsBitBursts | pkg/processor/processor.go:812-825 | different inputs whose bits agree outside 32 consecutive ones, aligned or not, never have the same checksum |
| Crc32.LongerBurstEscapes | pkg/processor/processor.go:812-825 | two inputs that differ within 33 consecutive bits and have the same checksum |
| Crc32.DetectsExactly | pkg/processor/processor.go:812-825 | every change within n consecutive bits changes the checksum if and only if n is at most 32 |
| Crc32.DetectsBursts | pkg/processor/processor.go:812-825 | in particular inputs that agree outside four consecutive bytes never have the same checksum |
| ParallelWriter.GetShardID | pkg/processor/parallel_batch_writer.go:162-169 | the hash loop gives the topic's shard |
| ParallelWriter.RunInv | pkg/processor/parallel_batch_writer.go:115-245 | in every interleaving of writers, workers, flush outcomes and stop, every shard's invariant holds |
| ParallelWriter.Conservation | pkg/processor/parallel_batch_writer.go:132-245 | accepted messages are exactly those in channels, buffers and stored batches, each in its hash shard or, once a write has spilled, the next, and each shard holds what it received in order |
| ParallelWriter.StoredInWriteOrder | pkg/processor/parallel_batch_writer.go:132-245 | if no write spilled into the next shard, each topic's stored messages in its hash shard are a prefix of its accepted ones, and no other shard stores, buffers or queues a message of the topic |
| ParallelWriter.StoredExactlyIfEmpty | pkg/processor/parallel_batch_writer.go:132-245 | over every run, every accepted message is stored if and only if all channels and buffers are empty |
| ParallelWriter.LeftExactly | pkg/processor/parallel_batch_writer.go:172-245 | from the moment a worker sees the stop or the cancellation: its channel is empty if and only if it was then and no send went into it since; its buffer if and only if it was then or a storage call succeeded since |
| ParallelWriter.StopStoresAllExactly | pkg/processor/parallel_batch_writer.go:115-245 | once all workers have exited, every accepted message is stored if and only if each worker left its shard clean in that sense |
| ParallelWriter.StopCanLose | pkg/processor/parallel_batch_writer.go:115-129 | a message accepted before the stop can stay in the channel for ever |
| ParallelWriter.NegativeRetriesLose | pkg/processor/parallel_batch_writer.go:218-242 | with a negative retry bound, whatever the other settings, a run in which an accepted message ends in no channel, buffer or store |
| ParallelWriter.ConservedExactly | pkg/processor/parallel_batch_writer.go:132-245 | every run keeps every accepted message if and only if the retry bound is not negative |
| BatchWriter.Store.ProduceMessage | pkg/kafka/processor_bridge.go:92-97 | one message is appended to the log, or nothing |
| BatchWriter.Store.StoreBatch | pkg/kafka/processor_bridge.go:89-103 | a prefix of the batch is stored, all of it if and only if it succeeds; an all-or-nothing store stores nothing on failure |
| BatchWriter.Writer.Start | pkg/processor/batch_writer.go:64-77 | starts once, and is refused while running |
| BatchWriter.Writer.Write | pkg/processor/batch_writer.go:97-110 | the message is buffered; when the batch size is reached the whole buffer is flushed once, and kept if that fails |
| BatchWriter.Writer.Tick | pkg/processor/batch_writer.go:113-139 | the periodic flush is one flush of what is buffered, whose failure is ignored and loses nothing |
| BatchWriter.Writer.Stop | pkg/processor/batch_writer.go:80-94 | with nothing between its two halves: refused quietly if not running, otherwise one flush of what is buffered, after which, if it succeeds, every written message is delivered |
| BatchWriter.Writer.BeginStop | pkg/processor/batch_writer.go:80-87 | the first half, under the mutex: the running flag is cleared; any other calls may follow before the second half |
| BatchWriter.Writer.FinalFlush | pkg/processor/batch_writer.go:92-94 | the second half: one flush of what is buffered by then, after which, if it succeeds, every message written so far is delivered |
| BatchWriter.Writer.FlushLocked | pkg/processor/batch_writer.go:142-180 | one flush of the whole buffer, which is cleared if and only if it succeeds |
| BatchWriter.Writer.StoreWithRetries | pkg/processor/batch_writer.go:154-170 | the retry loop stores until the first success or the bound, and the log grows by exactly what the attempts stored |
| BatchWriter.AtomicExactlyOnce | pkg/processor/batch_writer.go:97-180 | with an all-or-nothing store the log is exactly what was delivered, each message once and in order (nothing at all if the bound is negative) |
| BatchWriter.StoredAndBuffered | pkg/processor/batch_writer.go:97-180 | with an all-or-nothing store, stored messages followed by buffered ones are exactly those written, between any two calls |
| BatchWriter.FlushStoresAll | pkg/processor/batch_writer.go:142-180 | with the per-message store a successful flush leaves the log ending with the whole batch, each message between once and MaxRetries+1 times |
| BatchWriter.RetryDoubles | pkg/kafka/processor_bridge.go:89-103 | a batch of two or more, one failed attempt that got one message through, then success: that message is stored twice |
| BatchWriter.StoredOnceExactly | pkg/processor/batch_writer.go:142-180 | every successful flush of a batch stores it exactly once if and only if the retry bound is not negative and the store is all-or-nothing, or there are no retries, or the batch is one message |
| BatchWriter.KeptBatchDoubles | pkg/processor/batch_writer.go:142-180 | with the per-message store and any number of retries, also none: a flush whose attempts all fail after one message, then one that succeeds; the first message is stored once for every attempt and once more |
| BatchWriter.ExactlyOnceExactly | pkg/processor/batch_writer.go:97-180 | over every history whose last flush succeeded, a failed flush's batch beginning the next one, the log is exactly what was delivered if and only if the retry bound is not negative and the store is all-or-nothing |
| BatchWriter.DeliveredInOrder | pkg/processor/batch_writer.go:97-180 | the delivered messages are in the log in write order, whatever the retries left between them |
| AmqpBroker.Server.HandleQueueDeclare | pkg/amqp/server.go:623-663 | a missing queue is made, an existing one kept, and the channel is bound to it |
| AmqpBroker.Server.HandleBasicPublish | pkg/amqp/server.go:691-717 | the body joins the queue of its routing key or of the channel, or one of two errors |
| AmqpBroker.Server.HandleBasicConsume | pkg/amqp/server.go:719-797 | undisturbed, the consumer takes the whole queue, each message under a tag of its own |
| AmqpBroker.Server.HandleBasicAck | pkg/amqp/server.go:860-878 | a known tag is dropped, an unknown one ignored, a missing channel refused |
| AmqpBroker.Server.HandleBasicNack | pkg/amqp/server.go:880-938 | a known tag's message goes back to its queue and out again under a new tag |
| AmqpBroker.DeliveredInOrder | pkg/amqp/server.go:774-794 | a consumer gets a queue's backlog in order under consecutive tags, and keeps what it held |
| AmqpBroker.RunInv | pkg/amqp/server.go:623-938 | in every interleaving of handlers, consume handlers broken up where they release the mutex, tags, counters and queues fit together |
| AmqpBroker.Accounting | pkg/amqp/server.go:691-938 | over every run and for every body: copies in queues, on their way, unacknowledged and acknowledged equal those published plus those negatively acknowledged; CurrentlyUnacked is the number unacknowledged; tags rise strictly; no negative acknowledgement misses its queue |
| AmqpBroker.TagsNeverReused | pkg/amqp/server.go:774-779 | whatever happens next, a channel's tags handed out so far stay the first ones handed out |
| AmqpBroker.NackDoublesExactly | pkg/amqp/server.go:880-938 | in every run a negative acknowledgement leaves the number of copies of every body alone if and only if its tag is unknown; otherwise the message is in its queue and also unacknowledged under a fresh tag, one copy more |
| AmqpContent.Assembler.HandleFrame | pkg/amqp/server.go:374-430 | a frame changes only its own channel's pending message, and completes it when the body is full; a short header is refused |
| AmqpContent.Assembler.HandleFrames | pkg/amqp/server.go:374-430 | any frames of any channels and connections, one after another: the messages completed, in order, and what is pending on each channel number |
| AmqpContent.PerChannel | pkg/amqp/server.go:374-430 | whatever frames come from whatever channels, each channel number's messages are those its own frames alone would give |
| AmqpContent.PublishedWith | pkg/amqp/server.go:384-419 | a message is published, whole, with the first body frame after which nothing is missing, and with no frame before |
| AmqpContent.OneContent | pkg/amqp/server.go:384-419 | the frames of one message, cut in any way, publish it once with the exact body, whatever was pending; without a body frame they publish nothing |
| AmqpContent.ManyContents | pkg/amqp/server.go:384-419 | messages sent one after another on a channel come out in order, each whole, whatever was pending before, except those without a body frame |
| AmqpContent.OwnChannel | pkg/amqp/server.go:374-430 | in every interleaving with other senders' frames, a channel number that one connection has to itself gives that sender's messages in order, each whole |
| AmqpContent.SharedChannelMixes | pkg/amqp/server.go:402-523 | two connections on one channel number: an interleaving of two messages of one byte in which one body goes out under the other's key and the other is dropped |
| AmqpContent.ArriveExactly | pkg/amqp/server.go:374-430 | for any channels of any connections: in every interleaving of any messages' frames, every message with a body frame comes out as often as it was sent, and nothing else, if and only if no two connections use the same channel number |
| AmqpServer.PublishParsed | pkg/amqp/server.go:489-512 | exchange and routing key are read back from a Basic.Publish of the layout this server expects |
| AmqpServer.StandardReadExactly | pkg/amqp/server.go:489-512 | of a Basic.Publish in the layout of the AMQP 0-9-1 reference, section 1.8.3.7, the server always reads an empty exchange and an empty routing key, so what was sent if and only if both are empty |
| AmqpServer.ServeIsPublish | pkg/amqp/server.go:374-430 | serving any frames of any connections is putting their messages together and publishing these in order |
| AmqpServer.QueuesAfter | pkg/amqp/server.go:691-717 | publishing any messages adds to every existing queue exactly the bodies meant for it, in order, makes no queue and changes no channel |
| AmqpServer.EndToEnd | pkg/amqp/server.go:228-430 | from bytes to queues, for one channel: what a client writes to its connection, in the layout this server expects or the standard one and cut into body frames in any way, is read, parsed, put together and published; every existing queue holds, behind what it held, the whole bodies that go to it, in order |
| AmqpServer.BrokenConnection | pkg/amqp/server.go:228-430 | if the stream is cut at any byte, exactly the messages are published whose whole body lies in frames that end before the cut, each whole and in order |
| AmqpRouting.SameTargetExactly | pkg/amqp/server.go:489-512 | the key that the server reads in a Basic.Publish of the standard layout has the same target queue as the key that was sent if and only if that one is empty or the queue its channel is bound to |
| AmqpRouting.RoutedExactly | pkg/amqp/server.go:228-717 | from bytes to queues: messages in whatever layouts leave every queue as their sender means it if and only if each one with a body frame has the server's own layout, no key, the bound queue as its key, or neither of the two queues is there |
| AmqpRouting.Misrouted | pkg/amqp/server.go:489-717 | a standard message whose key names one queue, on a channel bound to another, leaves the one as it was and joins the other |
| AmqpRouting.WrongQueue | pkg/amqp/server.go:489-717 | such a message: its key is "a", it ends up in "b" |
| AmqpTraffic.SharedChannelLoses | pkg/amqp/server.go:402-523 | two connections on one channel number: an interleaving of the frames of two messages of one byte after which the queue of one of them is empty |
| AmqpTraffic.QueuesExactly | pkg/amqp/server.go:374-430 | for any channels of any connections: on every server and in every interleaving of the frames of any messages, every existing queue gains exactly the bodies sent for it, each as often as it was sent, if and only if no two connections use the same channel number |
| AmqpTraffic.EndToEndMany | pkg/amqp/server.go:228-430 | from bytes to queues, for any connections with any channels, no channel number being used twice: whatever order each connection mixes its channels in and the server reads the connections in, every existing queue gains exactly the bodies sent for it, and each channel's messages are published whole and in order |
| AmqpFrames.ReadFrames | pkg/amqp/server.go:228-272 | the reading loop gives the frames in order up to the first that cannot be read, and why |
| AmqpFrames.RoundTripExactly | pkg/amqp/server.go:232-272 | a written frame is read back, whatever follows, if and only if its type is below 2^8, its channel below 2^16 and its payload at most 1 MiB |
| AmqpFrames.ReadsOnlyFrames | pkg/amqp/server.go:232-272 | what the reader accepts is exactly what the writer would write |
| AmqpFrames.Stream | pkg/amqp/server.go:850-858 | frames written one after another are read back as they were; of a stream cut anywhere, exactly those that end before the cut |
| Framing.RoundTripExactly | pkg/network/protocol.go:176-258 | a written message is read back, whatever follows, if and only if magic, version, length and checksum are right and the payload is at most 64 MiB |
| Framing.ResponseRoundTrip | pkg/network/protocol.go:392-441 | a response is read back if and only if its payload is at most 64 MiB |
| Framing.ReadsOnlyMessages | pkg/network/protocol.go:176-258 | what the reader accepts is well formed and exactly what the writer would write |
| Framing.HandleConnection | pkg/network/protocol.go:110-141 | the connection loop: each round hands a message on or refuses it and goes on with what the reader has left, as long as there is something to read |
| Framing.Stream | pkg/network/protocol.go:110-258 | well-formed messages written one after another are all handed on by the connection loop, in order; of a stream cut anywhere, exactly those that end before the cut |
| Framing.DamageRefused | pkg/network/protocol.go:251-258 | a payload damaged within 32 consecutive bits is refused for its checksum |
| Framing.DamageLosesNoOther | pkg/network/protocol.go:110-258 | however many payloads of a stream are damaged, each within 32 consecutive bits, the loop hands on all other messages, in order, and none of the damaged ones |
| Framing.NeverReturns | pkg/network/protocol.go:110-141 | on every input, and for every number of rounds after it has ended, the handler keeps hearing that the stream is closed and never returns |
| BatchCodec.WriteChunks | pkg/compression/compressor.go:127-139 | the packing loop, lengths cut to 32 bits |
| BatchCodec.ReadChunks | pkg/compression/compressor.go:142-173 | the unpacking loop, with the short reads of bytes.Reader and its error at the end |
| BatchCodec.UnpackPack | pkg/compression/compressor.go:119-173 | packed chunks come back if and only if lengths fit in 32 bits and there is none or the last is not empty |
| BatchCodec.LoneChunkNeverReturns | pkg/compression/compressor.go:123-125 | a single chunk, stored without its length, never comes back |
| BatchCodec.CompressPlain | pkg/compression/compressor.go:119-140 | nothing for no chunk, a lone chunk without its length, otherwise the packed chunks |
| BatchCodec.PlainExactly | pkg/compression/compressor.go:119-173 | the uncompressed batch round-trips if and only if it is empty, or has two or more fitting chunks of which the last is not empty |
| BatchCodec.CompressedExactly | pkg/compression/compressor.go:295-335 | over any codec that inverts itself, a non-empty batch round-trips if and only if its chunks fit and the last is not empty |
| RateLimiter.Limiting.Allow | pkg/auth/ratelimiter.go:38-84 | one call: the bucket is made if missing, filled after whole seconds, and gives a token if it has one |
| RateLimiter.Limiting.Cleanup | pkg/auth/ratelimiter.go:87-101 | the loop removes exactly the buckets not filled for five minutes |
| RateLimiter.BoundFromCreation | pkg/auth/ratelimiter.go:38-101 | in every run of calls in one step with cleanups and any lags, also cleanups within a lag, from the call on that makes a key's bucket, at most R(1 + whole seconds) calls of the key are accepted |
| RateLimiter.BoundInWindow | pkg/auth/ratelimiter.go:38-101 | in every window of every such run at most R(2 + whole seconds) calls of a key are accepted |
| RateLimiter.BoundReached | pkg/auth/ratelimiter.go:38-84 | for every positive R and every number n of seconds, a run and a window of n seconds and a nanosecond in which R(2 + n) calls are accepted |
| RateLimiter.RatePerSecondExactly | pkg/auth/ratelimiter.go:38-101 | at most R calls in every window shorter than a second, of every run, if and only if R is not positive |
| RateLimiter.CleanupUnobservable | pkg/auth/ratelimiter.go:38-101 | any run with cleanups answers as the run without them, for every rate, if in each call the clock stands still or a second passes |
| RateLimiter.LagExactly | pkg/auth/ratelimiter.go:38-101 | for calls whose two clock readings lie a given time apart, cleanups never show if and only if the rate is not positive or that time is 0 or at least a second |
| RateLimiter.UndisturbedBound | pkg/auth/ratelimiter.go:38-101 | with calls in two steps, lookup and use, on any threads: the bound R(2 + whole seconds) holds in every window of every run in which no cleanup removes a bucket between a call's two steps |
| RateLimiter.OvertakenExactly | pkg/auth/ratelimiter.go:38-101 | with cleanups that may do so, the bound holds in every window of every run if and only if R is not positive |
| AdvancedLimiter.Limiting.Allow | pkg/auth/ratelimiter_middleware.go:137-210 | one call: the bucket is made if missing, filled by rate times elapsed time up to burst, and gives a token if it has one |
| AdvancedLimiter.Limiting.CleanupStaleBuckets | pkg/auth/ratelimiter_middleware.go:228-242 | the loop removes exactly the buckets not used for ten minutes |
| AdvancedLimiter.BoundInWindow | pkg/auth/ratelimiter_middleware.go:137-242 | in every window of every run of calls in one step with cleanups and any lags, also cleanups within a lag, at most burst plus the whole part of rate times the window's length calls of a key are accepted, if ten minutes and a nanosecond fill a bucket |
| AdvancedLimiter.CleanupBreaksBound | pkg/auth/ratelimiter_middleware.go:185-242 | if they do not, a run in which a cleanup lets twice burst calls through, more than the bound |
| AdvancedLimiter.BoundExactly | pkg/auth/ratelimiter_middleware.go:137-242 | the bound holds in every window of every such run if and only if burst is not positive or ten minutes and a nanosecond fill a bucket |
| AdvancedLimiter.HastyStarves | pkg/auth/ratelimiter_middleware.go:147-154 | a caller whose gaps are each worth less than a token gets the tokens that were there and no other, however long it goes on |
| AdvancedLimiter.StarvesExactly | pkg/auth/ratelimiter_middleware.go:147-160 | from an empty bucket a run of calls gets nothing if and only if rate times each gap is below one token |
| AdvancedLimiter.CutExactly | pkg/auth/ratelimiter_middleware.go:147-154 | for any gaps: the whole tokens of the gaps, one by one, are those of the whole time less the whole tokens among the fractions cut off |
| AdvancedLimiter.TokensAccounted | pkg/auth/ratelimiter_middleware.go:147-160 | over any run of calls of a key: tokens taken, left, spilled over burst and cut off in fractions are exactly those that were there and those the rate adds over the whole time |
| AdvancedLimiter.BackAtRateExactly | pkg/auth/ratelimiter_middleware.go:147-160 | over any run of calls of a key, all that the rate adds is taken, left or spilled if and only if the fractions cut off add up to less than a token |
| AdvancedLimiter.CleanupExactly | pkg/auth/ratelimiter_middleware.go:137-242 | cleanups change no answer of any run if and only if burst is not positive or ten minutes and a nanosecond fill a bucket |
| AdvancedLimiter.UndisturbedExactly | pkg/auth/ratelimiter_middleware.go:137-242 | with calls in two steps, lookup and use, on any threads: the bound holds in every window of every run in which no cleanup removes a bucket between a call's two steps, if and only if burst is not positive or ten minutes and a nanosecond fill a bucket |
| AdvancedLimiter.OvertakenBreak | pkg/auth/ratelimiter_middleware.go:137-242 | a run in which cleanups do so: burst + 1 calls of one key are accepted at one instant |
| AdvancedLimiter.OvertakenExactly | pkg/auth/ratelimiter_middleware.go:137-242 | with cleanups that may do so, the bound holds in every window of every run if and only if burst is not positive |
| BucketCalls.SimulatedWindow | pkg/auth/ratelimiter.go:38-101 | for any limiter: a run of calls in two steps without such cleanups gives, window by window and key by key, what some run of calls in one step at the same times gives |
| BucketCalls.Twins | pkg/auth/ratelimiter.go:38-101 | for any limiter: a run of calls in one step without lag is such a run, with the same tokens given |
| BucketCalls.OvertakenCallsAllPass | pkg/auth/ratelimiter.go:38-101 | for any limiter whose full bucket still gives a token when stale, and any m: m calls of one key at one instant, each holding a removed bucket of its own, are all accepted |
| Buckets.CleanupInvisible | pkg/auth/ratelimiter.go:38-101 | for any limiter whose stale buckets act as new ones, every run answers as the run without its cleanups |
| Transactions.Dedup | pkg/kafka/transactions.go:310-320 | the loop with its set of seen numbers keeps first occurrences |
| Transactions.MergedExactly | pkg/kafka/transactions.go:297-328 | a merged topic has the partitions of both lists; it repeats one only if the topic was new and its list did |
| Transactions.TransactionManager.BeginTransaction | pkg/kafka/transactions.go:118-144 | begins from Empty only, with a fresh record |
| Transactions.TransactionManager.AddPartitionsToTxn | pkg/kafka/transactions.go:147-156 | merges into the record of an ongoing transaction, or one of two errors |
| Transactions.TransactionManager.CommitTransaction | pkg/kafka/transactions.go:159-180 | ends an ongoing transaction and is Empty again, or stays Ongoing if the record is gone |
| Transactions.TransactionManager.AbortTransaction | pkg/kafka/transactions.go:183-203 | the same for an abort, but it stays in PrepareAbort if the record is gone |
| Transactions.TransactionManager.EndTransaction | pkg/kafka/transactions.go:331-352 | the record is marked, or the call fails if there is none |
| Transactions.TransactionManager.CleanupExpiredTransactions | pkg/kafka/transactions.go:368-378 | the loop removes exactly the expired records |
| Transactions.TransactionalProducer.SendToTransaction | pkg/kafka/transactions.go:206-247 | refused without an ongoing transaction, otherwise the message joins its partition's batch and the partition the transaction |
| Transactions.TransactionalProducer.FlushTransaction | pkg/kafka/transactions.go:250-265 | every partition's batch is sent off once and cleared |
| Transactions.SequencesContiguous | pkg/kafka/transactions.go:206-265 | over every run each partition's messages are numbered 0, 1, 2, ... in 32 bits across batches and transactions, and every batch, flushed or not, from its first number by place to its last |
| Transactions.LifeCycle | pkg/kafka/transactions.go:118-378 | over every run, calls interleaved: between calls the manager is Empty, Ongoing or PrepareAbort; no transaction ends twice, so none is both committed and aborted; while its record stands, it names every partition sent to |
| Transactions.StuckForever | pkg/kafka/transactions.go:183-203 | once an abort has found no record, whatever follows, nothing is begun, sent or ended again |
| Transactions.StuckReached | pkg/kafka/transactions.go:183-203 | a run that gets there: the record expires between the begin and the abort |
| Transactions.StuckOnlyByCleanup | pkg/kafka/transactions.go:159-203 | without cleanups no record is ever missing and no abort gets stuck |
| Transactions.AbortedStillSent | pkg/kafka/transactions.go:183-265 | two runs in which the only transaction is aborted and its message sent off, by a flush before the abort and by one after it |
| Transactions.MessageSentOffExactly | pkg/kafka/transactions.go:206-265 | over every run, whatever the transactions came to, the n-th message of a partition is sent off if and only if a flush followed its send; those sent off are the first ones, in order |
| Transactions.SentOffExactly | pkg/kafka/transactions.go:206-265 | over every run, messages of a transaction are among those sent off to a partition if and only if some flush followed some send of the transaction to it |
| Transactions.AbortKeepsBackExactly | pkg/kafka/transactions.go:183-265 | over every run, none of an aborted transaction's messages is sent off to a partition if and only if none was sent to it in the transaction or no flush came after |
| Transactions.LateSend | pkg/kafka/transactions.go:206-247 | a send overtaken by a commit fails, and its message stays in the batch under its number |
| Assignors.AssignRoundRobin | pkg/kafka/consumer_groups.go:144-179 | every member gets every n-th partition from its place on; no members, no assignments |
| Assignors.AssignRange | pkg/kafka/consumer_groups.go:188-228 | every member gets its consecutive share of each topic |
| Assignors.RebalanceRoundRobin | pkg/kafka/group_coordinator.go:429-474 | every member gets its round-robin partitions grouped by topic |
| Assignors.RebalanceRange | pkg/kafka/group_coordinator.go:477-511 | every member gets its non-empty shares as groups |
| Assignors.RoundRobinCovers | pkg/kafka/consumer_groups.go:173-176 | over all members together every partition is given as often as it is there |
| Assignors.RoundRobinFair | pkg/kafka/consumer_groups.go:173-176 | loads differ by at most one |
| Assignors.DealtFairly | pkg/kafka/consumer_groups.go:173-176 | a member's load is the quotient, and one more for the first members up to the remainder |
| Assignors.SharesCover | pkg/kafka/consumer_groups.go:206-225 | the shares of a topic, joined in member order, are its partitions in order |
| Assignors.RangeFair | pkg/kafka/consumer_groups.go:206-225 | a member's share of a topic is consecutive, and shares differ by at most one, the first members having the larger ones |
| Assignors.StartIs | pkg/kafka/consumer_groups.go:206-225 | where a member's share of a topic begins |
| Assignors.RangeCovers | pkg/kafka/consumer_groups.go:206-225 | over all members together every partition of every topic is given as often as it is there |
| Assignors.RangesAgree | pkg/kafka/group_coordinator.go:477-511 | the range groups, taken apart, are the flat range list |
| Assignors.RoundRobinsAgree | pkg/kafka/group_coordinator.go:450-471 | the round-robin groups, taken apart, have each topic's partitions in the order of the flat list, in one group each |
| Assignors.GroupedCovers | pkg/kafka/group_coordinator.go:450-471 | grouping loses and repeats no partition |
| Assignors.RebalanceRoundRobinCovers | pkg/kafka/group_coordinator.go:429-474 | over all members' groups together every partition is given as often as it is there |
| Assignors.RebalanceRangeCovers | pkg/kafka/group_coordinator.go:477-511 | over all members' groups together every partition of every topic is given as often as it is there |

## Left out

- LockFreeProtocol.RunInv: the uint64 positions are unbounded numbers; wrap-around after 2^64 tickets is not modelled.
- LockFreeSafety.FifoRefinement: says nothing about how early an answer "empty" or "full" may be; a stalled thread can make either early.
- LockFreeQueue.Queue.constructor: the most negative capacity, on which the source panics, and capacities above 2^62, which cannot be allocated, are excluded.
- LockFreeQueue.Queue.Enqueue: a single thread; scheduler yields between retries are not modelled.
- UltraQueue.PrefixDelivery: one producer and one consumer only; with more the paths without compare-and-swap are not safe.
- ParallelWriter.Conservation: the store is all-or-nothing and copies the slice it is given.
- BatchWriter.Writer.Tick: waiting times between retries are not modelled.
- AmqpBroker.Accounting: sending to the connection never fails, as in the source, and the QoS limits, which delivery ignores, are not modelled.
- AmqpFrames.ReadFrames: a read returns what was asked for or all that is left; the source also gives up on a short read in between.
- AmqpServer.EndToEnd: connections past their handshake that send Basic.Publish only; the other method frames are not part of it.
- AmqpTraffic.EndToEndMany: handlers of different connections take turns frame by frame; none comes in between the completion of a message and its publication.
- Framing.RoundTripExactly: what is done with a message of each type is not modelled.
- Framing.DamageLosesNoOther: damage to headers, after which the loop is out of step, is not part of it.
- Framing.NeverReturns: read deadlines and cancelled contexts are not modelled.
- BatchCodec.CompressedExactly: the codecs of the compressors are not modelled beyond giving back what they were given.
- RateLimiter.CleanupUnobservable: about calls in one step, none of which starts before an earlier cleanup; for calls in two steps see RateLimiter.OvertakenExactly.
- AdvancedLimiter.BoundInWindow: the product of seconds and rate is exact, without floating-point rounding.
- AdvancedLimiter.Limiting.Allow: Remaining and Reset, the limiter's other two calls, are not modelled.
- Transactions.LifeCycle: producer identifiers and epochs, which no step reads, are not modelled.
- Bits.NextPowerOf2Loop: arguments above 2^62 are excluded, since the loop does not end on them (Bits.LoopEndsExactly).
- Assignors.RebalanceRange: without members the source divides by zero if there is a topic (for round-robin, a partition), so a member is required then.
- Sockets, deadlines, tickers, sleeps, logging, metrics and statistics other than the counters named above.
- HTTP handlers, WebSocket and SSE streams, admin pages, clients, examples and benchmarks.
- Storage backends and serialization, which appear here as a log and as opaque messages.
- Authentication, encryption and TLS.
- Kafka request parsing and response bodies, and the second consumer-group coordinator in pkg/kafka/consumer_groups.go.
- The AMQP connection handshake and the parsing of method arguments other than those of Basic.Publish.
- The message bus, its worker pools and the batching of UltraMessageBus.
