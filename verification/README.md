# Queues, socket buffers and the chunked decoder: a verified model

The repository ships, under `external/`, the lock-free queues its components exchange work through and the
socket and HTTP buffers of its metrics server. This project models four of them in Dafny 4.11 and proves what
they promise. `dafny verify dfyconfig.toml` checks everything.

**The multi-producer block queue** (`external/cameron314/concurrentqueue.h`)

- `FreeList`: the reference-counted free list as a step system. Any number of threads run `add` and `try_get`;
  every atomic access is one step. The invariant ties each node's word to who holds a reference to it.
- `DequeueProtocol`: the optimistic count, the overcommit and the head index under one producer and any number of
  single and bulk consumers, as a step system with a record of every reservation.
- `ExplicitProducer`: blocks in a circular list, found through a circular index that doubles, as classes.
- `ImplicitIndex`, `ImplicitProducer`: the block index with rewinding and shared entries, and a sub-queue with
  single enqueue, bulk enqueue with rollback, and dequeue, as classes over a shared pool of blocks.
- `BlockRelease`: consumers that finish in any order and the counter that makes exactly one of them release the
  block, as a step system.
- `Delivery`: the two as one step system, from the first look at the counters to the element moved out.
- `ProducerHash`: the chained open-addressing tables from thread ids to producers, lazy migration, resizing, thread
  exit and the recycling of producers, as classes over arrays.
- `IndexArithmetic`: the same computations on 64-bit words that wrap around.

**The bounded ring queues** (`external/rigtorp`): `MpmcQueue` and `SpscQueue`, as step systems.

**The socket write path** (`external/uWebSockets/AsyncSocket.h`, `AsyncSocketData.h`): `BackPressure` and
`AsyncSocket`, as classes; how much of each write the kernel accepts is given in advance and arbitrary.

**The streaming chunked decoder** (`external/uWebSockets/ChunkedEncoding.h`): `ChunkedEncoding` is the decoder,
`ChunkedRoundTrip` relates it to a machine that reads one byte at a time and to the encoding of section 7.1 of
RFC 9112.

In a step system a *run* is any finite sequence of states that starts in an initial state and follows the steps in
any interleaving; a theorem about `run[i]` is about every reachable state. History fields record what happened; each
module says which they are and where one also stands for something the program holds. `Fifo` is the specification
both kinds of sub-queue are compared with, size limit included, and `Replay` or `Serve` in a module drives freshly
created objects through an arbitrary sequence of calls.

Where the code does not do what one would expect, the model does what the code does:

- The digit test of the chunk size admits values up to 16, so `:` to `@`, `G` and `g` pass for digits
  (`ChunkedRoundTrip.AcceptedDigits`); any other character is an error (`ChunkedRoundTrip.OtherCharacterIsError`). The
  round trip is stated for hex digits.
- The single-producer queue has room for what `capacity()` reports for every request except the largest value of the
  type, which wraps the internal capacity to zero and is reported all the same (`SpscQueue.CapacityRule`).
- In one state of the multi-producer ring `head - tail` can be negative with blocking pops and exceed the capacity with
  blocking pushes (`MpmcQueue.WaitingReaders`, `MpmcQueue.WaitingWriters`), by at most the number of calls waiting
  (`MpmcQueue.TicketBounds`). `size()` loads the two indices one after the other, in an order the language leaves open,
  so it can return any negative number, or exceed the capacity by any number, without a blocking call and not only with
  a reader waiting, as its comment says (`MpmcQueue.NegativeSize`, `MpmcQueue.ExcessiveSize`). What it returns, and when
  that is in the range, is `MpmcQueue.SizeReturned` and `MpmcQueue.SizeInRange`.
- After a chunk size that is too large a further call of the decoder forgets the error and returns the next bytes as
  body (`ChunkedRoundTrip.ErrorForgotten`). A caller has to test for the error after each piece, as the parser of the
  server does (`external/uWebSockets/HttpParser.h`, lines 576, 632 and 689); so does `ChunkedRoundTrip.Feed`.
- A write or `uncork` that is not optional takes none of its data when the corked bytes before it cannot be flushed.
  For a write this can happen exactly if the socket is corked, there are corked bytes, and the data does not fit behind
  them (`AsyncSocket.Account.SafeToWrite`, `AsyncSocket.DroppedWrite`). An `uncork` is sure to take its data exactly if
  the socket is corked and nothing is in the cork; on a socket that is not corked it takes nothing and reports no
  failure (`AsyncSocket.Account.SafeToUncork`, `AsyncSocket.DroppedUncork`). Conservation is stated in terms of the
  count a call returns.
- Bytes the kernel refused leave only with a later write or `uncork` on that socket (`AsyncSocket.Recovers`); what such
  a call sends, takes and reports is exact (`AsyncSocket.Account.WrittenOut`, `AsyncSocket.Account.UncorkedOut`).
- The pending removal of a backpressure buffer is a 32-bit word; when it wraps, bytes already sent become visible again
  (`BackPressure.ErasesExactly`).
- An implicit producer whose block index could not be allocated on construction refuses every enqueue that starts a
  block, because only an existing index is ever enlarged (`ImplicitIndex.BlockIndex.Insert`).

Assumptions, besides those under "Left out": atomic accesses are sequentially consistent; `FreeList.add` is called
only by the node's current owner and there are at most 2^31 - 2 threads; constructors and assignments of elements do
not throw; operations of the producer hash are atomic with respect to each other; `pop` of the single-producer queue
follows a `front` that returned non-null since the previous `pop`.

## Model

| member | source | states |
|---|---|---|
| FreeList.ApplyKeepsInv | external/cameron314/concurrentqueue.h:1498-1577 | every step of every thread keeps: the chain from the head is exactly the listed nodes; each node's word is its flag or list reference plus one per reference holder; each node is listed, owned by one thread, or flagged with a holder left |
| FreeList.Reachable | external/cameron314/concurrentqueue.h:1487-1577 | the invariant holds in every state of every run |
| FreeList.NoAba | external/cameron314/concurrentqueue.h:1512-1537 | no node is linked twice, a linked node has no owner, no node has two owners, and a compare-exchange of the head that would succeed installs the true successor |
| FreeList.NextIsStable | external/cameron314/concurrentqueue.h:1526-1528 | a next pointer is rewritten only while nobody holds a reference to the node and it is not linked |
| FreeList.NothingIsLost | external/cameron314/concurrentqueue.h:1503-1510 | in every reachable state each node is linked, or in the hands of a thread, or flagged with a reference holder left |
| FreeList.LastReferenceInserts | external/cameron314/concurrentqueue.h:1539-1545 | whoever drops the last reference to a flagged node goes on to insert it |
| FreeList.Quiescent | external/cameron314/concurrentqueue.h:1498-1549 | with no call in progress the list is exactly the nodes added and not taken |
| FreeList.WordsAreExact | external/cameron314/concurrentqueue.h:1530-1535 | count and flag never run into each other in 32 bits, and the assertion on a just unlinked node holds |
| FreeList.EmptyAnswer | external/cameron314/concurrentqueue.h:1512-1549 | a try_get that returns without a node found, at some step of that call, the head null and the list empty |
| FreeList.TakenFromFront | external/cameron314/concurrentqueue.h:1517-1537 | a node that try_get is about to return was unlinked from the front of the list at a step of that call |
| FreeList.SoloGet | external/cameron314/concurrentqueue.h:1512-1549 | a try_get that runs alone with no other call in progress takes the first node of the list, or returns with nothing changed exactly if the list is empty |
| FreeList.SoloAdd | external/cameron314/concurrentqueue.h:1498-1510 | an add that runs alone with no other call in progress puts the node in front of the list |
| DequeueProtocol.ApplyKeepsInv | external/cameron314/concurrentqueue.h:1994-2042 | every step keeps the accounts of all reservations |
| DequeueProtocol.Reachable | external/cameron314/concurrentqueue.h:2288-2309 | the accounts hold in every state of every run of single and bulk consumers |
| DequeueProtocol.GrantsFit | external/cameron314/concurrentqueue.h:2031-2036 | all elements ever granted exist: the grants of any first reservations never pass the tail |
| DequeueProtocol.Accounting | external/cameron314/concurrentqueue.h:2013-2042 | optimistic count = head + overcommit + unsettled tickets, each held by its own consumer, and the head never passes the tail |
| DequeueProtocol.HandedOutOnce | external/cameron314/concurrentqueue.h:2033-2042 | every index below the head was handed out exactly once, to one consumer, and none that is not published |
| DequeueProtocol.SoloDequeue | external/cameron314/concurrentqueue.h:1996-2042 | a call running alone on a quiescent sub-queue takes the smaller of what it asks for and what is there, from the head on, whatever the overcommit |
| DequeueProtocol.Decided | external/cameron314/concurrentqueue.h:2024-2042 | every reservation of every run was decided at one step, by the tail of that moment: it got what it asked for as far as published, so one that got less reaches that tail and one that got nothing starts at or behind it; what it got never changes |
| DequeueProtocol.GivesUp | external/cameron314/concurrentqueue.h:1996-2013 | a call returns without reserving exactly if of the elements published at its load of the tail none was left that was not handed out, reserved and unsettled, or given back since its load of the overcommit |
| IndexArithmetic.CircularLessIsLess | external/cameron314/concurrentqueue.h:480-486 | circular comparison agrees with less-than exactly when the indices are within half the range, the upper end included |
| IndexArithmetic.WrappedDifference | external/cameron314/concurrentqueue.h:1914-1914 | differences of wrapped indices are the wrapped difference, and exact below a full range |
| IndexArithmetic.FullTestIsFaithful | external/cameron314/concurrentqueue.h:1911-1919 | the full test on words agrees with the test on unbounded indices |
| IndexArithmetic.LimitIsRounded | external/cameron314/concurrentqueue.h:790-790 | the size limit in use is the least multiple of the block size not below the one asked for, or there is none |
| IndexArithmetic.MaskIsRemainder | external/cameron314/concurrentqueue.h:2056-2056 | masking with a power of two minus one is taking the remainder |
| IndexArithmetic.MaskIsBase | external/cameron314/concurrentqueue.h:2054-2054 | masking with the complement of a power of two minus one takes the remainder away |
| IndexArithmetic.BlockBaseOfWord | external/cameron314/concurrentqueue.h:2054-2054 | masking the word of an index with the complement of the block size minus one gives the word of its block's first index |
| IndexArithmetic.RingPosition | external/cameron314/concurrentqueue.h:3001-3009 | the signed division of the wrapped base difference, added to a slot and masked, finds the slot the same number of blocks away through any number of wrap-arounds |
| IndexArithmetic.BulkDifference | external/cameron314/concurrentqueue.h:2689-2690 | the masked bases of a bulk enqueue's first and last index, subtracted as words, are right, also where the start minus one wraps below zero |
| IndexArithmetic.BoundariesEntered | external/cameron314/concurrentqueue.h:2689-2690 | the blocks so counted are exactly the block boundaries among the new indices |
| ExplicitProducer.BlockIndex.constructor | external/cameron314/concurrentqueue.h:1810-1825 | an empty index, with or without memory for it |
| ExplicitProducer.BlockIndex.Grow | external/cameron314/concurrentqueue.h:2396-2433 | doubling keeps all entries in order and leaves room, or changes nothing |
| ExplicitProducer.BlockIndex.Copy | external/cameron314/concurrentqueue.h:2409-2417 | the copy has the used entries at its start, oldest first, wherever they were in the ring |
| ExplicitProducer.BlockIndex.Put | external/cameron314/concurrentqueue.h:1973-1978 | the new entry becomes the newest, in a slot of its own or in place of the oldest |
| ExplicitProducer.BlockIndex.Find | external/cameron314/concurrentqueue.h:2045-2056 | the computed slot holds the block whose base was asked for |
| ExplicitProducer.Layout.EmptyBlockIsBehind | external/cameron314/concurrentqueue.h:1896-1899 | the flags of the oldest block are all set exactly if it has been dequeued completely |
| ExplicitProducer.Layout.EmptyMeansRoom | external/cameron314/concurrentqueue.h:1896-1896 | at the end of a block the oldest one is empty exactly if the elements fit in the others |
| ExplicitProducer.Layout.ReusedGood | external/cameron314/concurrentqueue.h:1896-1899 | starting the block ahead over loses no element and keeps every other one in its place |
| ExplicitProducer.Layout.InsertedGood | external/cameron314/concurrentqueue.h:1934-1951 | splicing a new block in behind the tail keeps the circular list and every element |
| ExplicitProducer.Layout.EnqueuedGood | external/cameron314/concurrentqueue.h:1986-1991 | constructing the next element disturbs no other |
| ExplicitProducer.Layout.DequeuedGood | external/cameron314/concurrentqueue.h:2058-2081 | the head's block holds the oldest element; moving it out and flagging it disturbs no other |
| ExplicitProducer.Producer.ReuseBlock | external/cameron314/concurrentqueue.h:1896-1906 | reusing the block ahead keeps queue, list and index consistent |
| ExplicitProducer.Producer.InsertBlock | external/cameron314/concurrentqueue.h:1934-1978 | a new block keeps queue, list and index consistent |
| ExplicitProducer.Producer.WithinLimit | external/cameron314/concurrentqueue.h:1896-1919 | an empty block ahead means the size limit is not reached, so reuse without the test never passes it; and a block added after the test is within it |
| ExplicitProducer.Producer.AddBlock | external/cameron314/concurrentqueue.h:1920-1978 | a new block joins the list exactly if the index has a free entry or may and can grow, and there is a block |
| ExplicitProducer.Producer.StartBlock | external/cameron314/concurrentqueue.h:1892-1978 | a block for the next element, or nothing changed: exactly if the size limit is not reached and the block ahead is empty or there is an index entry, free or in a bigger index, and a block; the block ahead is reused before a new one is taken |
| ExplicitProducer.Producer.Enqueue | external/cameron314/concurrentqueue.h:1887-1991 | appends the element or leaves everything as it was; it is refused exactly if it begins a block and the size limit is reached, or the block ahead is in use and a new one lacks an entry or a block |
| ExplicitProducer.Producer.FindBlock | external/cameron314/concurrentqueue.h:2045-2056 | the index lookup lands on the block that holds the element |
| ExplicitProducer.Producer.Dequeue | external/cameron314/concurrentqueue.h:1994-2092 | returns the oldest element, or nothing exactly when the queue is empty |
| ExplicitProducer.Replay | external/cameron314/concurrentqueue.h:1887-2092 | every sequence of enqueues and dequeues, whatever the allocators do and whatever the size limit, is a run of an unbounded first-in first-out queue; enqueues are refused exactly at the limit when there is memory, and only at the end of a block |
| Fifo.LimitHolds | external/cameron314/concurrentqueue.h:374-378 | in every run so answered a sub-queue never holds more elements than the size limit, even with its last block filled up |
| Fifo.Accepted | external/cameron314/concurrentqueue.h:2526-2574 | in every run so answered items that begin no block are accepted, and so are items that find room below the limit and, counted by the blocks in use, entries and blocks enough |
| ImplicitIndex.View.NextIsFree | external/cameron314/concurrentqueue.h:2955-2958 | the slot after the tail looks free exactly if it is not that of a live block, and if it is not free the ring is full of consecutive blocks |
| ImplicitIndex.View.RoomIfNotLive | external/cameron314/concurrentqueue.h:2955-2958 | there is room exactly if the block one ring before the next one is not live |
| ImplicitIndex.View.InsertedGood | external/cameron314/concurrentqueue.h:2955-2962 | writing the next key over a free slot keeps every other live block findable |
| ImplicitIndex.View.RewoundGood | external/cameron314/concurrentqueue.h:2983-2987 | moving the tail back moves no block |
| ImplicitIndex.View.StoredGood | external/cameron314/concurrentqueue.h:2645-2652 | filling in or freeing an entry touches no other block's entry |
| ImplicitIndex.View.GrownGood | external/cameron314/concurrentqueue.h:3014-3056 | doubling a full ring, oldest entry first and sharing its entries, keeps every block findable and makes room |
| ImplicitIndex.View.Found | external/cameron314/concurrentqueue.h:2996-3012 | the slot computed from the key at the tail holds the block's own key and a non-null block, and the key at the tail is valid: the assertions of the lookup hold |
| ImplicitIndex.BlockIndex.constructor | external/cameron314/concurrentqueue.h:2463-2469 | the first ring, or none; fresh entries hold no block whatever value they start with |
| ImplicitIndex.BlockIndex.NewBlockIndex | external/cameron314/concurrentqueue.h:3014-3056 | a ring with room and the same live blocks whose next slot was never used, as the caller asserts, or nothing changed |
| ImplicitIndex.BlockIndex.Insert | external/cameron314/concurrentqueue.h:2948-2981 | claims the entry of the next block; it succeeds exactly if there is a ring and either the next slot's block is not live or a bigger ring can be had |
| ImplicitIndex.BlockIndex.Rewind | external/cameron314/concurrentqueue.h:2983-2987 | the tail names the block before, and every entry stays where it is |
| ImplicitIndex.BlockIndex.Store | external/cameron314/concurrentqueue.h:2645-2652 | the live blocks change by exactly the one stored |
| ImplicitIndex.BlockIndex.Abandon | external/cameron314/concurrentqueue.h:2549-2553 | giving a claimed entry up leaves the live blocks and the tail as before |
| ImplicitIndex.BlockIndex.Lookup | external/cameron314/concurrentqueue.h:2989-3012 | every live block is found, with its own key and its block |
| ImplicitIndex.BlockIndex.Retract | external/cameron314/concurrentqueue.h:2716-2719 | a block is freed and the tail moves back although it is at another block |
| ImplicitProducer.Pool.Requisition | external/cameron314/concurrentqueue.h:3104-3162 | the next block of the initial pool, else the one freed last, else a new one if memory can be had, else nothing; a block nobody has |
| ImplicitProducer.Pool.GiveBack | external/cameron314/concurrentqueue.h:3115-3126 | a block in use goes to the front of the free list, or is destroyed if it came from the heap and is not recycled |
| ImplicitProducer.Producer.NewBlock | external/cameron314/concurrentqueue.h:2533-2574 | an index entry and a block, or nothing: the live mapping, the tail of the index and the pool as before; granted exactly if the size limit is not reached, there is an index, it has room or may and can grow, and the pool has a block or one may and can be allocated; a call that may not allocate asks for no memory |
| ImplicitProducer.Producer.Enqueue | external/cameron314/concurrentqueue.h:2526-2591 | appends the element or leaves queue, pool and live mapping as they were; it is refused exactly if it begins a block and the size limit is reached or the index entry or block it needs is neither there nor to be had |
| ImplicitProducer.Producer.MoveOut | external/cameron314/concurrentqueue.h:2607-2655 | the element leaves its block, and the block leaves the index and goes back to the pool exactly if it was the last one |
| ImplicitProducer.Producer.Dequeue | external/cameron314/concurrentqueue.h:2593-2665 | returns the oldest element, or nothing exactly when the queue is empty |
| ImplicitProducer.Producer.RewindAll | external/cameron314/concurrentqueue.h:2715-2720 | undoing the index entries front to back while the tail rewinds back to front restores the live mapping and the tail |
| ImplicitProducer.Producer.GiveBackAll | external/cameron314/concurrentqueue.h:3128-3135 | exactly the blocks of the chain go back to the pool |
| ImplicitProducer.Producer.Rollback | external/cameron314/concurrentqueue.h:2708-2724 | a failed reservation is undone completely |
| ImplicitProducer.Producer.ReserveAll | external/cameron314/concurrentqueue.h:2691-2746 | the blocks reserved are linked in order, numbered consecutively after the last one, and accounted for in the pool; with entries and blocks enough for all of them they are all had exactly if the size limit allows the last one |
| ImplicitProducer.Producer.Allocate | external/cameron314/concurrentqueue.h:2683-2746 | as many new blocks as block boundaries are entered, or none at all |
| ImplicitProducer.Producer.Fill | external/cameron314/concurrentqueue.h:2748-2817 | the items end up in their places in order, following the chain to its end |
| ImplicitProducer.Producer.EnqueueBulk | external/cameron314/concurrentqueue.h:2671-2820 | all or nothing: the items are appended in exactly as many new blocks as they enter; or queue, tail index, tail block and live mapping are as before and every block acquired is back in the pool; it is accepted whenever there is room below the limit and the index and the pool hold what the blocks begun need, or memory can be had, also by a call that may not allocate, which then asks for no memory |
| ImplicitProducer.Producer.StockLeft | external/cameron314/concurrentqueue.h:3104-3162 | when no other producer draws on the pool, all blocks of the initial pool that are not in use are in stock |
| ImplicitProducer.Producer.CountedOn | external/cameron314/concurrentqueue.h:2546-2574 | while the blocks in use and begun exceed neither the first index nor the initial pool, a call has what it needs without memory |
| ImplicitProducer.BlocksEntered | external/cameron314/concurrentqueue.h:2689-2690 | the blocks a successful bulk enqueue adds are exactly those whose first index is among the new ones |
| ImplicitProducer.Replay | external/cameron314/concurrentqueue.h:2526-2820 | every sequence of enqueues, bulk enqueues and dequeues, whatever the allocators do and whatever the size limit, is a run of an unbounded first-in first-out queue in which each bulk enqueue enters whole or not at all; they are refused only if they begin a block, and then exactly at the limit as long as what they need is there: memory, or, also for a call that may not allocate, entries of the first index and blocks of the pool for all blocks in use and begun |
| BlockRelease.ApplyKeepsInv | external/cameron314/concurrentqueue.h:2548-2655 | every step of consumers and of a producer that begins blocks and constructs elements ahead of publishing them keeps the exact counters and the places of all unread elements |
| BlockRelease.Reachable | external/cameron314/concurrentqueue.h:2847-2917 | the invariant holds in every state of every run, however consumers split a block between single and bulk dequeues |
| BlockRelease.ReadsAreRight | external/cameron314/concurrentqueue.h:2853-2867 | no consumer meets a null block or a dead element, and every index is read as the element enqueued under it |
| BlockRelease.ReleasedExactlyOnce | external/cameron314/concurrentqueue.h:1635-1673 | the counter of a block is the number of its indices counted and never exceeds the block size; a block is seen full exactly when all its indices are counted, and once |
| BlockRelease.NoEarlyReuse | external/cameron314/concurrentqueue.h:2905-2915 | a block is taken up again, from the moment it is in the pool or taken from it, only after every element it held before was read and counted |
| BlockRelease.AtRest | external/cameron314/concurrentqueue.h:2645-2654 | with no consumer at work exactly the blocks the head has left behind are released |
| BlockRelease.NoBlockIsLost | external/cameron314/concurrentqueue.h:2548-2655 | in every reachable state each block is in the pool, about to be begun, or in use under a number not released |
| BlockRelease.BackInPool | external/cameron314/concurrentqueue.h:2645-2654 | with no consumer at work each block the head has left behind is back in the pool or in use again under a later number |
| BlockRelease.ConsumersProgress | external/cameron314/concurrentqueue.h:2847-2917 | every step of a consumer brings it closer to the end of its call |
| Delivery.ApplyKeepsInv | external/cameron314/concurrentqueue.h:2593-2665 | every step of producer and consumers on counters and blocks keeps both invariants and their agreement on indices and owners |
| Delivery.Reachable | external/cameron314/concurrentqueue.h:2593-2917 | so it does over every run of single and bulk dequeues |
| Delivery.DeliveredOnce | external/cameron314/concurrentqueue.h:2593-2917 | every element is delivered at most once, as enqueued, to the consumer its index was handed to, and each consumer gets its elements in the order they were enqueued; no consumer meets a null block or a dead element |
| Delivery.AllDelivered | external/cameron314/concurrentqueue.h:2593-2917 | with no consumer at work on the blocks exactly the elements below the head index have been delivered |
| ProducerHash.Find | external/cameron314/concurrentqueue.h:3476-3513 | a probe ends and finds the id exactly if it is in the table |
| ProducerHash.Claim | external/cameron314/concurrentqueue.h:3572-3589 | a probe for a slot ends, and takes the first one on the way that is empty or left by a thread that exited |
| ProducerHash.Remove | external/cameron314/concurrentqueue.h:3616-3624 | the id is gone from the table, its slot becomes reusable, and every other id stays reachable |
| ProducerHash.RoomLeft | external/cameron314/concurrentqueue.h:3477-3477 | a table with fewer used slots than its capacity has an empty one |
| ProducerHash.ClaimedMain | external/cameron314/concurrentqueue.h:3482-3505 | after a slot is claimed the count still bounds the used slots plus the live ids not yet copied |
| ProducerHash.FreshMain | external/cameron314/concurrentqueue.h:3539-3549 | a new table, with every live id still to come, is within the same count |
| ProducerHash.LeftMain | external/cameron314/concurrentqueue.h:3613-3625 | after a thread leaves the count still bounds both |
| ProducerHash.NewCapacity | external/cameron314/concurrentqueue.h:3527-3530 | the capacity is at least doubled, until less than half of it is counted and no further |
| ProducerHash.View.ClaimedGood | external/cameron314/concurrentqueue.h:3572-3589 | inserting a thread keeps all tables consistent with the live threads |
| ProducerHash.View.GrownGood | external/cameron314/concurrentqueue.h:3539-3549 | so does putting a new table in front |
| ProducerHash.View.LeftGood | external/cameron314/concurrentqueue.h:3613-3625 | so does leaving the slots of a thread in every table |
| ProducerHash.Tables.Search | external/cameron314/concurrentqueue.h:3474-3514 | a live thread is found, newest table first, with its producer, and nobody else is |
| ProducerHash.Tables.Get | external/cameron314/concurrentqueue.h:3474-3514 | a live thread is found with its producer and is in the newest table afterwards; no thread's producer changes |
| ProducerHash.Tables.GrowIfFull | external/cameron314/concurrentqueue.h:3517-3554 | afterwards less than half of the newest table is counted; it succeeds exactly if that was so before, and then nothing changes, or there is memory |
| ProducerHash.Tables.Insert | external/cameron314/concurrentqueue.h:3572-3590 | the thread is live with its producer; a reused slot is not counted again |
| ProducerHash.Tables.Leave | external/cameron314/concurrentqueue.h:3613-3625 | the thread is gone from every table and every other one keeps its producer |
| ProducerHash.Registry.RecycleOrCreate | external/cameron314/concurrentqueue.h:3275-3305 | a producer of the kind asked for that nobody holds: the first one given up if there is one, else the next one created in advance, else a new one; nothing exactly if there is none and no memory |
| ProducerHash.Registry.AddProducer | external/cameron314/concurrentqueue.h:3307-3338 | the producer joins the list as active and no other one changes |
| ProducerHash.Registry.Deactivate | external/cameron314/concurrentqueue.h:3627-3628 | exactly that producer becomes recyclable |
| ProducerHash.Hash.GetOrAdd | external/cameron314/concurrentqueue.h:3453-3598 | a live thread gets the producer it has; a new one gets one no live thread has, exactly if the newest table is not half full or can grow and a producer is given up, created in advance or can be created |
| ProducerHash.Hash.ThreadExited | external/cameron314/concurrentqueue.h:3601-3629 | exactly that thread is forgotten and exactly its producer can be recycled |
| ProducerHash.Replay | external/cameron314/concurrentqueue.h:3453-3629 | every sequence of uses and exits, with resizes and migrations, is a run of a map from live threads to producers of their own |
| MpmcQueue.Reachable | external/rigtorp/MPMCQueue.h:163-251 | the turn of each slot says exactly which ticket may use it, in every state of every run of push, try_push, pop, try_pop and size |
| MpmcQueue.SlotExclusion | external/rigtorp/MPMCQueue.h:166-171 | no two threads are ever constructing in or moving out of one slot |
| MpmcQueue.TicketFifo | external/rigtorp/MPMCQueue.h:222-230 | what is delivered under a ticket is what was pushed under it, once, to the one pop that holds it |
| MpmcQueue.TryPushFailure | external/rigtorp/MPMCQueue.h:174-194 | a try_push that returns false looked at the slot, in that call, while the pop of ticket head - capacity was unfinished |
| MpmcQueue.TryPopFailure | external/rigtorp/MPMCQueue.h:232-251 | a try_pop that returns false looked at the slot, in that call, while the push of ticket tail was not published |
| MpmcQueue.TryPushAnswer | external/rigtorp/MPMCQueue.h:174-194 | over every run, a try_push that returns without a ticket looked at the slot of the head at some step of that call, while the pop of the ticket one round before was unfinished: the queue was full |
| MpmcQueue.TryPopAnswer | external/rigtorp/MPMCQueue.h:232-251 | over every run, a try_pop that returns without a ticket looked at the slot of the tail at some step of that call, while the push of that ticket was not published: there was nothing to pop |
| MpmcQueue.ValueGiven | external/rigtorp/MPMCQueue.h:163-194 | the value a push constructs and publishes is the one its call was given |
| MpmcQueue.SoloPush | external/rigtorp/MPMCQueue.h:163-194 | a push or try_push that runs alone with no call in progress pushes its value exactly if the queue is not full; a try_push on a full queue changes nothing |
| MpmcQueue.SoloPop | external/rigtorp/MPMCQueue.h:222-251 | a pop or try_pop that runs alone with no call in progress gets the value of the oldest ticket exactly if the queue is not empty; a try_pop on an empty queue changes nothing |
| MpmcQueue.TicketBounds | external/rigtorp/MPMCQueue.h:163-251 | in every reachable state head - tail is negative by at most the number of waiting pops and exceeds the capacity by at most the number of waiting pushes |
| MpmcQueue.WithoutPop | external/rigtorp/MPMCQueue.h:222-251 | in a run without blocking pops the tail never passes the head in any state |
| MpmcQueue.WithoutPush | external/rigtorp/MPMCQueue.h:163-194 | in a run without blocking pushes the head is never more than the capacity ahead of the tail in any state |
| MpmcQueue.WaitingReaders | external/rigtorp/MPMCQueue.h:222-230 | for every capacity and k, a run with k waiting pops and a state in which head - tail is -k |
| MpmcQueue.WaitingWriters | external/rigtorp/MPMCQueue.h:163-172 | for every capacity and k, a run with k waiting pushes and a state in which head - tail is k, so above the capacity for a large k |
| MpmcQueue.SizeReturned | external/rigtorp/MPMCQueue.h:257-261 | what size() returns, with its loads in either order: head - tail at the first load, less the pop tickets or plus the push tickets taken until the second; so it is bounded by the waiting calls and these tickets |
| MpmcQueue.SizeInRange | external/rigtorp/MPMCQueue.h:257-261 | exactly when that is from 0 to the capacity, and with nobody waiting at the first load: exactly if no more is popped between the loads than there was, or no more is pushed than there was room for |
| MpmcQueue.NegativeSize | external/rigtorp/MPMCQueue.h:174-261 | for every capacity and k, a run of try operations only in which size() returns -k |
| MpmcQueue.ExcessiveSize | external/rigtorp/MPMCQueue.h:174-261 | for every capacity and k, a run of try operations only in which size() returns the capacity plus k |
| MpmcQueue.QuiescentSize | external/rigtorp/MPMCQueue.h:257-261 | with no call in progress head - tail is the number of slots with an odd turn |
| MpmcQueue.QuiescentTicket | external/rigtorp/MPMCQueue.h:80-85 | with no call in progress a slot is to be destroyed exactly if it holds the value of a ticket pushed and not popped, and it holds that value |
| SpscQueue.CapacityRule | external/rigtorp/SPSCQueue.h:57-69 | the internal capacity is at least two, and one more than is reported, exactly if the request is not the largest value; then the request is reported when it fits, and the largest that fits otherwise; the largest value is reported over an internal capacity of zero |
| SpscQueue.Reachable | external/rigtorp/SPSCQueue.h:103-190 | in every interleaving the cached indices lag behind the real ones and the slots hold exactly the unread elements |
| SpscQueue.RefinesFifo | external/rigtorp/SPSCQueue.h:103-190 | publishing appends the pushed value, where there is room; advancing the read index removes the oldest element; every other step leaves the queue alone; at most capacity() elements are held |
| SpscQueue.SlotsAreSafe | external/rigtorp/SPSCQueue.h:178-190 | the producer never overwrites an unread element, the consumer never reads an unwritten one, and the assertion in pop holds |
| SpscQueue.FailuresAreExact | external/rigtorp/SPSCQueue.h:130-135 | at the load of the other side's index try_push fails exactly on a full queue and front returns null exactly on an empty one; stale caches err on the safe side |
| SpscQueue.PushAnswer | external/rigtorp/SPSCQueue.h:103-145 | every push that returns, over every run: it appended the value of its call, or it was a try_push and the queue was full |
| SpscQueue.FrontAnswer | external/rigtorp/SPSCQueue.h:165-176 | every front that returns is null exactly if the queue is empty at that step |
| SpscQueue.CallsProgress | external/rigtorp/SPSCQueue.h:103-190 | every step brings a call closer to its end, except a blocking push that waits on a full queue |
| SpscQueue.SizeIsExact | external/rigtorp/SPSCQueue.h:192-199 | size() from either end is the number of elements held at its load of the other end's index |
| BackPressure.Buffer.Append | external/uWebSockets/AsyncSocketData.h:33-35 | the visible bytes grow by the data |
| BackPressure.Buffer.Erase | external/uWebSockets/AsyncSocketData.h:36-43 | a prefix of the visible bytes goes, the dead prefix is at most 1/32 of what is stored, and the bound on shifted bytes is kept |
| BackPressure.ErasesExactly | external/uWebSockets/AsyncSocketData.h:36-43 | with the pending removal in a 32-bit word the right bytes stay visible exactly if the sum fits in it, as it does below 2^32 stored bytes; otherwise more are visible than before |
| BackPressure.ErasedComeBack | external/uWebSockets/AsyncSocketData.h:36-43 | an erase after which 98 bytes are visible instead of none |
| BackPressure.Buffer.Length | external/uWebSockets/AsyncSocketData.h:44-46 | the number of visible bytes |
| BackPressure.Buffer.Clear | external/uWebSockets/AsyncSocketData.h:47-51 | nothing is visible |
| BackPressure.Buffer.Resize | external/uWebSockets/AsyncSocketData.h:55-57 | grows by zeros or cuts the end; the dead prefix stays small exactly if what is left is at least 31 times as long |
| BackPressure.Replay | external/uWebSockets/AsyncSocketData.h:25-68 | over every run the visible bytes are those of a plain queue, the dead prefix is at most 1/32 of the stored bytes, and at most 31 bytes are shifted per byte erased |
| AsyncSocket.Socket.Drain | external/uWebSockets/AsyncSocket.h:245-269 | all of the backpressure is offered: the wire grows by exactly what the kernel's next answer accepts of it, exactly the rest is left, and it is stuck exactly if something is left; without backpressure the kernel is not asked |
| AsyncSocket.Socket.Send | external/uWebSockets/AsyncSocket.h:294-318 | the wire grows by exactly what the kernel's next answer accepts, the rest is held back unless the write is optional; it fails exactly if there is a rest, and what is taken is all, or what was accepted of an optional write |
| AsyncSocket.Socket.CorkOrSend | external/uWebSockets/AsyncSocket.h:271-322 | the stream grows by exactly the bytes reported, and count, failure, cork and backpressure are those of the account by lengths: data that fits in the cork buffer is taken whole |
| AsyncSocket.Socket.Write | external/uWebSockets/AsyncSocket.h:236-323 | the stream grows by exactly the bytes reported, how many is a function of the lengths and the kernel's answers, the mutual recursion with uncork ends, and another socket's cork is not touched |
| AsyncSocket.Socket.Uncork | external/uWebSockets/AsyncSocket.h:327-350 | the stream grows by exactly the bytes reported, how many is a function of the lengths and the kernel's answers, and a corked socket leaves the cork buffer free and empty |
| AsyncSocket.Account.WrittenInFull | external/uWebSockets/AsyncSocket.h:236-323 | a write that is not optional takes all its data, or none exactly if it overflows a cork with bytes in it and the kernel does not accept all of these |
| AsyncSocket.Account.SafeToWrite | external/uWebSockets/AsyncSocket.h:271-292 | it takes all its data whatever the kernel answers exactly if the socket is not corked, has nothing corked, or the data fits: known before the call |
| AsyncSocket.Account.UncorkedInFull | external/uWebSockets/AsyncSocket.h:327-346 | an uncork that is not optional takes all its data, or none exactly if the kernel does not accept all corked bytes |
| AsyncSocket.Account.SafeToUncork | external/uWebSockets/AsyncSocket.h:327-350 | it takes all its data whatever the kernel answers exactly if there is none, or the socket is corked with nothing in the cork: known before the call; on a socket that is not corked it takes nothing and does not fail |
| AsyncSocket.Account.OptionalHoldsNothing | external/uWebSockets/AsyncSocket.h:256-303 | an optional write or uncork adds nothing to the bytes held back |
| AsyncSocket.Account.WrittenOut | external/uWebSockets/AsyncSocket.h:236-323 | what a write sends, takes and reports: the backpressure, the corked bytes and the data are offered in this order, each if all before went out, and data that fits is corked; it fails exactly if not all that was offered goes out; an optional write takes exactly what goes out of its data |
| AsyncSocket.Account.UncorkedOut | external/uWebSockets/AsyncSocket.h:327-346 | an uncork of a corked socket likewise, and the cork is free and empty afterwards |
| AsyncSocket.DoneMoves | external/uWebSockets/AsyncSocket.h:132-350 | so for every call: bytes sent, bytes taken and failure by the bytes held back, the data and the kernel's answers |
| AsyncSocket.NothingFails | external/uWebSockets/AsyncSocket.h:245-322 | over every run, with answers at least as large as what can be offered no write or uncork on a socket fails and every write takes all its data |
| AsyncSocket.NothingHeldBack | external/uWebSockets/AsyncSocket.h:245-322 | and a socket that is only written to, without being corked, holds nothing back in the end |
| AsyncSocket.AllGoesOut | external/uWebSockets/AsyncSocket.h:245-322 | both for sockets freshly opened |
| AsyncSocket.Recovers | external/uWebSockets/AsyncSocket.h:245-269 | bytes the kernel refused go out with the next write, which does not fail |
| AsyncSocket.Socket.Cork | external/uWebSockets/AsyncSocket.h:133-142 | the socket gets the cork, or the program terminates when another socket's bytes are in it |
| AsyncSocket.Socket.RoomInBackPressure | external/uWebSockets/AsyncSocket.h:174-188 | our corked bytes move behind the backpressure, in order, with room after them |
| AsyncSocket.Socket.GetSendBuffer | external/uWebSockets/AsyncSocket.h:155-190 | hands out room at the very end of the stream, where and with which attribute depending exactly on backpressure, cork and space |
| AsyncSocket.Socket.Assemble | external/uWebSockets/AsyncSocket.h:155-190 | filling the room handed out appends exactly the data to the stream |
| AsyncSocket.Perform | external/uWebSockets/AsyncSocket.h:132-350 | a call on one socket changes no other socket's stream, only what it sees of the shared cork; how many bytes go on the wire, how many are taken and whether it fails is what the bytes held back, the data and the kernel's answers say |
| AsyncSocket.Serve | external/uWebSockets/AsyncSocket.h:132-350 | for any sockets, calls and answers of the kernel: all calls are made up to a cork that terminates the program, each takes the bytes and reports the failure its socket's account says, and what reached each wire followed by what is held back is, in order, what that socket's calls took |
| AsyncSocket.DroppedWrite | external/uWebSockets/AsyncSocket.h:334-342 | a run in which a write that is not optional takes nothing: it overflows a cork with bytes in it and the kernel accepts none of them |
| AsyncSocket.DroppedUncork | external/uWebSockets/AsyncSocket.h:334-349 | runs in which an uncork that is not optional takes nothing: there are corked bytes and the kernel accepts none, or the socket is not corked |
| AsyncSocket.EachCall | external/uWebSockets/AsyncSocket.h:132-350 | in every such run a write that is not optional takes all its data unless it overflows a cork that cannot be flushed, then nothing; and always all on a socket that was never corked; failures are reported as the account says |
| ChunkedEncoding.PackUnpack | external/uWebSockets/ChunkedEncoding.h:32-40 | the state word and its three bit fields determine each other |
| ChunkedEncoding.ConsumeHexNumber | external/uWebSockets/ChunkedEncoding.h:43-79 | the loops read one size line, or the part that is there |
| ChunkedEncoding.DropTrailer | external/uWebSockets/ChunkedEncoding.h:109-127 | drops the bytes left, or what there is of them |
| ChunkedEncoding.GetNextChunk | external/uWebSockets/ChunkedEncoding.h:104-191 | the loop ends and computes the specified next chunk, for every input and state |
| ChunkedEncoding.Iterate | external/uWebSockets/ChunkedEncoding.h:194-233 | iterating over a piece yields the chunks of all its calls |
| ChunkedRoundTrip.CallsReturnSlices | external/uWebSockets/ChunkedEncoding.h:104-191 | for every input and state a call leaves a suffix of its input and returns only a slice of what it consumed |
| ChunkedRoundTrip.AcceptedDigits | external/uWebSockets/ChunkedEncoding.h:47-59 | exactly which characters pass for digits, and that one of them counts 16 |
| ChunkedRoundTrip.OtherCharacterIsError | external/uWebSockets/ChunkedEncoding.h:45-57 | a call on a size line with any other character before the first space, control or non-ASCII byte ends in the error state and returns nothing |
| ChunkedRoundTrip.NumeralIsRead | external/uWebSockets/ChunkedEncoding.h:45-68 | a hex numeral is read as its value with the flags undisturbed, and the error state is reached exactly if the value is 2^60 or more |
| ChunkedRoundTrip.NumeralCut | external/uWebSockets/ChunkedEncoding.h:43-132 | a size numeral given in any number of pieces, with the test for the error after each, is read as its value, or the error state is reached exactly at the first piece whose prefix value is 2^60 or more; nothing is returned |
| ChunkedRoundTrip.PieceOfNumeral | external/uWebSockets/ChunkedEncoding.h:129-133 | one call on a piece of a size numeral goes on with the value, or ends in the error state exactly if the value is 2^60 or more |
| ChunkedRoundTrip.AfterError | external/uWebSockets/ChunkedEncoding.h:151-187 | what a call does in the error state: all data is returned as a chunk, and the state stays the error state exactly if its length is a multiple of 2^32 |
| ChunkedRoundTrip.ErrorForgotten | external/uWebSockets/ChunkedEncoding.h:129-187 | a size that is too large, and after it data that a caller who goes on gets as body, with the error forgotten |
| ChunkedRoundTrip.DrainFollows | external/uWebSockets/ChunkedEncoding.h:104-191 | on clean input draining a piece does what reading it byte by byte does |
| ChunkedRoundTrip.FeedFollows | external/uWebSockets/ChunkedEncoding.h:194-233 | so does draining any division of it into pieces, with the test for the error after each |
| ChunkedRoundTrip.EncodedRun | external/uWebSockets/ChunkedEncoding.h:150-165 | reading the encoding of chunks byte by byte yields their bodies in order |
| ChunkedRoundTrip.RoundTrip | external/uWebSockets/ChunkedEncoding.h:43-191 | for every list of non-empty chunks, however their sizes are written, and every division into pieces: the body in order, one empty last chunk, state 0, and the following bytes untouched |

## Left out

- Weak memory orders, fences, alignment and TSAN hooks: every atomic access is one sequentially consistent step.
- Exceptions from element constructors and assignments, and the paths that undo a partly constructed bulk enqueue.
- Explicit producer: `enqueue_bulk` and its rollback, `dequeue_bulk` over blocks, the destructor, and the counter that replaces the empty flags for blocks of more than 32 elements.
- ExplicitProducer.Producer.Dequeue: runs with nothing in between, so the branch that finds nothing after the optimistic count is not taken; interleavings are in DequeueProtocol.
- ImplicitProducer.Producer.Dequeue: runs with nothing in between, likewise; consumers that overlap are in DequeueProtocol and BlockRelease.
- ExplicitProducer.Replay: that the block ahead can be reused is stated of Enqueue, not in terms of the run.
- ImplicitProducer.Producer.EnqueueBulk: when a call gets memory for some of its blocks but not for all, only that it is all or nothing is stated.
- ImplicitProducer.Pool.Requisition: runs with nothing in between; the free list under concurrent use is FreeList.
- BlockRelease: takes the claimed index ranges as given, Delivery joins it with DequeueProtocol; each block of a bulk dequeue is looked up anew instead of stepping through a ring that may have been replaced meanwhile; a bulk enqueue that fails and gives its blocks back is in ImplicitProducer only.
- ProducerHash.Hash.GetOrAdd: the count is adjusted once, at the end, since operations are atomic; waiting for another thread's resize cannot occur then.
- ProducerHash: explicit producer tokens are only a kind the registry keeps apart; hash swapping and moving are not modelled.
- BackPressure.Buffer.Erase: adds without the 32-bit wrap-around; BackPressure.ErasesExactly says when the program does the same.
- AsyncSocket: lengths beyond the range of an int, closed sockets, the disabled SSL branch, capacity reservation, `corkUnchecked` and `uncorkWithoutSending`.
- ChunkedRoundTrip.RoundTrip: encodings made of hex digits and CR LF, without chunk extensions, in pieces shorter than 2^32 bytes.
- MpmcQueue and SpscQueue: tickets do not wrap around 64 bits; allocation and the padding of slots are not modelled.
- Consumer tokens, rotation between producers, and the queue-level `try_dequeue` over all producers: they only choose sub-queues.
- Applications, configuration schemas and their validation, scripts and the remaining libraries.
