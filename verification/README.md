# librdma: a verified model

librdma wraps RDMA connections, work requests and their completions, and brings its own hash table
(`src/uthash.h`), slot and event registries and a hash function. This project models the parts of it
whose correctness is not visible from one function body, and proves what callers rely on.

| file | models |
|---|---|
| `Options.dfy`, `Bits.dfy` | shared datatypes; `&`, `^`, `>>` of unsigned integers, on natural numbers |
| `Items.dfy`, `Links.dfy`, `Buckets.dfy`, `Chains.dfy`, `Expansion.dfy`, `Growth.dfy`, `Bloom.dfy`, `KeyMap.dfy`, `HashTable.dfy`, `HashHistory.dfy` | the hash table: the application-order list, the bucket chains, growth, the Bloom filter, lookup |
| `StableSort.dfy`, `HashSort.dfy` | the in-place list mergesort and the in-order add |
| `Counters.dfy`, `Completion.dfy`, `Waiting.dfy`, `Wakeup.dfy`, `InOrder.dfy`, `Overtaking.dfy` | 32-bit request ids, completions, the synchronous posts, and the runs in which they go wrong |
| `Teardown.dfy` | the completion poller against `destroy_connection` |
| `Regions.dfy`, `Handshake.dfy` | the region exchange and the life of a connection |
| `Bitmap.dfy`, `Slots.dfy`, `Reactor.dfy` | bitmap scans, the connection slots, the event registry |
| `Murmur.dfy`, `MurmurInverse.dfy`, `MurmurValues.dfy` | `murmurhash64`, undoing it, and three hashes worked out |

**Hash table.** An element and its handle are one object (`Item`), and `Table` is the user's head
variable together with the table record; a null head means that no table is allocated. `Valid` is
what `HASH_FSCK` checks and more. Sorting and in-order adding share one specification, `Isort`,
repeated insertion behind equal items, which is proved to be the only stable sorted rearrangement of
its input. The comparator is any function of the user's data; the hash is any function of the key.
A history may mix adds, in-order adds, replaces, deletes, finds and sorts. `Growth` says in plain
arithmetic what each of them does to the bookkeeping; a table that is not allocated counts as one just
made, with 32 empty buckets.

**Protocols.** Code that several threads run at once is a state machine whose steps are single
accesses to shared state (`Completion`, `Teardown`, `Slots`) or single actions of an event's handler
(`Handshake`), and the theorems quantify over all runs. Behind every 32-bit id stands an unbounded
serial number. The assumptions about the outside world are these:

- The adapter completes each queue in posting order, reports a success only for signaled requests,
  and after a failure reports everything behind it on that queue as failed. A queue holds
  `MAX_SEND_WR` requests that have not been retired by a polled completion; a post to a full queue
  ends the process. The completion queue is never overrun.
- Any number of threads post on each queue. `next_wr_id` and the post are separate steps, so request
  ids need not be in posting order. A queue with one poster has that order
  (`Completion.OnePosterInOrder`).
- Atomic operations are atomic, mutexes exclude, and memory is sequentially consistent.
- The connection manager delivers the events of one connection in their legal order, each at most
  once, and an accept's private data is delivered as it was when the accept was called. One thread
  handles the events of all the server's connections. The application calls `disconnect` or
  `leave_multicast_group` on a connection only while no event of it is being handled, and its
  disconnection event is not handled afterwards: nothing in the source keeps the two apart.
- User callbacks return. Regions are registered with `register_mr`. A connection has at most three regions when it is accepted, which is what
  `private_data` has room for although `MAX_MR` is 5.

**Where code and documentation differ.** `cmp_counters` compares with `UINT32_MAX / 2`, so its window
is lopsided and one distance short of the order of section 3.2 of RFC 1982; `Counters` states the
window and both ends. A synchronous post can return although its request failed: this needs 2^31 - 2
further posts behind the last success, and `InOrder.SyncReturnExactly` gives the exact condition for
posts in the order of the ids. With several posters on one queue the law fails without any failure: a
send overtaken between taking its id and posting can return too early, and the one that overtook it
can wait for ever. The exact conditions can be seen just before the post. A synchronous post can
return early if and only if a success recorded, on its way, or due from a signaled request on the
queue compares as at or past its id (`Waiting.EarlyReturnAtPost`). It can be left waiting after its
success, whatever fails later, if and only if nothing has failed yet on the queue and another thread
holds, unposted, the id of a signaled request that compares as before its own
(`Wakeup.MissedWakeupAtPost`); this counts ids up to 2^31 + 1 past its own.
`destroy_connection` waits for ever if it clears `running` before a new poller has set it;
`Teardown.TeardownFinishesExactly` says that this is the only way it can, and `Teardown.LateRun` is
such a run. Of the completions that have arrived when `running` is cleared, the poller handles all
before it exits, unless some arrived after it had found the queue empty and before it read `running`;
those it leaves (`Teardown.DrainedExactly`). `get_connection` rejects a socket number only above `MAX_CONNECTIONS`, although its
message says "less than": `Slots.LookupInBounds` shows that exactly `MAX_CONNECTIONS` is read outside
the arrays. A client gets the regions the server had when it built the accept's private data; regions
registered between that and the accept are not sent. `find_first_set_bit_and_empty` returns a cell
that holds neither 0 nor 1 without emptying it.

## Model

| member | source | states |
|---|---|---|
| Links.PushChain | src/uthash.h:854-859 | linking at the front of a chain prepends the item and keeps the chain doubly linked |
| Links.UnlinkChain | src/uthash.h:878-883 | unlinking removes exactly one item from a chain |
| Links.AppendApp | src/uthash.h:278-284 | appending adds the item behind the last one of the application-order list |
| Links.SpliceApp | src/uthash.h:370-377 | splicing in front of an item repairs both neighbours |
| Links.UnlinkApp | src/uthash.h:463-470 | the patch-up of a delete removes exactly one item from the list |
| Buckets.ToBktIsMod | src/uthash.h:430-433 | the bucket mask is the remainder by the number of buckets |
| Buckets.ToBktDouble | src/uthash.h:430-433 | doubling the buckets sends bucket b to b or b + n, and nowhere else |
| Buckets.IdealIsCeiling | src/uthash.h:897-913 | shift-and-mask is exactly the ceiling of items over new buckets |
| Buckets.IdealWithinThreshold | src/uthash.h:928-930 | when a bucket that reached its threshold triggers a doubling, the ideal chain length found is at most 10 |
| Buckets.ExpansionRestoresBounded | src/uthash.h:939-942 | after a doubling no bucket exceeds 10 * (expand_mult + 1), and all together leave at most 19 items per bucket |
| Buckets.BoundedUpdate | src/uthash.h:849-868 | adds below the threshold and deletes keep the growth invariant |
| Buckets.QuotientSum | src/uthash.h:939-942 | the floor divisions of all counts by the ideal length sum to at most items over ideal length |
| Chains.PushInto | src/uthash.h:849-860 | a new item is at the front of its bucket and counted; all other chains are as before |
| Chains.DelInBkt | src/uthash.h:871-884 | a removed item has left its bucket and its count; all other chains are as before |
| Chains.FindInBkt | src/uthash.h:827-846 | an item with this hash value and key before which none on the chain has both, or null if there is none |
| Bloom.BitSet | src/uthash.h:195-199 | setting a bit sets that bit and changes no other |
| Expansion.Redistribute | src/uthash.h:935-952 | every new chain is the reverse of what its one old chain holds for it; counts, multipliers and nonideal_items are exact |
| Expansion.SplitLosesNothing | src/uthash.h:935-952 | the two halves of an old chain together hold exactly its items, each half those that hash to it |
| Expansion.SplitReverses | src/uthash.h:944-949 | within a new chain the old order is reversed |
| HashTable.Table.MakeTable | src/uthash.h:212-242 | a fresh table is empty, with no Bloom bit set and no ineffective expansion counted, and within the growth invariant |
| HashTable.Table.ExpandBuckets | src/uthash.h:915-963 | items are kept, buckets double, ideal length, multipliers and nonideal items are exact, and the second ineffective doubling in a row inhibits further ones |
| HashTable.Table.AddToBkt | src/uthash.h:849-868 | the item is linked in, the table doubles exactly if its bucket reaches ten items per unit of multiplier and one more ten, with the bookkeeping of `Growth.Doubled`, and otherwise nothing but that bucket's count changes |
| HashTable.Table.AddKeyptrByHashvalue | src/uthash.h:396-415 | the table stays valid, its items are the old ones followed by the new one, and the bookkeeping and the Bloom bits are those of one add, from a table just made if it was empty |
| HashTable.Table.AddKeyptrByHashvalueInorder | src/uthash.h:350-381 | the table stays valid and its items are the old ones with the new one in front of the first greater; bookkeeping and Bloom bits as for any add |
| HashTable.Table.FindPlace | src/uthash.h:286-293 | the first item that compares greater |
| HashTable.Table.Delete | src/uthash.h:450-477 | the table stays valid, exactly this item is gone and its bucket counts one less; the rest of the bookkeeping stays; the last delete frees the table |
| HashTable.Table.FindByHashvalue | src/uthash.h:156-166 | Bloom filter or not: an item with the hash value and key before which none on its chain has both, and null exactly when no item of the whole table has |
| HashTable.Table.Find | src/uthash.h:168-173 | lookup agrees with the map the table stands for |
| HashTable.Table.ReplaceByHashvalue | src/uthash.h:254-262 | whatever the keys: the match found is returned and gone, the new item is last, and the table doubles exactly if the bucket is at its threshold afterwards |
| HashTable.Table.AddNewKey | src/uthash.h:417-428 | an add of a new key binds that key and puts the item last |
| HashTable.Table.AddNewKeyInorder | src/uthash.h:384-393 | an in-order add of a new key binds that key and puts the item where insertion does |
| HashTable.Table.Replace | src/uthash.h:265-270 | the map gets the new binding, the replaced item is returned and gone, the new one is last |
| HashHistory.History.Do | src/uthash.h:254-477 | any history of adds, in-order adds, replaces, deletes, finds and sorts, duplicate keys and returning items included: the table stays valid, the record of what each operation did to the list and to the bookkeeping allows every step, and the bookkeeping tells of all doublings |
| HashHistory.StepTells | src/uthash.h:955-958 | whatever is done, the bookkeeping tells of all doublings since the table was made: how many there were, and doubling is inhibited exactly if two in a row left more than half of the items beyond the ideal length |
| Growth.DoubledTells | src/uthash.h:915-963 | one doubling adds its verdict to that record |
| Growth.TalliedIsMeasured | src/uthash.h:938-941 | after a doubling a bucket's multiplier is 0 up to the ideal length and the floor of count over ideal above it; nonideal items are those beyond |
| Growth.DeleteThenAdd | src/uthash.h:254-262 | a replace leaves its bucket with as many items as before and doubles exactly at the threshold |
| Bloom.IndexIsMod | src/uthash.h:195-202 | the Bloom index is the hash modulo the number of bits |
| HashHistory.UniqueDetermined | src/uthash.h:254-477 | with unique keys each operation is allowed one outcome, that of a map that remembers insertion order |
| HashHistory.Run | src/uthash.h:254-262 | any history with unique keys behaves like that map |
| HashHistory.WithoutKeyIsWithout | src/uthash.h:447-477 | with unique keys, deleting what a key finds removes that key only |
| KeyMap.ByKeyWithout | src/uthash.h:450-477 | taking one item out takes its key out of the map and nothing else |
| KeyMap.ByKeyReplace | src/uthash.h:254-262 | replacing the holder of a key rebinds that key only |
| KeyMap.ByKeyWith | src/uthash.h:396-415 | putting an item with a new key in, anywhere, binds that key only |
| StableSort.MergeOfSorts | src/uthash.h:998-1034 | merging two stably sorted runs stably sorts their concatenation |
| StableSort.PassDoublesRuns | src/uthash.h:980-1048 | a pass turns sorted runs of length n into sorted runs of length 2n |
| StableSort.IsortIsStable | src/uthash.h:286-293 | insertion behind equal items sorts, rearranges and is stable |
| StableSort.StableSortIsIsort | src/uthash.h:966-970 | there is exactly one stable sorted rearrangement |
| StableSort.InsertExtendsSort | src/uthash.h:350-381 | one in-order add to a stably sorted list gives the stable sort of everything added; the newest is behind its equals |
| StableSort.InsertAtPlace | src/uthash.h:286-293 | the place at which the scan stops is the place of insertion |
| HashSort.SkipRun | src/uthash.h:988-996 | the left run is the next insize items, or all that are left |
| HashSort.MergeRuns | src/uthash.h:997-1034 | relinking appends the stable merge of both runs to the output and leaves the rest alone |
| HashSort.Pass | src/uthash.h:980-1048 | one pass merges neighbouring runs; it needs at most one merge exactly when two runs cover the list |
| HashSort.AddAllInorder | src/uthash.h:350-393 | any sequence of in-order adds to an empty table leaves the stable sort of what was added |
| HashSort.Sort | src/uthash.h:970-1052 | for every comparator the sort ends with a valid table of the same items; for a total preorder it is the stable sort |
| Counters.CmpByDistance | src/utils.h:67-74 | the comparison depends on the distance modulo 2^32 only |
| Counters.CmpInWindow | src/utils.h:67-74 | for distances from -(2^31 + 1) to 2^31 - 2 it orders the unbounded counters |
| Counters.WindowIsTight | src/utils.h:67-74 | one step beyond either end it is wrong |
| Counters.CmpAgainstRfc1982 | src/utils.h:67-74 | against serial number arithmetic it differs at distance 2^31 - 1 only |
| Completion.StepKeeps | src/connection.c:360-402 | every step of posters, adapter and poller keeps the invariant of both queues |
| Completion.OnePosterInOrder | src/verbs_wrap.h:79-88 | a queue used by one thread only is posted to in the order of its ids |
| Waiting.StepKeepsAhead | src/connection.c:375-402 | what can still end a wait from ahead only shrinks, whatever any thread, the adapter or the poller does |
| Waiting.EarlyReturnExactly | src/verbs_wrap.c:224-229 | any posters, any failures: a synchronous post may yet return before its request is carried out if and only if it has not been and a success ahead of it ends its wait |
| Waiting.EarlyReturnAtPost | src/verbs_wrap.c:41-45 | the same, decided just before the post |
| Waiting.OvertakenExactly | src/utils.h:67-74 | with the ids ahead in the compare's window: if and only if one of them is larger |
| Wakeup.WakeupMissedExactly | src/connection.c:375-385 | any posters, any failures before or after: a waiting thread may be left waiting though its request succeeded if and only if the success recorded last can be one that does not end its wait: the last on its way, a pending one, or one not yet posted |
| Wakeup.SyncPostCompletes | src/verbs_wrap.c:41-45 | from every reachable state of an unfailed queue with room, a synchronous post gets the next id and place, and some continuation carries it out, records it and returns |
| Wakeup.AsyncPost | src/verbs_wrap.c:385-414 | an asynchronous post gets the next id and place and returns at once; carried out, it is reported exactly if signaled |
| Wakeup.StepKeepsWakeup | src/connection.c:375-402 | a wake-up that cannot be missed stays so, whatever any thread, the adapter or the poller does and whatever fails |
| Wakeup.MissedWakeupAtPost | src/verbs_wrap.h:79-88 | the same just before the post: if and only if nothing has failed and another thread holds an unposted id that does not end the wait |
| InOrder.SyncReturn | src/verbs_wrap.c:265-270 | a synchronous post not misled from ahead returns only after its request and every one posted before it were carried out, and does return once a success up to 2^31 + 1 ids past it is recorded |
| InOrder.SyncReturnExactly | src/connection.c:375-385 | posts in id order, failures included: returning implies success exactly when the last success is at or past the request, or the distance wraps into the window |
| InOrder.SpinEndsByDistance | src/connection.c:375-385 | when the spin loop ends, in every reachable state |
| InOrder.DistanceBounded | src/common.h:29-30 | with posts in id order and no polled failure, no wait is misled, and it is at most two queue depths ahead of the last success |
| InOrder.InOrderPostIsSafe | src/verbs_wrap.c:321-327 | a synchronous post in id order, made before a failure is polled, never returns early, whatever follows, and is never left waiting after its success, whatever fails, while no id more than 2^31 + 1 past its own is taken |
| InOrder.OnePosterIsSafe | src/verbs_wrap.h:79-88 | the same holds for those of a single poster |
| Overtaking.OvertakenReturnsEarly | src/verbs_wrap.c:41-45 | with two posters and no failure, a synchronous send returns before the adapter has touched its request |
| Overtaking.OvertakerMissesCompletion | src/connection.c:375-385 | and the other one keeps waiting although it has succeeded and nothing is left to wake it |
| Overtaking.SyncReturnsAfterFailures | src/verbs_wrap.c:321-327 | one poster: a reachable state in which a synchronous send returns although nothing was ever carried out |
| Teardown.NoUseAfterFree | src/connection.c:405-419 | in every interleaving the poller's last access comes before the completion queue and the context are released |
| Teardown.FinishedReleases | src/connection.c:573-630 | a finished teardown has released queue and context, behind the poller's exit |
| Teardown.NoneLost | src/connection.c:387-403 | every completion that arrived is queued, in hand or handled |
| Teardown.DrainedExactly | src/connection.c:414-417 | what had arrived when running was cleared is handled before the poller exits, except exactly if the poller had just found the queue empty and more had arrived since |
| Teardown.TeardownFinishesExactly | src/connection.c:573-591 | under fair scheduling teardown finishes exactly if the poller set running before it was cleared |
| Teardown.PollerExits | src/connection.c:405-419 | once running is cleared on time the poller exits |
| Teardown.LateRun | src/connection.c:405-409 | a fair run in which running is cleared while the poller is starting, and which never finishes |
| Teardown.LateNeverFinishes | src/connection.c:587-589 | a poller that starts late keeps the wait loop going for ever |
| Regions.RegionContext.RegisterMr | src/mr.c:5-32 | each region newly registered has the address and length asked for and the key granted, those registered before stay; failure and more than five regions are reported |
| Regions.Exchange | src/mr.c:5-47 | registering at most three regions, describing them in a buffer and reading it gives the peer exactly the addresses and lengths asked for and the keys granted |
| Regions.RegionContext.BuildPrivateData | src/connection.c:165-176 | the buffer becomes `Build` of its old contents and the local regions: entries at and beyond the count keep what they held |
| Regions.RegionContext.UpdateRemoteMr | src/mr.c:34-47 | the remote regions below the count become `Decode` of the message, the others stay |
| Regions.DecodeBuild | src/connection.c:165-221 | decoding what was built describes the regions, whatever the reused buffer held |
| Regions.DescribedFaithfully | src/connection.c:168-170 | the 32-bit length sent is the region's length exactly for regions below 4 GiB |
| Regions.DescribedExactly | src/mr.c:18-22 | regions registered with a 32-bit length are described exactly |
| Regions.RegisterTwice | src/mr.c:18-22 | registering again changes nothing |
| Handshake.RegionsArrive | src/connection.c:297-326 | in every interleaving, a client that reached its connect callback has exactly the server's regions, addresses, lengths and keys, as they were when the accept's private data was built |
| Handshake.ConnectionCompletes | src/connection.c:223-358 | from every reachable state, a new connection with at most three server regions can go through both scripts to the end, and its client gets exactly those regions |
| Handshake.MemberCompletes | src/agent.c:255-272 | so can a multicast member |
| Handshake.BufferIsOwn | src/connection.c:309-312 | at every accept the one reused buffer describes the accepted connection's own regions |
| Handshake.LifeFollowsScript | src/connection.c:223-358 | every endpoint is set up, called back, disconnected and destroyed in order and at most once, is READY during its connect callback and until its disconnect callback, and is never destroyed while READY |
| Handshake.StepKeeps | src/agent.c:325-357 | every action of every handler keeps all endpoints on their script and the data in flight truthful |
| Bitmap.FindFirstEmptyBit | src/utils.h:90-95 | the lowest empty cell, or -1 |
| Bitmap.FindNextEmptyBit | src/utils.h:97-102 | the lowest empty cell behind an index, or -1 |
| Bitmap.FindFirstSetBit | src/utils.h:111-116 | the lowest set cell, or -1 |
| Bitmap.FindNextSetBit | src/utils.h:118-123 | the lowest set cell behind an index, or -1 |
| Bitmap.FindFirstEmptyBitAndSet | src/utils.h:83-88 | the lowest empty cell is claimed and no other changes |
| Bitmap.FindFirstSetBitAndEmpty | src/utils.h:104-109 | the lowest set cell is returned, and emptied if it held 1 |
| Bitmap.FindBitmapWeight | src/utils.h:125-131 | the sum of all cells |
| Bitmap.GetNextConnection | src/connection.c:479-493 | the next set slot behind the cursor, or -1 |
| Bitmap.IterationVisitsSetSlots | src/connection.c:479-493 | iterating from -1 visits exactly the set slots, in ascending order, each once |
| Bitmap.IterationCountIsWeight | src/connection.c:475-477 | the number of steps is the connection count |
| Slots.MoveKeeps | src/agent.c:48-69 | every single access of reserve, publish, free and lookup keeps the slot invariant |
| Slots.SlotsExclusive | src/agent.c:48-69 | in every interleaving no slot belongs to two threads or contexts |
| Slots.LookupSound | src/connection.c:460-473 | an unlocked lookup of any number yields null or a context with that socket number, even if the slot is reused between its reads |
| Slots.LookupFinds | src/connection.c:460-473 | whatever other threads do during a lookup: if some live context has its number all the while, it is one and the same and the lookup finds it; so null means that at some moment there was none |
| Slots.LookupNeverWaits | src/connection.c:469-472 | a lookup in range takes its two reads without waiting |
| Slots.MutexIsReleased | src/agent.c:48-69 | whenever no thread is in a critical section the mutex is free and every idle thread can open |
| Slots.OpenTakesLowest | src/agent.c:48-61 | an open left alone publishes a new context in the lowest free slot, changes nothing else and gives the mutex back |
| Slots.CloseFrees | src/agent.c:63-69 | a close left alone frees its slot, changes nothing else and gives the mutex back |
| Slots.ContextIsNew | src/connection.c:18-24 | a context being made is not live, on the map, or in anyone's hands |
| Slots.FoundIsAround | src/connection.c:469-470 | at the second read the context found is live, or being closed and still on the map |
| Slots.LookupInBounds | src/connection.c:461-467 | of all numbers the guard lets through, exactly the table size is read outside the arrays |
| Slots.ReadsOutside | src/connection.c:464-469 | a reachable state in which a lookup of the table size is about to read outside the arrays |
| Slots.LiveIsFound | src/agent.c:107-111 | both reads of a lookup see a live context |
| Slots.ScanIsFair | src/agent.c:50-58 | a claim takes the lowest free slot, and the process exits for want of one only if all are taken |
| Reactor.Context.StoreEvent | src/reactor.c:71-77 | the record goes to the lowest free slot |
| Reactor.Context.FreeEvent | src/reactor.c:82-95 | the lowest slot with this descriptor is emptied and its record freed, or nothing changes |
| Reactor.Context.AddEventFd | src/reactor.c:97-129 | registry and interest set gain the same record and stay in bijection |
| Reactor.Context.DelEventFd | src/reactor.c:131-143 | registry and interest set lose the same record, which is freed |
| Reactor.Context.DestroyReactor | src/reactor.c:26-38 | every record ever created has then been freed exactly once |
| Reactor.StoreAgrees | src/reactor.c:71-77 | storing in a free slot keeps the bijection |
| Reactor.FreeAgrees | src/reactor.c:82-95 | emptying a slot keeps the bijection |
| Reactor.AllFreedOnce | src/reactor.c:26-38 | freed so far plus still registered is every record once |
| Murmur.Murmur64 | src/utils.c:64-109 | the loop and the fall-through switch compute the specified hash |
| MurmurInverse.SeedComesBack | src/utils.c:64-109 | for every key of any length, undoing the hash step by step with written-out constants and little-endian sums gives the seed |
| MurmurInverse.BlockComesBack | src/utils.c:73-82 | a key of eight bytes comes back from its hash and seed as its little-endian sum |
| MurmurInverse.TailComesBack | src/utils.c:86-102 | so does a key of one to seven bytes |
| MurmurValues.EmptyKey | src/utils.c:64-109 | the hash of the empty key with seed 1 |
| MurmurValues.OneByte | src/utils.c:64-109 | the hash of "a" with seed 0 |
| MurmurValues.OneBlock | src/utils.c:64-109 | the hash of "12345678" with seed 0 |
| Murmur.NoCollisionInOneBlock | src/utils.c:64-109 | different keys of one length that agree outside one 8-byte block, or outside the tail, never collide |
| Murmur.MulInjective | src/utils.c:65-65 | multiplying by the odd constant loses nothing modulo 2^64 |
| Murmur.AbsorbInjective | src/utils.c:73-82 | absorbing a block is injective in the state and in the block |
| Murmur.TailInjective | src/utils.c:86-102 | the tail switch is injective in the state and in the tail bytes |
| Murmur.FinishInjective | src/utils.c:104-106 | the final mixing is injective |
| Bits.XorShiftInvolution | src/utils.c:77-77 | a right xor-shift by at least half the width undoes itself |
| Bits.AndMask | src/uthash.h:430-433 | masking with 2^k - 1 is the remainder by 2^k |

## Left out

- 32-bit wrap-around of the hash table's counters: items are assumed to stay below 2^31, and a bucket array of 2^32 entries to be unallocatable.
- The recoverable out-of-memory build, key emission, the builds without `typeof`, `HASH_SELECT` and `HASH_CLEAR`; the Jenkins hash and its alternatives matter only as a function of the key.
- Threaded parts of `src/connection.c`, `src/verbs_wrap.c` and `src/agent.c` are modelled on values, one step per access: in-place update of the context and aliasing between contexts are not captured there.
- `post_wr_async`, `post_wr_sync` and shared receive queues, whose request ids the caller chooses; requests refused for their number of scatter entries.
- InOrder.SyncReturnExactly: asks that posts follow the ids; `Waiting.EarlyReturnExactly` is the condition without.
- Wakeup.WakeupMissedExactly: counts ids up to 2^31 + 1 past the own one; beyond that, later successes can undo the wake-up of any thread that has not looked in between. So do Wakeup.MissedWakeupAtPost and the two corollaries in `InOrder`.
- HashTable.Table.Find: speaks of tables whose items were added with the hash of their keys; `FindByHashvalue` covers every table.
- HashTable.Table.Replace: speaks of such tables with unique keys; `ReplaceByHashvalue` covers every table.
- HashTable.Table.AddNewKey: speaks of such tables and a new key; `AddKeyptrByHashvalue` covers every table and key.
- HashTable.Table.AddNewKeyInorder: speaks of such tables and a new key; `AddKeyptrByHashvalueInorder` covers every table and key.
- The in-order replace, which is a delete and an in-order add.
- Regions.RegionContext.BuildPrivateData: leaves out four and five regions, which the source writes beyond its arrays.
- Regions.RegionContext.UpdateRemoteMr: leaves out received counts above three, which the source reads beyond its arrays.
- Reactor.Context.StoreEvent: leaves out a full registry, where the source writes in front of its arrays; so does Reactor.Context.AddEventFd, and a failing `epoll_ctl`.
- Teardown of a reactor-mode connection, and of one without a completion queue: there is no poller to wait for.
- The exit flags of `rdma_event_loop`, address resolution, rejected connections and unknown events, which end the process or the loop.
- Handshake.RegionsArrive: takes for granted that an event's private data is still readable when it is handled, though the event has been acknowledged before.
- Failed epoll calls, a full registry, and handlers that run while their descriptor is being deleted.
- `zipf`, `uniform`, `fastrand`, logging, timing, string helpers and the example programs.
