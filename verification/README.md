# Storage kernel: verified models of its allocators, indexes and thread pool

A Dafny model of the stateful core of a search engine's storage kernel, with proofs about whole runs.
`dafny verify dfyconfig.toml` checks everything.

**Page arena** (`SizeClasses`, `BuddyLayout`, `BuddySpec`, `BuddyOverrun`, `BuddyHeads`, `BuddyHeader`,
`ThreadedLists`, `PageMemTable`). The abstract arena holds free lists and outstanding blocks; its invariant is that together they tile the space between header and cursor. The
class works on list heads and next words in memory and refines it. The number of list heads is a parameter: the source has
six, and a merge climbs past them. Runs stay inside the table exactly when it has twelve heads or more: with fewer, taking
every page and giving them back from the lowest one up makes the lists count in binary until the carry leaves the table.

**Hash index** (`HashBucket`, `HashChains`, `HashSteps`, `HashReuse`, `HashOrder`, `MurmurHashTable`, `HashRuns`). Chains are
rings that return to their primary slot. The abstract state is a map from fingerprints to values, where a key's fingerprint is
its primary slot with the exact bytes (up to two), or with length, check hash and two bytes of the payload hash. The slot that
the pool hands out for an overflow bucket is a parameter. `Delete` gives a lone primary slot back to the pool, and a pool with
its free list on may then hand it out as an overflow bucket. `HashReuse` proves exactly which slots keep the index right;
runs in which released overflow slots come back are covered.

**Sorted index** (`SortKeys`, `SortSearch`, `SortBatch`, `SortOrder`, `SortTable`, `SortRuns`). Search by several probes a round, three ways
of adding a record, a backward merge in place and a two-pointer compaction, against a map from hash keys to values.

**Queue and thread pool** (`BoundedQueue`, `ThreadPool`, `ThreadPoolLive`, `ThreadPoolSlots`, `ThreadPoolStop`). The queue's linked nodes refine a bounded
sequence. The pool is a transition system: each locked region is one step, and so are the unlocked checks of the status and of
the empty queue. When a task runs, which worker gets it, what is lost and why `Stop` returns are statements about
every interleaving.

**Pool with delayed free** (`PoolBlocks`, `PoolSpace`, `MMapPool`, `FreeListFile`, `FreeListDump`, `PoolMoves`, `PoolReopen`,
`PoolStale`, `PoolRuns`).
Blocks in use, pending, free and dropped divide the space past the reserve. The free list is dumped to bytes and read back at
another base address, and runs go on across that.

`Bits` and `Bytes` hold powers of two and little-endian numbers.

Six properties one would expect are false of the code. Each is shown to fail, and each has its exact condition:

- A merge stays inside the table of list heads: `BuddyOverrun.SixLevelsOverrun` is a run that leaves it, and
  `BuddyHeads.TwelveHeadsExactly` says for which table sizes no run does.
- A key inserted can be found, whichever slot the pool hands out: `HashRuns.ReleasedSlotRun`, and
  `HashReuse.ServedIffBehindPrimaries`.
- A key inserted can be found, however long: `HashReuse.LongKeysNeverFound` for 256 bytes and more, and
  `MurmurHashTables.MurmurHashTable.Insert` for all up to 255.
- A batch insertion keeps the table strictly sorted: `SortTables.RepeatedKeyRun`, and `SortBatch.MergeStrictIff`.
- An accepted task runs before `Stop` returns: `ThreadPoolStop.AcceptedTaskCanBeLost`, and
  `ThreadPoolStop.RunsIffAcceptedInTime`.
- A pool that is closed and opened again hands out no block in use: `PoolStale.StaleListRun`, and
  `PoolReopen.CloseAndReopen`.

## Model

| member | source | states |
|---|---|---|
| `SizeClasses.FindLevel` | kernel/pool/arena_buddy_pool/page_mem_table.h:181-190 | the least page level whose block holds the size, and none exactly for sizes above 128 KB; every size routed to the page or slab tables gets one |
| `SizeClasses.FindSlabLevel` | kernel/pool/arena_buddy_pool/page_mem_table.h:192-201 | the least slab level that holds the size, none exactly above 2048; waste below 8 bytes up to 128 and below 64 bytes above |
| `BuddySpec.MergeKeepsTiling` | kernel/pool/arena_buddy_pool/page_mem_table.cc:178-209 | a merge that stays inside the table of list heads leaves free and outstanding blocks tiling the same range: inside, pairwise disjoint, without a gap, sizes adding up; the freed block is no longer outstanding |
| `BuddySpec.MergeStepTiles` | kernel/pool/arena_buddy_pool/page_mem_table.cc:187-200 | one climb of the merge: the block and its list neighbour leave, the block of the next level takes their place, and the tiling stays |
| `BuddySpec.EscapeNeedsEveryLevel` | kernel/pool/arena_buddy_pool/page_mem_table.cc:187-202 | a merge that climbs past the last list head found a free block on every level from its own up |
| `BuddySpec.LevelsInArena` | kernel/pool/arena_buddy_pool/page_mem_table.h:165-168 | a block of a level above eleven is larger than the whole arena |
| `BuddySpec.TwelveLevelsSuffice` | kernel/pool/arena_buddy_pool/page_mem_table.cc:178-209 | over a table of twelve or more list heads no merge of an outstanding block climbs past the last one, and its level is at most eleven |
| `BuddySpec.TwelveLevelsNeverOverrun` | kernel/pool/arena_buddy_pool/page_mem_table.cc:192-201 | no operation of any run over twelve list heads overruns the table |
| `BuddyOverrun.SixLevelsOverrun` | kernel/pool/arena_buddy_pool/page_mem_table.cc:178-209 | over the source's six list heads the guard is missing for real: from initialisation, five splits, one unit allocation, one extension and one free of an outstanding page, all legal, make the merge climb to a seventh list head |
| `BuddyHeads.TwelveHeadsExactly` | kernel/pool/arena_buddy_pool/page_mem_table.cc:178-209 | for every table size from six list heads up and every place of the arena: no operation of any run from initialisation climbs past the table if and only if it has at least twelve heads |
| `BuddyHeads.CarriesOutIff` | kernel/pool/arena_buddy_pool/page_mem_table.cc:187-202 | when pages come back from the lowest one up the lists count in binary, and the merge climbs past the last head exactly when every digit is set |
| `BuddyHeads.CountsOn` | kernel/pool/arena_buddy_pool/page_mem_table.cc:187-209 | otherwise the lists stand for the next number after the merge |
| `BuddyHeads.PageIsOut` | kernel/pool/arena_buddy_pool/page_mem_table.cc:90-138 | when every list is empty and only pages were handed out, every page below the cursor is an outstanding one |
| `BuddySpec.CutKeepsTiling` | kernel/pool/arena_buddy_pool/page_mem_table.cc:115-136 | cutting the first block of a higher list down to a level, handing out the lowest part and listing the upper halves keeps the tiling |
| `BuddySpec.SplitHandsOut` | kernel/pool/arena_buddy_pool/page_mem_table.cc:111-138 | a split fails exactly when every higher list is empty and then changes nothing; otherwise exactly one block of the level, not outstanding before, becomes outstanding |
| `BuddySpec.UnitHandsOut` | kernel/pool/arena_buddy_pool/page_mem_table.cc:90-109 | a unit allocation fails exactly when every list is empty and then changes nothing; otherwise one page, not outstanding before, becomes outstanding |
| `BuddySpec.FitsIff` | kernel/pool/arena_buddy_pool/page_mem_table.h:145-152 | the bump cursor supplies the block of level k exactly while the blocks up to k fit before the arena's end |
| `BuddySpec.ExtendKeepsTiling` | kernel/pool/arena_buddy_pool/page_mem_table.cc:140-153 | adding one block per level at the cursor keeps the tiling, up to the moved cursor |
| `BuddySpec.InitialIsGood` | kernel/pool/arena_buddy_pool/page_mem_table.h:67-94 | initialisation leaves the six blocks tiling the space from the header's end to the cursor |
| `BuddySpec.StepKeepsGood` | kernel/pool/arena_buddy_pool/page_mem_table.cc:90-209 | every operation that does not overrun the table keeps the arena's invariant |
| `BuddySpec.RunFromInit` | kernel/pool/arena_buddy_pool/page_mem_table.cc:90-209 | after every run from initialisation the free and outstanding blocks tile the space between header and cursor, and their sizes add up to it |
| `BuddySpec.OutstandingBelongs` | kernel/pool/arena_buddy_pool/page_mem_table.h:131-138 | every outstanding block passes the strict membership test by which a freed block finds its table |
| `BuddyHeader.BelongsToOne` | kernel/pool/arena_buddy_pool/page_mem_table.h:131-138 | of two arenas that lie apart, an outstanding block of the one passes its membership test and not that of the other |
| `BuddyHeader.HeaderIsSafe` | kernel/pool/arena_buddy_pool/page_mem_table.h:67-94 | in every run from initialisation over six list heads, every block, free or outstanding, lies behind every record of the header: the table fields, the six list heads, the forty-six slab records |
| `BuddyHeader.RecordsApart` | kernel/pool/arena_buddy_pool/page_mem_table.h:154-163 | the 53 records of the header lie apart from one another, at the addresses the source computes for list heads and slab records |
| `BuddyHeader.FirstBlock` | kernel/pool/arena_buddy_pool/page_mem_table.h:75-86 | the last slab record ends 824 bytes into the arena, the first block begins there, and it is what the first unit allocation hands out |
| `ThreadedLists.TilingSeparates` | kernel/pool/arena_buddy_pool/page_mem_table.cc:178-209 | under the tiling no address is on two lists or twice on one, so the threaded lists are acyclic and disjoint, and outstanding blocks are on none |
| `ThreadedLists.UnlinkThreads` | kernel/pool/arena_buddy_pool/page_mem_table.cc:194-200 | taking the j-th element off a threaded list by rewriting one word leaves every list threaded |
| `PageMemTables.PageMemTable.Init` | kernel/pool/arena_buddy_pool/page_mem_table.h:67-94 | the constructor's list heads and words in memory thread exactly the initial free lists |
| `PageMemTables.PageMemTable.AllocMem` | kernel/pool/arena_buddy_pool/page_mem_table.h:145-152 | the cursor moves exactly when the length fits; otherwise nothing changes and the error offset comes back |
| `PageMemTables.PageMemTable.ExtendPageMem` | kernel/pool/arena_buddy_pool/page_mem_table.cc:140-153 | the words and heads written refine the extension of the abstract arena; success exactly when all six blocks fit |
| `PageMemTables.PageMemTable.SplitFromHighLevel` | kernel/pool/arena_buddy_pool/page_mem_table.cc:111-138 | the level loop over list heads and next words refines the abstract split, and returns its address |
| `PageMemTables.PageMemTable.GetUnitFromPageLevel` | kernel/pool/arena_buddy_pool/page_mem_table.cc:90-109 | popping the first list, or splitting when it is empty, refines the abstract unit allocation |
| `PageMemTables.PageMemTable.MergePageLevel` | kernel/pool/arena_buddy_pool/page_mem_table.cc:178-209 | the list walk with wrap-around address comparison and the recursive climb terminate and refine the abstract merge; they stay inside the table exactly when the abstract merge does |
| `PageMemTables.PageMemTable.FreeDataByPage` | kernel/pool/arena_buddy_pool/page_mem_table.cc:167-176 | a free by size goes to the level of the least block that holds the size |
| `MurmurHashTables.SetBucketNum` | kernel/index/hash_table/murmurhash_table.cc:89-99 | the least power of two at or above max(2, request); exact for every request up to 2^31, and only for those |
| `MurmurHashTables.HomeIsRemainder` | kernel/index/hash_table/murmurhash_table.cc:101-106 | masking the hash with a power of two less one is the 32-bit hash modulo the number of primary slots, so it always selects one |
| `MurmurHashTables.MarksAgreeIff` | kernel/index/hash_table/murmurhash_table.cc:166-176 | two keys of one or two bytes have one fingerprint exactly when they are equal, two longer ones exactly when their lengths, their 32-bit check hashes and the low sixteen bits of their payload hashes agree, a short and a long one never |
| `MurmurHashTables.KeysCollideIff` | kernel/index/hash_table/murmurhash_table.cc:101-176 | so two long keys are one key to the table exactly when these and their slots agree |
| `HashBuckets.HashBucket.SetKeyInPayload` | kernel/index/hash_table/hash_bucket.h:58-66 | a short key is stored with its length; bytes the key does not reach and all other fields stay |
| `HashBuckets.HashBucket.CheckKeyInPayload` | kernel/index/hash_table/hash_bucket.cc:20-47 | true exactly when the bucket holds a short key equal to the given one |
| `HashBuckets.HashBucket.SetValue` | kernel/index/hash_table/hash_bucket.h:80-82 | the value is kept in 48 bits, signed |
| `HashBuckets.StampedMatchesOnlyIts` | kernel/index/hash_table/murmurhash_table.cc:132-151 | a bucket stamped with one fingerprint over whatever it held before matches that fingerprint and no other |
| `HashBuckets.CanonicalMatchesOnce` | kernel/index/hash_table/murmurhash_table.cc:120-133 | an occupied bucket matches a fingerprint exactly when it is the bucket's own |
| `HashChains.ProbeFollowsPath` | kernel/index/hash_table/murmurhash_table.cc:115-134 | following links from a primary slot on bare memory meets exactly the buckets of its ring and stops at the fingerprint's place or at the end |
| `HashSteps.Link` | kernel/index/hash_table/murmurhash_table.cc:146-151 | linking a fresh bucket behind the last one keeps the rings: chains disjoint, finite, each returning to its own primary slot |
| `HashSteps.Vacate` | kernel/index/hash_table/murmurhash_table.cc:252-253 | clearing the occupied flag leaves a tombstone that keeps every ring, and takes exactly the one fingerprint out of the map |
| `HashSteps.PullUp` | kernel/index/hash_table/murmurhash_table.cc:257-261 | moving the second bucket into the primary slot and clearing it keeps rings, places and the map |
| `HashReuse.WellFormedServes` | kernel/index/hash_table/murmurhash_table.cc:285-294 | under the ring invariant a search of bare memory answers every fingerprint as the map does |
| `HashReuse.ServedIffBehindPrimaries` | kernel/index/hash_table/murmurhash_table.cc:146-151 | when an insertion needs a bucket from the pool, the memory after it answers every search as the updated map does if and only if the slot the pool gave lies behind the primary slots |
| `HashReuse.LongKeysNeverFound` | kernel/index/hash_table/hash_bucket.h:86-91 | a key longer than 255 bytes is never found, wherever the search starts: the stored size has eight bits |
| `MurmurHashTables.MurmurHashTable.Init` | kernel/index/hash_table/murmurhash_table.cc:89-99 | a new table: every primary slot clear, the empty map |
| `MurmurHashTables.MurmurHashTable.FindBucketLePayloadSize` | kernel/index/hash_table/murmurhash_table.cc:115-134 | the chain walk for short keys returns the fingerprint's bucket and its predecessor, or the end of the chain |
| `MurmurHashTables.MurmurHashTable.FindBucketGtPayloadSize` | kernel/index/hash_table/murmurhash_table.cc:163-190 | the chain walk for longer keys, comparing length, check hash and payload hash, returns the fingerprint's bucket and its predecessor, or the end of the chain |
| `MurmurHashTables.MurmurHashTable.CreateBucket` | kernel/index/hash_table/murmurhash_table.cc:136-153 | creation reuses a free primary slot, or takes a pool bucket exactly when the primary slot is occupied and links it; the invariant holds and the map is as it was |
| `MurmurHashTables.MurmurHashTable.Search` | kernel/index/hash_table/murmurhash_table.cc:285-294 | true exactly when the key's fingerprint is in the map, with its value, and -1 otherwise |
| `MurmurHashTables.MurmurHashTable.Insert` | kernel/index/hash_table/murmurhash_table.cc:226-244 | the map with the fingerprint set to the value in 48 bits; refused, with no change, for a null or empty key or a payload; the pool is asked exactly for a new key whose primary slot is occupied, and its slot joins the chains |
| `MurmurHashTables.MurmurHashTable.Delete` | kernel/index/hash_table/murmurhash_table.cc:246-283 | the map without the fingerprint, always true; a primary slot goes back to the pool exactly when the key sat alone in its primary slot, and it is that slot; an overflow slot that goes back has left its chain |
| `MurmurHashTables.MurmurHashTable.GetSize` | kernel/index/hash_table/murmurhash_table.h:51-53 | used_size is the number of keys in the map |
| `HashOrder.OrderIsOccupied` | kernel/index/hash_table/murmurhash_table.cc:338-366 | the iteration order lists exactly the occupied buckets: tombstones are skipped |
| `HashOrder.OrderCounts` | kernel/index/hash_table/murmurhash_table.cc:338-366 | the iteration order lists no bucket twice and has as many as there are fingerprints stored |
| `HashOrder.NextInOrder` | kernel/index/hash_table/murmurhash_table.cc:346-365 | from an occupied bucket the countdown of n steps stops at the bucket n places further on, or at the end |
| `MurmurHashTables.MurmurHashTable.GetNextElement` | kernel/index/hash_table/murmurhash_table.cc:338-366 | the nested loops stop where the countdown over the remaining order stops; n = 0 from an occupied bucket stays, negative n ends |
| `MurmurHashTables.MurmurHashTable.Begin` | kernel/index/hash_table/murmurhash_table.cc:312-329 | the first occupied bucket, or the end for an empty table |
| `MurmurHashTables.MurmurHashTable.Visit` | kernel/index/hash_table/murmurhash_table.cc:312-366 | iterating from Begin to End visits each occupied bucket exactly once, in used_size steps |
| `HashRuns.Replay` | kernel/index/hash_table/murmurhash_table.cc:226-294 | over every run of insertions, deletions and searches on a new table, with fresh slots and released overflow slots handed out again in any order, the answers are those of a map from fingerprints to last inserted values |
| `HashRuns.ReleasedSlotRun` | kernel/index/hash_table/murmurhash_table.cc:246-283 | a run of the table that goes wrong: insert a key of home 1 and one of home 0, delete the second, which releases slot 0; handed out for another key of home 1, slot 0 leaves a memory that does not serve the map |
| `SortSearch.ProbeRound` | kernel/index/sort_table/sort_table.cc:128-134 | in a round of probes each lies behind the one before and none further than one past the range; the first is inside (32-bit positions included) |
| `SortSearch.FirstOutOfRange` | kernel/index/sort_table/sort_table.cc:130-132 | the first probe outside the range is exactly right + 1 |
| `SortTables.SortTable.SimdBinarySearch` | kernel/index/sort_table/sort_table.cc:96-207 | terminates, finds a record exactly when the key is present, and otherwise gives the position of the greatest smaller key, or -1 |
| `SortTables.SortTable.ProbeRange` | kernel/index/sort_table/sort_table.cc:130-135 | the probes computed in a round rise within the range, and one that left it is right + 1 |
| `SortTables.SortTable.DirectlyAdd` | kernel/index/sort_table/sort_table.cc:258-267 | the shift loop inserts the key behind the position and keeps all records in order |
| `SortTables.SortTable.ExpandAdd` | kernel/index/sort_table/sort_table.cc:245-255 | growing in place doubles the capacity and adds the key as the direct way does |
| `SortTables.SortTable.AllocAdd` | kernel/index/sort_table/sort_table.cc:210-243 | growing by copying takes capacity c to 2c + 1 and adds the key as the direct way does |
| `SortSearch.AddedMap` | kernel/index/sort_table/sort_table.cc:299-309 | a key added behind its nearest smaller one, by any of the three ways, then given its value: the table stays strictly sorted and maps as before plus the new key |
| `SortTables.SortTable.Insert` | kernel/index/sort_table/sort_table.cc:286-310 | a key that is there gets the new value, an absent one is added in one of the three ways; strictly sorted after, mapped as before with the key set; capacity grows only for an absent key in a full table |
| `SortTables.SortTable.InsertPair` | kernel/index/sort_table/sort_table.cc:312-323 | refused, with no change, for a payload or a null key; otherwise the hash key of the bytes is mapped to the value |
| `SortTables.SortTable.Search` | kernel/index/sort_table/sort_table.cc:286-310 | true exactly when the hash key is mapped, with its value, and -1 otherwise |
| `SortTables.SortTable.SearchPair` | kernel/index/sort_table/sort_table.cc:338-346 | true exactly when the key is not null and its hash key is mapped, with the value, and -1 otherwise |
| `SortBatch.MergeNew` | kernel/index/sort_table/sort_table.cc:384-390 | one write of the backward merge: the tail written so far stays the sorted union, and the write position stays ahead of every unread record |
| `SortBatch.MergeOld` | kernel/index/sort_table/sort_table.cc:381-383 | one move of the backward merge keeps the same |
| `SortBatch.MergeStrictIff` | kernel/index/sort_table/sort_table.cc:379-393 | merging a weakly sorted batch of absent keys gives a strictly sorted table if and only if the batch has no key twice |
| `SortBatch.MergedMap` | kernel/index/sort_table/sort_table.cc:379-393 | the merged table maps as the old one and the batch together |
| `SortTables.SortTable.LocateAbsent` | kernel/index/sort_table/sort_table.cc:359-373 | the positions found are those of the batch's absent keys, in order |
| `SortTables.SortTable.BatchInsert` | kernel/index/sort_table/sort_table.cc:348-393 | for a batch in any order: succeeds exactly when there is room; then the records are the old ones and the absent ones, each once per occurrence, in order; strictly sorted exactly when the absent keys are distinct, and then the map is the union; without room nothing changes |
| `SortTables.SortTable.MergeBatch` | kernel/index/sort_table/sort_table.cc:359-393 | the backward merge in place of a batch in key order: no unread record is overwritten, every record of both sides is there once, in order |
| `SortTables.RepeatedKeyRun` | kernel/index/sort_table/sort_table.cc:348-393 | a batch with a repeated absent key: the insertion succeeds, both entries are in the table and it is no longer strictly sorted |
| `SortOrder.SameBatch` | kernel/index/sort_table/sort_table.cc:351-357 | sorting the batch first changes neither its keys, nor which and how many of its entries are absent, nor whether those have distinct keys, nor the map they stand for |
| `SortBatch.ExceptMap` | kernel/index/sort_table/sort_table.cc:426-456 | the kept records map as before without the batch's keys |
| `SortBatch.ExceptCount` | kernel/index/sort_table/sort_table.cc:458-458 | as many records go as there are distinct batch keys present |
| `SortTables.SortTable.BatchDelete` | kernel/index/sort_table/sort_table.cc:408-460 | for any batch, in any order, duplicates and absent keys included, the two-pointer compaction leaves exactly the records whose key is not in it, in order, and the count falls by the distinct keys present |
| `SortKeys.ShortKeysCollideIff` | kernel/index/sort_table/sort_table.cc:269-273 | two keys of up to eight bytes get one hash key exactly when they are the same bytes padded with zeros |
| `SortKeys.HashKeyIs` | kernel/index/sort_table/sort_table.cc:269-284 | the hash key is a signed 64-bit word: the bytes of a short key, low byte first, or the hash with the first seed above that with the second |
| `SortKeys.LongKeysCollideIff` | kernel/index/sort_table/sort_table.cc:277-281 | two keys above eight bytes get one hash key exactly when both of their 32-bit hashes agree |
| `SortKeys.ShortMeetsLongIff` | kernel/index/sort_table/sort_table.cc:269-284 | a short key and a long one get one hash key exactly when the bytes of the short one, padded, spell the two hashes of the long one |
| `SortRuns.Replay` | kernel/index/sort_table/sort_table.cc:312-460 | over every run of insertions, searches, batch insertions and batch deletions on a new table, exclusive or not, from any capacity, the answers - whether a batch had room included - are those of a map and a capacity that grows as the source grows it |
| `BoundedQueues.LockFreeQueue.Push` | kernel/common/concurrency/lock_free_queue.hpp:47-62 | appends at the end; fails, with no change, exactly at capacity |
| `BoundedQueues.LockFreeQueue.Pop` | kernel/common/concurrency/lock_free_queue.hpp:64-77 | takes the oldest entry; fails, with no change, exactly when empty |
| `BoundedQueues.LockFreeQueue.Empty` | kernel/common/concurrency/lock_free_queue.hpp:43-45 | true exactly when the queue holds nothing |
| `ThreadPools.StepKeepsInv` | kernel/common/concurrency/thread_pool.cc:11-101 | every step of a worker, a client or Stop keeps the pool's invariant: what ran, is in hand and is queued make up what was accepted, in order |
| `ThreadPools.PoolServes` | kernel/common/concurrency/thread_pool.cc:11-89 | in every interleaving from Start: the tasks run on a worker are a prefix of those accepted for it (each at most once, in order); when Stop has returned everything accepted before the status change has run; no worker is parked after its notification, nor with a task queued |
| `ThreadPoolLive.OwnStepAdvances` | kernel/common/concurrency/thread_pool.cc:14-36 | each own step of a worker with work, whether the pool runs or is being stopped, finishes its first task or brings it closer |
| `ThreadPoolLive.OthersDoNotDisturb` | kernel/common/concurrency/thread_pool.cc:14-101 | no step of anybody else sets a worker with work back or puts it to sleep |
| `ThreadPoolLive.AcceptedTaskRuns` | kernel/common/concurrency/thread_pool.cc:14-36 | in every run an accepted task has run after at most five of its worker's own steps for each task in line, unless the worker had left |
| `ThreadPoolSlots.ChoicesInTurn` | kernel/common/concurrency/thread_pool.cc:81-82 | as long as the counter does not wrap, the choices of a run go to the workers in turn |
| `ThreadPoolSlots.ChoicesDiffer` | kernel/common/concurrency/thread_pool.cc:81-82 | as many successive choices as there are workers go to pairwise different ones |
| `ThreadPoolSlots.ChoicesBalanced` | kernel/common/concurrency/thread_pool.cc:81-82 | in every run from the start the numbers of choices of two workers differ by at most one |
| `ThreadPoolSlots.FirstRoundServed` | kernel/common/concurrency/thread_pool.cc:79-89 | up to as many choices as there are workers, whatever happens meanwhile: no call is refused, and each worker is dealt the one task chosen for it |
| `ThreadPoolSlots.CallsInARow` | kernel/common/concurrency/thread_pool.cc:79-89 | from the start, calls of AddTask in a row up to the number of workers are all accepted, the i-th by worker i |
| `ThreadPoolSlots.LateCallRefused` | kernel/common/concurrency/thread_pool.cc:80-80 | a call that begins after the status change is refused at once and changes nothing |
| `ThreadPoolStop.TimelyTaskRuns` | kernel/common/concurrency/thread_pool.cc:22-35 | a task accepted before its worker's last look at the queue has run by the time Stop returns, whatever happens in between |
| `ThreadPoolStop.AcceptedBeforeStopRuns` | kernel/common/concurrency/thread_pool.cc:66-77 | everything accepted while the pool still ran has run by the time Stop returns |
| `ThreadPoolStop.LateTaskNeverRuns` | kernel/common/concurrency/thread_pool.cc:79-89 | nothing accepted after the worker's last look ever runs |
| `ThreadPoolStop.RunsIffAcceptedInTime` | kernel/common/concurrency/thread_pool.cc:79-89 | a task that AddTask accepts has run when Stop returns, in every continuation of the run, if and only if its worker had not left its loop when the task was pushed |
| `ThreadPoolStop.RefusedIffFull` | kernel/common/concurrency/thread_pool.cc:83-88 | a task is refused exactly when the queue of its worker is full, and then nothing changes for the worker |
| `ThreadPoolStop.AcceptedTaskCanBeLost` | kernel/common/concurrency/thread_pool.cc:79-89 | a run in which AddTask returns true and the task never runs: the status is checked before the lock is taken |
| `ThreadPoolStop.StepUsesWork` | kernel/common/concurrency/thread_pool.cc:66-77 | once Stop has begun every step that changes anything uses up some of a finite amount of work |
| `ThreadPoolStop.StopNeverStuck` | kernel/common/concurrency/thread_pool.cc:66-77 | until Stop has returned, Stop itself or the worker it waits for has a step that changes something and is no spurious wake-up: no lost wake-up, no deadlock |
| `ThreadPoolStop.StopReturns` | kernel/common/concurrency/thread_pool.cc:66-77 | a run after Stop's status change in which every step changes something is no longer than that amount: Stop returns |
| `PoolSpace.ExtendSound` | kernel/pool/mmap_pool.cc:84-86 | a block taken at the cursor keeps the division of the space |
| `PoolSpace.ReuseSound` | kernel/pool/file_pool.cc:163-178 | a block taken off its free list keeps the division and the sum of free sizes |
| `PoolSpace.ListSound` | kernel/pool/file_pool.cc:126-135 | a block put on the list of its size keeps the division and the sum of free sizes |
| `PoolSpace.HandedOutClear` | kernel/pool/file_pool.cc:75-85 | a block handed out overlaps no block in use and no block whose free is pending |
| `MMapPools.MMapPool.Init` | kernel/pool/mmap_pool.cc:30-66 | a new pool: only the 64-byte reserve is used |
| `MMapPools.MMapPool.AllocFromFreeList` | kernel/pool/file_pool.cc:163-178 | hands out the highest free address of exactly the size; null exactly when there is none |
| `MMapPools.MMapPool.AllocFromStore` | kernel/pool/mmap_pool.cc:68-88 | for every size, the expansion loop ends with the store larger than the used space, by whole steps and no more of them than needed; the block begins at the old cursor |
| `MMapPools.MMapPool.Alloc` | kernel/pool/file_pool.cc:75-85 | for every size: reuse when the list is on and has the size, extension otherwise; the space stays divided, the block is clear of everything in use or pending, and lies behind the reserve that holds the cursor |
| `MMapPools.MMapPool.Free` | kernel/pool/file_pool.cc:101-119 | with a time gap the block becomes pending and stays off the free list, without one it is listed at once; the space stays divided |
| `MMapPools.MMapPool.RunDelayedFree` | kernel/pool/file_pool.cc:106-117 | the delayed frees are carried out in order, each listing exactly its block |
| `MMapPools.MMapPool.DoFree` | kernel/pool/file_pool.cc:121-136 | the block joins the list of its size and the sum, or is dropped when the list is off |
| `MMapPools.MMapPool.DumpFreeList` | kernel/pool/mmap_pool.cc:142-204 | the file is exactly the count and one record a free block, sizes rising and addresses falling, whatever the file held before; list and sum are empty after; a read-only pool or an empty list leaves file and list alone |
| `MMapPools.MMapPool.LoadFreeList` | kernel/pool/mmap_pool.cc:90-140 | the list becomes exactly the file's blocks, moved to this base, and the sum grows by their sizes |
| `MMapPools.MMapPool.Reopen` | kernel/pool/mmap_pool.cc:30-66 | opening an existing file: the cursor from the file, the list from a dumped file if there is one |
| `FreeListFile.FileRoundTrip` | kernel/pool/mmap_pool.cc:159-199 | a file written from blocks at one base and read at another gives the same blocks shifted by the difference, and is 8 + 16n bytes long |
| `FreeListFile.FileLayout` | kernel/pool/mmap_pool.cc:159-187 | the file in bytes: the count in the first eight, then for each block sixteen, its offset in the first eight and its size in the last four, low byte first |
| `Bytes.LittleDigit` | kernel/pool/mmap_pool.cc:166-180 | a number read from bytes has byte i as its digit of weight 256^i |
| `PoolReopen.DumpedThenLoaded` | kernel/pool/mmap_pool.cc:90-204 | dump then load at another base: every block as often as before, shifted by the base difference; file length 8 + 16n |
| `PoolMoves.MovedDivides` | kernel/pool/mmap_pool.cc:132-132 | blocks that divide a space divide the moved space after the base changed |
| `PoolReopen.CloseAndReopen` | kernel/pool/file_pool.cc:26-66 | for every pool without pending frees and every older file: with something on the free list the pool opened at another base is sound, with the same blocks free, in use and lost, all moved, and the sum of free sizes restored; with an empty list it is sound if and only if there is no older file or it lists no space; with an empty list or a read-only pool the blocks then listed keep clear of those in use if and only if the file lists only what was free or lost |
| `PoolReopen.EmptyListReopens` | kernel/pool/mmap_pool.cc:144-145 | with nothing on the list and the older file left in place, what is in use, lost and listed by the file divides the moved space exactly when the file lists no space |
| `PoolReopen.ClearIffUnused` | kernel/pool/mmap_pool.cc:144-145 | listed blocks overlap none in use exactly when every byte they list, below the cursor, lies in a block that is free or lost |
| `PoolStale.StaleListRun` | kernel/pool/mmap_pool.cc:142-145 | a run that shows it: free a block, close, open, allocate it again, close, open; the block is in use and on the free list at once |
| `PoolRuns.Replay` | kernel/pool/file_pool.cc:26-136 | over every run of allocations, frees, delayed frees, changes of the two settings, and closing and opening the file at other addresses, the offsets handed out are those of the specification: the highest free block of the size or else the end; the cursor and the sum of free sizes are what the blocks add up to |
| `PoolRuns.RunKeepsDivided` | kernel/pool/file_pool.cc:70-136 | after every run the blocks in use, pending, free and lost divide the space past the reserve, and what an allocation is answered then overlaps nothing in use and nothing pending |

## Left out

- Arena: `AllocByPageLevel`, `AllocBySlab`, slab and section tables, `SetValidFlag` and the size-based routing of `FreeData`; the arena must end below the null address 0xFFFFFFFF, which no block may have.
- Arena: the list heads are a sequence field, not words at `GetPageInfoAddr`; the memory holds the next words only. `pow` on doubles is exact here and modelled as a power of two.
- PageMemTables.PageMemTable.MergePageLevel: what the arena looks like after a merge climbed past the table is not described, since the source then writes outside it.
- MurmurHashTables.MurmurHashTable.Insert: the slot from the pool is assumed to be unused and behind the primary slots, and the key to have at most 255 bytes; `HashReuse.ServedIffBehindPrimaries` and `HashReuse.LongKeysNeverFound` say what happens otherwise.
- MurmurHashTables.MurmurHashTable.CreateBucket: the same two assumptions on slot and key as for an insertion.
- MurmurHashTables.MurmurHashTable.GetNextElement: n is below 2^31 - 1, where the source's increment overflows, and the element is one of the table's.
- HashRuns.Replay: slot numbers stay below 2^29, the width of the link field, and keys within 255 bytes; released primary slots are not handed out again.
- Hash index: MurmurHash2 is any function of bytes and seed; keys with one fingerprint are one key, as in the source. `LoadHashTable`, magic numbers, `Print`, and an iterator over another table's header are not modelled; atomics are plain steps.
- Sorted index: `Delete`, whose found and not-found cases are exchanged (kernel/index/sort_table/sort_table.cc:327); `NormalBinarySearch`, `BatchSearch` and the iterator, which have no definition.
- SortTables.SortTable.SimdBinarySearch: the vector comparison is an element-wise signed one; fewer than 2^31 records.
- SortTables.SortTable.ExpandAdd: capacity above zero; growth in place is a larger array with the same records, on the source's assumption that the pool extends the table's own memory.
- SortTables.SortTable.AllocAdd: the old memory's flag and its return to the pool are not modelled.
- SortTables.SortTable.Insert: an absent key does not meet a full exclusive table of capacity zero, where doubling makes no room and the source writes behind its memory.
- SortTables.SortTable.BatchInsert: the growth branches have no body in the source, so room is required for an exclusive table; a batch passed as sorted is sorted.
- SortTables.SortTable.BatchDelete: a batch passed as sorted is sorted. The library's sort is some arrangement in key order.
- Queue: operations are serialised by the worker's mutex, so the compare-and-swap failures cannot happen; nodes are not deleted.
- Thread pool: one `Start` that has returned, one caller of `Stop`, tasks that end. A second `Start` would reuse stopped workers and is not modelled.
- MMapPools.MMapPool.Free: a block is freed once and with its allocated size, below 2^32, the width of a block's size field.
- MMapPools.MMapPool.LoadFreeList: files as long as their count says; short or unreadable files and other I/O failures are not modelled.
- MMapPools.MMapPool.Reopen: the same for a file that is found.
- MMapPools.MMapPool.AllocFromStore: the store can always be expanded.
- MMapPools.MMapPool.DumpFreeList: a block's timestamp, which the source never sets, is any number.
- PoolReopen.CloseAndReopen: all delayed frees have been carried out, as `Release` waits for them. For a read-only pool with a free list it is settled when the new list keeps clear of the blocks in use, and that an unchanged list gives a sound pool, but not which other files do.
- PoolRuns.Replay: no closing with an empty list once a list was dumped, where the old file would be loaded; the pool is never read-only.
- Pool: the number of blocks in the metadata, the store's system calls and wall-clock delays; the file-store variant, whose addresses are offsets and never move. Addresses and sums do not wrap at 2^64.
- Configuration, XML, JSON, protobuf, snapshot headers, logging and string utilities.
