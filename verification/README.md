# Core structures of a Bitcoin-derived node, modelled in Dafny

Ten independent parts of the node's low-level layer, each with the global property that its own
comments, assertions or tests describe. For a part that works by updating fields, the project
holds two things: functions on values that say what each operation does, with lemmas about whole
operations and whole runs; and a class whose methods update fields and arrays step by step, each
proved to do to the abstract state what the function says.

| part | files | what is proved |
|---|---|---|
| address manager | `AddrManTables`, `AddrManOps`, `AddrMan`, `AddrManCheck`, `AddrManStream`, `AddrManRoundTrip`, `AddrManAccepted` | five indexes and three counters agree after every run, for every hash function and every random draw; the program's own check passes exactly the tables that agree; writing and reading back loses nothing; an arbitrary stream that is accepted gives tables that agree under an exact condition |
| coin caches | `Coins`, `CoinsView` | a stack of caches of any height answers every run like one plain map; flushing never meets a misapplied flag |
| check queue | `CheckQueue`, `CheckQueuePool` | in every interleaving each check is in one place, the master always comes to return, and returns the conjunction of the checks added |
| cuckoo cache | `Cuckoo`, `CuckooCache` | insertion conserves contents, entries stay where lookups find them, the load is bounded in every reachable state |
| wide integers | `Powers`, `Limbs`, `ArithUint`, `Compact`, `ArithUint256` | word-by-word arithmetic is arithmetic modulo a power of two, division is exact, the compact form round-trips up to rounding, block proof is a quotient of 2^256 |
| block index and chain | `Chain` | the skip walk is the naive walk; the chain array is the tip's whole path; forks, locators, times, chain work and the best header |
| rolling bloom filter | `RollingBloom`, `RollingBloomFilter` | the packed cells are a function of the recent inserts, so there are no false negatives in the window |
| database transaction | `DbOverlay`, `DbTransaction`, `EvoDb`, `DbIterator` | reads, commits, batches and nested iterators agree with an overlaid map |
| base58 | `Base58`, `Base58Codec` | both round trips, and buffers that always suffice |
| compact blocks | `CompactBlocks`, `PartialBlock`, `BlockRequest` | the exchange over the wire gives the block back up to 65536 transactions and, unless the first transaction is repeated at position 65536, exactly up to there; the request encoding round-trips on exactly the increasing lists |

`dafny verify dfyconfig.toml` checks the whole project.

## Modelling decisions

- Hash functions are parameters: arbitrary functions of what the program feeds them. Every result holds for all of them.
- Random draws are nondeterministic, or a sequence of draws that the contract quantifies over.
- Clocks are parameters. Where a property depends on the clock, the exact condition is stated (`AddrManOps.GoodTimes`, `AddrManOps.AttemptKeeps`).
- Machine integers are unbounded, except where a width matters: 32-bit and 64-bit words of the wide integers and of the bloom filter, and 16-bit positions of compact blocks, where truncation is written out.
- Bitwise operations are defined on numbers, bit by bit. Masking with one less than a power of two is the remainder (`Powers.MaskIsRemainder`).
- Condition variables, mutexes and threads become the steps of a state machine, one step per critical section and one for the unlocked work. A wake-up may be spurious.
- An ordered map is a map; its cursor is a position in the order of its keys.

Where code and comments disagree the model follows the code:

- The first slot that a cuckoo insertion evicts is the second of the eight positions, not the first (src/cuckoocache.h:392-406).
- Multiplying a wide integer by itself in place would read operands already cleared (src/arith_uint256.cpp:68-81), so the result is zero; `ArithUint.BaseUint.Multiply` states when that is right.
- `Clear` of the address manager leaves the two maps alone (src/addrman.h:459-478), so resetting a manager that was used breaks the agreement of its indexes (`AddrManOps.ResetStructured`, `AddrManOps.ResetUsed`, with `AddrManOps.ResetAfterAdd` as the input). After a failed read, which is cleared to leave a clean state (src/addrdb.cpp:211-213), the indexes agree exactly if the stream failed before any entry was touched (`AddrMan.CAddrMan.ReadOrClear`).
- A compact block's identifiers and requests carry 16-bit positions, while messages of more than 65536 transactions are accepted (src/blockencodings.cpp:53, 81-87). `PartialBlock.TargetsExact` and `PartialBlock.RequestExact` give the exact bound, and `PartialBlock.Relay` what becomes of a block beyond it. With 65536 prefilled transactions and identifiers besides, the search for vacant slots does not end (`CompactBlocks.EndlessAccepted`); a search that does not end is modelled by a result that says so.
- Reading addresses from disk does not compare entries, so a stream that gives one address twice can be accepted (src/addrman.h:381-420). `AddrManAccepted.AcceptedStructured` gives the exact condition for the tables to agree and `AddrManAccepted.SharedBreaks` an input that misses it.
- The consistency check of the address manager looks an address up with the map's index operator, which answers zero for an address that is missing (src/addrman.cpp:409); `AddrManCheck.EntryChecked` does the same.

## Model

| member | source | states |
|---|---|---|
| `AddrManTables.SwapKeeps` | src/addrman.cpp:93-111 | swapping two positions of the random-order vector keeps every index in agreement, even in the middle of another operation, and moves no entry between tables |
| `AddrManTables.CreateKeeps` | src/addrman.cpp:81-91 | a created entry is the only one in neither table and the only one not counted; everything else agrees |
| `AddrManTables.DeleteKeeps` | src/addrman.cpp:113-125 | deleting an entry that is in no table removes it from all indexes, keeps their agreement, and disturbs no other entry and no slot |
| `AddrManTables.ClearNewKeeps` | src/addrman.cpp:127-140 | clearing a slot frees it, takes one reference from its occupant and deletes the occupant exactly when that was its last; all indexes agree afterwards |
| `AddrManTables.TakeSlotKeeps` | src/addrman.cpp:304-305 | taking a free new-table slot at the entry's own position ends its time in limbo and keeps reference counts equal to slots held |
| `AddrManTables.DropSlotKeeps` | src/addrman.cpp:145-151 | giving up a slot keeps reference counts equal to slots held; the last slot puts the entry in limbo |
| `AddrManTables.EnterTriedKeeps` | src/addrman.cpp:182-187 | an entry in limbo entering its own tried slot is counted as tried and no longer in limbo |
| `AddrManTables.LeaveTriedKeeps` | src/addrman.cpp:166-169 | an entry leaving the tried table is in limbo and uncounted, and everything else agrees |
| `AddrManOps.ClearAllBuckets` | src/addrman.cpp:144-154 | after the loop over all new buckets the entry holds no slot and its reference count is zero: the program's assertion cannot fail |
| `AddrManOps.EvictKeeps` | src/addrman.cpp:161-180 | the evicted tried entry ends in its home slot of the new table with one reference; only the sole occupant of that slot can disappear |
| `AddrManOps.MakeTriedKeeps` | src/addrman.cpp:142-188 | through all broken intermediate states, the indexes agree again at the end; the entry is in its computed tried slot, an evicted entry survives, and at most one entry is lost |
| `AddrManOps.SearchFinds` | src/addrman.cpp:217-232 | the search for a new bucket never fails for a known untried address |
| `AddrManOps.GoodKeeps` | src/addrman.cpp:190-240 | marking an address good keeps the indexes in agreement, and moves an untried known address to tried |
| `AddrManOps.GoodTimes` | src/addrman.cpp:190-240 | marking good keeps the clock part of the invariant if and only if the time is positive or the address is unknown |
| `AddrManOps.PlaceKeeps` | src/addrman.cpp:291-311 | an announced entry takes its slot if the slot is free or the occupant yields; an entry without a slot is deleted; the indexes agree |
| `AddrManOps.AddKeeps` | src/addrman.cpp:242-313 | adding an address, whatever the draw, keeps the indexes in agreement and the recorded times valid |
| `AddrManOps.NewcomerOutcome` | src/addrman.cpp:242-313 | a newcomer ends in exactly one new-table slot, or everything is as if it had never come |
| `AddrManOps.AttemptKeeps` | src/addrman.cpp:315-335 | recording an attempt keeps the indexes, and keeps the clock part if and only if its time is not negative or the address is unknown |
| `AddrManOps.ConnectedKeeps` | src/addrman.cpp:483-501 | recording a connection keeps the whole invariant |
| `AddrManOps.SetServicesKeeps` | src/addrman.cpp:503-519 | setting services keeps the whole invariant |
| `AddrManOps.SampleSound` | src/addrman.cpp:462-481 | the sample has at most 23% and at most 2500 entries, all known, none terrible, none twice, and below the limit it has every entry that is not terrible; the shuffle keeps the tables |
| `AddrManOps.FreshConsistent` | src/addrman.h:459-483 | a fresh manager satisfies the whole invariant |
| `AddrManOps.ResetStructured` | src/addrman.h:459-478 | resetting leaves the indexes in agreement if and only if both maps were empty |
| `AddrManOps.ResetUsed` | src/addrman.h:459-478 | resetting a manager whose indexes agree leaves them in agreement if and only if it held no entry |
| `AddrManOps.ResetAfterAdd` | src/addrman.h:459-478 | a fresh manager to which one address was added no longer has agreeing indexes after a reset |
| `AddrManOps.StepKeeps` | src/addrman.cpp:190-335 | no operation, whatever its clock readings and draws, breaks the agreement of the indexes |
| `AddrManOps.RunsConsistent` | src/addrman.cpp:385-459 | every run of operations from a fresh manager, with valid clock readings, ends in consistent tables |
| `AddrManOps.SourceGroupSpread` | src/addrman.cpp:19-25 | all announcements by one source group fall into at most 64 new buckets |
| `AddrManOps.GroupSpread` | src/addrman.cpp:12-17 | all addresses of one group fall into at most 8 tried buckets |
| `AddrManTables.TriedBucket` | src/addrman.cpp:12-17 | the tried bucket is below 256 |
| `AddrManTables.NewBucket` | src/addrman.cpp:19-25 | the new bucket is below 1024 |
| `AddrManTables.Position` | src/addrman.cpp:27-31 | the position in a bucket is below 64 |
| `AddrManOps.SamplePos` | src/addrman.cpp:473 | the position drawn is among those not yet drawn |
| `AddrManCheck.Check` | src/addrman.cpp:385-459 | the check returns zero if and only if entries, counters and both tables agree as it demands |
| `AddrManCheck.CheckEntries` | src/addrman.cpp:393-417 | the pass over the entries succeeds exactly if every entry is in order, and collects the tried ids and the reference counts |
| `AddrManCheck.CheckEntry` | src/addrman.cpp:394-416 | the checks on one entry succeed exactly if it is in order |
| `AddrManCheck.CheckTried` | src/addrman.cpp:424-436 | the pass over the tried table fails only on a table out of order, and leaves no id exactly if the table is in order |
| `AddrManCheck.CheckNew` | src/addrman.cpp:438-449 | the pass over the new table fails only on a table out of order, and leaves no count exactly if the table is in order |
| `AddrManCheck.ConsistentPasses` | src/addrman.cpp:385-459 | the invariant kept by the operations passes the check |
| `AddrManCheck.PassingConsistent` | src/addrman.cpp:385-459 | what passes the check, with ids and the address map in order, satisfies the invariant |
| `AddrManCheck.RunsPass` | src/addrman.cpp:385-459 | every run of operations from a fresh manager passes the check |
| `AddrMan.CAddrMan.constructor` | src/addrman.h:459-483 | the constructed object is the fresh manager |
| `AddrMan.CAddrMan.Find` | src/addrman.cpp:68-79 | the id under which an address is known, if it is |
| `AddrMan.CAddrMan.Create` | src/addrman.cpp:81-91 | the object's fields after creation are the tables after creation |
| `AddrMan.CAddrMan.SwapRandom` | src/addrman.cpp:93-111 | swaps two positions and their back pointers in place |
| `AddrMan.CAddrMan.Delete` | src/addrman.cpp:113-125 | deletes in place, with all four assertions proved |
| `AddrMan.CAddrMan.ClearNew` | src/addrman.cpp:127-140 | clears a slot in place |
| `AddrMan.CAddrMan.MakeTried` | src/addrman.cpp:142-188 | the loop over buckets, the eviction and the entry into tried, in place, with every assertion proved |
| `AddrMan.CAddrMan.SearchNew` | src/addrman.cpp:217-232 | the cyclic search from a random bucket finds a bucket if and only if some bucket holds the entry |
| `AddrMan.CAddrMan.Good_` | src/addrman.cpp:190-240 | the object after the call is the tables after the operation, and its indexes agree |
| `AddrMan.CAddrMan.PassesStochasticTest` | src/addrman.cpp:278-283 | the draw is below two to the number of slots, and the test is passed exactly when it is zero |
| `AddrMan.CAddrMan.MayInsert` | src/addrman.cpp:294-301 | the slot may be taken if and only if it is free or its occupant yields |
| `AddrMan.CAddrMan.Add_` | src/addrman.cpp:242-313 | the object after the call is the tables after the operation, for the draw made; returns whether the address was new and routable |
| `AddrMan.CAddrMan.Attempt_` | src/addrman.cpp:315-335 | the object after the call is the tables after the operation |
| `AddrMan.CAddrMan.Connected_` | src/addrman.cpp:483-501 | the object after the call is the tables after the operation |
| `AddrMan.CAddrMan.SetServices_` | src/addrman.cpp:503-519 | the object after the call is the tables after the operation |
| `AddrMan.CAddrMan.GetAddr_` | src/addrman.cpp:462-481 | the in-place partial shuffle returns the addresses of the sample, for the draws made |
| `AddrMan.CAddrMan.Serialize` | src/addrman.h:304-352 | writes exactly the token stream of the tables |
| `AddrMan.CAddrMan.Clear` | src/addrman.h:459-478 | resets everything but the two maps; the indexes agree afterwards if and only if both were empty |
| `AddrMan.CAddrMan.Unserialize` | src/addrman.h:354-457 | reads any stream into an empty object as the reading function does, including rejected streams and lost entries; after an acceptance the indexes agree exactly if the stream is coherent; after a rejection the maps are empty exactly if it failed before any entry was touched |
| `AddrMan.CAddrMan.ReadOrClear` | src/addrdb.cpp:197-217 | reads the stored addresses and clears on failure; the indexes then agree exactly if the stream is coherent or, after a failure, touched no entry |
| `AddrManRoundTrip.RoundTrip` | src/addrman.h:304-457 | reading back what consistent tables wrote succeeds with nothing lost, and restores entries, both tables and reference counts under new ids |
| `AddrManRoundTrip.RenamedConsistent` | src/addrman.h:354-457 | tables read back from consistent ones are consistent |
| `AddrManRoundTrip.WithinLimits` | src/addrman.h:374-380 | the limits checked on reading hold of every consistent manager |
| `AddrManRoundTrip.PruneNothing` | src/addrman.h:443-451 | the final pruning removes nothing when every entry is in a table |
| `AddrManAccepted.AcceptedStructured` | src/addrman.h:354-457 | the tables read from any accepted stream agree if and only if its key is not zero, its counters are not negative and no address is shared by an entry that got a slot; its bucket data do not matter otherwise |
| `AddrManAccepted.DistinctStructured` | src/addrman.h:354-457 | so they agree whenever all entries of the stream have different addresses |
| `AddrManAccepted.SharedBreaks` | src/addrman.h:381-420 | a stream that gives one address as new and as tried is accepted, and its tables do not agree |
| `AddrManAccepted.LoadIndexLoading` | src/addrman.h:424-440 | whatever a bucket lists, reference counts stay equal to slots held |
| `AddrManAccepted.PruneTrims` | src/addrman.h:442-451 | pruning deletes exactly the entries that got no slot, and forgets their addresses whoever else has them |
| `AddrManAccepted.TrimmedAddrs` | src/addrman.h:442-451 | the index by address then agrees if and only if no address is shared by an entry that got a slot |
| `AddrManStream.LoadNew` | src/addrman.h:383-400 | reading a new entry keeps the indexes readable |
| `AddrManStream.LoadTried` | src/addrman.h:404-422 | reading a tried entry keeps the indexes readable, and drops it when its slot is taken |
| `AddrManStream.LoadIndex` | src/addrman.h:424-438 | placing a bucket index keeps the indexes readable |
| `Coins.FetchKeeps` | src/coins.cpp:38-53 | caching what the view below has changes nothing for a reader and keeps the flags truthful |
| `Coins.AddShows` | src/coins.cpp:64-83 | adding a coin shows it and changes nothing else for a reader |
| `Coins.AddKeeps` | src/coins.cpp:64-83 | adding keeps the flags truthful if and only if overwriting is allowed, the cache knows the outpoint, or the view below has no coin there |
| `Coins.AddTruthful` | src/coins.cpp:64-83 | the entry added is truthful under the same condition, whatever the other entries are like |
| `Coins.BelowChanges` | src/coins.cpp:140-196 | a change of the view below keeps the flags truthful if and only if the entry there stays so, and shows through if and only if the cache has no entry there |
| `Coins.BrokenPromiseResurrects` | src/coins.cpp:64-83 | outside that condition the flags become untruthful and spending the addition brings the old coin back |
| `Coins.SpendKeeps` | src/coins.cpp:96-109 | spending removes exactly that coin from the view and keeps the flags truthful, whether the entry is erased or kept |
| `Coins.UncacheKeeps` | src/coins.cpp:205-212 | dropping an unmodified entry changes nothing for a reader |
| `Coins.WriteEntryKeeps` | src/coins.cpp:142-193 | taking over a child's truthful entry never finds a misapplied flag, keeps the parent truthful, and changes its view at that outpoint only |
| `Coins.WriteEntryShows` | src/coins.cpp:142-193 | after taking over an entry the parent shows what the child showed there |
| `Coins.WriteRest` | src/coins.cpp:142-196 | once an entry is written, the child's remaining entries are still truthful and the child's view is unchanged |
| `CoinsView.CoinsViewDB.GetCoin` | src/txdb.cpp:64-66 | a coin is found if the view has it, and what is found is what the view shows |
| `CoinsView.CoinsViewDB.BatchWrite` | src/txdb.cpp:80-102 | the stored coins become the child's view |
| `CoinsView.CoinsViewCache.FetchCoin` | src/coins.cpp:38-53 | fetching through any number of layers changes no view and finds an entry unless the view has no coin |
| `CoinsView.CoinsViewCache.GetCoin` | src/coins.cpp:55-62 | answers like the view |
| `CoinsView.CoinsViewCache.HaveCoin` | src/coins.cpp:122-125 | true if and only if the view has the coin |
| `CoinsView.CoinsViewCache.AccessCoin` | src/coins.cpp:113-120 | the view's coin, or the empty one exactly where the view has none |
| `CoinsView.CoinsViewCache.AddCoin` | src/coins.cpp:64-83 | the view gains the coin; the logic error is raised exactly for an overwrite that the cache can see; unspendable outputs are ignored; the flags stay truthful exactly if an overwrite was allowed, the cache knew the outpoint or the view below has no coin there |
| `CoinsView.CoinsViewCache.SpendCoin` | src/coins.cpp:96-109 | the view loses the coin and the caller gets what was there |
| `CoinsView.CoinsViewCache.Uncache` | src/coins.cpp:205-212 | no view changes |
| `CoinsView.CoinsViewCache.BatchWrite` | src/coins.cpp:142-196 | this cache's view becomes the child's view, all layers stay truthful, and the error is unreachable |
| `CoinsView.CoinsViewCache.Flush` | src/coins.cpp:198-203 | the view is unchanged, the view below becomes equal to it, and the cache is empty |
| `CoinsView.AddCoins` | src/coins.cpp:85-94 | the view gains every spendable output up to the first that clashes with a coin the cache can see; with checking, or for a coinbase, all of them and the flags stay truthful; otherwise the flags stay truthful exactly if no output hides a coin below |
| `CoinsView.PerformBelow` | src/coins.cpp:38-212 | reading, dropping and flushing on a lower cache change no view above it |
| `CoinsView.Perform` | src/coins.cpp:38-212 | each operation acts on the view, and answers, as on a plain map |
| `CoinsView.Replay` | src/coins.cpp:38-212 | every run on a stack of any height, with reads, drops and flushes on lower caches in between, answers exactly as the same run on one plain map |
| `CheckQueue.BatchSize` | src/checkqueue.h:110 | a batch has at least one check and no more than the queue |
| `CheckQueue.TakeConserves` | src/checkqueue.h:105-119 | taking a batch moves checks from the queue to exactly one thread; nothing is lost or doubled |
| `CheckQueue.AddKeeps` | src/checkqueue.h:149-161 | adding keeps the invariant, including that a sleeping pool with work is notified |
| `CheckQueue.RunKeeps` | src/checkqueue.h:122-125 | running a batch, stopping at a failure, keeps the invariant |
| `CheckQueue.SettleKeeps` | src/checkqueue.h:80-86 | retiring a batch keeps the counts and the running verdict, and notifies a waiting master when nothing is left |
| `CheckQueue.DecideKeeps` | src/checkqueue.h:91-119 | returning, waiting and taking a batch each keep the invariant |
| `CheckQueue.AllRetired` | src/checkqueue.h:91-100 | with nothing left to do, every check added has been retired and no thread holds a batch |
| `CheckQueue.VerdictIsConjunction` | src/checkqueue.h:91-100 | with nothing left to do, the shared verdict is the conjunction of all checks added |
| `CheckQueue.StepKeeps` | src/checkqueue.h:69-161 | every step of every interleaving keeps the invariant: counters equal what they count, each check is in exactly one place, verdicts are right, nobody sleeps on undone work |
| `CheckQueue.RunsKeep` | src/checkqueue.h:69-161 | the invariant holds in every state of every run |
| `CheckQueue.AddedIsHistory` | src/checkqueue.h:69-161 | the checks accounted for are those added since the master last returned |
| `CheckQueue.WaitReturnsConjunction` | src/checkqueue.h:143-146 | in every run, the master returns true if and only if all checks added since it last returned pass |
| `CheckQueue.WaitingMasterHasHelper` | src/checkqueue.h:91-104 | a waiting master with work left always has another thread holding a non-empty batch |
| `CheckQueue.NeverStuck` | src/checkqueue.h:69-127 | while the master is inside, between critical sections, some step that is neither an addition, an entry nor a spurious wake-up is enabled |
| `CheckQueue.PotentialDrops` | src/checkqueue.h:69-127 | every step that is not an addition, an entry or a spurious wake-up uses up potential |
| `CheckQueue.WorkIsFinite` | src/checkqueue.h:69-127 | such a run is no longer than its first state's potential |
| `CheckQueue.StepLeaves` | src/checkqueue.h:69-127 | every step begun between critical sections ends between them |
| `CheckQueue.RunsBetween` | src/checkqueue.h:69-127 | no run leaves a thread in the middle of a decision |
| `CheckQueue.LeavesByReturning` | src/checkqueue.h:92-101 | the master leaves the loop only by returning |
| `CheckQueue.WaitReturns` | src/checkqueue.h:69-146 | once the master is inside, a run takes no more steps than the potential allows, and one that cannot go on has the master returned, with the conjunction of the checks added |
| `CheckQueue.ReturnIsReached` | src/checkqueue.h:69-146 | from every such state a run of these steps leads to the return |
| `CheckQueuePool.CCheckQueue.constructor` | src/checkqueue.h:134 | the initial state of the protocol |
| `CheckQueuePool.CCheckQueue.Add` | src/checkqueue.h:149-161 | the loop of additions and the notification are the protocol's step |
| `CheckQueuePool.CCheckQueue.EnterLoop` | src/checkqueue.h:78-120 | a thread's first critical section is the protocol's step, with its return value |
| `CheckQueuePool.CCheckQueue.WakeUp` | src/checkqueue.h:91-120 | the critical section after a wake-up is the protocol's step, with its return value |
| `CheckQueuePool.CCheckQueue.RunBatch` | src/checkqueue.h:122-125 | the unlocked loop, which stops running checks after a failure, computes the batch's verdict |
| `CheckQueuePool.CCheckQueue.RetireBatch` | src/checkqueue.h:78-120 | the clean-up and what follows it are the protocol's step, with its return value |
| `CheckQueuePool.CCheckQueue.Decide` | src/checkqueue.h:91-119 | return, wait or take a batch, as the protocol decides |
| `CheckQueuePool.CCheckQueue.TakeBatch` | src/checkqueue.h:110-119 | the loop that pops checks from the back takes exactly the batch of the protocol |
| `Cuckoo.ContainsExact` | src/cuckoocache.h:443-453 | a lookup finds every live entry and every entry but the default one that is in the table, and nothing else |
| `Cuckoo.DisplaceConserves` | src/cuckoocache.h:382-415 | the table and the new entry together lose exactly one item |
| `Cuckoo.DisplaceKeeps` | src/cuckoocache.h:382-415 | through all displacements entries sit at their own positions and occur once |
| `Cuckoo.DisplaceFlags` | src/cuckoocache.h:382-415 | what is lost is the contents of one collectable slot, or a live entry or the new one with all flags unchanged |
| `Cuckoo.DisplaceLive` | src/cuckoocache.h:382-415 | an insertion adds at most one live entry, to the epoch inserted into |
| `Cuckoo.EpochCheckBounds` | src/cuckoocache.h:264-296 | after the check there is room for one more live entry in the current epoch |
| `Cuckoo.EpochCheckCollects` | src/cuckoocache.h:264-296 | the scan moves nothing and collects only old entries, and only when the current epoch is full |
| `Cuckoo.EraseKeeps` | src/cuckoocache.h:443-453 | erasing marks one slot, keeps the invariant, and changes the answer of no lookup |
| `Cuckoo.InsertKeeps` | src/cuckoocache.h:368-416 | insertion keeps positions, uniqueness and the load bound |
| `Cuckoo.InsertConserves` | src/cuckoocache.h:368-416 | nothing moves if the entry is there; otherwise exactly one item is lost |
| `Cuckoo.InsertLoses` | src/cuckoocache.h:363-416 | what the lost item was, and how the flags changed |
| `Cuckoo.InsertFinds` | src/cuckoocache.h:363-416 | after an insertion exactly the entries found before and the new one are found, less the one lost |
| `Cuckoo.StepKeeps` | src/cuckoocache.h:264-453 | every operation keeps the invariant and brings in no entry but the one inserted |
| `Cuckoo.LoadBounded` | src/cuckoocache.h:264-453 | in every reachable state the current epoch has at most epoch size plus max(1, epoch size / 16) live slots, and all slots together at most twice that |
| `Cuckoo.NothingInvented` | src/cuckoocache.h:443-453 | a lookup in any reachable state finds only what was in the table at first or was inserted |
| `Cuckoo.DefaultFoundInFresh` | src/cuckoocache.h:443-453 | in a cache that nothing was put into, the default entry is found |
| `CuckooCache.BitPackedFlags.constructor` | src/cuckoocache.h:61-68 | every flag starts out set |
| `CuckooCache.BitPackedFlags.BitSet` | src/cuckoocache.h:92-95 | sets one flag and no other |
| `CuckooCache.BitPackedFlags.BitUnset` | src/cuckoocache.h:103-106 | clears one flag and no other |
| `CuckooCache.CCache.constructor` | src/cuckoocache.h:315-329 | an empty cache, every slot collectable; the size is the power of two at most the size asked for and more than half of it, and the epoch is 45 in a hundred of it |
| `CuckooCache.Sizes` | src/cuckoocache.h:315-329 | the depth limit is the logarithm rounded down, at least one, and the size its power of two |
| `Powers.MaskIsRemainder` | src/cuckoocache.h:218-228 | masking with the size less one is the remainder by the size |
| `CuckooCache.CCache.CountUnused` | src/cuckoocache.h:272-275 | counts the live slots of the current epoch |
| `CuckooCache.CCache.Age` | src/cuckoocache.h:280-286 | the loop over both flag arrays starts a new epoch |
| `CuckooCache.CCache.EpochCheck` | src/cuckoocache.h:264-296 | the counter, the scan and its outcomes |
| `CuckooCache.CCache.FindElement` | src/cuckoocache.h:376-381 | the first position that holds the entry |
| `CuckooCache.CCache.FindGarbage` | src/cuckoocache.h:384-390 | the first position that may be overwritten |
| `CuckooCache.CCache.Evict` | src/cuckoocache.h:382-415 | the displacement loop in place is the displacement on values |
| `CuckooCache.CCache.Insert` | src/cuckoocache.h:368-416 | insertion in place is insertion on values |
| `CuckooCache.CCache.Contains` | src/cuckoocache.h:443-453 | lookup and erasure in place |
| `Limbs.ValueInjective` | src/arith_uint256.h:221 | comparing the words for equality is comparing the numbers |
| `Limbs.ShiftLeftValue` | src/arith_uint256.cpp:22-36 | the words of a left shift stand for the number times a power of two, modulo the width |
| `Limbs.ShiftRightValue` | src/arith_uint256.cpp:39-53 | the words of a right shift stand for the quotient by a power of two |
| `Limbs.OrDisjoint` | src/arith_uint256.cpp:30-34 | combining words whose bits do not meet is adding them |
| `ArithUint.BaseUint.constructor` | src/arith_uint256.h:33-37 | zero |
| `ArithUint.BaseUint.Copy` | src/arith_uint256.h:39-43 | a fresh object with the same words |
| `ArithUint.BaseUint.Assign64` | src/arith_uint256.h:89-96 | holds the given number |
| `ArithUint.BaseUint.GetLow64` | src/arith_uint256.h:249-253 | the number modulo 2^64 |
| `ArithUint.BaseUint.Add` | src/arith_uint256.h:136-146 | the carry loop adds modulo the width, also when both operands are the same object |
| `ArithUint.BaseUint.Complement` | src/arith_uint256.h:70-76 | one less than two to the width, minus the number |
| `ArithUint.BaseUint.Negated` | src/arith_uint256.h:78-85 | the negative modulo the width |
| `ArithUint.BaseUint.Subtract` | src/arith_uint256.h:148-152 | the difference modulo the width |
| `ArithUint.BaseUint.Increment` | src/arith_uint256.h:174-181 | the rolling carry adds one modulo the width |
| `ArithUint.BaseUint.Decrement` | src/arith_uint256.h:191-198 | the rolling borrow subtracts one modulo the width |
| `ArithUint.BaseUint.CompareTo` | src/arith_uint256.cpp:110-119 | the sign of the comparison of the numbers |
| `ArithUint.BaseUint.EqualTo` | src/arith_uint256.cpp:122-133 | true if and only if the numbers are equal |
| `ArithUint.BaseUint.Bits` | src/arith_uint256.cpp:173-185 | the least number of bits that holds the number |
| `ArithUint.BaseUint.MultiplyWord` | src/arith_uint256.cpp:56-65 | the product with a word, modulo the width; the 64-bit intermediate never overflows |
| `ArithUint.BaseUint.Multiply` | src/arith_uint256.cpp:68-81 | the product modulo the width, and zero for an operand that is the same object; so right if and only if the operands differ or the square is zero modulo the width; the 64-bit intermediate never overflows |
| `ArithUint.BaseUint.ShiftLeft` | src/arith_uint256.cpp:22-36 | times a power of two, modulo the width, for any shift |
| `ArithUint.BaseUint.ShiftRight` | src/arith_uint256.cpp:39-53 | the quotient by a power of two, for any shift |
| `ArithUint.BaseUint.SetBit` | src/arith_uint256.cpp:100 | setting a clear bit adds its power of two |
| `ArithUint.BaseUint.Divide` | src/arith_uint256.cpp:84-107 | the exact quotient for every width and every divisor but zero, which is an error and leaves zero |
| `Compact.OverflowExact` | src/arith_uint256.cpp:225-243 | the overflow flag is raised if and only if the encoded magnitude is at least 2^256; otherwise the value is the magnitude |
| `Compact.RoundTrip` | src/arith_uint256.cpp:225-266 | decoding an encoding raises no overflow, keeps the sign, and cuts the number down to a multiple of 256^(size-3), exactly when the size is at most three |
| `Compact.Idempotent` | src/arith_uint256.cpp:225-266 | encoding what was decoded from an encoding gives the same encoding |
| `Compact.TargetBelowTop` | src/chain.cpp:126-132 | adding one to an unflagged target never wraps around, so the divisor is not zero |
| `Compact.ProofByComplement` | src/chain.cpp:128-132 | the form that stays within 256 bits is the quotient of 2^256 |
| `Compact.ProofAntitone` | src/chain.cpp:120-133 | every valid target stands for some work, and a smaller target for no less |
| `ArithUint256.SetCompact` | src/arith_uint256.cpp:225-243 | decodes in word arithmetic, with both flags |
| `ArithUint256.GetCompact` | src/arith_uint256.cpp:245-266 | encodes in word arithmetic, with both assertions proved |
| `ArithUint256.GetBlockProof` | src/chain.cpp:120-133 | zero for a flagged or zero target, and otherwise exactly the quotient of 2^256 by the target plus one |
| `Chain.LowestOne` | src/chain.cpp:70 | inverting the lowest one takes away the largest power of two that divides the number |
| `Chain.SkipGoesBack` | src/chain.cpp:73-81 | the skip height is below the height |
| `Chain.BackAdds` | src/chain.cpp:83-107 | naive walks compose |
| `Chain.CBlockIndex.BuildSkip` | src/chain.cpp:114-118 | the skip pointer is the ancestor at the skip height |
| `Chain.CBlockIndex.GetAncestor` | src/chain.cpp:83-107 | the fast walk ends, and reaches what the naive walk reaches; null exactly for heights out of range |
| `Chain.BlockTree.AddToBlockIndex` | src/validation.cpp:4167-4205 | a header that is known is found again; another is put under its hash below the header it names, with height, greatest time and the work of its bits added up in 256 bits; the tree stays closed under predecessors with every skip pointer right, and the best header has the most work, unless and only unless the header names itself |
| `Chain.WorkSums` | src/validation.cpp:4192 | the recorded work is the sum of the block proofs along the whole path, in 256 bits |
| `Chain.BestIsHeaviest` | src/validation.cpp:4194-4195 | while no path's work exceeds 256 bits, no block has more work behind it than the best header |
| `Chain.CChain.SetTip` | src/chain.cpp:11-21 | the walk that stops early leaves the whole path of the tip, or nothing for no tip |
| `Chain.CChain.FindFork` | src/chain.cpp:51-60 | the highest block that is on the chain and on the block's own path, or null exactly if there is none |
| `Chain.CChain.GetLocator` | src/chain.cpp:23-49 | exactly the hashes of the ancestors one, two, up to ten steps back and then at doubling distances, ending with the first block; at most 12 plus the logarithm of the height plus one |
| `Chain.LocatorDescends` | src/chain.cpp:23-49 | the heights of a locator start with the block's own and strictly descend until they reach zero |
| `Chain.CChain.FindEarliestAtLeast` | src/chain.cpp:62-67 | the binary search over greatest times finds the first block whose own time is at least the bound, or null exactly if all are earlier |
| `Chain.TimesGather` | src/validation.cpp:4191 | the greatest time so far never falls along a path |
| `RollingBloom.InsertReflects` | src/bloom.cpp:354-382 | after an insert the cells still are the stated function of all keys since the last reset |
| `RollingBloom.WipeShifts` | src/bloom.cpp:356-371 | wiping a generation number forgets exactly the touches three generations old |
| `RollingBloom.ContainsExact` | src/bloom.cpp:390-402 | a lookup succeeds if and only if each of its cells was touched within the window |
| `RollingBloom.NoFalseNegatives` | src/bloom.cpp:390-402 | every key among the latest two full generations and the current one is found, for every hash function |
| `RollingBloomFilter.WithCellCells` | src/bloom.cpp:379-380 | writing the two bits of a cell changes that cell and no other |
| `RollingBloomFilter.WipedCells` | src/bloom.cpp:362-370 | the mask arithmetic clears exactly the cells of one generation |
| `RollingBloomFilter.CRollingBloomFilter.constructor` | src/bloom.cpp:322-347 | an empty filter with half the elements, rounded up, per generation |
| `RollingBloomFilter.CRollingBloomFilter.Reset` | src/bloom.cpp:410-418 | forgets every key |
| `RollingBloomFilter.CRollingBloomFilter.Wipe` | src/bloom.cpp:362-370 | the loop over word pairs wipes the generation |
| `RollingBloomFilter.CRollingBloomFilter.Insert` | src/bloom.cpp:354-382 | the packed filter reflects the keys with the new one added |
| `RollingBloomFilter.CRollingBloomFilter.Contains` | src/bloom.cpp:390-402 | finds every key of the window, and otherwise exactly those whose cells the window touches |
| `DbOverlay.WritesUsageSplit` | src/dbwrapper.h:555-570 | the sum over pending writes does not depend on the order of counting |
| `DbOverlay.UsageOfWrite` | src/dbwrapper.h:616-630 | what a write adds to the sum |
| `DbOverlay.LessTransitive` | src/dbwrapper.h:562-571 | the byte order is transitive |
| `DbOverlay.LessTotal` | src/dbwrapper.h:562-571 | the byte order is total |
| `DbOverlay.MergeStands` | src/dbwrapper.h:538-550 | the smaller of two cursors stands on the least key of both sets |
| `DbOverlay.SkipOne` | src/dbwrapper.h:528-536 | skipping a hidden key loses no key that shows |
| `DbOverlay.OverlayKeys` | src/dbwrapper.h:637-670 | the overlay's keys are the written ones and the parent's that show through |
| `DbTransaction.CDBTransaction.OverDatabase` | src/dbwrapper.h:608 | a new transaction shows the database |
| `DbTransaction.CDBTransaction.OverTransaction` | src/dbwrapper.h:608 | a new transaction over another shows what that shows |
| `DbTransaction.CDBTransaction.Write` | src/dbwrapper.h:616-630 | the view gains the pair, writes and deletes stay disjoint, the accounting stays exact |
| `DbTransaction.CDBTransaction.Read` | src/dbwrapper.h:637-653 | answers like the view, through any nesting; a pending value read as another type than it was written as is an error |
| `DbTransaction.CDBTransaction.Exists` | src/dbwrapper.h:660-670 | true if and only if the view has the key |
| `DbTransaction.CDBTransaction.Erase` | src/dbwrapper.h:677-686 | the view loses the key, writes and deletes stay disjoint, the accounting stays exact |
| `DbTransaction.CDBTransaction.Clear` | src/dbwrapper.h:688-692 | the view becomes the parent's |
| `DbTransaction.CDBTransaction.Commit` | src/dbwrapper.h:694-702 | over another transaction, the view below becomes this one's, which is unchanged; over the database, the batch, once written, gives what was seen; nothing is pending |
| `DbTransaction.CDBTransaction.CommitRoot` | src/evo/evodb.cpp:17-25 | committing and writing the batch puts on disk exactly the bytes that were due, which are those that were seen; if the disk fails nothing due is lost, and the view is the disk either way |
| `DbTransaction.CDBWrapper.WriteBatch` | src/dbwrapper.cpp:91-96 | a batch takes effect operation by operation, in order, or not at all if the disk fails |
| `DbTransaction.CDBBatch.Write` | src/dbwrapper.h:90-108 | the batch gains a write, whatever it is applied to |
| `DbTransaction.CDBBatch.Erase` | src/dbwrapper.h:121-130 | the batch gains a deletion, whatever it is applied to |
| `EvoDb.CEvoDB.Write` | src/evo/evodb.h:53-58 | a write is seen by readers only: what is committed and what is on disk stay as they were |
| `EvoDb.CEvoDB.CommitTransaction` | src/evo/evodb.cpp:44-47 | what readers see is committed; the disk stays as it was |
| `EvoDb.CEvoDB.ClearTransaction` | src/evo/evodb.cpp:49-52 | readers see again what is committed |
| `EvoDb.CEvoDB.CommitRootTransaction` | src/evo/evodb.cpp:17-25 | what is committed is on disk, and readers see the disk; if the disk fails, readers see the disk as it was and what was committed waits in the batch |
| `DbTransaction.CDBTransaction.GetMemoryUsage` | src/dbwrapper.h:708-719 | the sum over pending writes and deletes; the negative case cannot occur |
| `DbTransaction.OverlayCommit` | src/dbwrapper.h:694-702 | deleting and then writing in the parent gives the overlay |
| `DbIterator.CDBTransactionIterator.SeekToFirst` | src/dbwrapper.h:428-433 | stands on the first key of the overlay |
| `DbIterator.CDBTransactionIterator.Seek` | src/dbwrapper.h:440-445 | stands on the first key of the overlay at or after the one sought |
| `DbIterator.CDBTransactionIterator.Next` | src/dbwrapper.h:451-464 | stands on the next key of the overlay; at the end nothing happens |
| `DbIterator.CDBTransactionIterator.SkipDeletedAndOverwritten` | src/dbwrapper.h:528-536 | moves the parent's iterator to the next key that shows through, and ends |
| `DbIterator.CDBTransactionIterator.DecideCur` | src/dbwrapper.h:538-550 | chooses the smaller cursor |
| `DbIterator.CDBTransactionIterator.IsValid` | src/dbwrapper.h:447-449 | true if and only if a key is left |
| `DbIterator.CDBTransactionIterator.GetKey` | src/dbwrapper.h:493-502 | the current key, empty at the end |
| `DbIterator.CDBTransactionIterator.GetValue` | src/dbwrapper.h:516-525 | what the view holds under the current key |
| `DbIterator.PositionedStands` | src/dbwrapper.h:404-415 | the merged iterator stands on the least overlay key ahead, through any nesting |
| `DbIterator.Enumerate` | src/dbwrapper.h:428-464 | from the first key to the end, every key of the overlay once, in strictly increasing order |
| `Base58.RecodeInverse` | src/base58.cpp:22-110 | changing base and back, with leading zeroes kept, loses nothing |
| `Base58.DecodeOfEncode` | src/base58.cpp:22-110 | decoding inverts encoding for every byte string |
| `Base58.EncodeOfDecode` | src/base58.cpp:22-110 | encoding what was decoded gives the input without the whitespace around it |
| `Base58.DecodeOfEncodeCheck` | src/base58.cpp:122-146 | the checked form round-trips |
| `Base58.EncodeOfDecodeCheck` | src/base58.cpp:122-146 | what the checked decoder accepts is what the checked encoder gives, but for whitespace |
| `Base58.EncodeFits` | src/base58.cpp:81-82 | the encoder's buffer suffices for every length |
| `Base58.DecodeFits` | src/base58.cpp:34-35 | the decoder's buffer suffices for every length |
| `Base58.LetterIndex` | src/base58.cpp:20 | looking up a letter gives its digit |
| `Base58.IndexLetter` | src/base58.cpp:20 | the letter of a digit looked up is the letter |
| `Base58Codec.MultiplyAdd` | src/base58.cpp:44-51 | the carry loop multiplies the buffer and adds a digit, and the carry that is left is zero |
| `Base58Codec.EncodeBase58` | src/base58.cpp:72-110 | the loops compute the encoding |
| `Base58Codec.DecodeLetters` | src/base58.cpp:38-54 | the letters up to a space make the number in the buffer; another character is refused |
| `Base58Codec.DecodeBase58` | src/base58.cpp:22-70 | the loops compute the decoding, and refuse exactly what is not letters within whitespace |
| `Base58Codec.CStr` | src/base58.cpp:117-120 | a string is seen up to its first NUL |
| `Base58Codec.DecodeBase58String` | src/base58.cpp:117-120 | decodes a string up to its first NUL |
| `Base58Codec.EncodeBase58Check` | src/base58.cpp:122-129 | appends four bytes of hash and encodes |
| `Base58Codec.DecodeBase58Check` | src/base58.cpp:131-146 | refuses what is too short or has another checksum, and strips the checksum |
| `CompactBlocks.PlacedVacancies` | src/blockencodings.cpp:60-76 | with the prefilled transactions in place, as many slots are vacant as there are short identifiers |
| `CompactBlocks.PlacedAt` | src/blockencodings.cpp:60-76 | every prefilled transaction is in its place |
| `CompactBlocks.FewPrefilled` | src/blockencodings.cpp:60-76 | a message that passes the checks has at most 65536 prefilled transactions |
| `CompactBlocks.EveryOffsetTaken` | src/blockencodings.cpp:82-86 | with exactly 65536 of them the slot at every 16-bit offset is filled, so that the search from the first identifier does not end |
| `CompactBlocks.EndlessAccepted` | src/blockencodings.cpp:60-86 | such a message exists: 65536 transactions given in full, one after another, and one identifier pass the checks |
| `CompactBlocks.SearchEnds` | src/blockencodings.cpp:82-86 | some 16-bit offset finds a vacant slot if and only if fewer than 65536 transactions are prefilled |
| `CompactBlocks.CompressDescribes` | src/blockencodings.cpp:20-30 | the sender's form describes the block: the first transaction in place, the identifiers of the rest in order |
| `CompactBlocks.FillingRebuilds` | src/blockencodings.cpp:184-192 | slots that agree with a block, and the missing transactions in order, make the block |
| `CompactBlocks.FillingAt` | src/blockencodings.cpp:184-192 | a gap is filled with the missing transaction of its rank |
| `CompactBlocks.IndexesRoundTrip` | src/blockencodings.h:38-68 | the differential encoding round-trips if and only if the list is strictly increasing; otherwise reading fails |
| `CompactBlocks.DecodedIncreasing` | src/blockencodings.h:55-61 | differences are read, and as a strictly increasing list, if and only if their sum and their number together are at most 65536; the last position is then that total less one |
| `CompactBlocks.DecodedWraps` | src/blockencodings.h:55-61 | after the largest 16-bit number the offset wraps around and a list out of order is accepted |
| `PartialBlock.ReceivedAgrees` | src/blockencodings.cpp:106-165 | if matching transactions at hand are the ones meant, every filled slot agrees with the block |
| `PartialBlock.TargetsExact` | src/blockencodings.cpp:81-87 | every identifier is looked up at its own vacancy if and only if there are at most 65536 transactions |
| `PartialBlock.PoolOutcome` | src/blockencodings.cpp:110-134 | a slot that no pool transaction matches is as before, one that one matches gets it, one that more match is left vacant |
| `PartialBlock.ExtraOutcome` | src/blockencodings.cpp:136-165 | a slot already filled is vacated if and only if a match has another witness hash; one already vacated stays so |
| `PartialBlock.SweptOrigin` | src/blockencodings.cpp:106-165 | what a list leaves in a slot was there before or is one of its matching transactions |
| `PartialBlock.InitializedReceived` | src/blockencodings.cpp:50-170 | up to 65536 transactions, prefilled slots are in place, the others vacant or filled under their own identifiers, and the count is exact |
| `PartialBlock.RequestExact` | src/net_processing.cpp:2485-2489 | the positions pushed as 16-bit numbers are the missing ones if and only if there are at most 65536 transactions |
| `PartialBlock.PartiallyDownloadedBlock.PlacePrefilled` | src/blockencodings.cpp:60-76 | accepts exactly the messages whose prefilled transactions have places, all accesses in bounds |
| `PartialBlock.PartiallyDownloadedBlock.SkipFilled` | src/blockencodings.cpp:85-86 | the search for a vacant slot stays in bounds and ends, unless every slot a 16-bit offset can reach is filled |
| `PartialBlock.PartiallyDownloadedBlock.MapShortIDs` | src/blockencodings.cpp:82-104 | maps each identifier to the position of its vacant slot, cut to 16 bits, and fails exactly on collisions and crowded buckets; it ends if and only if there are no identifiers or fewer than 65536 filled slots |
| `PartialBlock.PartiallyDownloadedBlock.Consider` | src/blockencodings.cpp:136-159 | changes exactly the claimed slot as one claim does; the count of slots filled from what is at hand stays exact and never goes below zero |
| `PartialBlock.PartiallyDownloadedBlock.Scan` | src/blockencodings.cpp:110-165 | leaves the outcome of the transactions gone through, which are all unless every identifier was found |
| `PartialBlock.PartiallyDownloadedBlock.InitData` | src/blockencodings.cpp:50-170 | when each status is returned, and that it ends exactly if not 65536 transactions are prefilled with identifiers besides; on success the slots and the count are the exact outcome of going through the pool and then the other transactions at hand |
| `PartialBlock.PartiallyDownloadedBlock.RequestMissing` | src/net_processing.cpp:2485-2489 | lists the vacant positions, cut to 16 bits |
| `PartialBlock.PartiallyDownloadedBlock.FillBlock` | src/blockencodings.cpp:178-219 | fills the gaps in order, and fails exactly when too few or too many transactions come or validation fails |
| `PartialBlock.Relay` | src/blockencodings.cpp:20-219 | when the message is read; up to 65536 transactions the request passes through its wire form, is answered, and every gap is filled; unless a transaction at hand passes for another, and unless the first transaction is repeated at position 65536, the receiver ends with the sender's block if and only if it has at most 65536 transactions |
| `PartialBlock.WrongAnswer` | src/net_processing.cpp:1318-1333 | beyond 65536 transactions position 65536 is asked for as position 0, and what comes for it is the first transaction |
| `PartialBlock.SendBlockTransactions` | src/net_processing.cpp:1318-1333 | answers with the transactions asked for, or fails exactly on a position outside the block |
| `PartialBlock.Ask` | src/net_processing.cpp:1318-1333 | a request sent as differences is answered if and only if it is strictly increasing and within the block |
| `PartialBlock.AskMissing` | src/net_processing.cpp:2485-2489 | the missing positions of a block of at most 65536 transactions form such a request |
| `BlockRequest.BlockTransactionsRequest.Write` | src/blockencodings.h:62-67 | writes the differences |
| `BlockRequest.BlockTransactionsRequest.Read` | src/blockencodings.h:42-61 | reads the differences, the array growing by a thousand at a time, and adds them up in place, failing exactly on 16-bit overflow; it reads a strictly increasing list exactly if their sum and their number together are at most 65536; an object that holds enough numbers already reads none |

## Left out

- Select_, GetChance and GetAddressInfo_ of the address manager: probabilities and floating point, and a plain lookup.
- Real hash functions (MurmurHash3, SipHash, SHA-256, RIPEMD-160): arbitrary functions stand for them.
- Locks, atomics and memory ordering: each critical section is one step.
- Thread interruption and shutdown of the check queue, and CCheckQueueControl.
- Wrap-around of the address manager's 32-bit ids and of the other counters.
- The on-disk bytes of the address manager: its stream is modelled as a sequence of typed values.
- AddrMan.CAddrMan.ReadOrClear: stated for a manager whose two maps are empty, as the next.
- AddrMan.CAddrMan.Unserialize: stated for a manager whose two maps are empty, because clearing leaves them alone; what reading on top of stale entries gives is not modelled. The node reads into a manager it has just constructed.
- Best-block hashes, memory usage in bytes and AccessByTxid of the coin caches.
- CoinsView.CoinsViewDB.BatchWrite: the database write is taken to succeed; the source's write returns true or throws.
- RollingBloomFilter.CRollingBloomFilter.constructor: asks for at least one pair of words; the source built for zero elements has none, and an insertion then takes a remainder by zero. The number of bits and of hash functions are parameters; the source computes them with floating-point logarithms.
- CuckooCache.CCache.constructor: the logarithm is exact; the source computes it in single precision, which just below a large power of two can give that power.
- CuckooCache.Sizes: the same.
- CBloomFilter, the other bloom filter.
- Hexadecimal and floating-point forms of wide integers, and the exclusive-or and and operators.
- GetBlockProofEquivalentTime.
- Chain.BlockTree.AddToBlockIndex: validity flags and the sets of dirty and of following entries are not modelled.
- DbTransaction.CDBTransaction.Commit: obfuscation of stored bytes and the size estimate of a batch are not modelled.
- DbTransaction.CDBWrapper.WriteBatch: a write that fails is taken to change nothing.
- Scoped database transactions, which commit or roll back when they go out of scope.
- Iterating while the transaction is being changed.
- PartialBlock.PartiallyDownloadedBlock.InitData: the count of extra-pool transactions, a logging figure, is not kept.
- Base58 encoding of addresses and keys on top of the checked form.
- The rest of the node: networking, consensus validation, wallet, scripts, zero-knowledge proofs.
