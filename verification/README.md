# Btcnano core: a verified model

This project models the self-contained cores of the Btcnano full node (a node of the Bitcoin
family written in C++) and proves what their design and their comments promise. Every module
follows one or two source files. State that the source updates in place is a class with the
source's own fields, and each method is proved against a specification function or predicate;
the properties are proved about those specifications, for all inputs, all reachable states or
all runs.

| file | models |
|---|---|
| CoinsSpec, CoinsCache | write-back coin caches with DIRTY and FRESH flags, stacked on a coin database |
| CheckQueue | the master/worker verification queue, one atomic step per critical section |
| CuckooCache | the signature cache: bounded cuckoo insertion with two epochs |
| MerkleSpec, MerkleBlock, MerkleSize | partial Merkle trees: encoder, decoder, bit packing, serialized size |
| AddrSpec, AddrSteps, AddrOps, AddrEffects, AddrMan | the address manager, its internal steps, its operations and what they do to entries and slots |
| AddrDisk, AddrRead, AddrStore | writing the address manager to a stream, and reading any stream |
| MinerSpec, Miner, Priorities, PackageRun, BlockAssembler | block assembly by priority and by ancestor packages |
| Overfull | a memory pool within the default relay limits for which a block exceeds its signature limit |
| RollingBloom | the rolling Bloom filter with two-bit generation tags |
| CashAddrSpec, CashAddr | the cashaddr checksum, encoder and decoder |
| Radix, Base58 | base-58 conversion, with and without checksum |
| SkipHeights, BlockTree | the block index with skip pointers and the active chain |
| Limbs, LimbShifts, Arith256, Difficulty | 256-bit limb arithmetic, compact targets, block proof |
| MedianTime, Retarget | median time past, the target required of the next block, proof-of-work and header checks |
| CompactSpec, CompactBlocks | compact block reconstruction |
| Amounts | amount compression in 64-bit arithmetic |
| Powers, Sets, Common | powers of two, cardinalities, minimum and maximum |

Hashes, random numbers, clocks and peers' input are parameters: every function of the right
type, every choice and every input is allowed. Numbers are unbounded unless a 32-bit or 64-bit
wrap matters, and then the wrap is written out. Locks and logging do not appear. The remarks
below say where a property that one would expect is not true of the code as it stands, and what
is proved instead.

* Adding a coin over a visible one without `possible_overwrite` either throws or misapplies
  FRESH; `CoinsSpec.AddNeedsDuty` shows that the documented duty of the caller is exactly what
  is needed. `SpendCoin` reports success for a record that is already spent.
* `CuckooCache.EpochIsFortyFivePercent`: the epoch size is 45% of the table for at most 2^26
  slots; from 2^27 slots on the 32-bit product wraps.
* `CuckooCache.Cache.NextLoc`: when no slot is free the first element moved is the one in the
  second hashed slot, where the comment names the first. The comment's "prevents moving the element
  we just put in" holds exactly when two neighbouring hashes differ
  (`CuckooCache.Cache.NewestStays`); `CuckooCache.Cache.NewestLeaves` gives hashes for which it fails.
* Reading an address manager ends with a consistency check of the result. Tables, random order and
  counters pass it for every stream (`AddrRead.ReadTables`). Names and times pass it exactly when no
  entry that has a slot shares its address with another, and those entries have sensible times
  (`AddrRead.ReadConsistent`). `AddrRead.SensibleConsistent` gives a condition on the records alone, and
  `AddrRead.TwiceInconsistent` a family of streams that fail.
* `MerkleSpec.BitCount`: the header's "2*N-1 bits" holds exactly when no descended node has an
  only child; `MerkleSpec.BitPromiseFails` gives three transactions that break it. The header's
  "hard guarantee" of 10 + ceil(32.25*N) bytes fails with it: `MerkleSize.SizeExact` says exactly
  when, and `MerkleSize.SizePromiseFails` names a block of 1028 transactions.
* A package whose modified entry failed and was re-created is recorded too large, because only
  ancestors included later are subtracted again. It can pass the test it failed: that test allows
  more signature operations for a larger block. `BlockAssembler.Assembler.CreateNewBlock` keeps the
  limit for the block's own size whenever the maximum size is at most 1000001 bytes, and
  `Overfull.ExceedLimit` breaks it for every larger one, so this is exact. It needs no unusual pool:
  fifteen transactions that keep the default limits on size, signature operations, ancestors and
  descendants (`Overfull.WithinLimits`), with the priority area switched off. The comment that a failed
  entry is "guaranteed to fail again" holds for size and finality (`PackageRun.DoomedForever`), and
  only for those: whatever comes back failed for its signature operations
  (`PackageRun.ReturnsAreDense`).
* Recorded fees drift by the fee deltas of all subtracted ancestors but the first, because the first
  subtraction uses the modified fee and later ones the plain fee; `MinerSpec.RecordCovers` gives the
  difference.
* `Amounts.RoundTripExact`: a 64-bit amount survives compression exactly when it ends in zero or
  about nine times it fits 64 bits; `Amounts.LostAmount` names one within `MAX_MONEY` that does
  not. `Amounts.CodesExact` is the same for codes.
* `Retarget.AverageExact`: the average target of a window is the average of its targets exactly
  when their sum fits 256 bits. The source asserts that a window of the easiest targets fits;
  for the regression test network that assertion stands before the window is set, and does not
  hold: `Retarget.RegtestWraps` shows the sum wrap on every chain of that network as soon as the
  window is full. `fPowNoRetargeting` is not read there.
* `Retarget.StepBounds`: the bits required of the next block are valid exactly when the average
  target is at least the window's timespan in seconds; below that the division leaves zero.
* `Difficulty.Recode`: a compact number survives being read and written exactly when it is zero,
  or has no leading zero bytes and no bytes cut off by its exponent, and fits 256 bits.
* `Arith256.BaseUint.MultiplySelf`: multiplying a number by itself in place gives zero, because
  the operand is cleared together with the receiver.
* When an extra-pool transaction displaces a mempool match, `extra_count` is decremented
  although it was not counted. `CompactBlocks.PartiallyDownloadedBlock.InitData` says that it counts
  the slots filled from the extra pool exactly when no transaction looked at there has the short id
  of a slot that a different one fills; `CompactBlocks.ExtraBelowZero` takes it to minus one. The
  model lets it become negative. It is only logged.

## Model

| member | source | states |
|---|---|---|
| `CoinsSpec.ContentsAreVisible` | src/coins.cpp:64-95 | the plain map a view stands for holds exactly the unspent coins that lookups through the view show |
| `CoinsSpec.FetchKeepsView` | src/coins.cpp:64-86 | a lookup that fills caches at every level keeps the meaning of all flags and shows nothing different for any outpoint |
| `CoinsSpec.FetchKeepsSnapshots` | src/coins.cpp:64-86 | a lookup leaves the coins shown at every level of the stack unchanged |
| `CoinsSpec.AddIsInsert` | src/coins.cpp:97-123 | when nothing unspent is visible, or overwriting is permitted, adding never throws and the view becomes the plain map with the coin inserted; unspendable outputs change nothing |
| `CoinsSpec.AddNeedsDuty` | src/coins.cpp:104-116 | without that duty the call throws exactly when the record is cached, and otherwise breaks the FRESH rule so that spending the new coin brings the old one back |
| `CoinsSpec.SpendIsRemove` | src/coins.cpp:137-153 | spending removes the outpoint from the plain map, at the top level only |
| `CoinsSpec.UncacheKeepsView` | src/coins.cpp:256-262 | uncaching shows the same coins |
| `CoinsSpec.BatchWriteShowsChild` | src/coins.cpp:186-247 | after a batch write the parent shows what the child showed, for every outpoint |
| `CoinsSpec.BatchWriteKeepsFlags` | src/coins.cpp:186-247 | after a batch write clean entries still equal the view below and FRESH entries still have nothing unspent below |
| `CoinsSpec.FlushKeepsView` | src/coins.cpp:249-254 | a flush never raises the misapplied-FRESH error and shows the same coins above and below |
| `CoinsSpec.AtLevelRefines` | src/coins.cpp:64-95 | reads, uncaching and flushes at any level of a stack change the plain maps as they should and no other level |
| `CoinsSpec.StepRefines` | src/coins.cpp:64-262 | every operation on a stack of any depth is the same operation on a stack of plain maps, returns the same coin and does not throw |
| `CoinsSpec.RunRefines` | src/coins.cpp:64-262 | over every history of reads, adds, spends, uncaches, flushes, pushes and pops: every returned value and every level equals the plain maps, all flags keep their meaning, no exception is reachable |
| `CoinsCache.CoinsDB.BatchWrite` | src/txdb.cpp:67-94 | writes dirty unspent records and erases dirty spent ones, whatever the order of the loop |
| `CoinsCache.CoinsViewCache.FetchCoin` | src/coins.cpp:64-86 | performs the recursive lookup on the linked caches and keeps the memory account exact |
| `CoinsCache.CoinsViewCache.GetCoin` | src/coins.cpp:88-95 | returns the visible coin and whether any level has a record |
| `CoinsCache.CoinsViewCache.HaveCoin` | src/coins.cpp:165-168 | true exactly when an unspent coin is visible |
| `CoinsCache.CoinsViewCache.AddCoin` | src/coins.cpp:97-123 | performs the specified insertion, throws exactly when specified, and keeps the memory account exact unless it throws |
| `CoinsCache.CoinsViewCache.SpendCoin` | src/coins.cpp:137-153 | performs the specified spend and returns the coin that was visible |
| `CoinsCache.CoinsViewCache.Uncache` | src/coins.cpp:256-262 | drops only clean entries that are not FRESH; memory account exact |
| `CoinsCache.CoinsViewCache.BatchWrite` | src/coins.cpp:186-247 | merges the child into the parent; throws exactly when some record misapplies FRESH |
| `CoinsCache.CoinsViewCache.WriteAll` | src/coins.cpp:186-247 | the erase-while-iterating loop equals the order-free merge |
| `CoinsCache.CoinsViewCache.WriteOne` | src/coins.cpp:189-241 | one record is merged by the four flag cases, memory account exact |
| `CoinsCache.CoinsViewCache.Flush` | src/coins.cpp:249-254 | hands all entries to the view below and empties the cache |
| `CheckQueue.BatchSize` | src/checkqueue.h:101-111 | a thread takes at least one check, at most what is queued, and no more than the batch size unless that is below one |
| `CheckQueue.BatchShare` | src/checkqueue.h:101-111 | a batch times the number of threads, and one more, is within the queue, and a larger one is not unless the batch size is reached |
| `CheckQueue.StepKeepsInv` | src/checkqueue.h:65-156 | every atomic step keeps: nTodo equals queued plus held checks, idle and total counters match the threads, and the verdict so far plus the checks not yet run decide the final verdict |
| `CheckQueue.ExecutionKeepsInv` | src/checkqueue.h:65-156 | the invariant holds in every state of every interleaving of one master and any number of workers |
| `CheckQueue.MasterSeesNoBatch` | src/checkqueue.h:87-96 | when the master finds nothing to do, no worker holds a batch |
| `CheckQueue.WaitReturnsVerdict` | src/checkqueue.h:76-96 | in every interleaving Wait returns true exactly when every check added since the last return is true, although checks are skipped after a failure |
| `CheckQueue.IdleOutsideWait` | src/checkqueue.h:160-163 | after Wait returns and until the next nonempty Add, the queue reports itself idle |
| `CheckQueue.NoLostWakeup` | src/checkqueue.h:76-100 | while the master is inside Wait some step other than an idle wakeup is enabled; a waiting master that was not notified leaves a worker with a batch |
| `CheckQueue.ProperStepsRunOut` | src/checkqueue.h:65-129 | every such step lowers a bound on the work left |
| `CheckQueue.ProperRunsAreBounded` | src/checkqueue.h:65-129 | so no run of such steps is longer than that bound |
| `CheckQueue.EveryWaitEnds` | src/checkqueue.h:76-100 | every Wait ends: from any reachable state such steps run out, and when none is left to take the master is outside Wait |
| `CuckooCache.AgedCounts` | src/cuckoocache.h:277-283 | ageing empties the current epoch and moves its live entries to the old one |
| `CuckooCache.EpochIsFortyFivePercent` | src/cuckoocache.h:324-325 | the epoch size is 45% of a power-of-two table exactly up to 2^26 slots |
| `CuckooCache.Cache.TotalLiveBounded` | src/cuckoocache.h:164-194 | in every valid state live entries of both epochs stay within twice epoch_size plus a sixteenth of it, at least one |
| `CuckooCache.Cache.constructor` | src/cuckoocache.h:315-329 | an empty table of 2^depth slots, nothing live, invariant established |
| `CuckooCache.Cache.EpochCheck` | src/cuckoocache.h:262-294 | leaves room for one more current-epoch entry under the heuristic counter, and ages the table exactly when the current epoch is full |
| `CuckooCache.Cache.AgeAll` | src/cuckoocache.h:277-283 | old entries become collectable, current ones become old |
| `CuckooCache.Cache.FindElement` | src/cuckoocache.h:373-380 | finds the element in one of its eight slots or shows it is in none |
| `CuckooCache.Cache.FindCollected` | src/cuckoocache.h:382-389 | finds a collectable slot among the eight or shows there is none |
| `CuckooCache.Cache.NextLoc` | src/cuckoocache.h:405-408 | the second slot on the first turn, and otherwise the one after the first that was written last, going round |
| `CuckooCache.Cache.RoomMeansStored` | src/cuckoocache.h:382-389 | an element that finds room in one of its own slots starts no chain |
| `CuckooCache.Cache.ChainGrows` | src/cuckoocache.h:390-416 | one more turn of the chain: no room, and on to the slot after the one the element comes from |
| `CuckooCache.Cache.NewestStays` | src/cuckoocache.h:390-408 | the element just put in stays exactly when the next hash of the one that left leads elsewhere; otherwise two turns undo each other |
| `CuckooCache.Cache.NewestLeaves` | src/cuckoocache.h:390-408 | hashes for which the element just put in is the next to be taken out |
| `CuckooCache.Cache.Contains` | src/cuckoocache.h:446-457 | finds every live element, the default one included; reports a non-default element exactly when it is in the table; marks at most its slot collectable |
| `CuckooCache.Cache.SwapMoves` | src/cuckoocache.h:409-416 | one swap of the chain moves elements and their epoch flags without losing or copying any |
| `CuckooCache.Cache.StoreEnds` | src/cuckoocache.h:382-389 | a chain that reaches a collectable slot leaves every element at one of its slots and adds exactly the new live element |
| `CuckooCache.Cache.InsertElement` | src/cuckoocache.h:368-418 | refreshed exactly if it is in one of its slots; otherwise a chain of swaps in which every element finds no room and goes on to its next slot, until one finds room, in its first free slot, or the turns are used up; live elements change by adding the new one, and by dropping one only when the chain is exhausted |
| `CuckooCache.Cache.Insert` | src/cuckoocache.h:368-418 | an insertion keeps the whole invariant: every element and every live slot in its place, none but the default stored twice, both epochs within their bounds; for every outcome, what is live afterwards is exactly what survived ageing with the new element, and without the one that ran out of turns, which is the last of the chain |
| `MerkleSpec.Height` | src/merkleblock.cpp:151-154 | the lowest level of width one |
| `MerkleSpec.NodeCoversLeaf` | src/merkleblock.h:68-70 | a position is inside a level exactly when its first leaf is inside the block |
| `MerkleSpec.SubtreeAuthentic` | src/merkleblock.cpp:97-142 | whatever bits and hashes arrive, a subtree whose hash is the true one and that raised no flag reports only true txids at true positions |
| `MerkleSpec.Authentication` | src/merkleblock.cpp:162-191 | for any message: success with the true root of a list of that length implies that every extracted pair is in the list at that index, for an injective pair hash |
| `MerkleSpec.NodesDiffer` | src/merkleblock.cpp:56-74 | distinct txids give distinct node hashes on a level, so the duplicate check never rejects an honest tree |
| `MerkleSpec.SubtreeRoundTrip` | src/merkleblock.cpp:76-142 | decoding what was encoded for a node yields its hash and its masked txids and consumes exactly its bits and hashes |
| `MerkleSpec.RoundTrip` | src/merkleblock.cpp:144-191 | building then extracting, with or without padding to bytes, is accepted and returns the full root and exactly the masked txids with indices in order |
| `MerkleSpec.HashesPerLeaf` | src/merkleblock.cpp:76-95 | at most one hash per leaf and at least one bit per hash |
| `MerkleSpec.HashesPerMatch` | src/merkleblock.cpp:76-95 | at most one hash per match and level, plus one |
| `MerkleSpec.NothingUnread` | src/merkleblock.cpp:162-191 | an accepted message has no hash too many and less than a byte of bits too many |
| `MerkleSpec.TwinsRefused` | src/merkleblock.cpp:125-141 | a node with two equal subtrees is refused, and every node above it |
| `MerkleSpec.EncodedSize` | src/merkleblock.h:37-41 | stored hashes number at most min(n, 1 + matches * height) |
| `MerkleSpec.BitCount` | src/merkleblock.h:48-49 | flag bits number exactly 2*N-1 plus the descended nodes with an only child |
| `MerkleSpec.BitPromiseFails` | src/merkleblock.h:48-49 | a block of three transactions exceeds 2*N-1 bits |
| `MerkleSize.OnePerHeight` | src/merkleblock.cpp:76-95 | at most one descended node with an only child on every level |
| `MerkleSize.FullHashes` | src/merkleblock.cpp:76-95 | when all transactions are matched every leaf is stored |
| `MerkleSize.FullOnlyChildren` | src/merkleblock.h:68-70 | then there is one only child for every level with an odd number of nodes |
| `MerkleSize.SizeExact` | src/merkleblock.h:32-51 | the serialized size is at most 10 + ceil(32.25*N) if and only if the only children are at most 33, 17, 9 or 1, by the number of hashes, plus twice what N lacks to a multiple of four; never beyond 65535 hashes |
| `MerkleSize.SmallPromise` | src/merkleblock.h:32-51 | fewer than 253 hashes always keep the guarantee in trees of at most 33 levels |
| `MerkleSize.SizePromiseFails` | src/merkleblock.h:32-51 | 1028 transactions, all matched, take one byte more than guaranteed |
| `MerkleBlock.PartialMerkleTree.constructor` | src/merkleblock.cpp:144-158 | the object holds the encoding of the block and mask |
| `MerkleBlock.PartialMerkleTree.TreeHeight` | src/merkleblock.cpp:151-154 | the loop finds the tree height |
| `MerkleBlock.PartialMerkleTree.TraverseAndBuild` | src/merkleblock.cpp:76-95 | appends exactly the encoding of the node to both vectors |
| `MerkleBlock.PartialMerkleTree.IsParentOfMatch` | src/merkleblock.cpp:79-83 | true exactly when a masked leaf lies below the node |
| `MerkleBlock.PartialMerkleTree.TraverseAndExtract` | src/merkleblock.cpp:97-142 | the walk with its counters, output vectors and fBad computes the specified walk for any contents |
| `MerkleBlock.PartialMerkleTree.ExtractMatches` | src/merkleblock.cpp:162-191 | returns the root and matches exactly when all of the checks hold, and the null hash otherwise |
| `MerkleBlock.PartialMerkleTree.PackBits` | src/merkleblock.h:109-114 | bit p goes to bit p mod 8 of byte p / 8 |
| `MerkleBlock.PartialMerkleTree.UnpackBits` | src/merkleblock.h:102-108 | reads eight bits per byte |
| `MerkleBlock.SendAndReceive` | src/merkleblock.h:97-115 | a tree built, serialized, deserialized and extracted gives the root, txids and indices |
| `AddrSpec.SizesAgree` | src/addrman.cpp:398-460 | under the invariant the sizes compared by the check agree: vRandom, mapInfo, mapAddr and nTried + nNew |
| `AddrSteps.CreateKeeps` | src/addrman.cpp:92-101 | a created entry gets an unused id and all tables stay consistent apart from the missing reference |
| `AddrSteps.SwapKeeps` | src/addrman.cpp:103-119 | swapping keeps vRandom and nRandomPos mutually inverse and everything else |
| `AddrSteps.DeleteKeeps` | src/addrman.cpp:121-132 | deleting an unreferenced entry keeps all other entries and the invariant |
| `AddrSteps.ClearNewKeeps` | src/addrman.cpp:134-146 | clearing a slot frees it, deletes at most its occupant and touches no other entry |
| `AddrSteps.ClearNewSpares` | src/addrman.cpp:134-146 | an entry that does not hold the slot survives |
| `AddrSteps.RefKeeps` | src/addrman.cpp:305-308 | taking a free slot keeps reference counts equal to the number of slots held |
| `AddrSteps.DropRefsKeeps` | src/addrman.cpp:149-159 | leaving all new buckets brings the reference count to zero |
| `AddrSteps.UntryKeeps` | src/addrman.cpp:173-176 | taking an entry out of the tried table keeps the rest consistent |
| `AddrSteps.TryKeeps` | src/addrman.cpp:189-193 | entering a free tried slot keeps the rest consistent |
| `AddrOps.EvictKeeps` | src/addrman.cpp:165-188 | the evicted tried entry ends in its new slot, whose occupant loses one reference |
| `AddrOps.MakeTriedKeeps` | src/addrman.cpp:148-194 | moving an entry to the tried table keeps the whole invariant |
| `AddrOps.BucketFound` | src/addrman.cpp:222-236 | every new entry is in some new bucket, so the search of Good_ always succeeds |
| `AddrOps.GoodKeeps` | src/addrman.cpp:196-242 | Good_ keeps the invariant and ends with the service in the tried table |
| `AddrOps.PrepareKeeps` | src/addrman.cpp:244-291 | finding and refreshing, or creating, keeps what the second half of Add_ needs |
| `AddrOps.PlaceKeeps` | src/addrman.cpp:293-314 | placing the entry restores the whole invariant in every case, including deletion of an entry left without a slot |
| `AddrOps.AddKeeps` | src/addrman.cpp:244-316 | Add_ keeps the invariant and reports success exactly for routable addresses not known before |
| `AddrOps.AddForgetsAtMostOne` | src/addrman.cpp:244-316 | Add_ forgets at most one address: a terrible one whose only new slot the added address now holds |
| `AddrOps.GoodForgetsAtMostOne` | src/addrman.cpp:196-242 | Good_ forgets at most one address, never the one it was called for |
| `AddrOps.GetAddrReturns` | src/addrman.cpp:463-478 | at most 23% and at most 2500 addresses, none terrible, none twice, and fewer only when all that qualify are returned |
| `AddrOps.AttemptKeeps` | src/addrman.cpp:318-337 | Attempt_ keeps the invariant |
| `AddrOps.ConnectedKeeps` | src/addrman.cpp:480-495 | Connected_ keeps the invariant |
| `AddrOps.SetServicesKeeps` | src/addrman.cpp:497-511 | SetServices_ keeps the invariant |
| `AddrOps.StepKeeps` | src/addrman.cpp:83-511 | every operation, with any choice of random numbers and clocks, keeps the invariant |
| `AddrOps.RunKeepsCheck` | src/addrman.cpp:398-460 | every run from an empty manager passes Check_: reference counts equal slots held and are at most eight, each id in exactly one table at its hashed place, vRandom and nRandomPos inverse, mapAddr injective, counters right; the key is the one the manager started with, so it is not null if that was not |
| `AddrMan.Manager.constructor` | src/addrman.h:483-502 | an empty manager |
| `AddrMan.Manager.Find` | src/addrman.cpp:83-90 | finds exactly the known addresses |
| `AddrMan.Manager.CreateEntry` | src/addrman.cpp:92-101 | performs Create on the maps and vRandom |
| `AddrMan.Manager.SwapRandomPositions` | src/addrman.cpp:103-119 | performs SwapRandom; no assert can fail |
| `AddrMan.Manager.DeleteEntry` | src/addrman.cpp:121-132 | performs Delete; no assert can fail |
| `AddrMan.Manager.ClearNewSlot` | src/addrman.cpp:134-146 | performs ClearNew on the bucket array; no assert can fail |
| `AddrMan.Manager.TakeSlots` | src/addrman.cpp:149-156 | the loop over all buckets removes exactly the slots of the entry |
| `AddrMan.Manager.MakeEntryTried` | src/addrman.cpp:148-194 | performs MakeTried; no assert can fail |
| `AddrMan.Manager.EvictTried` | src/addrman.cpp:165-188 | performs the eviction; no assert can fail |
| `AddrMan.Manager.FindBucket` | src/addrman.cpp:222-236 | from any random start, finds a bucket that holds the entry |
| `AddrMan.Manager.Good` | src/addrman.cpp:196-242 | performs Good_ and keeps the manager valid |
| `AddrMan.Manager.Attempt` | src/addrman.cpp:318-337 | performs Attempt_ and keeps the manager valid |
| `AddrMan.Manager.Connected` | src/addrman.cpp:480-495 | performs Connected_ and keeps the manager valid |
| `AddrMan.Manager.SetServices` | src/addrman.cpp:497-511 | performs SetServices_ and keeps the manager valid |
| `AddrMan.Manager.Add` | src/addrman.cpp:244-316 | performs Add_ and keeps the manager valid |
| `AddrMan.Manager.StochasticFactor` | src/addrman.cpp:279-283 | the loop computes two to the power of the reference count |
| `AddrMan.Manager.PlaceEntry` | src/addrman.cpp:293-314 | performs the second half of Add_ |
| `AddrMan.Manager.GetAddr` | src/addrman.cpp:463-478 | performs the partial shuffle and returns the drawn addresses |
| `AddrEffects.TerribleIs` | src/addrman.cpp:40-72 | an entry is terrible exactly if it was not tried in the last minute and is from the future, older than thirty days, or has failed too often |
| `AddrEffects.ClearNewIs` | src/addrman.cpp:133-146 | the occupant of the slot loses one reference, and its name with the last one; nothing else changes |
| `AddrEffects.PlaceTakes` | src/addrman.cpp:291-314 | an entry takes its slot when that is free or the occupant gives way |
| `AddrEffects.PlaceLeaves` | src/addrman.cpp:291-314 | otherwise no slot changes hands, and an entry without slots is deleted |
| `AddrEffects.AddNewcomer` | src/addrman.cpp:244-316 | a routable unknown address is stored if and only if its slot is free or the occupant is terrible or has other slots; then in that slot, with one reference, its fields and the penalised time; otherwise nothing changes |
| `AddrEffects.AddKnown` | src/addrman.cpp:258-316 | a known address keeps its entry, with the time of newer announcements and all services; it gains the slot exactly if the announcement is news, there is room, the coin allows it and the slot is free or its occupant terrible |
| `AddrEffects.EvictIs` | src/addrman.cpp:165-188 | the occupant of the tried slot is back in the new slot of its source, with one reference; the occupant of that slot gives it up; nothing else changes |
| `AddrEffects.GoodPromotes` | src/addrman.cpp:196-242 | the entry is in its tried slot and in no new one, with the given times and no failures; the one evicted is back in its new slot; nothing else changes |
| `AddrEffects.GoodIgnores` | src/addrman.cpp:196-214 | an unknown service or another port changes only the time of the last success |
| `AddrEffects.StatisticsChange` | src/addrman.cpp:318-511 | what Attempt_, Connected_ and SetServices_ change in the entry of a service, and that nothing else changes |
| `AddrEffects.StatisticsIgnore` | src/addrman.cpp:318-511 | an unknown service or another port changes nothing |
| `AddrOps.DrawReaches` | src/addrman.cpp:469-471 | every entry not drawn yet can be drawn next |
| `AddrDisk.ReloadedSame` | src/addrman.h:316-481 | the manager read back has, for every address, the same service, services, time, source, last success, attempts, side and references, and the same addresses in the same slots |
| `AddrDisk.ReloadedKeeps` | src/addrman.h:367-481 | the manager with ids renamed to stream order satisfies the whole invariant again |
| `AddrRead.FilledFills` | src/addrman.h:398-460 | while any stream is read, tables, random order and counters are right and every address is named by its last entry |
| `AddrRead.PruneTables` | src/addrman.h:462-473 | deletes exactly the entries without a slot, and with each the name of its address; tables and counters stay right |
| `AddrRead.ReadTables` | src/addrman.h:367-481 | for every stream the result has everything of the invariant but names and times |
| `AddrRead.NamesIffNoClash` | src/addrman.h:462-473 | names are right if and only if no entry with a slot shares its address with another entry read |
| `AddrRead.ReadConsistent` | src/addrman.h:367-482 | the check after reading passes if and only if no entry with a slot shares its address and all of those have sensible times |
| `AddrRead.SensibleConsistent` | src/addrman.h:367-482 | it passes whenever no address comes twice and the times of the records are sensible |
| `AddrRead.ReadRecords` | src/addrman.h:398-460 | for any stream every entry has the fields of its record; a tried slot holds the first tried record whose slot it is; without a usable table a new slot holds the first new record whose primary slot it is |
| `AddrRead.TwiceInconsistent` | src/addrman.h:398-417 | without a usable table it fails, for all hashes, when the address of the first record comes again |
| `AddrStore.KeysInOrder` | src/addrman.h:330-331 | ids are visited in ascending order |
| `AddrStore.WriteSide` | src/addrman.h:328-351 | one pass writes exactly the records of one side, in order, and numbers them |
| `AddrStore.Serialize` | src/addrman.h:316-365 | writes the specified stream for every valid manager; no assert can fail |
| `AddrStore.FewEntries` | src/addrman.h:388-396 | the entry counts never exceed the number of slots, so the size checks accept every written stream |
| `AddrStore.LoadNew` | src/addrman.h:398-417 | reads the new entries of any stream in order, as specified; ends early exactly when records are missing |
| `AddrStore.LoadTried` | src/addrman.h:419-438 | reads the tried entries of any stream into their slots, and loses exactly those whose slot is taken; none of a written stream |
| `AddrStore.LoadIndex` | src/addrman.h:447-458 | takes the slot exactly when it is free and the entry has references left |
| `AddrStore.LoadBuckets` | src/addrman.h:440-460 | gives slots to the indices of any stream, as specified; rebuilds the new table of a written stream completely |
| `AddrStore.Prune` | src/addrman.h:462-473 | performs the specified deletion of entries without a slot, in order of id; nothing for a written stream |
| `AddrStore.Unserialize` | src/addrman.h:367-481 | each outcome exactly under its condition; any stream that is long enough gives the specified manager, each entry with the fields of its record, valid if and only if no entry with a slot shares its address and all of those have sensible times; a written stream loads completely |
| `AddrStore.RoundTrip` | src/addrman.h:316-481 | writing any valid manager and reading it into a new one gives a valid manager with the same addresses, for each the same service, services, time, source, last success, attempts and side, and the same addresses in the new and tried slots |
| `MinerSpec.FirstEntryOk` | src/miner.cpp:394-399 | a new modified entry equals the cached sums less its first included ancestor |
| `MinerSpec.LaterEntryOk` | src/miner.h:119-129 | each further inclusion subtracts that ancestor once |
| `MinerSpec.RecordCovers` | src/miner.cpp:380-406 | recorded size and signature operations never fall below those of the unselected part of the package, are exact when every included ancestor was subtracted, and fees are then off by the stated drift |
| `MinerSpec.RecordsKeep` | src/miner.cpp:560-576 | selecting a package and updating its descendants keeps all records, also for failed and re-created entries |
| `MinerSpec.CountGrows` | src/miner.h:90-99 | a descendant has a larger ancestor count |
| `MinerSpec.SortedPackage` | src/miner.cpp:426-436 | sorting by ancestor count puts every transaction after its unselected ancestors |
| `MinerSpec.ParentsSuffice` | src/miner.cpp:257-264 | a transaction whose parents are all selected has all ancestors selected |
| `Miner.AppendKeeps` | src/miner.cpp:358-366 | appending keeps the block free of duplicates, ordered, and its counters equal to the sums over its transactions |
| `Miner.PackageAdded` | src/miner.cpp:563-571 | adding a sorted package adds exactly the unselected transactions and their totals |
| `Miner.ModifiedCovers` | src/miner.cpp:504-515 | the best modified entry is not in the block and covers its package, exactly unless it failed before |
| `Miner.CachedCovers` | src/miner.cpp:416-424 | cached sums that are not skipped are exact: no ancestor is in the block |
| `Miner.UpdatePackagesForAdded` | src/miner.cpp:380-406 | for every transaction: its entry afterwards has exactly the included ancestors of the package subtracted, once each, whatever the order of both loops |
| `BlockAssembler.Assembler.ResetBlock` | src/miner.cpp:127-140 | an empty block with the coinbase reserve |
| `BlockAssembler.Assembler.IsStillDependent` | src/miner.cpp:257-264 | true exactly when some parent is not in the block |
| `BlockAssembler.Assembler.OnlyUnconfirmed` | src/miner.cpp:266-276 | removes exactly the transactions in the block |
| `BlockAssembler.Assembler.TestPackage` | src/miner.cpp:278-288 | true exactly when size and signature operations stay below their limits |
| `BlockAssembler.Assembler.TestPackageTransactions` | src/miner.cpp:293-314 | in any order: true exactly when all are final and together stay below the maximum size |
| `BlockAssembler.Assembler.TestForBlock` | src/miner.cpp:316-356 | true exactly when the transaction fits and is final; the full-block flags as specified |
| `BlockAssembler.Assembler.AddToBlock` | src/miner.cpp:358-366 | appends to all lists and counters |
| `BlockAssembler.Assembler.SortForBlock` | src/miner.cpp:426-436 | a duplicate-free list of the package in order of ancestor count |
| `BlockAssembler.Assembler.SelectPackage` | src/miner.cpp:560-576 | adds the package, drops its entries and updates its descendants |
| `BlockAssembler.Assembler.Choose` | src/miner.cpp:472-515 | the next cached entry or the best modified one, whichever scores higher; it is not in the block, and its sums cover its package |
| `BlockAssembler.Assembler.Evaluate` | src/miner.cpp:522-576 | a package enters if and only if it fits and all its transactions are final and fit; its descendants have it subtracted, and limits and records hold afterwards |
| `BlockAssembler.Assembler.AddPackageTxs` | src/miner.cpp:447-578 | for every mempool graph, order and score: terminates, the assert holds, the states are a run of the specified state machine to its end, and the block stays free of duplicates and ordered, below the maximum size and below the signature limit for that size |
| `BlockAssembler.Assembler.AddPriorityTxs` | src/miner.cpp:580-660 | terminates, the assert is unreachable; each transaction added was the one of highest priority among those that were ready and had not failed; after each but the last the reserved part was not full and the priority above the threshold; if that holds after the last too, every transaction that is ready has failed, or one has failed with the block as good as full: less than 100 bytes left, more than 50 failures in the last 1000 bytes, or no room for two signature operations |
| `BlockAssembler.Assembler.CreateNewBlock` | src/miner.cpp:150-205 | the whole block: the part filled by priority, which ends for one of the reasons above, then packages; no duplicates, every transaction final and after all its mempool ancestors, counters exact, size below the maximum once anything is added, signature operations below the limit for its own size when the maximum size is at most 1000001, and the fee column with the coinbase sums to zero |
| `Priorities.Adds` | src/miner.cpp:635-645 | adding the best of the queue keeps the list filled by priority |
| `Priorities.Returns` | src/miner.cpp:647-658 | after the children of an added transaction have returned to the queue, every transaction outside is queued, waits for a parent or has failed |
| `Priorities.Drained` | src/miner.cpp:613-660 | with an empty queue every transaction that is ready has failed |
| `Miner.MaxSigOpsIs` | src/consensus/consensus.h:38-46 | 20000 signature operations for every megabyte begun |
| `PackageRun.StepMeans` | src/miner.cpp:466-577 | one turn: the next transaction is passed over exactly if it has a modified entry, is in the block or has failed; otherwise the best candidate, which pays the minimum fee, enters with its package exactly if it fits by recorded and real size, by signature operations and by finality |
| `PackageRun.EndedBecause` | src/miner.cpp:466-577 | the loop ends because nothing is left, after a thousand failures close to a full block, or because the best candidate pays too little |
| `PackageRun.AllConsidered` | src/miner.cpp:466-577 | in every run that ends because nothing is left, each transaction outside the block came up, paid enough and failed a test |
| `PackageRun.DoomedStays` | src/miner.cpp:278-314 | a package that is too large or not final stays so, whatever is selected |
| `PackageRun.DoomedForever` | src/miner.cpp:408-415 | in every run such a package never enters the block |
| `PackageRun.ReturningFailure` | src/miner.cpp:522-558 | an exact entry that fails although its package is neither too large nor without finality fails for its signature operations |
| `PackageRun.ReturnsAreDense` | src/miner.cpp:408-415 | in every run, a package that failed with exact sums and is selected later failed for its signature operations |
| `Overfull.RateOrder` | src/miner.h:76-88 | the score is the comparison of fee rates of the source |
| `Overfull.OrderByRate` | src/txmempool.h:309-328 | the candidates are in the order of their fee rates |
| `Overfull.AllSelected` | src/miner.cpp:447-578 | every complete run on that pool selects all fifteen transactions |
| `Overfull.WithinLimits` | src/policy/policy.h:26-32 | every transaction of the pool keeps the default limits on size, signature operations, ancestors and descendants, and pays a satoshi for every byte |
| `Overfull.ExceedLimit` | src/miner.cpp:380-406 | for every maximum size above 1000001 the assembler makes a block with more signature operations than its size allows |
| `RollingBloom.Filled` | src/bloom.cpp:234-252 | generations are filled one after the other |
| `RollingBloom.TouchedSince` | src/bloom.cpp:254-264 | a place is as recent as the last key that touched it |
| `RollingBloom.RecentlyInserted` | src/bloom.h:119-120 | all places of each of the last 2 * nEntriesPerGeneration keys lie in the three newest generations |
| `RollingBloom.SamePlace` | src/bloom.cpp:254-264 | two hashes lead to the same place exactly if they agree in the lowest six bits and, without the lowest bit of the word, in the word |
| `RollingBloom.RecentMeans` | src/bloom.h:119-120 | a place that reads as set was touched by one of the last 3 * nEntriesPerGeneration keys |
| `RollingBloom.StoredTag` | src/bloom.cpp:258-263 | storing writes the generation at one position of the word pair and no other |
| `RollingBloom.WipedTag` | src/bloom.cpp:244-251 | the mask clears exactly the positions tagged with the generation |
| `RollingBloom.Aged` | src/bloom.cpp:235-252 | starting a generation erases exactly the tags three generations old |
| `RollingBloom.Filter.Reset` | src/bloom.cpp:290-298 | an empty filter with a new hash |
| `RollingBloom.Filter.Wipe` | src/bloom.cpp:245-251 | clears exactly one generation from all positions |
| `RollingBloom.Filter.Touch` | src/bloom.cpp:255-263 | tags exactly one position |
| `RollingBloom.Filter.Insert` | src/bloom.cpp:234-264 | after any history every position carries the tag of the generation that last touched it while that is one of the three newest, and none otherwise |
| `RollingBloom.Filter.IsSet` | src/bloom.cpp:273-280 | a position reads as set exactly when it is recent |
| `RollingBloom.Filter.Contains` | src/bloom.cpp:271-283 | true exactly when every position of the key was last touched in one of the three newest generations; hence for each of the last 2 * nEntriesPerGeneration keys |
| `CashAddrSpec.StepLinear` | src/cashaddr.cpp:99-135 | one step is linear over exclusive or in remainder and value together |
| `CashAddrSpec.FoldLinear` | src/cashaddr.cpp:80-136 | so the whole fold is linear, for sequences of any length |
| `CashAddrSpec.LinearStep` | src/cashaddr.cpp:99-135 | the step is a linear step in the sense in which every fold of such a step is linear |
| `CashAddrSpec.LosslessStep` | src/cashaddr.cpp:99-135 | the step loses nothing: over a zero value, different remainders stay different |
| `CashAddrSpec.StepFillsUp` | src/cashaddr.cpp:36-40 | eight steps from zero take up eight values without mixing them |
| `CashAddrSpec.WindowSeen` | src/cashaddr.cpp:56-60 | for every linear, lossless step that fills up, a nonzero difference inside a window of eight leaves a nonzero remainder |
| `CashAddrSpec.StepInjective` | src/cashaddr.cpp:99-135 | a nonzero remainder stays nonzero over a zero value |
| `CashAddrSpec.FoldShort` | src/cashaddr.cpp:36-40 | up to eight five-bit values are recovered from the remainder |
| `CashAddrSpec.BurstDetected` | src/cashaddr.cpp:56-60 | changing values only inside a window of eight always changes the checksum |
| `CashAddrSpec.ComputePolyMod` | src/cashaddr.cpp:42-147 | the loop with its five conditional terms computes the fold |
| `CashAddr.RevCharset` | src/cashaddr.cpp:12-27 | every value survives the two character tables |
| `CashAddr.CharsetIs` | src/cashaddr.cpp:15 | the character of each value, by the alphabet written out |
| `CashAddr.KnownDecodes` | src/test/cashaddr_tests.cpp:35-50 | one string of known bytes decodes to a known prefix |
| `CashAddr.AcceptedStrings` | src/cashaddr.cpp:221-264 | what is accepted has letters, a colon, then letters and digits, and not both cases |
| `CashAddr.ShortExample` | src/cashaddr.cpp:286-293 | a prefix alone that verifies with no values |
| `CashAddr.CharsetRevLower` | src/cashaddr.cpp:17-27 | every accepted character is that of its value, up to case |
| `CashAddr.ChecksumVerifies` | src/cashaddr.cpp:176-196 | eight five-bit values complete a payload to a valid one if and only if they are the created checksum |
| `CashAddr.DecodesOnce` | src/cashaddr.cpp:221-293 | a string has one decoding |
| `CashAddr.DecodeEncode` | src/cashaddr.cpp:205-293 | decoding an encoding gives back every nonempty lower-case prefix and five-bit payload |
| `CashAddr.EncodeDecode` | src/cashaddr.cpp:205-293 | every string that decodes is, up to case, the encoding of its decoding |
| `CashAddr.CreateChecksum` | src/cashaddr.cpp:183-196 | computes the checksum, and it verifies |
| `CashAddr.VerifyChecksum` | src/cashaddr.cpp:176-178 | true exactly for valid values |
| `CashAddr.Encode` | src/cashaddr.cpp:205-216 | computes the encoding |
| `CashAddr.Scan` | src/cashaddr.cpp:223-264 | finds the separator exactly when the characters and their case are acceptable |
| `CashAddr.ReadValues` | src/cashaddr.cpp:273-284 | reads all values or finds a character without one |
| `CashAddr.Decode` | src/cashaddr.cpp:221-293 | computes the decoding of every string |
| `Radix.MultiplyAdd` | src/base58.cpp:47-56 | the carry loop multiplies the number in the buffer and adds a digit, touching only digits in use or needed; the carry ends at zero |
| `Radix.DigitsUnique` | src/base58.cpp:66-70 | a number has one digit string without leading zeros |
| `Base58.AlphabetIs` | src/base58.cpp:19-20 | the character of each digit, by the alphabet written out |
| `Base58.EncodeBuffer` | src/base58.cpp:86-89 | 138/100 digits and one more hold every byte string |
| `Base58.DecodeBuffer` | src/base58.cpp:34-37 | 733/1000 bytes and one more hold every digit string |
| `Base58.DecodesOnce` | src/base58.cpp:22-76 | a string has one decoding |
| `Base58.DecodeEncode` | src/base58.cpp:22-119 | decoding an encoding gives back every byte string, leading zeros included |
| `Base58.EncodeDecode` | src/base58.cpp:22-119 | encoding the decoding of a valid string without spaces gives back the string |
| `Base58.Encode` | src/base58.cpp:78-119 | computes the encoding; the carry assertion never fails |
| `Base58.Decode` | src/base58.cpp:22-76 | computes the decoding of every string, spaces and invalid characters included; the carry assertion never fails |
| `Base58.EncodeCheck` | src/base58.cpp:129-135 | appends four bytes of the hash |
| `Base58.DecodeCheck` | src/base58.cpp:137-150 | accepts exactly strings that decode to bytes followed by their checksum |
| `Base58.CheckRoundTrip` | src/base58.cpp:129-150 | a checked encoding decodes to what was encoded |
| `BlockTree.BlockIndex.constructor` | src/chain.cpp:126-130 | a block entered above its predecessor gets the skip pointer of its ancestor at the skip height |
| `BlockTree.GetAncestor` | src/chain.cpp:96-120 | equals the plain walk along predecessors, null exactly outside the heights, in at most d(3d - 1)/2 steps for heights of d bits when all skip pointers are built |
| `BlockTree.Chain.ContainsAncestors` | src/chain.h:477-479 | a block is contained exactly when it is the tip or an ancestor of it |
| `BlockTree.Chain.NextFollows` | src/chain.h:485-491 | the successor has this block as predecessor; there is none exactly for the tip and for other blocks |
| `BlockTree.Chain.SetTip` | src/chain.cpp:11-22 | the early stop leaves every slot equal to the ancestor of the new tip |
| `BlockTree.Chain.FindFork` | src/chain.cpp:55-66 | the highest block of the chain among the block and its ancestors |
| `BlockTree.Chain.LocatorShape` | src/chain.cpp:24-53 | strictly descending ancestors from the start to genesis, logarithmic in height |
| `BlockTree.Chain.LocatorGaps` | src/chain.cpp:38-49 | the first eleven blocks follow each other, and from then on each gap is twice the one before, up to the last |
| `BlockTree.Chain.GetLocator` | src/chain.cpp:24-53 | the locator of any block, on the chain or off it |
| `SkipHeights.LowestOneCleared` | src/chain.cpp:79-81 | exactly one bit, a power of two, is cleared |
| `SkipHeights.GetSkipHeight` | src/chain.cpp:84-94 | the skip height is below the height |
| `SkipHeights.StepFromEven` | src/chain.cpp:103-118 | from an even height a step clears a bit, or goes back one where the next shortcut is better |
| `SkipHeights.StepFromOdd` | src/chain.cpp:103-118 | from an odd height a step clears two bits, or ends the phase |
| `SkipHeights.StepsFall` | src/chain.cpp:103-118 | every step of the walk lowers the bound on the steps left |
| `SkipHeights.StepsPolylog` | src/chain.cpp:89-91 | the bound is d(3d - 1)/2 for heights of d bits |
| `Arith256.BaseUint.Add` | src/arith_uint256.h:119-127 | addition modulo 2^256 |
| `Arith256.BaseUint.Increment` | src/arith_uint256.h:152-158 | increment modulo 2^256 |
| `Arith256.BaseUint.Complement` | src/arith_uint256.h:61-66 | 2^256 - 1 less the value |
| `Arith256.BaseUint.Negate` | src/arith_uint256.h:68-74 | negation modulo 2^256 |
| `Arith256.BaseUint.Subtract` | src/arith_uint256.h:129-132 | subtraction modulo 2^256, exact when it does not borrow |
| `Arith256.BaseUint.CompareTo` | src/arith_uint256.cpp:106-113 | the order of the values |
| `Arith256.BaseUint.Bits` | src/arith_uint256.cpp:151-161 | the position of the highest bit plus one |
| `Arith256.BaseUint.ShiftLeft` | src/arith_uint256.cpp:20-33 | multiplication by a power of two modulo 2^256, for every shift |
| `Arith256.BaseUint.ShiftRight` | src/arith_uint256.cpp:35-48 | division by a power of two, for every shift |
| `Arith256.BaseUint.DividePlace` | src/arith_uint256.cpp:93-98 | one place of the quotient |
| `Arith256.BaseUint.DivideFrom` | src/arith_uint256.cpp:92-102 | quotient times divisor plus remainder is the dividend, and the remainder is below the divisor |
| `Arith256.BaseUint.MultiplyWord` | src/arith_uint256.cpp:50-59 | multiplication by one word modulo 2^256 |
| `Arith256.BaseUint.AddRow` | src/arith_uint256.cpp:65-72 | one row of the product: adds a word times the operand at its place, dropping only multiples of 2^256; the 64-bit intermediate never overflows |
| `Arith256.BaseUint.Multiply` | src/arith_uint256.cpp:61-75 | the product modulo 2^256 for all 256-bit operands other than the receiver |
| `Arith256.BaseUint.MultiplySelf` | src/arith_uint256.cpp:62-64 | with the receiver itself as operand the result is zero |
| `Arith256.BaseUint.Divide` | src/arith_uint256.cpp:77-104 | the exact integer quotient for all 256-bit operands; an error exactly for a zero divisor |
| `Difficulty.OverflowExact` | src/arith_uint256.cpp:193-196 | the overflow flag is raised exactly when mantissa times power of 256 does not fit 256 bits |
| `Difficulty.SetCompact` | src/arith_uint256.cpp:181-198 | the magnitude modulo 2^256, and exact flags |
| `Difficulty.GetCompact` | src/arith_uint256.cpp:200-221 | the value with all but its leading bytes cleared, a mantissa without leading zero bytes, the sign of a nonzero value; the asserts of the source cannot fail |
| `Difficulty.LeadingBytes` | src/arith_uint256.cpp:201-208 | the number of bytes and the leading three, by shifting |
| `Difficulty.CompactValue` | src/arith_uint256.cpp:209-215 | moving one byte to the exponent keeps the value but for that byte |
| `Difficulty.CanonicalLeading` | src/arith_uint256.cpp:181-198 | the byte length and leading bytes of what a canonical number stands for |
| `Difficulty.CodedCanonical` | src/arith_uint256.cpp:200-221 | only canonical numbers are written, apart from zero |
| `Difficulty.Recode` | src/arith_uint256.cpp:181-221 | reading and writing a compact number gives it back if and only if it is zero, or canonical and below 2^256 |
| `Difficulty.TargetBelowMax` | src/chain.cpp:140-144 | a target is never 2^256 - 1, so the divisor never wraps to zero |
| `Difficulty.GetBlockProof` | src/chain.cpp:132-145 | the integer part of 2^256 divided by target plus one for every valid target, zero otherwise, without a division by zero |
| `MedianTime.SortSorted` | src/chain.h:319 | sorting sorts |
| `MedianTime.SortBelow` | src/chain.h:319 | and keeps the number of elements below every bound |
| `MedianTime.MedianRank` | src/chain.h:319-320 | the median is at least x exactly when at most half of the times lie below x |
| `MedianTime.GetMedianTimePast` | src/chain.h:308-321 | the median of the last eleven times, or of fewer on a short chain |
| `MedianTime.MedianKeeps` | src/validation.cpp:3382-3386 | a block later than the median of its predecessors does not move the median back |
| `MedianTime.MedianMonotone` | src/validation.cpp:3382-3386 | along every chain of such blocks the median never decreases |
| `Retarget.TimespanOrder` | src/consensus/params.h:87-89 | the limits of the timespan surround the expected timespan, and stay below the window times it |
| `Retarget.CalculateNextWorkRequired` | src/pow.cpp:45-63 | the compact form of the smaller of the limit and the average, divided by the expected and multiplied by the clamped timespan, in 256-bit arithmetic |
| `Retarget.GetNextWorkRequired` | src/pow.cpp:20-43 | the limit for a chain no longer than the window; otherwise the retargeted average of the window, with its sum in 256-bit arithmetic and the medians at both ends |
| `Retarget.CheckProofOfWork` | src/pow.cpp:101-118 | accepts exactly hashes up to a target that is positive, not negative, below 2^256 and within the limit |
| `Retarget.ContextualCheckBlockHeader` | src/validation.cpp:3368-3407 | each verdict exactly under its condition, in the order of the checks |
| `Retarget.WritesUnique` | src/validation.cpp:3376-3380 | a target has one compact form, so comparing bits compares targets |
| `Retarget.Precision` | src/arith_uint256.cpp:200-221 | a compact target is not above its value and loses less than one part in 2^15 |
| `Retarget.UsableExact` | src/pow.cpp:109-111 | required bits pass the range check exactly when the target is not zero |
| `Retarget.ScaledFits` | src/pow.cpp:56-57 | scaling the average of a window never wraps around 2^256 |
| `Retarget.ScaledBounds` | src/pow.cpp:50-57 | the percentages that bound one adjustment, and when it ends at zero |
| `Retarget.NextTargetExact` | src/pow.cpp:20-63 | hence past the window the next target is computed without wrap-around from the average |
| `Retarget.NextTargetClamped` | src/pow.cpp:45-62 | past the window the next target is the average divided by the timespan of the window and multiplied by the time between the medians, raised to the minimum and lowered to the maximum timespan, and cut at the limit |
| `Retarget.NextTargetMonotone` | src/pow.cpp:45-62 | for the same average, more time never gives a harder target |
| `Retarget.DirectionRight` | src/pow.cpp:45-62 | blocks faster than the window asks for never give an easier target, slower ones a harder one only by rounding |
| `Retarget.OutdatedIs` | src/validation.cpp:3394-3404 | which versions are refused at a height |
| `Retarget.StepBounds` | src/pow.cpp:20-63 | the bits move up by at most nPowMaxAdjustDown percent and down by at most nPowMaxAdjustUp percent of the average but for rounding; they are valid exactly when the average is at least the timespan of the window |
| `Retarget.RunInLimit` | src/pow.cpp:59 | no block of any chain of required bits has a target above the limit |
| `Retarget.SumIsTotal` | src/pow.cpp:27-33 | on such a chain the targets read are the targets meant, and each is at most the limit |
| `Retarget.AverageExact` | src/pow.cpp:26-40 | the computed average is the average of the targets if and only if their sum is below 2^256 |
| `Retarget.TrueAverage` | src/chainparams.cpp:142 | with the headroom the source asserts, it always is, and at most the limit |
| `Retarget.AcceptedRun` | src/validation.cpp:3368-3407 | on every accepted chain past the window the elapsed time is not negative, the next target is bounded by the true average, and a next block is possible exactly when that average is at least the timespan of the window |
| `Retarget.Networks` | src/chainparams.cpp:139-148 | the parameters of all three networks are in range; the two public ones have headroom, the regression test network has not |
| `Retarget.RegtestWraps` | src/chainparams.cpp:413-421 | on every chain of 31 blocks of that network the sum wraps, and the next target is less than half of the limit that was required of each of those blocks |
| `Retarget.RegtestChain` | src/chainparams.cpp:465 | there are such chains, with the bits of the first block of that network |
| `CompactSpec.PartitionedBy` | src/blockencodings.cpp:64-92 | prefilled slots and short-id slots are disjoint and cover the block |
| `CompactSpec.FilledWanted` | src/blockencodings.cpp:203-212 | slots that are right where filled are completed by the missing transactions in order |
| `CompactSpec.SlotsRight` | src/blockencodings.cpp:19-30 | if short ids tell transactions apart, every filled slot holds the transaction of the sender |
| `CompactSpec.OfferMatched` | src/blockencodings.cpp:125-172 | after every transaction looked at, a slot holds the only transaction of the first pool with its short id, or else that of the extra pool; nothing if the first pool has two, or the extra pool a different one |
| `CompactSpec.SearchBoth` | src/blockencodings.cpp:119-180 | after both pools each slot holds what the transactions with its short id leave, and each pool was looked at until all slots were filled |
| `CompactBlocks.PartiallyDownloadedBlock.BothSearched` | src/blockencodings.cpp:119-180 | what the two searches leave in each slot, told by the transactions with its short id |
| `CompactBlocks.PartiallyDownloadedBlock.PlacePrefilled` | src/blockencodings.cpp:63-81 | places every prefilled transaction, and refuses exactly malformed indices |
| `CompactBlocks.PartiallyDownloadedBlock.IndexShortIds` | src/blockencodings.cpp:87-117 | the scan stays inside the slots and assigns short ids to the free slots in order; it fails if and only if short ids repeat or a bucket gets crowded |
| `CompactBlocks.PartiallyDownloadedBlock.MatchOne` | src/blockencodings.cpp:125-145 | a first match fills a slot, a second one empties it; a slot holds nothing or a pool transaction with its short id; the counts follow the filled slots |
| `CompactBlocks.PartiallyDownloadedBlock.MatchPool` | src/blockencodings.cpp:119-180 | the same for a whole pool with the early exit, as the specified search, with the number of transactions looked at; the extra pool empties a slot filled before if and only if a transaction looked at conflicts with it |
| `CompactBlocks.PartiallyDownloadedBlock.InitData` | src/blockencodings.cpp:49-188 | invalid exactly for an absent header, an empty or oversized message or a malformed index; failed exactly when short ids repeat or a bucket gets crowded; when accepted, prefilled and short-id slots partition the block, a slot holds the only transaction of the first pool with its short id, or else the only one of the extra pool, and nothing if the first pool has two or the extra pool a different one; each pool is looked at until all slots are filled; every match carries its short id, and the exact condition for the count of extra transactions |
| `CompactBlocks.PartiallyDownloadedBlock.FillBlock` | src/blockencodings.cpp:196-244 | invalid exactly for a wrong number of missing transactions; otherwise the slots completed in order, and the object cannot be used again |
| `CompactBlocks.Transfer` | src/blockencodings.cpp:19-217 | fails exactly when short ids repeat or a bucket gets crowded; otherwise, with short ids that tell apart, the receiver rebuilds the list of the sender exactly |
| `CompactBlocks.ExtraBelowZero` | src/blockencodings.cpp:157-172 | two transactions that take the count of extra transactions to minus one |
| `Amounts.KnownCodes` | src/test/compress_tests.cpp:42-48 | the codes of six amounts, as numbers |
| `Amounts.DecodeEncode` | src/compressor.cpp:130-141 | without a bound on numbers, decoding a code gives back the amount |
| `Amounts.EncodeDecode` | src/compressor.cpp:130-141 | without a bound, encoding an amount gives back the code |
| `Amounts.CompressAmount` | src/compressor.cpp:142-160 | the code modulo 2^64 |
| `Amounts.DecompressAmount` | src/compressor.cpp:162-186 | the amount modulo 2^64 |
| `Amounts.CodeSize` | src/compressor.cpp:152-159 | a code that does not fit belongs to an amount that does not end in zero |
| `Amounts.SmallAmounts` | src/compressor.cpp:142-186 | every amount up to (2^64 - 1) / 9 survives compression and decompression |
| `Amounts.NoCoincidence` | src/compressor.cpp:142-186 | a code and an amount that both wrap around 2^64 are never each other's images |
| `Amounts.RoundTripExact` | src/compressor.cpp:142-186 | a 64-bit amount survives compression and decompression if and only if it ends in zero or its code fits 64 bits |
| `Amounts.CodesExact` | src/compressor.cpp:142-186 | a 64-bit code survives decompression and compression if and only if its amount fits 64 bits |
| `Amounts.LostAmount` | src/amount.h:118 | an amount within MAX_MONEY that does not survive |

## Left out

- Best-block hashes of the coin caches: an unset hash is flushed as null, so a stack has no single meaning to refine.
- Memory use of a coin's script is a function of its length.
- AddrMan.Manager.Add: Select_ and GetChance are not modelled; they depend on random probing and floating point.
- Clear of a used address manager: it does not empty mapInfo and mapAddr, so reading a stream is modelled on a new manager.
- AddrStore.Unserialize: negative counts, which the signed stream fields allow, are not modelled. A stream that ends early leaves a manager of which nothing is claimed.
- CuckooCache.Cache.constructor: the table size is a power of two given by its logarithm; the floating-point logarithm and setup_bytes are not modelled. Memory ordering of the flag bits is not modelled.
- CheckQueue: quitting and thread interruption are not modelled; one master calls Add and Wait.
- MerkleBlock.PartialMerkleTree.ExtractMatches: the vector of indices is appended to, so a caller starts from an empty one. Tree widths are unbounded integers.
- BlockAssembler.Assembler.AddPackageTxs: scores, priorities, finality and the minimum fee are arbitrary functions, and the order of equal scores is open, so that the block is a good one is not claimed; the count of updated descendants is only logged and left out. The caches of the mempool are assumed right, sizes are assumed to be serialized sizes, and 64-bit sums are assumed not to overflow.
- BlockAssembler.Assembler.CreateNewBlock: the coinbase transaction, the header and TestBlockValidity are not modelled.
- RollingBloom: words are sequences of 64 bits; filter sizing by floating point is not modelled, and at least one entry per generation is assumed. The plain Bloom filter is not modelled.
- CashAddr.Encode: a value of 32 or more is written as a fixed character, where the source reads past its table of characters.
- CashAddr.Decode: fewer than eight values with a matching checksum are reported as a separate outcome, since the source leaves it undefined. Detection of scattered errors, beyond bursts, is not proved.
- Base58: version bytes and address types built on top.
- BlockTree: links of a block are fixed when it is entered; FindEarliestAtLeast and block status are not modelled.
- Arith256: hexadecimal and floating-point conversion, and byte order. Operands are values; the one operation where an operand that is the receiver matters is MultiplySelf.
- Retarget.GetNextWorkRequired: a chain is the sequence of its headers; parameters are assumed in the range that Networks proves for the three networks, so that the timespan fits the 32 bits of the multiplication. Retarget.CheckProofOfWork does not include the Equihash solution.
- CompactBlocks.PartiallyDownloadedBlock.InitData: at most 65536 transactions, because positions are stored in 16 bits; whether a hash bucket is crowded is a function of the short ids entered. Transactions are identified with their hashes, and serialization of the messages is not modelled.
- CompactBlocks.PartiallyDownloadedBlock.FillBlock: CheckBlock is an arbitrary outcome.
- Governance, masternodes, wallet, networking, scripts, keys and the remaining files: input and output, configuration, or code that rests on libraries outside the repository.
