# Core algorithms of a Bitcoin-style node, verified

This project models the self-contained algorithms at the heart of the node and proves what each of
them is for.  Values and pure logic are datatypes, functions and lemmas; objects that the program
updates in place are classes whose methods are proved against these functions; the check queue is a
state machine over atomic steps.

| part | files | main results |
|---|---|---|
| address manager | `AddrManSpec`, `AddrManOps`, `AddrManAdd`, `AddrManRuns`, `AddrMan`, `AddrManFile`, `AddrManRebucket`, `AddrManDisk` | every run keeps the whole consistency check; who can be forgotten; saving and loading loses nothing; any file loads consistently |
| coin caches | `CoinsSpec`, `CoinsRuns`, `Coins` | a stack of write-back caches refines plain maps, in every interleaving |
| block template | `MinerSpec`, `Miner` | package selection ends, stays within limits and leaves nothing out without a reason |
| check queue | `CheckQueue` | truthful verdicts, no deadlock, every wait ends |
| block index | `Chain` | skip links, active chain, forks, locators |
| 256-bit numbers | `ArithSpec`, `Arith`, `Compact` | limb loops are exact modulo 2^256; compact targets; block work |
| partial Merkle trees | `MerkleSpec`, `Merkle`, `ByteBits` | round trip, soundness, exact size bounds |
| rolling Bloom filter | `Bloom` | no recent key is ever missed |
| cuckoo cache | `CuckooSpec`, `Cuckoo` | displacement loses at most one element; nothing is found that was not inserted; bound on recent entries |
| Base58 | `Base58Spec`, `Base58` | buffers suffice, round trip |
| Bech32 and Bech32m | `Bech32Spec`, `Bech32Field`, `Bech32Errors`, `Bech32` | round trip; up to three errors in 1023 symbols are detected |
| compact blocks | `CompactBlockSpec`, `CompactBlock` | reconstruction, and when it succeeds |
| shared | `Common` | optional values, integer arithmetic |

`dafny verify dfyconfig.toml` checks everything.

## Conventions

- Hash functions, keys and random draws are parameters: an arbitrary function, an arbitrary argument
  or an arbitrary choice.  Where collisions matter (Merkle trees), the pair hash is required to be
  injective.
- The clock is an argument; a call reads it once.
- Integers are unbounded where the program stays within its widths; where it does not, the width is
  written out (limbs modulo 2^32, 32-bit checksum words, 64-bit words of the Bloom filter as
  their bits).
- Entries of a mempool, outpoints and transactions are abstract values with the fields the code reads.

## Where code and comments differ

The model follows the code.

- `SpendCoin` reports success on a coin that is already spent, when the cache, or a
  database right below it, still holds it, where the header promises a call without effect; the meaning
  of the cache is indeed unchanged (`CoinsSpec.SpendCoinMeaning`, `CoinsSpec.SpendsTwice`).
- `AddCoin` has already lowered the usage counter when it throws (`Coins.AddUsageExact`,
  `Coins.AddUsageFails`).
- `Add_` reports an address as added although it may have dropped it again at once
  (`AddrManAdd.AddStores`, `AddrManRuns.SecondIsLost`).
- Fee totals of modified entries are lowered with the plain fee, not the modified one
  (`MinerSpec.FeeTakenOff`, `MinerSpec.FeesDrift`); after a failed `AddToBlock` descendants keep totals
  that are too high (`MinerSpec.CachedOvercount`, `MinerSpec.TotalsStale`).
- The documented bound of 2*N-1 flag bits does not hold (`MerkleSpec.DocumentedBound`,
  `MerkleSpec.BoundFails`), nor does that of 10 + ceil(32.25*N) bytes (`MerkleSpec.SizeBound`,
  `MerkleSpec.SizeFails`).
- `ExtractMatches` empties the list of transactions, but not the list of positions
  (`Merkle.PartialMerkleTree.ExtractMatches`).
- The first displacement of a cuckoo insertion goes to the second location, not to the first as the
  comment says (`CuckooSpec.FirstDisplacement`), and an element just put in is taken out again at once
  where the element it displaced has the same location twice in a row (`CuckooSpec.MovesOn`,
  `CuckooSpec.MovesBack`).
- The flags of a cuckoo cache cover its slots up to 2^32 - 8 of them, not 2^32 - 2
  (`CuckooSpec.FlagsFit`, `CuckooSpec.FlagsFail`).
- The 45% of an epoch are computed in 32 bits (`CuckooSpec.EpochShare`,
  `CuckooSpec.EpochShareFails`).
- A cuckoo cache reports the element that empty slots hold without an insertion
  (`Cuckoo.EmptyReportsDefault`), if and only if one of its locations holds it
  (`Cuckoo.Cache.Contains`); every other element it reports was inserted (`Cuckoo.Serve`).
- The list of extra transactions is handed to `InitData` with places not used yet, which have a hash and
  no transaction; one with a short id of the message is counted as a filled slot
  (`CompactBlock.CountedIs`, `CompactBlock.BlankIsCounted`), or followed as a null pointer
  (`CompactBlock.BlankIsMet`).
- The step of a block locator overflows a 32-bit int beyond height 2^30 + 9 (`Chain.StepFits`).

## Model

| member | source | states |
|---|---|---|
| `CoinsSpec.GetCoinReads` | aegisum-core-main/src/coins.cpp:49-73 | a read through a stack of caches of any depth answers with the unspent coin of the plain meaning of the stack, and changes the meaning of no level |
| `CoinsSpec.FetchCoinReads` | aegisum-core-main/src/coins.cpp:49-64 | fetching pulls an entry up with the right flags (FRESH for an empty parent entry), keeps the flag invariant at every level and loses no entry |
| `CoinsSpec.AddCoinContract` | aegisum-core-main/src/coins.cpp:75-107 | exact caller contract: the call neither throws nor leaves a wrong flag if and only if overwriting is allowed or no unspent coin is visible at the outpoint |
| `CoinsSpec.AddCoinMeaning` | aegisum-core-main/src/coins.cpp:75-107 | a successful call changes the meaning at that outpoint only, and not at all for an unspendable script |
| `CoinsSpec.SpendCoinMeaning` | aegisum-core-main/src/coins.cpp:123-137 | the coin is gone from the meaning, all others stay, the coin handed out is the one that was there; the call reports success if and only if an unspent coin is visible, or a spent one is still held by the cache or by a database right below it |
| `CoinsSpec.SpendsTwice` | aegisum-core-main/src/coins.h:317-322 | a cache where spending a coin that is already spent reports success |
| `CoinsSpec.UncacheMeaning` | aegisum-core-main/src/coins.cpp:275-284 | dropping an unmodified entry changes no meaning |
| `CoinsSpec.NeverMisapplied` | aegisum-core-main/src/coins.cpp:233-240 | with right flags the "FRESH flag misapplied" exception cannot be reached, for any pair of caches |
| `CoinsSpec.MergeKeepsEntry` | aegisum-core-main/src/coins.cpp:208-259 | merging one entry into the parent gives the parent the meaning of the child, with right flags towards the grandparent |
| `CoinsSpec.FlushMeaning` | aegisum-core-main/src/coins.cpp:208-273 | a flush always succeeds; afterwards the base has the meaning the cache had, and the cache still has it |
| `CoinsRuns.ReachableStates` | aegisum-core-main/src/coins.h:131-137 | after every run from a database, at every level of the stack, only the five documented combinations of flags and spentness occur, and spent-and-FRESH only directly over the database |
| `CoinsRuns.GetAtAgrees` | aegisum-core-main/src/coins.cpp:66-73 | a read at any level of the stack answers as the plain map of that level |
| `CoinsRuns.DropAtAgrees` | aegisum-core-main/src/coins.cpp:275-284 | uncaching at any level leaves every level in agreement with its plain map |
| `CoinsRuns.WriteAtAgrees` | aegisum-core-main/src/coins.cpp:208-273 | flushing at any level acts as copying one plain map to the one below |
| `CoinsRuns.StepRefines` | aegisum-core-main/src/coins.cpp:49-284 | every operation at every level refines the operation on one plain map per level, the answers of reads and of spends included |
| `CoinsRuns.RunRefines` | aegisum-core-main/src/coins.cpp:49-284 | every interleaving of fetch, add, spend, uncache and flush on a stack of any depth gives the answers of plain maps, and keeps the flag invariant |
| `Coins.AddUsageExact` | aegisum-core-main/src/coins.cpp:75-107 | an exact usage counter is exact after AddCoin if and only if the script is unspendable, overwriting is allowed, or no unspent coin with memory usage is in the cache at that outpoint |
| `Coins.AddUsageFails` | aegisum-core-main/src/coins.cpp:79-81 | a cache where the exception leaves the counter one too low |
| `Coins.CoinsViewCache.FetchCoin` | aegisum-core-main/src/coins.cpp:49-64 | the object does what the function on values does; the usage counter stays exact |
| `Coins.CoinsViewCache.GetCoin` | aegisum-core-main/src/coins.cpp:66-73 | as above; the answer is the unspent coin of the plain meaning |
| `Coins.CoinsViewCache.AddCoin` | aegisum-core-main/src/coins.cpp:75-107 | as above; after the overwrite exception the usage counter is exact if and only if the coin in the way had usage zero |
| `Coins.CoinsViewCache.SpendCoin` | aegisum-core-main/src/coins.cpp:123-137 | as above, including the coin moved out and the usage counter |
| `Coins.CoinsViewCache.HaveCoin` | aegisum-core-main/src/coins.cpp:150-166 | reports exactly whether an unspent coin is visible |
| `Coins.CoinsViewCache.Uncache` | aegisum-core-main/src/coins.cpp:275-284 | removes the entry only if it has no flags; usage stays exact |
| `Coins.CoinsViewCache.WriteEntry` | aegisum-core-main/src/coins.cpp:209-259 | one entry of a batch: branch by branch the merge function, with the usage counter |
| `Coins.CoinsViewCache.WriteEntries` | aegisum-core-main/src/coins.cpp:208-259 | the loop over a batch in any order gives the pointwise merge of the two maps |
| `Coins.CoinsViewCache.BatchWrite` | aegisum-core-main/src/coins.cpp:208-266 | the whole batch, or the exception |
| `Coins.CoinsViewCache.Flush` | aegisum-core-main/src/coins.cpp:268-273 | under the invariant a flush succeeds and changes no answer; the counter is zero again |
| `CheckQueue.StepInv` | aegisum-core-main/src/checkqueue.h:66-157 | every atomic step of master, workers and Add keeps the protocol invariant: counters are sums over threads, the verdict so far is the verdict on everything added |
| `CheckQueue.RunsKeepInv` | aegisum-core-main/src/checkqueue.h:66-157 | so does every interleaving of any number of workers |
| `CheckQueue.WaitIsTruthful` | aegisum-core-main/src/checkqueue.h:77-95 | each Wait returned true if and only if every check added since the previous one is good; nTodo counts exactly the queued checks and those in held batches |
| `CheckQueue.BatchFits` | aegisum-core-main/src/checkqueue.h:101-113 | in every reachable state a batch takes between one check and all that are queued; the divisor is never zero |
| `CheckQueue.SleepingMasterHasWorker` | aegisum-core-main/src/checkqueue.h:76-100 | a master asleep without a pending notification implies a worker that holds an unfinished batch |
| `CheckQueue.NoDeadlock` | aegisum-core-main/src/checkqueue.h:66-123 | while a Wait is under way some step other than a spurious wake-up is enabled |
| `CheckQueue.WorkFalls` | aegisum-core-main/src/checkqueue.h:66-123 | every step inside a Wait lowers a measure of the work left, except a spurious wake-up on an empty queue |
| `CheckQueue.WaitEnds` | aegisum-core-main/src/checkqueue.h:139-142 | a run inside one Wait, without idle wake-ups, is no longer than that measure: every Wait returns |
| `AddrManSpec.DeleteCore` | aegisum-core-main/src/addrman.cpp:119-131 | deleting an unreferenced untried entry keeps the whole consistency check |
| `AddrManSpec.ClearNewCore` | aegisum-core-main/src/addrman.cpp:133-146 | clearing a slot drops the entry exactly when that was its last reference; everything else and the consistency check stay |
| `AddrManOps.EvictCore` | aegisum-core-main/src/addrman.cpp:167-176 | the entry found in a tried slot is a tried one without references, and taking it out leaves all tables in agreement but for that one entry |
| `AddrManOps.MakeTriedCore` | aegisum-core-main/src/addrman.cpp:148-194 | moving an entry to the tried table keeps the consistency check |
| `AddrManOps.MakeTriedMoves` | aegisum-core-main/src/addrman.cpp:148-194 | the moved entry ends in its hashed tried slot without references, and no other tried slot changes hands |
| `AddrManOps.MakeTriedOthers` | aegisum-core-main/src/addrman.cpp:148-194 | what a move does to every other entry: the displaced one keeps one reference in the slot of its own source, the occupant of that slot loses one, all others keep everything |
| `AddrManOps.MakeTriedSame` | aegisum-core-main/src/addrman.cpp:148-194 | a move creates no entry and changes no address |
| `AddrManOps.GoodKeeps` | aegisum-core-main/src/addrman.cpp:196-260 | Good_ keeps the consistency check (which says that a pending collision has an occupied slot), empties no tried slot and, unless it tests before evicting, leaves the pending collisions alone |
| `AddrManAdd.LinkCore` | aegisum-core-main/src/addrman.cpp:311-331 | the last part of Add_ (take the slot, drop the newcomer, or leave it) keeps the consistency check |
| `AddrManAdd.LinkOthers` | aegisum-core-main/src/addrman.cpp:311-331 | it changes no other entry but the occupant of the slot taken |
| `AddrManAdd.LinkSelf` | aegisum-core-main/src/addrman.cpp:311-331 | the newcomer gains exactly that slot or none, and stays if and only if it has a reference |
| `AddrManAdd.AddKeeps` | aegisum-core-main/src/addrman.cpp:262-333 | Add_ keeps the consistency check and does not touch the tried table |
| `AddrManAdd.AddReports` | aegisum-core-main/src/addrman.cpp:262-333 | Add_ reports a new address if and only if it is routable and was unknown |
| `AddrManAdd.AddStores` | aegisum-core-main/src/addrman.cpp:311-331 | an address reported as new is really kept if and only if its slot is free or the occupant is terrible or referenced elsewhere |
| `AddrManRuns.ResolveKeeps` | aegisum-core-main/src/addrman.cpp:545-602 | resolving all pending collisions keeps the consistency check and every occupied tried slot |
| `AddrManRuns.RivalExists` | aegisum-core-main/src/addrman.cpp:604-629 | the rival of a pending collision exists, is tried and hashes to the same slot: id -1 is never looked up |
| `AddrManRuns.GoodForgets` | aegisum-core-main/src/addrman.cpp:148-260 | any address one Good_ forgets was untried and its only reference was the slot the displaced tried entry falls back to |
| `AddrManRuns.AddForgets` | aegisum-core-main/src/addrman.cpp:262-333 | any address one Add_ forgets was untried, terrible, and held a single slot |
| `AddrManRuns.ShuffleKeeps` | aegisum-core-main/src/addrman.cpp:482-505 | the partial shuffle of GetAddr_ permutes the random order only |
| `AddrManRuns.StepKeeps` | aegisum-core-main/src/addrman.cpp:87-629 | every operation keeps the full consistency check, empties no tried slot and never lowers the id counter |
| `AddrManRuns.RunsKeep` | aegisum-core-main/src/addrman.cpp:87-629 | so does every sequence of operations |
| `AddrManRuns.RunExtends` | aegisum-core-main/src/addrman.cpp:87-629 | whatever operation can be called after a run extends the run: runs are all sequences of callable operations |
| `AddrManRuns.SecondIsLost` | aegisum-core-main/src/addrman.cpp:311-331 | a fresh manager and two addresses with one slot: the second is reported as new and is not kept |
| `AddrManRuns.FreshRunsKeep` | aegisum-core-main/src/addrman.cpp:405-479 | from a fresh manager every run satisfies everything Check_ checks (but that the key is not null), and every pending collision has an occupied slot |
| `AddrMan.AddrMan.constructor` | aegisum-core-main/src/addrman.h:580-583 | a fresh manager has two empty tables and is consistent |
| `AddrMan.AddrMan.FindId` | aegisum-core-main/src/addrman.cpp:74-85 | finds the entry of an address; the object, with its two bucket arrays, does what the function on values does |
| `AddrMan.AddrMan.CreateEntry` | aegisum-core-main/src/addrman.cpp:87-97 | adds an entry at the end of the random order; the object, with its two bucket arrays, does what the function on values does |
| `AddrMan.AddrMan.Swap` | aegisum-core-main/src/addrman.cpp:99-117 | exchanges two positions of the random order; the object, with its two bucket arrays, does what the function on values does |
| `AddrMan.AddrMan.DeleteEntry` | aegisum-core-main/src/addrman.cpp:119-131 | removes an entry from all id tables; the object, with its two bucket arrays, does what the function on values does |
| `AddrMan.AddrMan.ClearNewSlot` | aegisum-core-main/src/addrman.cpp:133-146 | empties a slot of the new table; the object, with its two bucket arrays, does what the function on values does |
| `AddrMan.AddrMan.DropAllRefs` | aegisum-core-main/src/addrman.cpp:151-157 | the loop over all buckets removes every reference of an entry; the object, with its two bucket arrays, does what the function on values does |
| `AddrMan.AddrMan.MakeTriedEntry` | aegisum-core-main/src/addrman.cpp:148-194 | moves an entry to the tried table; the object, with its two bucket arrays, does what the function on values does |
| `AddrMan.AddrMan.FindBucket` | aegisum-core-main/src/addrman.cpp:226-235 | the search from a random bucket gives -1 exactly for an entry without a reference |
| `AddrMan.AddrMan.Good` | aegisum-core-main/src/addrman.cpp:196-260 | marks an address as good; the object, with its two bucket arrays, does what the function on values does |
| `AddrMan.AddrMan.LinkEntry` | aegisum-core-main/src/addrman.cpp:311-331 | gives an entry a slot; the object, with its two bucket arrays, does what the function on values does |
| `AddrMan.AddrMan.Add` | aegisum-core-main/src/addrman.cpp:262-333 | adds an announced address; the object, with its two bucket arrays, does what the function on values does |
| `AddrMan.AddrMan.Attempt` | aegisum-core-main/src/addrman.cpp:335-355 | counts an attempt; the object, with its two bucket arrays, does what the function on values does |
| `AddrMan.AddrMan.Connected` | aegisum-core-main/src/addrman.cpp:507-525 | refreshes the time; the object, with its two bucket arrays, does what the function on values does |
| `AddrMan.AddrMan.SetServices` | aegisum-core-main/src/addrman.cpp:527-543 | sets service bits; the object, with its two bucket arrays, does what the function on values does |
| `AddrMan.AddrMan.ResolveCollisions` | aegisum-core-main/src/addrman.cpp:545-602 | evicts for, keeps or drops every pending collision; the object, with its two bucket arrays, does what the function on values does |
| `AddrMan.AddrMan.SelectTriedCollision` | aegisum-core-main/src/addrman.cpp:604-629 | gives the tried entry in the slot of a pending collision, or nothing for an entry that is gone; the object, with its two bucket arrays, does what the function on values does |
| `AddrMan.AddrMan.GetAddr` | aegisum-core-main/src/addrman.cpp:482-505 | returns the addresses, those that are not terrible, of a prefix of the shuffled random order, as many as asked for or all there are; the object, with its two bucket arrays, does what the function on values does |
| `AddrManFile.CountersRight` | aegisum-core-main/src/addrman.h:372-391 | as many entries are written as nNew and nTried say, so neither assertion of Serialize can fail |
| `AddrManFile.PlaceHeld` | aegisum-core-main/src/addrman.h:392-405 | the last bucket in which a file lists a new entry is one in which that entry held the position it hashes to |
| `AddrManFile.LoadNewIs` | aegisum-core-main/src/addrman.h:461-469 | loading the new entries keeps all tables in agreement; none has a reference yet |
| `AddrManFile.LoadTriedIs` | aegisum-core-main/src/addrman.h:471-490 | every tried entry of a saved manager finds its slot free, so none is lost |
| `AddrManFile.LinkAllIs` | aegisum-core-main/src/addrman.h:516-537 | every new entry gets exactly one reference, in a slot it held before |
| `AddrManFile.RoundTrip` | aegisum-core-main/src/addrman.h:350-554 | saving and loading with the same key and AS map: consistent again, same counters, same addresses, same tried slots with the same entries, one reference for each new entry in a slot it held |
| `AddrManRebucket.AnyFile` | aegisum-core-main/src/addrman.h:461-554 | loading any file without repeated addresses, under any key and AS map and whether or not the buckets are reused: the result is consistent, every entry is a record of the file, every tried record finds its slot taken by it or an earlier one, and so does every new record one of its two slots |
| `AddrManRebucket.Repeated` | aegisum-core-main/src/addrman.h:461-554 | for any file: if the result is consistent, no entry is left of an address that two new records share |
| `AddrManRebucket.FirstRepeated` | aegisum-core-main/src/addrman.h:461-554 | so a file that repeats the address of its first new record is never loaded consistently |
| `AddrManRebucket.SavedOk` | aegisum-core-main/src/addrman.h:350-413 | the file of a consistent manager is such a file |
| `AddrManRebucket.Rebucketed` | aegisum-core-main/src/addrman.h:516-554 | a manager saved and loaded under another key or AS map is consistent and has no address it did not have |
| `AddrManRebucket.NeverTooLarge` | aegisum-core-main/src/addrman.h:453-459 | neither limit that loading checks can be exceeded by a consistent manager |
| `AddrManDisk.Save` | aegisum-core-main/src/addrman.h:350-413 | the writing loops produce the file |
| `AddrManDisk.Restore` | aegisum-core-main/src/addrman.h:415-554 | refuses a file if and only if it has more entries than slots; otherwise the reading loops, pruning included, produce the state of the function on values, for every file, and a consistent manager for every file without repeated addresses |
| `AddrManDisk.Reload` | aegisum-core-main/src/addrman.h:350-554 | the round trip on objects |
| `MinerSpec.TotalSplit` | aegisum-core-main/src/miner.cpp:288-314 | sums over a set of transactions split along any subset |
| `MinerSpec.CandidateTotals` | aegisum-core-main/src/miner.cpp:411-420 | the totals a candidate is tested with cover what its inclusion would add; they are exact as long as no AddToBlock has failed and the candidate has not failed before (fees: where none was modified) |
| `MinerSpec.TakeOffUpdates` | aegisum-core-main/src/miner.cpp:294-312 | taking one more selected ancestor off a descendant, first from the cached totals and later from the modified entry |
| `MinerSpec.FeeTakenOff` | aegisum-core-main/src/miner.h:117-130 | the fee total stays right for the first ancestor taken off, and for a later one if and only if its fee was not modified |
| `MinerSpec.CachedOvercount` | aegisum-core-main/src/miner.cpp:411-414 | by exactly how much the cached totals of an entry nobody updated are too high: by its selected ancestors |
| `MinerSpec.CachedRight` | aegisum-core-main/src/miner.cpp:411-414 | the cached size of such an entry is right if and only if its selected ancestors have size zero |
| `MinerSpec.FeesDrift` | aegisum-core-main/src/miner.h:117-130 | three transactions, one with a modified fee, after which the fee total of the last is three times what it should be |
| `MinerSpec.TotalsStale` | aegisum-core-main/src/miner.cpp:470-484 | the same three: after a failure between parent and child, the cached totals of the grandchild are too high |
| `MinerSpec.PackageLedger` | aegisum-core-main/src/miner.cpp:482-491 | after a package and the update of its descendants the books are in order again |
| `MinerSpec.PartialLedger` | aegisum-core-main/src/miner.cpp:470-484 | after a failed package all totals are still upper bounds |
| `MinerSpec.PartAdds` | aegisum-core-main/src/miner.cpp:217-227 | any part of a package adds no more than the totals it was tested with |
| `Miner.BlockAssembler.constructor` | aegisum-core-main/src/miner.cpp:60-101 | reserved weight, cap on the maximum weight, empty selection |
| `Miner.BlockAssembler.AddToBlock` | aegisum-core-main/src/miner.cpp:250-286 | every counter stays the sum over the selected set, and the order stays one with ancestors first |
| `Miner.BlockAssembler.UpdatePackagesForAdded` | aegisum-core-main/src/miner.cpp:288-314 | the double loop takes every added transaction off every unselected descendant, whatever the order |
| `Miner.BlockAssembler.SortForBlock` | aegisum-core-main/src/miner.cpp:331-340 | a permutation of the package, ordered by number of ancestors |
| `Miner.AncestorsFirst` | aegisum-core-main/src/miner.cpp:331-340 | that order puts every transaction after its ancestors that are not yet in the block |
| `Miner.BlockAssembler.IncludePackage` | aegisum-core-main/src/miner.cpp:466-491 | all of a package goes in, or a part of it and the rest has failed |
| `Miner.BlockAssembler.LimitsAfter` | aegisum-core-main/src/miner.cpp:217-227 | a package that passed the test keeps weight, sigops and extension weight below their limits |
| `Miner.BlockAssembler.Consider` | aegisum-core-main/src/miner.cpp:411-491 | one candidate, whatever the verdict: books, limits and reasons stay in order, and either the selection grows or the candidate leaves the modified entries |
| `Miner.BlockAssembler.ReasonStays` | aegisum-core-main/src/miner.cpp:427-461 | a reason to leave a transaction out remains one as the selection grows |
| `Miner.BlockAssembler.AddPackageTxs` | aegisum-core-main/src/miner.cpp:352-493 | the loop ends; the selection is closed under ancestors, in an order with ancestors first, duplicate-free, allowed and below all limits, with every counter exact; on exhaustion without a failed AddToBlock every transaction left out has in its package one that is not allowed, or whose package did not fit beside an ancestor-closed part of the block; a stop for low fees leaves a transaction whose true package pays less than the minimum, unless such a reason keeps it out |
| `Miner.Progress` | aegisum-core-main/src/miner.cpp:373-405 | unselected transactions, then entries left to look at, fall lexicographically |
| `Chain.InvertsLowestOne` | aegisum-core-main/src/chain.cpp:70-71 | the bit trick clears exactly the lowest one bit |
| `Chain.GetSkipHeight` | aegisum-core-main/src/chain.cpp:74-82 | a skip height is always below the height |
| `Chain.BlockIndex.GetAncestor` | aegisum-core-main/src/chain.cpp:84-109 | following skip links gives the block of the step-by-step walk, for every block and height |
| `Chain.BlockIndex.BuildSkip` | aegisum-core-main/src/chain.cpp:116-120 | keeps every skip link of the tree at its prescribed ancestor |
| `Chain.ActiveChain.Means` | aegisum-core-main/src/chain.h:421-431 | membership is being an ancestor of the tip; Next is the child on the chain |
| `Chain.ActiveChain.SetTip` | aegisum-core-main/src/chain.cpp:11-21 | stopping at the first block in place leaves exactly the ancestor path of the new tip |
| `Chain.ActiveChain.FindFork` | aegisum-core-main/src/chain.cpp:51-60 | returns the highest block the chain and the branch share, or null if there is none |
| `Chain.ActiveChain.GetLocator` | aegisum-core-main/src/chain.cpp:23-49 | lists exactly the ancestors at the locator heights, from either the chain or the skip links |
| `Chain.StepFits` | aegisum-core-main/src/chain.cpp:44-45 | every step on the way fits in a 32-bit int if and only if the height is at most 2^30 + 9 |
| `Chain.LocatorShape` | aegisum-core-main/src/chain.cpp:23-49 | starts at the block, descends strictly, ends at genesis, and has at most 12 + log2(height) entries |
| `Chain.LastCommonAncestor` | aegisum-core-main/src/chain.cpp:156-171 | returns the highest common ancestor of two branches of one tree |
| `Arith.Uint256.Complement` | aegisum-core-main/src/arith_uint256.h:66-72 | on limbs: 2^256 - 1 minus the value |
| `Arith.Uint256.Increment` | aegisum-core-main/src/arith_uint256.h:170-177 | on limbs: plus one modulo 2^256, by carry through all-ones limbs |
| `Arith.Uint256.Decrement` | aegisum-core-main/src/arith_uint256.h:187-194 | on limbs: minus one modulo 2^256, by borrow through zero limbs |
| `Arith.Uint256.Negate` | aegisum-core-main/src/arith_uint256.h:74-81 | on limbs: the negative modulo 2^256 |
| `Arith.Uint256.Add` | aegisum-core-main/src/arith_uint256.h:132-142 | on limbs: the sum modulo 2^256, also when both operands are one object |
| `Arith.Uint256.Sub` | aegisum-core-main/src/arith_uint256.h:144-148 | on limbs: the difference modulo 2^256 |
| `Arith.Uint256.MulWord` | aegisum-core-main/src/arith_uint256.cpp:55-64 | on limbs: the product with a word modulo 2^256; no 64-bit overflow |
| `Arith.Uint256.MulRow` | aegisum-core-main/src/arith_uint256.cpp:71-77 | on limbs: one row of the schoolbook product |
| `Arith.Uint256.Mul` | aegisum-core-main/src/arith_uint256.cpp:67-80 | on limbs: the product modulo 2^256 |
| `Arith.Uint256.ShiftLeft` | aegisum-core-main/src/arith_uint256.cpp:21-35 | on limbs: times a power of two modulo 2^256, for every shift |
| `Arith.Uint256.ShiftRight` | aegisum-core-main/src/arith_uint256.cpp:38-52 | on limbs: divided by a power of two, rounded down, for every shift |
| `Arith.Uint256.CompareTo` | aegisum-core-main/src/arith_uint256.cpp:109-118 | on limbs: the order of the values, both ways |
| `Arith.Uint256.EqualTo` | aegisum-core-main/src/arith_uint256.cpp:121-132 | on limbs: equality with a 64-bit number |
| `Arith.Uint256.Bits` | aegisum-core-main/src/arith_uint256.cpp:171-183 | on limbs: one more than the position of the highest bit, zero for zero |
| `Arith.Uint256.Div` | aegisum-core-main/src/arith_uint256.cpp:83-106 | on limbs: shift-and-subtract gives the quotient rounded down; failure if and only if the divisor is zero |
| `ArithSpec.ShiftLeftValue` | aegisum-core-main/src/arith_uint256.cpp:27-33 | limbs put together from two neighbours have the shifted value |
| `ArithSpec.ShiftRightValue` | aegisum-core-main/src/arith_uint256.cpp:44-50 | likewise to the right |
| `Arith.Subtracted` | aegisum-core-main/src/arith_uint256.cpp:96-103 | one division step keeps quotient * divisor + rest = number with the rest below the next shifted divisor |
| `Compact.OverflowExact` | aegisum-core-main/src/arith_uint256.cpp:216-219 | the overflow flag is set if and only if the number does not fit in 256 bits |
| `Compact.CompactRoundTrip` | aegisum-core-main/src/arith_uint256.cpp:203-244 | for every 256-bit value: its word decodes without a flag, to a value no larger and of the same byte length, which encodes to the same word |
| `Compact.SetCompact` | aegisum-core-main/src/arith_uint256.cpp:203-221 | value modulo 2^256 and both flags, exactly |
| `Compact.GetCompact` | aegisum-core-main/src/arith_uint256.cpp:223-244 | the word with the byte length of the value and its three leading bytes, shifted down one byte where they would read as a sign; neither assertion can fail |
| `Compact.GetBlockProof` | aegisum-core-main/src/chain.cpp:122-135 | 2^256 / (target + 1) rounded down, or zero for a negative, overflowing or zero target; never a division by zero |
| `Merkle.BitsToBytes` | aegisum-core-main/src/merkleblock.cpp:12-19 | eight bits to a byte, lowest first, padded with zeros |
| `Merkle.BytesToBits` | aegisum-core-main/src/merkleblock.cpp:21-28 | the bits of all bytes in order |
| `Merkle.PackRoundTrip` | aegisum-core-main/src/merkleblock.cpp:12-28 | unpacking gives the packed bits and fewer than eight false ones |
| `MerkleSpec.WidthMeans` | aegisum-core-main/src/merkleblock.h:70-72 | a node exists if and only if its first leaf does |
| `MerkleSpec.SiblingsDiffer` | aegisum-core-main/src/merkleblock.cpp:117-125 | siblings over distinct transactions have distinct hashes |
| `MerkleSpec.StoredReads` | aegisum-core-main/src/merkleblock.cpp:77-131 | what was stored for a node reads back as its hash and the matches below it |
| `MerkleSpec.Sound` | aegisum-core-main/src/merkleblock.cpp:95-131 | whatever the data, a reader that ends with the true hash of a node reported nothing but true transactions |
| `MerkleSpec.FoundIs` | aegisum-core-main/src/merkleblock.cpp:110-113 | what is reported is exactly what is matched |
| `MerkleSpec.FoundAscends` | aegisum-core-main/src/merkleblock.cpp:110-113 | matches are reported in block order |
| `MerkleSpec.HashBounds` | aegisum-core-main/src/merkleblock.h:40-44 | at most one hash per transaction and at most 1 + matches * height |
| `MerkleSpec.BitCount` | aegisum-core-main/src/merkleblock.h:26-33 | bits are twice the hashes minus one, plus one for each expanded node with a single child |
| `MerkleSpec.DocumentedBound` | aegisum-core-main/src/merkleblock.h:51 | the documented bound of 2*N-1 bits holds if and only if no level has a single-child node with a match at its right edge |
| `MerkleSpec.BoundFails` | aegisum-core-main/src/merkleblock.h:51 | it fails for three transactions of which the last is matched |
| `MerkleSpec.SizeBound` | aegisum-core-main/src/merkleblock.h:35-38 | the documented bound on the encoded size holds if and only if the levels with a matched single-child node at their right edge are at most as many as the flag bits left over in the documented bytes, and eight for each byte that the two length prefixes save |
| `MerkleSpec.SizeRegular` | aegisum-core-main/src/merkleblock.h:35-38 | with 2*N-1 flag bits it holds if and only if there are at most 65535 hashes |
| `MerkleSpec.SizeFails` | aegisum-core-main/src/merkleblock.h:35-38 | it fails by one byte for 1025 transactions that are all matched |
| `Merkle.RoundTrip` | aegisum-core-main/src/merkleblock.cpp:57-180 | a tree built, packed and unpacked is accepted and gives the root and exactly the matched transactions |
| `Merkle.AcceptedIsTrue` | aegisum-core-main/src/merkleblock.cpp:149-180 | soundness for arbitrary bits and hashes |
| `Merkle.PartialMerkleTree.constructor` | aegisum-core-main/src/merkleblock.cpp:133-145 | builds the bits and hashes of the whole tree |
| `Merkle.PartialMerkleTree.TraverseAndBuild` | aegisum-core-main/src/merkleblock.cpp:77-93 | appends exactly the bits and hashes of a subtree |
| `Merkle.PartialMerkleTree.TraverseAndExtract` | aegisum-core-main/src/merkleblock.cpp:95-131 | reads as the function on values does, failures included |
| `Merkle.PartialMerkleTree.ExtractMatches` | aegisum-core-main/src/merkleblock.cpp:149-180 | where all checks hold, the root, the matched ids and their positions appended to those given; otherwise the zero hash |
| `Merkle.Relay` | aegisum-core-main/src/merkleblock.cpp:12-180 | the whole way from a block to the matches at the receiver |
| `Bloom.WipeBits` | aegisum-core-main/src/bloom.cpp:221-228 | the mask clears a position if and only if it carries the new generation number |
| `Bloom.PutBit` | aegisum-core-main/src/bloom.cpp:239-240 | clearing and setting through a mask changes that bit and no other |
| `Common.FastMod` | aegisum-core-main/src/bloom.cpp:209-211 | the multiply-and-shift index is in range |
| `Bloom.ShownNext` | aegisum-core-main/src/bloom.cpp:215-229 | when the generation counter wraps, the number wiped is exactly that of the generation three back |
| `Bloom.RollingBloomFilter.constructor` | aegisum-core-main/src/bloom.cpp:173-198 | the filter is empty, and usable if and only if it is for at least one element, for fewer than 2^32 - 1 (where the rounding wraps), and has a bit |
| `Bloom.RollingBloomFilter.Reset` | aegisum-core-main/src/bloom.cpp:270-276 | empty again, with a new tweak |
| `Bloom.RollingBloomFilter.Wipe` | aegisum-core-main/src/bloom.cpp:221-229 | the loop over all words drops one generation and keeps two |
| `Bloom.RollingBloomFilter.Insert` | aegisum-core-main/src/bloom.cpp:213-242 | keeps, over any number of insertions, for every position the generation that set it last |
| `Bloom.RollingBloomFilter.Contains` | aegisum-core-main/src/bloom.cpp:250-262 | true if and only if every position of the key was set by a key of the last three generations; true for every key of the last two generations and the current one |
| `Bloom.RollingBloomFilter.RecentContained` | aegisum-core-main/src/bloom.cpp:250-262 | all positions of such a key still carry its generation |
| `Bloom.RollingBloomFilter.KeepsEnough` | aegisum-core-main/src/bloom.h:93-94 | these are at least as many as the filter was made for |
| `CuckooSpec.FlagsFit` | aegisum-core-main/src/cuckoocache.h:60-67 | there is a flag for every slot if and only if the size is at most 2^32 - 8: the padding is computed in 32 bits |
| `CuckooSpec.FlagsFail` | aegisum-core-main/src/cuckoocache.h:119 | for 2^32 - 2 slots, the documented maximum, there is none |
| `Cuckoo.BitFlags.constructor` | aegisum-core-main/src/cuckoocache.h:60-67 | all flags set, and usable if and only if the size is at most 2^32 - 8 |
| `Cuckoo.BitFlags.BitSet` | aegisum-core-main/src/cuckoocache.h:90-93 | sets that flag and no other |
| `Cuckoo.BitFlags.BitUnset` | aegisum-core-main/src/cuckoocache.h:101-104 | clears that flag and no other |
| `Cuckoo.BitFlags.BitIsSet` | aegisum-core-main/src/cuckoocache.h:111-114 | reads that flag |
| `CuckooSpec.NextIndexIs` | aegisum-core-main/src/cuckoocache.h:430 | from the last location the search goes to the next one, wrapping around; from none it goes to the second |
| `CuckooSpec.FirstDisplacement` | aegisum-core-main/src/cuckoocache.h:419-420 | the first displacement of every insertion goes to the second location |
| `CuckooSpec.MovesOn` | aegisum-core-main/src/cuckoocache.h:421-425 | after one displacement the next takes the element just put in out again, undoing the first, if and only if the location of the displaced element that follows the slot is the same slot |
| `CuckooSpec.MovesBack` | aegisum-core-main/src/cuckoocache.h:421-425 | a table and hash functions where it does |
| `CuckooSpec.EpochShare` | aegisum-core-main/src/cuckoocache.h:347-348 | an epoch is 45% of the table if and only if there are three slots or more and 45 times the size fits in 32 bits |
| `CuckooSpec.EpochShareFails` | aegisum-core-main/src/cuckoocache.h:347-348 | at 95443718 entries the product wraps and an epoch is one entry |
| `CuckooSpec.LiveFound` | aegisum-core-main/src/cuckoocache.h:469-479 | a live element is at one of its locations |
| `Cuckoo.AfterLast` | aegisum-core-main/src/cuckoocache.h:430 | the search loop computes that next index |
| `Cuckoo.EmptyReportsDefault` | aegisum-core-main/src/cuckoocache.h:469-479 | a cache in which nothing was inserted reports the element that empty slots hold |
| `Cuckoo.Serve` | aegisum-core-main/src/cuckoocache.h:392-479 | any run of insertions and lookups on a new cache: every element a lookup finds, other than that of empty slots, was inserted before |
| `Cuckoo.FoundAfterErase` | aegisum-core-main/src/cuckoocache.h:442-456 | insert, then look up and erase, then look up again: true, for every element and cache |
| `CuckooSpec.SwapKeeps` | aegisum-core-main/src/cuckoocache.h:430-438 | exchanging hand and slot keeps every element at one of its locations, none twice, and the live contents together with the hand |
| `CuckooSpec.PutKeeps` | aegisum-core-main/src/cuckoocache.h:408-415 | a chain that ends in a free slot loses nothing and adds the newcomer |
| `CuckooSpec.DropKeeps` | aegisum-core-main/src/cuckoocache.h:406-440 | a chain that runs out of depth loses exactly what it has in hand |
| `CuckooSpec.ReviveKeeps` | aegisum-core-main/src/cuckoocache.h:400-405 | an element found again is live, nothing else changes |
| `CuckooSpec.NotThere` | aegisum-core-main/src/cuckoocache.h:400-405 | an element at none of its locations is nowhere |
| `CuckooSpec.AgedKeeps` | aegisum-core-main/src/cuckoocache.h:304-310 | a new epoch leaves no recent entry and every element in its place |
| `CuckooSpec.ScanBound` | aegisum-core-main/src/cuckoocache.h:288-320 | one insertion after a scan leaves recent entries and counter within an epoch and its slack |
| `Cuckoo.Cache.constructor` | aegisum-core-main/src/cuckoocache.h:339-352 | an empty cache has no live element and satisfies the invariants if and only if its size is at most 2^32 - 8 |
| `Cuckoo.Cache.EpochCheck` | aegisum-core-main/src/cuckoocache.h:288-320 | ages or not, and leaves room for one more recent entry |
| `Cuckoo.Cache.Displace` | aegisum-core-main/src/cuckoocache.h:406-440 | the displacement loop, whatever its length: live contents gain the newcomer and lose at most one element, and no slot, collectable or not, holds anything else that was not in the table before |
| `Cuckoo.Cache.Insert` | aegisum-core-main/src/cuckoocache.h:392-440 | live contents gain the newcomer and lose at most one element; no slot, collectable or not, holds anything else that was not in the table before; recent entries plus counter stay at most epoch_size + max(1, epoch_size / 16) |
| `Cuckoo.Cache.Contains` | aegisum-core-main/src/cuckoocache.h:469-479 | true if and only if the element is at one of its locations, which for an element other than that of empty slots is: anywhere in the table; true for every live element; erasing makes it, and only it, collectable |
| `Base58Spec.EncodeFits` | aegisum-core-main/src/base58.cpp:97 | a buffer of n*138/100 + 1 digits holds every number of n bytes |
| `Base58Spec.DecodeFits` | aegisum-core-main/src/base58.cpp:52 | a buffer of m*733/1000 + 1 bytes holds every number of m digits |
| `Base58Spec.AlphabetIs` | aegisum-core-main/src/base58.cpp:18-36 | alphabet and decoding table are inverse |
| `Base58Spec.DigitsUnique` | aegisum-core-main/src/base58.cpp:100-117 | a number has one way to be written without leading zeros |
| `Base58Spec.RoundTrip` | aegisum-core-main/src/base58.cpp:38-125 | the string of any bytes is well formed and stands for these bytes |
| `Base58.DigitStep` | aegisum-core-main/src/base58.cpp:63-65 | one step of a carry loop |
| `Base58.MulAdd` | aegisum-core-main/src/base58.cpp:58-68 | the carry loop multiplies and adds in place, in either base; the carry assertion cannot fail |
| `Base58.EncodeDigits` | aegisum-core-main/src/base58.cpp:96-117 | the digits in base 58, from a buffer that is large enough |
| `Base58.EncodeBase58` | aegisum-core-main/src/base58.cpp:87-125 | leading zeros as ones, then the digits |
| `Base58.DecodeDigits` | aegisum-core-main/src/base58.cpp:51-71 | the bytes of a word, or failure for a foreign character or too long a result |
| `Base58.DecodeBase58` | aegisum-core-main/src/base58.cpp:38-85 | succeeds if and only if the string is well formed and the bytes are at most max_ret_len, and gives these bytes |
| `Base58.EncodeDecode` | aegisum-core-main/src/base58.cpp:38-125 | decoding an encoding gives the bytes back |
| `Bech32Spec.StepLinear` | aegisum-core-main/src/bech32.cpp:86-96 | one step of PolyMod is linear over exclusive or |
| `Bech32Spec.StepInjective` | aegisum-core-main/src/bech32.cpp:86-96 | and injective on 30-bit remainders |
| `Bech32Spec.FoldLinear` | aegisum-core-main/src/bech32.cpp:42-99 | so is the whole checksum linear |
| `Bech32Spec.SixDigitsFold` | aegisum-core-main/src/bech32.cpp:138-146 | six checksum symbols, folded from zero, give back their 30 bits |
| `Bech32Spec.ChecksumVerifies` | aegisum-core-main/src/bech32.cpp:123-147 | data with its checksum verifies as the encoding the checksum is for |
| `Bech32Spec.SingleError` | aegisum-core-main/src/bech32.cpp:123-133 | lists of any length that differ in exactly one symbol never both verify as the same encoding; for more errors see `Bech32Errors.ThreeErrors` |
| `Bech32Spec.RoundTrip` | aegisum-core-main/src/bech32.cpp:152-198 | decoding an encoding gives encoding, readable part and data back, for every printable readable part without capitals and every length the decoder accepts |
| `Bech32Spec.SingleErrorDetected` | aegisum-core-main/src/bech32.cpp:168-198 | two strings that differ in the value of one data character do not both decode as the same encoding |
| `Bech32Field.NoPeriod` | aegisum-core-main/src/bech32.cpp:49-54 | no power of z below 1023 leaves any nonzero element of the field of 1024 elements in place |
| `Bech32Field.Vandermonde` | aegisum-core-main/src/bech32.cpp:49-54 | three elements whose plain sum and whose sums after one and two rounds of different powers vanish are zero |
| `Bech32Errors.FirstRoot` | aegisum-core-main/src/bech32.cpp:49-54 | x^6 minus the first constant, which is the generator, vanishes at the powers 24, 25 and 26 of z |
| `Bech32Errors.DoubleRoot` | aegisum-core-main/src/bech32.cpp:91-96 | each further constant is two times the one before, in the field of 32 elements, and so agrees with x^6 at these points, too |
| `Bech32Errors.StepRoot` | aegisum-core-main/src/bech32.cpp:86-96 | at each of the three points one step of PolyMod multiplies by the point and adds the symbol |
| `Bech32Errors.ThreeErrors` | aegisum-core-main/src/bech32.cpp:50-53 | lists of any length that differ in at most three symbols within a window of 1023 have the same remainder only if they are the same |
| `Bech32Errors.ThreeErrorsDetected` | aegisum-core-main/src/bech32.cpp:50-53 | two strings that agree except in at most three data characters within a window of 1023, and decode as the same encoding, decode to the same data |
| `Bech32.ComputePolyMod` | aegisum-core-main/src/bech32.cpp:42-99 | the loop computes the checksum |
| `Bech32.MakeChecksum` | aegisum-core-main/src/bech32.cpp:136-147 | the six symbols |
| `Bech32.EncodeString` | aegisum-core-main/src/bech32.cpp:152-165 | the loop builds the string |
| `Bech32.DecodeString` | aegisum-core-main/src/bech32.cpp:168-198 | the loops accept and return exactly what the function on strings says |
| `CompactBlockSpec.PositionsGrow` | aegisum-core-main/src/blockencodings.cpp:68-83 | prefilled positions ascend strictly |
| `CompactBlockSpec.PlaceOne` | aegisum-core-main/src/blockencodings.cpp:69-83 | a prefilled transaction goes into an empty slot |
| `CompactBlockSpec.PoolRight` | aegisum-core-main/src/blockencodings.cpp:117-140 | without a clash the mempool puts nothing wrong into a slot |
| `CompactBlockSpec.ExtraSeen` | aegisum-core-main/src/blockencodings.cpp:143-172 | a slot is counted without being filled if and only if the mempool has no match for its short id and the first extra entry that matches has no transaction |
| `CompactBlockSpec.ExtraRight` | aegisum-core-main/src/blockencodings.cpp:143-172 | neither do extra transactions, and they keep what is right |
| `CompactBlockSpec.FillsBlock` | aegisum-core-main/src/blockencodings.cpp:192-200 | slots that agree with a block, filled with what is missing, are the block |
| `CompactBlockSpec.ShortPositions` | aegisum-core-main/src/blockencodings.cpp:91-95 | short ids of a block take the positions between the prefilled transactions |
| `CompactBlockSpec.ShortsCover` | aegisum-core-main/src/blockencodings.cpp:29-36 | the transactions that get a short id are exactly those between the prefilled ones, if and only if with an extension block the last transaction, and otherwise none, is an integrating one |
| `CompactBlock.MakeCompact` | aegisum-core-main/src/blockencodings.cpp:19-37 | for every nonempty block: the coinbase and, with an extension block, the last transaction prefilled, its index in 16 bits; short ids for the others that are not integrating ones, in order |
| `CompactBlock.PartiallyDownloadedBlock.Prefill` | aegisum-core-main/src/blockencodings.cpp:66-84 | fails if and only if an entry is null or out of reach; otherwise all are in place |
| `CompactBlock.PartiallyDownloadedBlock.MapShortIds` | aegisum-core-main/src/blockencodings.cpp:90-95 | the search for empty slots never leaves the slots and gives each short id the next one |
| `CompactBlock.PartiallyDownloadedBlock.ScanPool` | aegisum-core-main/src/blockencodings.cpp:114-140 | each slot holds what the mempool leaves there; mempool_count is the number of slots filled |
| `CompactBlock.CountedIs` | aegisum-core-main/src/blockencodings.cpp:143-172 | mempool_count is the number of slots filled, after both scans, if and only if no slot is counted for an entry without a transaction |
| `CompactBlock.PartiallyDownloadedBlock.ScanExtra` | aegisum-core-main/src/blockencodings.cpp:143-172 | likewise for extra entries, with or without a transaction; which slots are counted, and that it follows a null pointer exactly where an entry without a transaction has the short id of a filled slot |
| `CompactBlock.PartiallyDownloadedBlock.InitData` | aegisum-core-main/src/blockencodings.cpp:57-177 | INVALID if and only if the header is null, the message is empty or the prefilled entries are bad; FAILED if and only if a bucket is crowded or short ids repeat; where it succeeds, what each slot holds after the scans, that a scan stops early only when all short ids are counted, and that mempool_count is right if and only if no entry without a transaction is the first match of a short id; with none that has a short id of the message, nothing of this goes wrong |
| `CompactBlock.PartiallyDownloadedBlock.FillBlock` | aegisum-core-main/src/blockencodings.cpp:185-228 | with too few or too many transactions INVALID (after too few it may be called again); with the right number the slots filled in order, and the verdict of CheckBlock |
| `CompactBlock.Reconstructs` | aegisum-core-main/src/blockencodings.cpp:57-207 | without a short-id clash the block comes back exactly |
| `CompactBlock.KnownIsFound` | aegisum-core-main/src/blockencodings.cpp:114-172 | a transaction that is once in the whole mempool, or only among the extra ones, is not asked for, also when a scan stops early, if and only if the first match of its short id is not an entry without a transaction |
| `CompactBlock.Reconstruct` | aegisum-core-main/src/blockencodings.cpp:19-228 | the whole way from a block through its message to the same block: it fails if and only if a bucket is crowded or short ids of the block are equal, follows a null pointer only if an extra entry without a transaction has a short id of the block, and otherwise gives the block back; it asks for a known transaction if and only if the first match of its short id is such an entry |
| `CompactBlock.BlankIsCounted` | aegisum-core-main/src/blockencodings.cpp:143-152 | a message and an extra entry without a transaction for which the counter exceeds the slots filled |
| `CompactBlock.BlankIsMet` | aegisum-core-main/src/blockencodings.cpp:159-160 | and one for which a null pointer is followed |

## Left out

- Extension-block (MWEB) views and miner internals: adding such a transaction is an arbitrary success or failure, and the coin caches hold ordinary outpoints only.
- Hash functions, signatures, keys and network input and output.
- `Select_` and `GetChance` of the address manager: floating point and termination with probability one.
- `Clear()` of the address manager does not empty the pending collisions; runs and loading are stated from a newly constructed manager.
- Times handed to the address manager are positive, and its id counter does not wrap at 2^31.
- File headers, versions and the AS map checksum: whether bucket count and AS map are unchanged is an argument of loading.
- AddrManRebucket.AnyFile: that loading is consistent is stated for files without a repeated address, which is all that a manager writes; with one it is not (`AddrManRebucket.Repeated`), unless every copy is dropped on the way, a case that is left open.
- Merkle.RoundTrip: transaction ids are distinct and the pair hash has no collisions; equal siblings are what the reader rejects.
- CompactBlock.Reconstruct: in a block with an extension block exactly the last transaction is the integrating one, as the sender presumes (by `CompactBlockSpec.ShortsCover`, short ids and prefilled transactions do not cover any other block), blocks have at most 65535 transactions, and no transaction at the receiver shares a short id with another of the block; where extra entries without a transaction do, the status may be the null pointer that is followed.
- Which candidate has the best score in package selection: the choice is arbitrary, so fee optimality is not stated.
- Descendant walks and ancestor sets of the mempool are given; the mempool itself is not modelled.
- Chain.ActiveChain.GetLocator: the step is a natural number, which beyond height 2^30 + 9 a 32-bit int is not (`Chain.StepFits`).
- `FindEarliestAtLeast`: a library binary search.
- `GetBlockProofEquivalentTime` and conversions of 256-bit numbers to text and to floating point.
- Merkle.PartialMerkleTree.ExtractMatches: positions and widths are natural numbers; for the block sizes accepted they are far below 2^32.
- Sizing of the Bloom filter and the depth limit of the cuckoo cache come from floating point: they are parameters.
- Atomicity of the cuckoo cache's flags under concurrent readers: operations follow one another.
- CompactBlock.PartiallyDownloadedBlock.InitData: short ids come from witness hashes, messages have at most 65535 transactions as their deserializer demands (so the test against the maximum block weight never fires), and whether the hash table has a bucket with more than twelve entries is an argument; `extra_count` is log output and left out.
- Bech32Errors.ThreeErrors: that four errors within 89 symbols are detected, too, does not follow from the roots of the generator; it rests on an exhaustive search over all patterns of four errors and is not stated.
- Errors in the readable part of a Bech32 string, where one character stands for two symbols.
- `EncodeBase58Check` and `DecodeBase58Check`: thin wrappers around a hash.
- `CBloomFilter`, block filters, compressor and the other codecs: not part of this model.
