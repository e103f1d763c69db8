# Verified model of the Palladium node's core data structures

A Dafny model of the self-contained data structures, protocols and arithmetic of the Palladium node (a Bitcoin Core derivative), with proofs of what they are there to guarantee.
`dafny verify dfyconfig.toml` checks all of it.

State that the C++ code updates in place is modelled by classes, arrays and loops, and each such method is proved against a function of the old state; the theorems about whole runs are then stated about those functions.
Hash functions, random choices and the clock are parameters, and every theorem holds for all of them.

- **Address manager** (`AddrManState`, `AddrManProofs`, `AddrManOps`, `AddrManRuns`, `AddrManEffects`, `AddrManEntries`, `AddrMan`, `AddrManCheck`). `CAddrMan` keeps one set of addresses in four redundant indexes. Every run from construction keeps the invariant that the authors wrote down as `Check_`: the indexes are mutually inverse, reference counts are exact, every slot is at its hashed place. So the search for a new bucket in `Good_` never fails, and a pending collision that still exists always has an occupied tried slot. What `Good_`, `Add_` and `ResolveCollisions_` do is stated exactly, from the states before and after. `Check_` itself is modelled as the procedure it is and shown to accept exactly the consistent states.
- **Block assembler** (`Mempool`, `MinerProofs`, `MinerSelection`, `Miner`). `addPackageTxs` over an arbitrary transaction graph: it terminates, the block is duplicate-free, closed under ancestors, in topological order and within both limits, because the incrementally updated package totals never fall below the true ones. Every candidate looked at is the best open one and rightly taken or refused, and the selection stops exactly when it should.
- **Coins cache** (`CoinsCache`, `Coins`). A stack of `CCoinsViewCache` objects of any depth shows what one plain map would; the DIRTY and FRESH flags mean what they are documented to mean, memory accounting is exact and, for callers that keep to the rules, neither logic error can be thrown.
- **Script check queue** (`CheckQueue`, `CheckQueueProofs`, `CheckQueueRuns`, `CheckQueueWorkers`). One master and any number of workers, interleaved at critical sections and single evaluations: the verdict is right in every round, no wakeup is lost, and `Wait` returns, in fair runs also with unasked wakeups and threads that join at any time. Notifications do what they are for: while checks are queued the workers do not all sleep, and they finish without the master.
- **Partial Merkle tree** (`MerkleTree`, `PartialMerkle`, `BitPacking`, `PartialMerkleTree`). Building and extracting (section "Partial Merkle branch format" of BIP 37) are complete and sound, through the byte packing too; exactly which trees are accepted, and that a wrong count of transactions does not help.
- **Wide arithmetic and targets** (`Limbs`, `Arith256`, `CompactTarget`, `BlockProof`). Limb operations refine arithmetic modulo the width, the division loop is exact, the compact target form is the best lower approximation, and block proof is the exact quotient.
- **Block chain index** (`Chain`). Skip pointers, ancestors, forks and locators agree with following the parent links.
- **Bech32 and Bech32m** (`Bech32Checksum`, `Bech32Field`, `Bech32Roots`, `Bech32Distance`, `Bech32`, `Bech32Text`; BIP 173 and BIP 350). The checksum is linear and each step is injective, so changes within six consecutive symbols are always detected; it is a BCH code, so any three changed symbols within 1023 are, as the comments at src/bech32.cpp:46-49 promise; encoding and decoding are inverse, and exactly the encodings are accepted.
- **Transport** (`Framing`, `Receive`, `Send`). Reassembly of messages does not depend on how the stream is cut; partial sends emit the exact concatenation; put together, what one side pushes the other side delivers.
- **Rolling bloom filter** (`RollingBloom`). No false negatives among the keys of the current generation and the two before it, and no tag of an older one.
- **Cuckoo cache** (`CuckooTable`, `Cuckoo`). An insertion loses at most one element, and none while there is room; elements are found wherever they are, erasing is exact, and the epoch stays bounded.
- **Base58** (`Radix`, `Base58Sizes`, `Base58`, `Base58Text`). The buffer estimates suffice for every length, and encoding and decoding are inverse.

`Basics`, `Powers` and `SetSum` hold shared definitions.

Where code and comments disagree, or the code does something a reader may not expect, the model follows the code:

- The comment at src/cuckoocache.h:419-420 says that the first displaced location is `locs[0]`; when the search finds nothing the index computed at line 430 is `(1 + 8) & 7`, so it is `locs[1]`.
- src/merkleblock.h:47 bounds the flag bits by twice the number of digests less one. Three transactions with the last one matched need four bits for two digests; `PartialMerkle.BitsBound` gives the exact condition.
- `FetchCoin` marks a spent coin received from its parent as fresh (src/coins.cpp:51-55); in a valid stack a parent never hands out a spent coin, and the contract of `Coins.CoinsView.FetchCoin` shows the flag is never set.
- `Flush` hands down the layer's own best-block hash even if it was never set (src/coins.cpp:206), and the database refuses a null one (src/txdb.cpp:89). `Coins.CoinsView.Flush` gives the exact condition under which the best block survives.
- The two ways of lowering a recorded fee differ: a new record loses the modified fee of the ancestor (src/miner.cpp:251), a known one the base fee (src/miner.h:117). `MinerProofs.FeesExact` and `MinerProofs.FeesCanBeOff` say when that matters.

## Model

| member | source | states |
|---|---|---|
| `AddrManRuns.RunKeepsInv` | src/addrman.cpp:87-355 | every sequence of operations keeps the whole invariant (indexes mutually inverse, exact reference counts and tallies, every slot at its hashed place), keeps filled tried slots filled, and keeps times nonnegative when all times given are positive |
| `AddrManRuns.EveryRunChecks` | src/addrman.cpp:405-479 | every run from construction with a non-null key and positive times ends in a state in which each clause of the consistency check holds |
| `AddrManCheck.Check` | src/addrman.cpp:405-479 | the check procedure returns zero exactly on the states that satisfy its clauses read as one predicate, the key included; looking up an address without an id enters it with id zero, and nothing else changes |
| `AddrManCheck.CheckPasses` | src/addrman.cpp:405-479 | on every state the invariant allows, with nonnegative times and a non-null key, the check returns zero and changes nothing |
| `AddrManCheck.CheckEntries` | src/addrman.cpp:413-437 | the entry loop accepts exactly when every entry is consistent, and then yields the tried ids and the new ids with their reference counts |
| `AddrManCheck.CheckTried` | src/addrman.cpp:444-456 | the tried-table loops accept exactly when every occupied slot holds a tried id at its own place; what is left over are the tried ids without a slot |
| `AddrManCheck.CheckNew` | src/addrman.cpp:458-469 | the new-table loops and the left-over map decide exactly whether slots are rightly placed and reference counts are the numbers of slots |
| `AddrManRuns.StepKeepsInv` | src/addrman.cpp:196-355 | one operation keeps the invariant and never empties a filled tried slot |
| `AddrManRuns.ClearedInv` | src/addrman.h:502-524 | the freshly constructed manager satisfies the invariant |
| `AddrManProofs.CreateKeepsMid` | src/addrman.cpp:87-97 | a created entry extends all three indexes consistently |
| `AddrManProofs.SwapKeepsMid` | src/addrman.cpp:99-117 | exchanging two random positions keeps the random index inverse to the entries |
| `AddrManProofs.DeleteKeepsMid` | src/addrman.cpp:119-131 | deleting an unreferenced new entry keeps every index and count |
| `AddrManProofs.ClearNewKeepsMid` | src/addrman.cpp:133-146 | clearing a new slot keeps reference counts exact and deletes an entry that loses its last reference |
| `AddrManOps.MakeTriedKeepsMid` | src/addrman.cpp:148-194 | moving an entry to the tried table, with the evicted occupant readmitted to a new slot, keeps the invariant |
| `AddrManOps.MakeTriedEffect` | src/addrman.cpp:148-194 | exactly one tried slot changes; the evicted entry is new again with one reference; no other entry changes its address or statistics |
| `AddrManOps.GoodKeepsInv` | src/addrman.cpp:196-260 | marking an address good keeps the invariant, pending collisions included |
| `AddrManOps.AddKeepsInv` | src/addrman.cpp:262-333 | adding an address keeps the invariant and leaves the tried table alone |
| `AddrManOps.AddEffect` | src/addrman.cpp:262-333 | adding touches the new side only: tried set and table and pending collisions stay, and so do the endpoints and the times of last attempt and success of older entries |
| `AddrManOps.TouchKeepsInv` | src/addrman.cpp:335-355 | updating the statistics of an entry keeps the invariant |
| `AddrManEffects.GoodMoves` | src/addrman.cpp:196-260 | a known entry that is not tried, unless the occupant is to be tested first, leaves every new slot and stands in its tried slot without references; the occupant is back in its own new slot with one reference, which costs whoever was there one; that one is gone if it was the last; only the three statistics and the time of the last success change besides |
| `AddrManEffects.GoodStays` | src/addrman.cpp:214-252 | a tried entry, and one that has to wait for a test of the occupant, only has its statistics changed; the waiting one becomes pending if there were fewer than ten |
| `AddrManEffects.GoodOfUnknown` | src/addrman.cpp:200-212 | an unknown address or another port changes nothing but the time of the last success |
| `AddrManEffects.AddStores` | src/addrman.cpp:262-333 | an unknown routable address is stored under the next id, with one reference, the penalised time and the given services, exactly when its slot is empty or its holder is terrible or has other references; the holder loses that reference, and is gone if it was the last; otherwise only the id is used up |
| `AddrManEffects.AddAnnounces` | src/addrman.cpp:276-333 | a known address gets the later time and all services under the stated rules, and one more reference exactly when the announcement is news, it is not tried, has fewer than eight references, the draw is zero modulo two to their number, and the slot is empty or held by another, terrible entry |
| `AddrManEffects.AddRefuses` | src/addrman.cpp:264-265 | an address that cannot be routed changes nothing |
| `AddrManEffects.AttemptDoes` | src/addrman.cpp:335-355 | the attempt is noted, and counted only if it is the first since some address worked |
| `AddrManEffects.ConnectedDoes` | src/addrman.cpp:503-521 | only the time changes, and only if it is more than twenty minutes old |
| `AddrManEffects.SetServicesDoes` | src/addrman.cpp:523-539 | only the services change |
| `AddrManEffects.TouchOfUnknown` | src/addrman.cpp:335-349 | these three change nothing for an unknown address or another port |
| `AddrManEffects.ResolveOneDoes` | src/addrman.cpp:546-590 | a pending entry is given up if it is gone, invalid, or the occupant worked within four hours; it gets the slot if the occupant was tried within four hours but not in the last minute, or not tried and the entry worked over forty minutes ago; otherwise it stays pending |
| `AddrManEffects.ResolveDoes` | src/addrman.cpp:541-598 | the pending ids are decided one after the other in increasing order, each on the state it finds, and nothing else happens |
| `AddrManEffects.GetAddrReaches` | src/addrman.cpp:482-501 | every order of the known addresses can be drawn, and the good ones are then returned in that order |
| `AddrManRuns.GetAddrCorrect` | src/addrman.cpp:482-501 | the returned ids are distinct, known and not terrible, at most 23 per cent of the known ones and 2500, and all the good ones if that limit is not reached; the whole order is only permuted |
| `AddrManRuns.ResolveKeepsInv` | src/addrman.cpp:541-598 | resolving collisions keeps the invariant, whatever the clock says at each reading |
| `AddrManRuns.CollisionStillThere` | src/addrman.cpp:541-598 | a pending id that still exists has an occupied tried slot, so the branch for a vanished collision is never taken |
| `AddrManRuns.SelectCollisionCorrect` | src/addrman.cpp:600-625 | the entry selected is the occupant of the pending entry's own tried slot; the entry map is never asked for -1; a pending id that is gone is dropped, and nothing else changes |
| `AddrMan.CAddrMan.constructor` | src/addrman.h:502-524 | construction yields the cleared state |
| `AddrMan.CAddrMan.Find` | src/addrman.cpp:74-85 | finds the id an address is indexed under |
| `AddrMan.CAddrMan.Create` | src/addrman.cpp:87-97 | the in-place updates of the three indexes amount to the value-level creation whose consistency CreateKeepsMid proves |
| `AddrMan.CAddrMan.SwapRandom` | src/addrman.cpp:99-117 | the in-place exchange of two random positions, with both entries' back references, refines the value-level swap |
| `AddrMan.CAddrMan.Delete` | src/addrman.cpp:119-131 | an unreferenced new entry disappears from entry map, address map and random order, and nothing else changes but the last element moving into the gap |
| `AddrMan.CAddrMan.ClearNew` | src/addrman.cpp:133-146 | the slot is emptied, one reference is taken away, and the entry is deleted exactly when that was the last one |
| `AddrMan.CAddrMan.MakeTried` | src/addrman.cpp:148-194 | the loop over the new buckets removes every reference, the evicted occupant goes to its new slot: the whole state equals the value-level move |
| `AddrMan.CAddrMan.FindNewBucket` | src/addrman.cpp:225-240 | a new entry has a new bucket that holds it, so the search never ends empty-handed |
| `AddrMan.CAddrMan.Good` | src/addrman.cpp:196-260 | the whole state equals the value-level specification for every time, flag and random choice; the bail-out without a bucket is unreachable |
| `AddrMan.CAddrMan.Add` | src/addrman.cpp:262-333 | the whole state and the result equal the value-level specification in every branch, the randomised refusal included |
| `AddrMan.CAddrMan.Attempt` | src/addrman.cpp:335-355 | statistics of a known address with the same port change as specified, everything else stays |
| `AddrMan.CAddrMan.Connected` | src/addrman.cpp:503-521 | the time of a known address moves only when it is more than twenty minutes old; everything else stays |
| `AddrMan.CAddrMan.SetServices` | src/addrman.cpp:523-539 | the services of a known address change, everything else stays |
| `AddrMan.CAddrMan.GetAddr` | src/addrman.cpp:482-501 | the partial shuffle and the collected addresses are those of the specification, which GetAddrCorrect shows distinct and complete |
| `AddrMan.CAddrMan.ResolveCollisions` | src/addrman.cpp:541-598 | the loop over the pending set, reading the clock anew at every test, reaches the state the recursive resolution of all pending collisions prescribes |
| `AddrMan.CAddrMan.SelectTriedCollision` | src/addrman.cpp:600-625 | returns the occupant the specification selects, or the empty entry, dropping pending ids that no longer exist |
| `Miner.BlockAssembler.AddPackageTxs` | src/miner.cpp:298-425 | terminates for every pool; the block stays duplicate-free, closed under ancestors, parents first, within weight and sigop limits; what is done is one after the other the right thing about the best open candidate: it is refused exactly when its package does not fit or is not final, and otherwise its sorted package is added; this goes on until nothing is open, the best candidate pays too little, or, and then at once, more than 1000 candidates in a row did not fit a block within 4000 of the limit |
| `Miner.BlockAssembler.SelectPackages` | src/miner.cpp:319-424 | every round of the selection loop keeps the block sound, the modified table right, everything left out accounted for and the failure count that of the refusals since the block last grew; a lexicographic measure decreases |
| `MinerSelection.TracksAfterAdd` | src/miner.cpp:235-260 | after a package is added every recorded entry holds the cached totals less exactly the ancestors added since it was last refused, and unrecorded entries that did not fail have no ancestor in the block |
| `MinerSelection.TracksAfterFailure` | src/miner.cpp:371-388 | giving up on an entry keeps the table right |
| `MinerSelection.StandsBounds` | src/miner.cpp:235-260 | the totals an entry is judged by are never below the true ones of its package nor above the cached ones |
| `MinerProofs.RecordBounds` | src/miner.cpp:235-260 | recorded totals are exact when every ancestor in the block has been taken off, and otherwise between the true and the cached ones |
| `MinerSelection.RefusedNow` | src/miner.cpp:371-405 | a refusal rejects its own candidate until an ancestor joins the block, and changes nothing for the others |
| `MinerSelection.AccountedAfterAdd` | src/miner.cpp:271-275 | what was rejected stays rejected unless an ancestor joins the block, and then it is recorded again |
| `MinerSelection.BestIsHighest` | src/miner.cpp:329-351 | the candidate chosen ranks no lower than any transaction that is neither in the block nor rejected |
| `MinerProofs.FeesExact` | src/miner.cpp:244-256 | recorded fees are the modified fees of what remains exactly when the fee adjustments of all but the first ancestor taken off cancel |
| `MinerProofs.FeesCanBeOff` | src/miner.h:115-120 | a child of two parents with raised fees is recorded with a wrong fee once both parents are in the block |
| `MinerProofs.PackageCloses` | src/miner.cpp:390-396 | the unconfirmed ancestors with the transaction itself, added to a closed block, give a closed block |
| `Miner.UpdatePackagesForAdded` | src/miner.cpp:235-260 | exactly the descendants of what was added get their recorded size, sigops and fees reduced, each by its own ancestors among the added |
| `Miner.BlockAssembler.AddPackage` | src/miner.cpp:410-423 | adding a fitting package appends it sorted and keeps limits, order, exact counters, the modified table right and everything left out accounted for |
| `Miner.BlockAssembler.TestPackage` | src/miner.cpp:191-200 | accepts exactly when neither limit would be reached |
| `Miner.BlockAssembler.TestPackageTransactions` | src/miner.cpp:205-214 | accepts exactly when every transaction of the package is final |
| `Miner.BlockAssembler.AddToBlock` | src/miner.cpp:216-233 | the transaction joins the block list and set, and weight, sigops, count and fees each grow by its own share |
| `Miner.SortForBlock` | src/miner.cpp:277-286 | the sorted list holds exactly the package, in order of ancestor count |
| `Miner.AppendOrdered` | src/miner.h:82-89 | an order by ancestor count places every parent before its child, appended to any ordered block |
| `Miner.PackageFits` | src/miner.cpp:191-200 | the true weight of a package is at most four times the size it is judged by, its sigops at most those it is judged by, so what fits by the record fits |
| `Miner.BlockAssembler.Choose` | src/miner.cpp:329-351 | of the next listed transaction and the best modified one the higher-ranking is taken: none of all candidates ranks before it |
| `Miner.BlockAssembler.Evaluate` | src/miner.cpp:371-423 | a candidate is refused exactly when its package does not fit or is not final, and then nothing but its own record changes; any other is added with its sorted package |
| `Coins.PerformAll` | src/coins.cpp:42-219 | any run of reads, adds, spends, uncaches, flushes and best-block reads and writes on a stack of any depth shows and answers what one plain map with a best block would, provided coins are not overwritten unannounced and a hash is set before a flush into the database |
| `Coins.CoinsView.FetchCoin` | src/coins.cpp:42-57 | the coin the parent shows is cached unflagged, lower caches fill on the way, no view changes |
| `Coins.CoinsView.GetCoin` | src/coins.cpp:59-66 | returns the coin the view shows, at every layer down to the database |
| `Coins.CoinsView.HaveCoin` | src/coins.cpp:127-130 | true exactly when the view has the coin |
| `Coins.CoinsView.AccessCoin` | src/coins.cpp:118-125 | the coin shown, or the empty one |
| `Coins.CoinsView.AddCoin` | src/coins.cpp:68-87 | the view gains the coin, unless it is unspendable, and flags follow the stated rule; without overwrite a cached unspent coin is an error, which leaves the memory accounting short by it, and the stack stays sound exactly when overwriting is allowed or the view had no such coin |
| `Coins.CoinsView.AddCoins` | src/coins.cpp:89-98 | the view gains all spendable outputs; with the existence check nothing is asked of the caller |
| `Coins.CoinsView.SpendCoin` | src/coins.cpp:100-114 | the view loses the coin and nothing else; fresh entries vanish, others become spent and dirty |
| `Coins.CoinsView.BatchWrite` | src/coins.cpp:147-203 | the view becomes what the child showed, each entry is merged by the flag rules, the misapplied-flag error cannot arise, and the best block becomes the one handed over |
| `Coins.CoinsView.Flush` | src/coins.cpp:205-210 | everything moves one layer down, the view above is unchanged and the cache empty; a hash that was never set is handed down too, so the best block stays the same exactly when it was set or the layer below says the same as the one under it |
| `Coins.CoinsView.GetBestBlock` | src/coins.cpp:137-141 | answers the first hash that is set on the way down, remembers it, and changes neither view nor best block of this layer and the one below |
| `Coins.CoinsView.SetBestBlock` | src/coins.cpp:143-145 | only the best block of this layer changes |
| `CoinsCache.CoherentSet` | src/coins.h:118-126 | writing an entry keeps the flags of the whole cache truthful exactly if its own flags are |
| `Coins.CoinsView.Uncache` | src/coins.cpp:212-219 | only an unmodified entry is dropped, so no view changes |
| `Coins.CoinsView.HaveInputs` | src/coins.cpp:237-247 | true exactly when every input is in the view |
| `Coins.CoinsView.ViewUnspent` | src/coins.h:118-126 | a valid stack shows unspent coins only |
| `CoinsCache.VisibleSet` | src/coins.h:118-126 | writing an entry changes the view at that outpoint only |
| `CoinsCache.VisibleErase` | src/coins.h:118-126 | dropping an entry lets the parent's coin show through |
| `CoinsCache.UsageWrite` | src/coins.cpp:38-40 | the sum of dynamic usages changes by exactly the difference of the two coins |
| `CheckQueueRuns.RunKeepsInv` | src/checkqueue.h:66-157 | in every interleaving of one master and any number of workers the invariant holds at every critical-section boundary |
| `CheckQueueRuns.TodoExact` | src/checkqueue.h:55-60 | the count of unfinished checks is what is queued plus what threads hold, at every boundary |
| `CheckQueueRuns.WaitVerdict` | src/checkqueue.h:88-96 | Wait returns true exactly when every check of the round is true, each then evaluated exactly once; the next round starts clean |
| `CheckQueueRuns.EveryRoundJudged` | src/checkqueue.h:139-142 | every Wait of every run returned the right verdict |
| `CheckQueueRuns.NoDeadlock` | src/checkqueue.h:66-123 | while the master is in Wait it can step, or some worker with a batch can |
| `CheckQueueRuns.LastFinishWakes` | src/checkqueue.h:77-82 | when nothing is left to do the master is not waiting |
| `CheckQueueRuns.StepShrinks` | src/checkqueue.h:66-123 | every working step decreases a well-founded measure unless it is the master's return |
| `CheckQueueRuns.WaitReturns` | src/checkqueue.h:139-142 | under every schedule of working steps, fair or not, the master's Wait returns |
| `CheckQueueRuns.FairWaitReturns` | src/checkqueue.h:66-142 | in every run with unasked wakeups and new threads at any time the master's Wait returns, as long as no thread with something to do is passed over for ever |
| `CheckQueue.BatchSize` | src/checkqueue.h:101-106 | the fair share of the threads that are or may come, no more than the limit, at least one and never more than are queued |
| `CheckQueueProofs.TakeOrWaitKeeps` | src/checkqueue.h:88-116 | taking a batch, returning or blocking keeps the invariant |
| `CheckQueueProofs.SettleKeeps` | src/checkqueue.h:76-86 | accounting for a finished batch, with its notification, keeps the invariant |
| `CheckQueueProofs.EvaluateKeeps` | src/checkqueue.h:117-121 | evaluating one check, only while no failure is known, keeps the invariant |
| `CheckQueueProofs.AddedKeeps` | src/checkqueue.h:145-157 | adding checks, with its notifications, keeps the invariant |
| `CheckQueueWorkers.AddWakes` | src/checkqueue.h:145-157 | adding two or more checks leaves no worker waiting; adding one wakes exactly one waiting worker, if any waits |
| `CheckQueueWorkers.RunAlert` | src/checkqueue.h:66-157 | at every boundary of every run: while checks are queued and a worker waits, another worker has been woken or has a batch |
| `CheckQueueWorkers.WorkersFinish` | src/checkqueue.h:66-123 | with a worker, nothing added and the master outside, in every run that is fair to the workers all checks get done without the master |
| `CheckQueueWorkers.HeadTakes` | src/checkqueue.h:101-116 | a thread that finds checks takes its batch from the back of the queue, last one first, and starts with what is known of the round |
| `CheckQueueWorkers.EvaluateDoes` | src/checkqueue.h:117-121 | a check is evaluated only while no failure is known, once, and its outcome is what the batch then knows |
| `PartialMerkle.Complete` | src/merkleblock.cpp:39-113 | for distinct ids and any mask within the size limit the decoder accepts what the encoder wrote, padded or not, and returns the root and exactly the masked ids with their indexes |
| `PartialMerkle.AcceptedIff` | src/merkleblock.cpp:39-162 | for any ids, repeated or not, any mask and any pair hash the decoder reads the root and the masked ids from what the encoder wrote, and accepts it exactly when no two sibling nodes it has to enter are equal |
| `PartialMerkle.FullyMatched` | src/merkleblock.cpp:102-106 | with every id matched the tree is accepted exactly when nowhere two siblings have the same digest |
| `PartialMerkle.RepeatedPairRefused` | src/merkleblock.cpp:102-106 | a repeated pair of ids, one of them matched, is never accepted |
| `PartialMerkle.NothingIgnored` | src/merkleblock.cpp:155-160 | an accepted tree is refused with any further digests, or with another byte of bits |
| `PartialMerkle.EarlyTests` | src/merkleblock.cpp:133-145 | the tests before reading refuse only more than 16666 transactions, and otherwise what would fail anyway |
| `PartialMerkle.Sound` | src/merkleblock.cpp:131-162 | whatever is accepted with the root of a block yields only transactions of that block at their own indexes, even if another number of transactions is claimed, as long as the tree has the same height; where fewer are claimed the block's ids must be distinct |
| `PartialMerkle.SizeBounds` | src/merkleblock.h:39-40 | at most one digest per transaction, and at most one more than matched transactions times tree height |
| `PartialMerkle.BitsBound` | src/merkleblock.h:47-47 | the documented bound of twice the digests less one bits holds exactly when no odd-width row below the root ends in a node covering a match |
| `PartialMerkle.BitsBoundFails` | src/merkleblock.h:47-47 | three transactions with the last matched use the four bits 1, 0, 1, 1 for two digests |
| `PartialMerkle.BitsExact` | src/merkleblock.cpp:59-75 | the exact number of bits: two per digest less one, plus the single-child nodes entered |
| `MerkleTree.RowDistinct` | src/merkleblock.cpp:102-106 | over distinct ids no two nodes of a row have the same digest |
| `MerkleTree.RootOfThree` | src/merkleblock.cpp:39-53 | a node without right sibling is paired with itself |
| `MerkleTree.WidthHalves` | src/merkleblock.h:66-68 | each row is half of the one below, rounded up |
| `MerkleTree.NodeExists` | src/merkleblock.h:66-68 | a node is in its row exactly when its first leaf exists |
| `MerkleTree.Height` | src/merkleblock.cpp:120-123 | the first height with at most one node |
| `PartialMerkleTree.CPartialMerkleTree.Build` | src/merkleblock.cpp:115-127 | the built bits and digests are those of the specification |
| `PartialMerkleTree.CPartialMerkleTree.TraverseAndBuild` | src/merkleblock.cpp:59-75 | appends exactly the bits and digests of the subtree |
| `PartialMerkleTree.CPartialMerkleTree.TraverseAndExtract` | src/merkleblock.cpp:77-113 | digest, positions, matches and the failure flag are those of the specified reading, which goes on after a failure |
| `PartialMerkleTree.CPartialMerkleTree.ExtractMatches` | src/merkleblock.cpp:131-162 | the digest read when every test passes, zero otherwise; ids replace, indexes extend the caller's lists |
| `PartialMerkleTree.RoundTrip` | src/merkleblock.h:88-105 | build, pack, unpack, extract gives the root and exactly the masked transactions for any ids, and zero exactly if two equal siblings have to be entered; for distinct ids and an injective hash that never happens |
| `PartialMerkleTree.CheckProof` | src/merkleblock.cpp:131-162 | a received tree that extracts to a block's nonzero root, with a claimed count whose tree has the block's height, shows only that block's transactions |
| `BitPacking.Pack` | src/merkleblock.h:99-104 | each byte holds its eight bits, least significant first, the rest zero |
| `BitPacking.Unpack` | src/merkleblock.h:92-98 | bit p is bit p mod 8 of byte p / 8 |
| `BitPacking.UnpackPacked` | src/merkleblock.h:88-105 | unpacking the packed bits gives them back, filled up with zeros to a whole byte |
| `Arith256.BaseUint.AddAssign` | src/arith_uint256.h:132-142 | addition modulo the width, also when an operand aliases the target |
| `Arith256.BaseUint.Complement` | src/arith_uint256.h:66-72 | the largest number less the value |
| `Arith256.BaseUint.Negate` | src/arith_uint256.h:74-81 | negation modulo the width |
| `Arith256.BaseUint.SubAssign` | src/arith_uint256.h:144-148 | subtraction modulo the width |
| `Arith256.BaseUint.Increment` | src/arith_uint256.h:170-177 | plus one modulo the width |
| `Arith256.BaseUint.Decrement` | src/arith_uint256.h:187-194 | minus one modulo the width |
| `Arith256.BaseUint.MulAssign32` | src/arith_uint256.cpp:55-64 | multiplication by a limb modulo the width |
| `Arith256.BaseUint.MulAssign` | src/arith_uint256.cpp:67-80 | multiplication modulo the width, 64-bit intermediates not overflowing |
| `Arith256.BaseUint.ShiftLeft` | src/arith_uint256.cpp:21-35 | multiplication by a power of two modulo the width, for any shift count |
| `Arith256.BaseUint.ShiftRight` | src/arith_uint256.cpp:38-52 | division by a power of two, for any shift count |
| `Arith256.BaseUint.DivAssign` | src/arith_uint256.cpp:83-106 | the exact floor quotient; zero and an error for division by zero |
| `Arith256.BaseUint.LongDivide` | src/arith_uint256.cpp:96-103 | shift and subtract yields the quotient from an aligned divisor |
| `Arith256.BaseUint.CompareTo` | src/arith_uint256.cpp:109-118 | the sign of the difference |
| `Arith256.BaseUint.EqualTo` | src/arith_uint256.cpp:121-132 | equality with a 64-bit number |
| `Arith256.BaseUint.Bits` | src/arith_uint256.cpp:171-183 | the position of the highest set bit plus one, zero for zero |
| `Arith256.BaseUint.GetLow64` | src/arith_uint256.h:242-246 | the value modulo 2^64 |
| `Arith256.BaseUint.Set64` | src/arith_uint256.h:85-92 | the value becomes the 64-bit number |
| `BlockProof.SetCompact` | src/arith_uint256.cpp:203-221 | value cut to 256 bits, sign flag and overflow flag of a compact number |
| `BlockProof.GetCompact` | src/arith_uint256.cpp:223-244 | the compact encoding; neither of its assertions can fail |
| `CompactTarget.OverflowExact` | src/arith_uint256.cpp:217-219 | overflow is reported exactly when mantissa times 256^(exponent - 3) reaches 2^256 |
| `CompactTarget.FullMeans` | src/arith_uint256.cpp:203-215 | an encoding stands for its mantissa times 256^(exponent - 3), rounded down |
| `CompactTarget.DecodeEncode` | src/arith_uint256.cpp:203-244 | decoding an encoding rounds down, without overflow, with just the sign put in |
| `CompactTarget.EncodeLargest` | src/arith_uint256.cpp:223-244 | no encoding stands for a number between the rounded value and the original |
| `CompactTarget.EncodeMonotone` | src/arith_uint256.cpp:223-244 | larger numbers have encodings that are not smaller |
| `CompactTarget.EncodeIdempotent` | src/arith_uint256.cpp:223-244 | encoding the rounded number again changes nothing |
| `BlockProof.EncodeFits` | src/arith_uint256.cpp:239-240 | the encoding of a 256-bit number fits 32 bits and its size one byte |
| `BlockProof.GetBlockProof` | src/chain.cpp:122-135 | floor(2^256 / (target + 1)) for every accepted target without overflow or division by zero, otherwise zero |
| `Chain.GetSkipHeight` | src/chain.cpp:70-82 | an even height loses its lowest set bit, an odd one the two lowest above the last; always strictly lower |
| `Chain.LowestOneIs` | src/chain.cpp:71 | the bit that is cleared is the largest power of two dividing the number |
| `Chain.BlockIndex.GetAncestor` | src/chain.cpp:84-109 | the block height steps of the parent link back, null out of range, whichever skips are taken |
| `Chain.BlockIndex.BuildSkip` | src/chain.cpp:116-120 | a block with a parent gets the ancestor at its skip height as skip pointer, and the tree with it stays well grown |
| `Chain.GrowTree` | src/chain.cpp:116-120 | in every tree grown block by block each block with a parent has its ancestor at the skip height as skip pointer |
| `Chain.CChain.SetTip` | src/chain.cpp:11-21 | from any previous chain, every position holds the new tip's ancestor at that height |
| `Chain.CChain.FindFork` | src/chain.cpp:51-60 | the highest block of the chain that is an ancestor, or null when there is none |
| `Chain.CChain.GetLocator` | src/chain.cpp:23-49 | ancestors from the block to genesis at exactly the heights of single and then doubling steps, strictly decreasing, at most 12 plus log2 of the height |
| `Chain.LastCommonAncestor` | src/chain.cpp:156-171 | the highest common ancestor, or null when there is none; the closing assertion cannot fail |
| `Chain.BlockIndex.AncestorOfAncestor` | src/chain.cpp:84-109 | ancestors compose |
| `Bech32Checksum.StepLinear` | src/bech32.cpp:64-92 | one checksum round is linear over exclusive or |
| `Bech32Checksum.StepInjective` | src/bech32.cpp:64-92 | a nonzero 30-bit state stays nonzero over a zero symbol |
| `Bech32Checksum.RemainderLinear` | src/bech32.cpp:37-94 | the whole checksum is linear |
| `Bech32Checksum.BurstDetected` | src/bech32.cpp:37-94 | sequences of any length with equal checksum that differ within six consecutive places are equal |
| `Bech32Checksum.ChecksumVerifies` | src/bech32.cpp:127-138 | six groups of the remainder xor a constant bring the checksum to that constant |
| `Bech32Checksum.StepIsReduction` | src/bech32.cpp:41-91 | coefficient by coefficient over GF(32), with products modulo a^5 + a^3 + 1, one round is times x plus the symbol modulo x^6 + {29}x^5 + {22}x^4 + {20}x^3 + {21}x^2 + {29}x + {18} |
| `Bech32Field.NoPeriod` | src/bech32.cpp:46-49 | in the field of 1024 elements no power of the generator below the 1023rd fixes anything but zero |
| `Bech32Roots.Roots` | src/bech32.cpp:46-49 | three consecutive powers of the generator are roots of the Bech32 polynomial |
| `Bech32Distance.Vandermonde` | src/bech32.cpp:46-49 | three values whose sums weighted by zeroth, first and second powers of distinct points vanish are zero |
| `Bech32Distance.ThreeChangesDetected` | src/bech32.cpp:46-49 | sequences of any length with equal checksum that differ in at most three places, all within 1023, are equal |
| `Bech32.ChecksumCorrect` | src/bech32.cpp:118-138 | a created checksum verifies under its own encoding |
| `Bech32.BurstsDetected` | src/bech32.cpp:118-124 | no change confined to six consecutive data symbols verifies under the same encoding |
| `Bech32.ThreeChangesDetected` | src/bech32.cpp:46-49 | no change of up to three data symbols within 1023 verifies under the same encoding |
| `Bech32.PrefixBurstsDetected` | src/bech32.cpp:103-124 | no change within six consecutive characters of the human-readable part that keeps their high three bits verifies |
| `Bech32.PrefixChangeDetected` | src/bech32.cpp:103-124 | no change of one character of a human-readable part of up to four verifies, however long the data |
| `Bech32.CharacterAndValueDetected` | src/bech32.cpp:103-124 | no change of one character of the human-readable part together with one data symbol verifies, in up to 1023 symbols |
| `Bech32.KnownBech32` | src/bech32.cpp:30-32 | the shortest valid string of BIP 173 verifies as Bech32 |
| `Bech32.KnownBech32m` | src/bech32.cpp:30-32 | the shortest valid string of BIP 350 verifies as Bech32m |
| `Bech32.CharsetForth` | src/bech32.cpp:16-28 | each symbol's character decodes to it, is printable, not upper case and not the separator |
| `Bech32.CharsetBack` | src/bech32.cpp:16-28 | a character that decodes is its symbol's character up to case |
| `Bech32Text.DecodeEncode` | src/bech32.cpp:146-206 | decoding an encoding of legal input up to 90 characters gives back encoding, prefix and values |
| `Bech32Text.EncodeDecode` | src/bech32.cpp:146-206 | re-encoding an accepted string gives its lower-case form |
| `Bech32Text.AcceptedExactly` | src/bech32.cpp:169-206 | a string is accepted as an encoding, prefix and values exactly when it is not of mixed case, is their encoding up to case, and these are legal: a nonempty printable prefix without capitals and 90 characters in all |
| `Bech32Text.ChangesDetected` | src/bech32.cpp:169-206 | two accepted strings with the same encoding and prefix that differ, up to case, in at most three characters of the data part are the same up to case |
| `Bech32Text.ComputePolyMod` | src/bech32.cpp:37-94 | the loop computes the specified remainder |
| `Bech32Text.ExpandHrp` | src/bech32.cpp:103-115 | the high three bits of all characters, a zero, the low five bits: each character is 32 times the one plus the other |
| `Bech32Text.CreateChecksum` | src/bech32.cpp:127-138 | the six specified symbols |
| `Bech32Text.VerifyChecksum` | src/bech32.cpp:118-124 | the encoding whose constant the checksum matches |
| `Bech32Text.Encode` | src/bech32.cpp:146-160 | the prefix, the separator and the characters of values and checksum, which DecodeEncode shows to decode |
| `Bech32Text.Decode` | src/bech32.cpp:169-206 | exactly the decoding that AcceptedExactly describes, failures with empty outputs |
| `Receive.ReceiveAll` | src/net.cpp:568-603 | however a stream is cut into pieces, the messages delivered are those of the simple header-then-payload reading of the whole |
| `Receive.Peer.ReceiveMsgBytes` | src/net.cpp:568-603 | delivers exactly the messages in the pending bytes followed by the new ones; false exactly at an oversized header |
| `Receive.V1TransportDeserializer.Read` | src/net.h:696-700 | always takes at least one byte, or fails and starts over |
| `Receive.V1TransportDeserializer.ReadHeader` | src/net.cpp:631-661 | bytes go to the header in order; -1 exactly for a size beyond either limit |
| `Receive.V1TransportDeserializer.ReadData` | src/net.cpp:663-678 | bytes go to the payload in order; the buffer is never more than 256 KiB ahead nor beyond the announced size |
| `Receive.V1TransportDeserializer.GetMessage` | src/net.cpp:688-719 | hands out command, exact payload, sizes and the verdicts on network, header and checksum, and starts over |
| `Receive.JudgeIs` | src/net.cpp:688-719 | byte by byte: the network is right exactly when the first four bytes are, the checksum exactly when the last four are the first of the hash, the header exactly when besides the command is printable up to zeros and the size within the limit |
| `Framing.IsValid` | src/protocol.cpp:104-132 | accepts exactly headers with the network's start bytes, a command of printable characters followed by zeros only, and a size within the limit |
| `Receive.V1TransportDeserializer.Reset` | src/net.h:668-677 | nothing is pending |
| `Framing.ParseContinues` | src/net.cpp:568-603 | reading a stream in two parts is reading it whole |
| `Framing.RestIncomplete` | src/net.cpp:568-603 | what is left over holds no whole message |
| `Send.RunActions` | src/net.cpp:734-784 | in every run of pushes and partial sends the socket gets a prefix of the exact concatenation and the queue holds the rest |
| `Send.SendQueue.SocketSendData` | src/net.cpp:734-784 | the bytes taken are exactly those the send calls accept, in order; the queue size stays the sum of its buffers and sending pauses exactly above the limit |
| `Send.SendQueue.PushMessage` | src/net.cpp:2744-2775 | header and payload join the queue; an optimistic send happens only on an empty queue |
| `Send.WireParses` | src/net.cpp:721-732 | the receiver's reading of what was pushed gives the same headers and payloads in order with nothing left over |
| `Send.Converse` | src/net.cpp:568-784 | both ends together: after any pushes and partial sends, cut anywhere, the receiver has the pushed messages in order with right network, command, sizes and checksum, and all of them once the queue is empty |
| `Send.PrefixArrives` | src/net.cpp:631-784 | of any prefix of what was pushed the receiver delivers the first messages, each with right network, sizes and checksum, and with a valid header exactly when its command is printable |
| `Send.HeaderSays` | src/net.cpp:721-732 | a prepared header announces the network, the command, the payload's size and its checksum |
| `Send.HeaderBytes` | src/net.cpp:721-732 | byte by byte: start bytes, command, zeros, size with the low byte first, first four bytes of the hash |
| `Send.PaddedBack` | src/protocol.cpp:85-102 | the command read from a padded field is the one written |
| `RollingBloom.CRollingBloomFilter.Contains` | src/bloom.cpp:283-295 | whether every place is tagged: true for every key of the current generation and the two before it, and only if keys of these generations left tags at all the places |
| `RollingBloom.CRollingBloomFilter.Insert` | src/bloom.cpp:246-275 | keeps all keys of the current and two previous generations and no older tag |
| `RollingBloom.CRollingBloomFilter.constructor` | src/bloom.cpp:206-231 | a fresh filter, with two generations covering the requested number of elements |
| `RollingBloom.CRollingBloomFilter.Reset` | src/bloom.cpp:303-309 | nothing inserted |
| `RollingBloom.CRollingBloomFilter.Wipe` | src/bloom.cpp:254-262 | the loop computes the wiped table |
| `RollingBloom.WipedTag` | src/bloom.cpp:254-262 | the masks clear exactly the places tagged with the reused number |
| `RollingBloom.TaggedTag` | src/bloom.cpp:266-274 | writing changes the tag at its place and nowhere else |
| `RollingBloom.AllKeptWiped` | src/bloom.cpp:246-263 | wiping the number of the next generation loses no key of the last two |
| `RollingBloom.NoneStaleWiped` | src/bloom.cpp:246-263 | after wiping, every tag stems from the generations that remain |
| `RollingBloom.FastMod` | src/bloom.cpp:242-244 | a number below n |
| `RollingBloom.PlaceIs` | src/bloom.cpp:266-270 | the bit is the hash modulo 64, the pair of words the fraction of the table that the hash is of 2^32 |
| `Cuckoo.Cache.Insert` | src/cuckoocache.h:392-440 | of the live elements after the epoch check and the new one, all stay live but at most one, and at most one element leaves the table; nothing is lost if the element is there already or one of its locations is collectable; slots, flags and epochs are exactly those of the specified displacement chain on the table as the epoch check leaves it, and the live count of the epoch stays bounded |
| `Cuckoo.Cache.Contains` | src/cuckoocache.h:469-479 | looks at the element's own eight locations and finds every element in the table but the blank one, which may be missed; a found erase sets the flag of its slot and takes exactly that element out of the live ones |
| `Cuckoo.Cache.Erase` | src/cuckoocache.h:265-268 | the slot becomes collectable, and exactly its element leaves the live ones |
| `Cuckoo.Cache.KeepIfPresent` | src/cuckoocache.h:398-405 | an element at one of its locations is kept and made current; otherwise nothing changes |
| `Cuckoo.Cache.EpochCheck` | src/cuckoocache.h:288-320 | ages exactly when the counter ran out and the epoch is full; afterwards one more live element fits epoch_size + max(1, epoch_size/16) |
| `Cuckoo.Cache.Age` | src/cuckoocache.h:305-310 | the old epoch becomes collectable, the current one old |
| `Cuckoo.Cache.CountEpoch` | src/cuckoocache.h:296-299 | the exact number of live slots of the current epoch |
| `Cuckoo.Cache.constructor` | src/cuckoocache.h:339-352 | an empty cache with the computed epoch size |
| `Cuckoo.Cache.Displace` | src/cuckoocache.h:406-439 | the loop computes the specified displacement chain: first collectable location, else exchange with the location after the last one; at most one element is dropped, and only if all locations of the inserted one were live |
| `CuckooTable.FlagChanges` | src/cuckoocache.h:90-114 | setting or clearing a packed flag changes that flag only |
| `CuckooTable.PutLive` | src/cuckoocache.h:408-415 | placing an element in a collectable slot adds it to the live ones and keeps every slot well placed |
| `CuckooTable.SwapLive` | src/cuckoocache.h:430-438 | exchanging with a live slot conserves the live elements together with the one in hand |
| `CuckooTable.PlacedIsAt` | src/cuckoocache.h:469-479 | an element is in the table exactly when one of its own locations holds it |
| `CuckooTable.LocsAre` | src/cuckoocache.h:242-252 | the k-th location is the fraction of the table that the k-th hash is of 2^32 |
| `CuckooTable.SlotReached` | src/cuckoocache.h:242-252 | every slot of a table of up to 2^32 is some hash's location |
| `CuckooTable.NoTwiceReplaced` | src/cuckoocache.h:408-438 | no element comes to be in two slots |
| `Base58Sizes.EncoderRoom` | src/base58.cpp:97-98 | 58^(138k/100 + 1) is at least 256^k for every k |
| `Base58Sizes.DecoderRoom` | src/base58.cpp:52-54 | 256^(733k/1000 + 1) is at least 58^k for every k |
| `Base58.MultiplyAdd` | src/base58.cpp:99-113 | the in-place digit loop multiplies and adds exactly, with the carry used up and the length exact |
| `Base58Text.EncodeBase58` | src/base58.cpp:87-125 | the specified text; the carry assertion cannot fail |
| `Base58Text.DecodeBase58` | src/base58.cpp:38-85 | succeeds exactly on text that is all alphabet between spaces and short enough, with the bytes it stands for; the carry assertion cannot fail |
| `Base58Text.DecodeEncode` | src/base58.cpp:38-125 | decoding an encoding gives the bytes back whenever they may be returned |
| `Base58Text.EncodeDecode` | src/base58.cpp:38-125 | re-encoding decoded text gives it back without the spaces around it |
| `Base58Text.ConvertBack` | src/base58.cpp:38-125 | converting between the bases and back, leading zeros kept, is the identity |
| `Base58Text.ConvertMeans` | src/base58.cpp:38-125 | converting keeps the number and how many zeros lead it |
| `Base58Text.EncodedMeans` | src/base58.cpp:87-125 | the text is the same number in base 58, with one first letter of the alphabet for each leading zero byte |
| `Base58Text.AcceptedExactly` | src/base58.cpp:38-85 | a text is accepted as some bytes exactly when, spaces around it aside, it is their encoding and they are not more than allowed |
| `Base58Text.TrimCuts` | src/base58.cpp:40-43 | only spaces are cut off, and none is left at either end |
| `Base58Text.AlphabetNames` | src/base58.cpp:17-36 | the character table is the inverse of the alphabet |
| `Base58Text.EncodeBase58Check` | src/base58.cpp:140-147 | encodes the data followed by four bytes of its hash |
| `Base58Text.DecodeBase58Check` | src/base58.cpp:149-164 | accepts exactly data that ends with its own checksum, and strips it |
| `Base58Text.CheckedRoundTrip` | src/base58.cpp:140-164 | checked encoding and decoding is the identity |

## Left out

- AddrMan.CAddrMan.GetAddr: takes `IsTerrible` as an arbitrary predicate of an entry's statistics.
- `CAddrMan::Select_` and `GetChance` (loops that end with probability one, floating point), `Unserialize`, and `Clear` in the middle of a run, which keeps the pending collisions.
- Wrap-around of the address manager's 32-bit id counter and of attempt counts.
- Miner.BlockAssembler.AddPackageTxs: the ranking is any strict weak order on transactions with their recorded totals, the fee threshold any condition on them; the number of updated descendants is not described.
- Block template creation around `addPackageTxs`: coinbase, witness commitment, header and final validity test.
- Coins.CoinsView.BatchWrite: the database at the bottom is a map with a best block, so writing in several batches and recovery after a crash are not modelled.
- Coins.PerformAll: the best block is not described after a flush of a hash that was never set (`Coins.CoinsView.Flush` is), nor is setting it to null; outpoints are numbers; changing the backend in mid-run, `GetValueIn` and `AccessByTxid` are not modelled, and a coin's dynamic usage is a function of its script length.
- CheckQueueRuns.FairWaitReturns: assumes that a thread with something to do is scheduled again; fairness of the mutex itself is not modelled.
- Memory ordering inside a critical section of the check queue, and thread interruption.
- PartialMerkle.Complete: the pair hash is an injective function, and widths are unbounded integers rather than 32-bit ones.
- PartialMerkleTree.CheckProof: is about a nonzero root, since zero is the code's failure value, and about a claimed count whose tree has the block's height, since a transaction id and the digest of two are not told apart.
- Hexadecimal text, `getdouble` and the bitwise operators of `base_uint`.
- `CChain::FindEarliestAtLeast`, and the 32-bit step counter of the locator.
- Bech32Distance.ThreeChangesDetected: the detection of four errors within 89 characters, which the designers found by search, is not shown.
- Bech32Text.Encode: is stated for symbols below 32, as the code indexes its table with them unchecked.
- Characters are taken to be below 256, as the code works on bytes.
- Receive.Peer.ReceiveMsgBytes: leaves out locks, time stamps and per-command byte counters.
- Send.SendQueue.SocketSendData: the socket is an arbitrary sequence of accepted counts and errors; time stamps and disconnection are not modelled.
- RollingBloom.CRollingBloomFilter.constructor: the number of hash functions and of filter bits, computed in floating point, are parameters; false-positive rates are not considered.
- RollingBloom.WipedTag: 64-bit words are sets of bit positions, on which exclusive or, conjunction and disjunction are set operations.
- Cuckoo.Cache.Contains: is about sequential runs; relaxed memory order of the collection flags is not modelled. The depth limit, a floating-point logarithm, is a parameter.
- Base58Text.DecodeBase58: works on whole strings; the overload that refuses embedded zero characters before calling it is not modelled.
- Startup, HTTP and RPC servers, files, logging, the database wrapper, keys and addresses, sockets, name lookup, wallets, scripts and consensus validation.
- `CBloomFilter`, `limitedmap`, ban lists, amount and script compression, compact blocks and block filters: simpler than what is modelled.
