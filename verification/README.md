# Verified models of a Bitcoin Cash node's data structures

This project models the self-contained data structures and arithmetic at the core of the Bitcoin Cash
Unlimited node in Dafny 4.11, and proves what they promise for every input, every run and every
reachable state. `dafny verify dfyconfig.toml` checks it as a whole.

Code that the node writes as expressions is modelled by functions. Code that works by updating things
is modelled by classes and methods with the same loops. Such a method is proved equal to a function on
values, and the theorems are about those functions.

| component | files | main results |
|---|---|---|
| Parallel check queue | `CheckQueue` | counting, conservation and verdicts over every interleaving; Wait leaves the queue idle, can always return, and no schedule does more than the bounded work |
| Layered coin cache | `Coins`, `CoinsCache`, `Transactions`, `Sums` | a stack of write-back caches refines one flat map; flush, trim and usage are exact |
| Blocks of transactions | `Blocks`, `BlockUpdates` | both connecting orders agree; disconnecting undoes either and reports no problem |
| Address manager | `AddrMan`, `AddressManager`, `AddrManCheck`, `AddrManStore` | everything Check_ asks for over every run; Check_ is exact; which records load into a consistent manager, exactly; save and load lose nothing |
| Set reconciliation | `Iblt`, `IbltTable`, `Words` | peeling balance without assumptions; under stated purity exact differences, and success exactly if no entries block each other |
| Cuckoo cache | `CuckooCache`, `CuckooTable` | at most one element lost per insertion; the epoch bound in every reachable state |
| Rolling bloom filter | `RollingBloom` | the filter is exactly the plain filter of its last generations |
| 256-bit arithmetic | `Limbs`, `ArithUint256`, `BitOps` | limb arithmetic is integer arithmetic; long division; the compact format |
| CashAddr | `CashAddr`, `CashAddrErrors`, `CashAddrBch`, `CashAddrText`, `CashAddrTypos`, `CashAddrContent` | checksum linearity; up to four errors within 1025 symbols, prefix included, and bursts of eight are always detected; round trips both ways; where decoding is undefined, exactly |
| Block tree | `BlockTree`, `SkipHeights`, `MedianTime` | skip list and its number of steps, active chain, forks; median time past and fork windows |
| Base58 | `Base58`, `Digits`, `Numbers`, `Sequences` | round trips both ways; the buffer estimates suffice for all lengths |

Modelling choices that hold throughout:

- Hashes are arbitrary functions, random draws and clock readings are arguments, and sizes that the
  node derives with floating point are parameters.
- Integers are unbounded; 32-bit and 64-bit wrap-around is written out where it matters.
- Exceptions and failing returns are ordinary results.
- Everything but the check queue is single-threaded. The queue is a transition system whose steps are
  critical sections and single check executions.

Where the code and what is said about it differ, the model follows the code:

- `arith_uint256`: multiplying a number in place by itself gives 0, because the number is cleared
  before it is read as the other operand (`ArithUint256.Uint256.Multiply`).
- `cuckoocache.h`: the comment says that the first swap goes to the first location; the code takes the
  second (`CuckooCache.NextLocIs`).
- `chain.cpp`: the comment gives forkActivateNow exactly the fork block; a fork that is due already at
  the root has no such block (`MedianTime.NoActivationBlock`), and every other activated branch has one
  (`MedianTime.ActivationBlockIff`).
- `chain.cpp`: the comment reports at most 110 steps back among 2^18 blocks from simulations; 115 is
  proved (`SkipHeights.WalkExample`).
- `cashaddr.cpp`: fewer than eight data characters that pass the checksum give a payload that ends
  before it starts. Such strings exist (`CashAddrText.UndefinedExample`), exactly for prefixes that leave
  a small remainder (`CashAddrText.UndefinedIff`), and none of the node's prefixes does
  (`CashAddrText.NetworkIsDefined`). The guard that is missing, eight data characters, suffices
  (`CashAddrText.LongIsDefined`). `cashaddrenc.cpp` hands the case on (`CashAddrContent.UnspecifiedIff`).
- `cashaddrenc.cpp`: kinds of 16 and above encode but do not decode to themselves
  (`CashAddrContent.ContentRoundTrip`).
- `coins.cpp`: GetCoinFromDB on a cached outpoint re-flags and counts again (`Coins.RereadCountsTwice`,
  `Coins.RereadForgetsSpend`); the exact condition under which that is harmless is
  `Coins.GetCoinFromDBKeepsValidIff`.
- `coins.cpp`: AddCoin without overwrite relies on its caller for coins that only the base holds
  (`Coins.AddCoinOverBase`) and miscounts when it throws (`Coins.AddCoinThrows`); the exact condition is
  `Coins.AddCoinKeepsValidIff`.
- `addrman.h`: a record with one address twice loads into a manager that is not consistent
  (`AddrManStore.RepeatedAddress`), and so does one with a negative count; the exact condition is in
  `AddrManStore.Unserialize`.

## Model

| member | source | states |
|---|---|---|
| `CheckQueue.Queue.constructor` | src/checkqueue.h:155-158 | A new queue is the empty shared state |
| `CheckQueue.Queue.Add` | src/checkqueue.h:174-187 | Appends the checks in order and raises nTodo in 32-bit arithmetic |
| `CheckQueue.Queue.FinishBatch` | src/checkqueue.h:84-106 | The clean-up at the top of a critical section, Quit branch included, is the transition `CleanUp` |
| `CheckQueue.Queue.AtHead` | src/checkqueue.h:107-133 | One pass of the loop head returns, parks, or picks a batch size, exactly as `Head` says |
| `CheckQueue.Queue.PopBatch` | src/checkqueue.h:134-141 | The batch is the reversed tail of the queue, and the rest stays |
| `CheckQueue.Queue.RunBatch` | src/checkqueue.h:143-149 | A batch answers true exactly if nothing had failed before and all its checks pass; after a failure none runs |
| `CheckQueue.BatchFits` | src/checkqueue.h:128-133 | A batch is never empty and never longer than the queue |
| `CheckQueue.ReversedKeeps` | src/checkqueue.h:135-141 | Popping from the back moves every check of the batch and no other |
| `CheckQueue.CleanUpCounts` | src/checkqueue.h:85-101 | Finishing a batch and dropping the queue on Quit take the same amount off nTodo as off what is outstanding |
| `CheckQueue.AddCountsExactly` | src/checkqueue.h:176-187 | nTodo is exact after an Add if and only if the outstanding checks fit into 32 bits; a non-empty Add leaves the queue not idle |
| `CheckQueue.StepKeepsInv` | src/checkqueue.h:72-151 | Every critical section, check execution, Add and Quit of any thread keeps the counting, conservation and verdict invariants |
| `CheckQueue.RunKeepsInv` | src/checkqueue.h:72-187 | Those invariants hold in every state of every interleaving of one master and any number of workers |
| `CheckQueue.RunCountsExactly` | src/checkqueue.h:84-101 | In every reachable state, Quit included, nTodo is the queue length plus all batches in flight, so the guard always holds and no subtraction wraps |
| `CheckQueue.RunVerdicts` | src/checkqueue.h:112-121 | Without Quit, Wait answers true if and only if every check added since the last Wait passes, and then each of them ran exactly once; no check runs that was not added; where a check was skipped or Wait answers false, some check ran and failed |
| `CheckQueue.ReturningStep` | src/checkqueue.h:112-122 | Only a critical section of the master makes Wait return; it reports the round's verdict, leaves the queue idle and starts an empty round |
| `CheckQueue.WaitReturnsIdle` | src/checkqueue.h:190-194 | Whenever Wait returns in a run, no thread has a batch and IsIdle holds |
| `CheckQueue.ControllerFindsIdle` | src/checkqueue.h:210-230 | A controller made when nothing was added since the last Wait finds the queue idle, so its assertion cannot fail |
| `CheckQueue.RoundsSplitAdds` | src/checkqueue.h:163-187 | The rounds of a run split the checks it added: none is in two rounds, none is in no round |
| `CheckQueue.WorkGoesDown` | src/checkqueue.h:108-150 | Every section or execution of a busy thread, and of any thread while checks are queued, brings a work measure down |
| `CheckQueue.UsefulStep` | src/checkqueue.h:79-150 | In every reachable state some thread can bring the work down or the master can return |
| `CheckQueue.WaitCanReturn` | src/checkqueue.h:79-151 | From every reachable state Wait can still return, within the work that is left |
| `CheckQueue.UsefulStepsBounded` | src/checkqueue.h:79-151 | On no schedule, however unfair, are there more useful steps than the work at its start, as long as nothing is added |
| `CheckQueue.NothingUsefulLeft` | src/checkqueue.h:112-122 | Once no enabled step is useful, the next critical section of the master makes Wait return |
| `Coins.ViewIsLookup` | src/coins.cpp:76-124 | The flat map of a stack of caches is what looking through its layers finds |
| `Coins.FetchKeepsView` | src/coins.cpp:76-112 | Fetching through all layers keeps the stack's invariant, changes no coin of the view, and finds what the view holds |
| `Coins.FetchKeepsAllViews` | src/coins.cpp:76-112 | Fetching changes the view of no layer |
| `Coins.AddCoinRefines` | src/coins.cpp:126-154 | AddCoin keeps the invariant and sets exactly that outpoint of the flat map, or nothing for an unspendable script |
| `Coins.AddCoinKeepsValidIff` | src/coins.cpp:126-154 | Without overwrite, AddCoin keeps the invariant if and only if the view does not hold the coin (or throws at no cost); it throws exactly if the cache itself holds the coin unspent |
| `Coins.AddCoinOverBase` | src/coins.cpp:126-154 | Inputs on which it fails: over a base that holds the coin, AddCoin leaves a FRESH entry, and spending the added coin brings the base's coin back |
| `Coins.AddCoinThrows` | src/coins.cpp:126-154 | Inputs on which it throws and leaves the usage sum wrong |
| `Coins.SpendCoinRefines` | src/coins.cpp:156-176 | SpendCoin hands out the coin of the view, removes exactly it, and keeps the invariant |
| `Coins.EraseCleanKeepsView` | src/coins.cpp:444-455 | Dropping an entry without flags keeps the view and the invariant |
| `Coins.GetCoinFromDBKeepsValidIff` | src/coins.cpp:201-224 | GetCoinFromDB keeps the invariant if and only if re-flagging and re-counting the cached entry changes nothing |
| `Coins.GetCoinFromDBIsFetch` | src/coins.cpp:201-224 | On an outpoint absent from the cache it is a fetch that answers whether the view holds the coin |
| `Coins.RereadCountsTwice` | src/coins.cpp:201-224 | Inputs on which re-reading counts a cached coin's memory twice |
| `Coins.RereadForgetsSpend` | src/coins.cpp:201-224 | Inputs on which re-reading takes the DIRTY flag off a spent coin, so that the flush no longer spends it in the base |
| `Coins.MergeAgrees` | src/coins.cpp:263-324 | An entry merged into the parent shows the child's coin, keeps the flag rules against the grandparent, and is never one that the misapplied-FRESH error refuses |
| `Coins.MergeStep` | src/coins.cpp:263-324 | Merging entry by entry in any order is the merge as a whole |
| `Coins.FlushRefines` | src/coins.cpp:257-337 | Flush leaves the child's view unchanged, makes the parent's view equal to it, keeps the invariant of all layers including exact usage, and cannot reach the misapplied-FRESH error |
| `Coins.StepRefines` | src/coins.cpp:76-337 | Every operation on a stack of any depth, pushing and discarding layers included, is the same operation on plain maps |
| `Coins.RunKeepsValid` | src/coins.cpp:76-337 | Flags, usage and heights stay consistent over every run |
| `Coins.RunIsFlatRun` | src/coins.cpp:76-337 | Every run of a stack is, view by view, a run of plain maps under the same operations |
| `CoinsCache.CoinsViewDB.BatchWrite` | src/txdb.cpp:182-256 | The database takes exactly the dirty entries; what the child keeps and its usage afterwards are exact |
| `CoinsCache.CoinsViewCache.constructor` | src/coins.cpp:47-49 | A new cache over a base shows the base's view |
| `CoinsCache.CoinsViewCache.FetchCoin` | src/coins.cpp:76-112 | The recursive fetch in place is the value-level fetch |
| `CoinsCache.CoinsViewCache.AddCoin` | src/coins.cpp:126-154 | AddCoin in place, its throwing path included, is the value-level one and leaves the layers below alone |
| `CoinsCache.CoinsViewCache.SpendCoin` | src/coins.cpp:156-176 | SpendCoin in place is the value-level one |
| `CoinsCache.CoinsViewCache.AccessCoin` | src/coins.cpp:180-199 | Returns the coin of the view without changing any view |
| `CoinsCache.CoinsViewCache.GetCoinFromDB` | src/coins.cpp:201-224 | GetCoinFromDB in place is the value-level one, re-flagging included |
| `CoinsCache.CoinsViewCache.Uncache` | src/coins.cpp:444-455 | Erases the entry if and only if it has no flags |
| `CoinsCache.CoinsViewCache.BatchWrite` | src/coins.cpp:257-330 | Merging a child's map in place, entry by entry, is the merge with exact usage; it is refused exactly if some dirty entry is misapplied |
| `CoinsCache.CoinsViewCache.TakeEntry` | src/coins.cpp:263-324 | Merging one entry in place, refused exactly if it is misapplied, with exact usage on both sides |
| `CoinsCache.CoinsViewCache.FlushToCache` | src/coins.cpp:332-337 | Flush onto any cache below, well-formed or not: it succeeds exactly if no dirty entry is misapplied, and is then the value-level flush |
| `CoinsCache.CoinsViewCache.Flush` | src/coins.cpp:332-337 | On a well-formed stack Flush succeeds, keeps the view and gives it to the layer below |
| `CoinsCache.CoinsViewCache.Sweep` | src/coins.cpp:361-380 | One walk ends at the target or with nothing trimmable left, and erases something exactly if it counts something |
| `CoinsCache.CoinsViewCache.Trim` | src/coins.cpp:339-442 | Trim terminates, erases only clean entries, keeps the view and exact usage, and ends within the target or with no clean entry left |
| `CoinsCache.TrimStep` | src/coins.cpp:370-377 | Erasing one more clean entry keeps the view, the invariant and that only clean entries went |
| `CoinsCache.GetValueIn` | src/coins.cpp:469-480 | The sum of the values of the coins the view holds for the inputs, found without changing the view |
| `CoinsCache.SpendCoins` | src/coins.cpp:594-606 | Spends the inputs one by one, on any stack; on a well-formed one that takes all inputs out of the view and records each old coin in order |
| `CoinsCache.AddCoins` | src/coins.cpp:582-592 | Adds the outputs one by one up to one on which AddCoin throws; on a well-formed stack that may take the transaction none throws and exactly the spendable outputs enter the view |
| `CoinsCache.UpdateCoins` | src/coins.cpp:608-614 | The stack after spending and adding, whether or not it throws; on a well-formed stack that may take the transaction the view moves on by it and the undo data is what it took |
| `CoinsCache.AccessByTxid` | src/coins.cpp:523-540 | The first unspent output of a transaction, found without changing the view |
| `CoinsCache.ApplyTxInUndo` | src/validation/validation.cpp:2032-2063 | Puts one spent coin back and is clean exactly if the view did not hold it; a record without a height is completed from another output of its transaction, and fails exactly if there is none |
| `Transactions.SpentCoinsAreOldCoins` | src/coins.cpp:594-606 | Undo entry j is exactly the old coin of input j |
| `Transactions.SpendEachRefines` | src/coins.cpp:594-606 | Spending input by input on a stack of caches is spending them all on the flat map, with the old coins as undo data |
| `Transactions.AddEachRefines` | src/coins.cpp:582-592 | Adding output by output never throws and adds exactly the spendable outputs, if the view holds none of them or the transaction is a coinbase |
| `Transactions.UpdateRefines` | src/coins.cpp:608-614 | UpdateCoins on a stack of caches is the update of the flat map |
| `Transactions.UpdateMovesValue` | src/coins.cpp:469-480 | UpdateCoins changes the total value by the spendable outputs minus GetValueIn |
| `Transactions.RestoredIs` | src/validation/validation.cpp:2105-2116 | Restoring inputs puts back each recorded coin and touches nothing else |
| `Transactions.UndoIsRestoring` | src/validation/validation.cpp:2032-2063 | With complete undo records, undoing input by input never fails, restores exactly these coins, and is clean if and only if the inputs are different and none was there |
| `Blocks.OutputsFirstIs` | src/validation/validation.cpp:2565-2723 | Connected outputs first, the map is the old one plus all created coins minus all inputs, whatever the order of the transactions |
| `Blocks.OrdersAgree` | src/validation/validation.cpp:2445-2450 | A block whose transactions apply in turn gives the same map and the same undo data when connected outputs first |
| `Blocks.InputsBackUndoes` | src/validation/validation.cpp:2095-2117 | All inputs spent and put back with their own undo data: none was in the way and the map is what it was |
| `Blocks.CreatedMatch` | src/validation/validation.cpp:2125-2139 | Every output of the block is found as the transaction wrote it |
| `Blocks.DisconnectRestoresOutputsFirst` | src/validation/validation.cpp:2091-2140 | A block connected outputs first and disconnected with its own undo data: nothing is amiss and the map is what it was |
| `Blocks.DisconnectRestores` | src/validation/validation.cpp:2091-2140 | The same for a block connected transaction by transaction, coins created and spent inside the block included |
| `Blocks.UndoTxsIs` | src/validation/validation.cpp:2095-2117 | Over a whole block, undoing fails if and only if some record has the wrong length, and otherwise puts all inputs back, clean if and only if none was in the way |
| `Blocks.DisconnectOfIs` | src/validation/validation.cpp:2067-2146 | With complete undo data of a validated block, DisconnectBlock fails if and only if the data does not fit and otherwise gives the undone map, clean if and only if nothing is amiss |
| `BlockUpdates.RestoreInputs` | src/validation/validation.cpp:2105-2115 | Puts the inputs of a transaction back, last first, ending as the undo of the flat map says, failing records included |
| `BlockUpdates.RemoveOutputs` | src/validation/validation.cpp:2125-2139 | Removes exactly the spendable outputs; clean if and only if each was there as written |
| `BlockUpdates.RestoreAll` | src/validation/validation.cpp:2095-2117 | Puts the inputs of all transactions back, last first, ending as the undo of the flat map says, misfitting records included |
| `BlockUpdates.RemoveAll` | src/validation/validation.cpp:2119-2140 | Removes all outputs; clean if and only if all were as written |
| `BlockUpdates.DisconnectBlock` | src/validation/validation.cpp:2067-2146 | For every block and every undo data, fitting or not, the view and the answer are those of disconnecting on the flat map |
| `BlockUpdates.ConnectInTurn` | src/validation/validation.cpp:2445-2450 | UpdateCoins for each transaction in turn up to one that throws; where the transactions apply in turn none does, and the view and the undo data are those of the flat map |
| `BlockUpdates.AddAllOutputs` | src/validation/validation.cpp:2565-2573 | Adds the outputs of every transaction up to one that throws; none does if the outputs are new, and then all are in the view |
| `BlockUpdates.SpendAllInputs` | src/validation/validation.cpp:2717-2723 | Spends the inputs of every transaction, on any stack; on a well-formed one the undo data records the coins of the view |
| `BlockUpdates.ConnectOutputsFirst` | src/validation/validation.cpp:2565-2723 | All outputs, then all inputs, stopping where an output throws; with new outputs the view and the undo data are those of the flat map |
| `BlockUpdates.UpdateTxsRefines` | src/validation/validation.cpp:2445-2450 | Transaction by transaction on a stack of caches is connecting the block on the flat map, if its transactions apply in turn |
| `BlockUpdates.AddTxsRefines` | src/validation/validation.cpp:2565-2573 | Adding all outputs on a stack of caches is adding them on the flat map, if they are new |
| `BlockUpdates.SpendTxsRefines` | src/validation/validation.cpp:2717-2723 | Spending all inputs on a stack of caches is spending them on the flat map |
| `BlockUpdates.ConnectAndDisconnect` | src/validation/validation.cpp:2067-2146 | On a stack of caches, a block connected in either order and disconnected again reports no problem and leaves the view as it was |
| `AddrMan.SwapReorders` | src/addrman.cpp:102-120 | A swap reorders the vector and every entry still knows its place |
| `AddrMan.DeleteKeepsInv` | src/addrman.cpp:122-134 | Deleting an entry that holds no slot keeps every other invariant |
| `AddrMan.ClearNewKeepsInv` | src/addrman.cpp:136-151 | Clearing a new slot keeps the invariant, deleting the entry with its last reference, and leaves the slot empty |
| `AddrMan.MakeRoomKeepsInv` | src/addrman.cpp:173-196 | Evicting a tried entry back to the new table keeps the invariant, empties that tried slot only, and adds no entry |
| `AddrMan.MakeTriedKeepsInv` | src/addrman.cpp:153-202 | The move to the tried table keeps the invariant and changes exactly the entry's own tried slot, which it fills |
| `AddrMan.MakeTriedEvolves` | src/addrman.cpp:153-202 | It empties no tried slot, keeps pending collisions, and the entry ends up tried |
| `AddrMan.NewEntryIsFound` | src/addrman.cpp:233-250 | An entry not in tried holds some new bucket: the early exit for a lost entry is dead code |
| `AddrMan.GoodKeepsInv` | src/addrman.cpp:204-273 | Good_ keeps the invariant, the size limit of pending collisions included |
| `AddrMan.GoodPromotes` | src/addrman.cpp:204-273 | A known service reported good is tried afterwards if and only if it was, the slot is free, or eviction is not tested first |
| `AddrMan.PlaceKeepsInv` | src/addrman.cpp:322-349 | Entering an entry into its new slot, overwriting or giving way, keeps the invariant and leaves no entry without a slot |
| `AddrMan.EnterKeepsInv` | src/addrman.cpp:90-100 | A new entry under a fresh id keeps the invariant, holding no slot yet |
| `AddrMan.PlaceOutcome` | src/addrman.cpp:322-349 | Who gets the slot; the entry goes only if it has no other, and nobody else but the slot's holder can |
| `AddrMan.AddOutcome` | src/addrman.cpp:275-351 | An unknown routable address is known afterwards if and only if its slot is free or the holder is terrible or has another slot; a known one stays; nobody but that holder is forgotten |
| `AddrMan.AddKeepsInv` | src/addrman.cpp:275-351 | Add_ keeps the invariant on every path |
| `AddrMan.StatsKeepInv` | src/addrman.cpp:222-225 | Changing an entry's statistics keeps the invariant |
| `AddrMan.AttemptKeepsInv` | src/addrman.cpp:353-374 | Attempt_ keeps the invariant |
| `AddrMan.ConnectedKeepsInv` | src/addrman.cpp:556-574 | Connected_ keeps the invariant |
| `AddrMan.ShuffleKeepsInv` | src/addrman.cpp:540-553 | The partial shuffle of GetAddr_ keeps the invariant |
| `AddrMan.CollidedCarries` | src/addrman.cpp:257-265 | As long as no tried slot is emptied and no id changes its address, a pending collision points at an occupied slot |
| `AddrMan.PendingIsReal` | src/addrman.cpp:585-601 | A pending id that still exists is a valid address and its tried slot is occupied: the other exits are dead |
| `AddrMan.ResolveKeepsInv` | src/addrman.cpp:576-642 | ResolveCollisions_ keeps the invariant and only shrinks the pending set |
| `AddrMan.ResolveOutcome` | src/addrman.cpp:596-631 | A pending id replaces the occupant if and only if that was last reached four hours ago or more and last tried between a minute and four hours ago; it stays pending if and only if the first holds and the second does not; the replaced entry is no longer tried |
| `AddrMan.SelectedIsTried` | src/addrman.cpp:644-671 | SelectTriedCollision_ hands out only tried entries of the wanted slot and never makes up an entry by looking up -1 |
| `AddrMan.StepKeepsInv` | src/addrman.cpp:204-671 | Every operation keeps the invariant, empties no tried slot and never reuses an id |
| `AddrMan.RunKeepsInv` | src/addrman.cpp:102-671 | Every run from an empty manager keeps everything: reference count = new slots held, at most 8; tried entries in exactly their own slot; the vector a permutation; exact counts; at most 10 pending collisions |
| `AddrMan.RunEvolves` | src/addrman.cpp:173-201 | Over any stretch of a run a filled tried slot stays filled and ids keep their addresses |
| `AddrMan.SizeIsSum` | src/addrman.cpp:452-453 | The vector has as many places as there are tried and new entries |
| `AddressManager.AddrManager.constructor` | src/addrman.h:480-505 | A new manager is the empty one |
| `AddressManager.AddrManager.SwapRandom` | src/addrman.cpp:102-120 | In place, the value-level swap |
| `AddressManager.AddrManager.Delete` | src/addrman.cpp:122-134 | In place, the value-level deletion |
| `AddressManager.AddrManager.ClearNew` | src/addrman.cpp:136-151 | In place, also while MakeTried has the new count off by one |
| `AddressManager.AddrManager.ForgetNew` | src/addrman.cpp:155-165 | The loop over all new buckets removes exactly the slots the entry holds and counts them off |
| `AddressManager.AddrManager.MakeRoom` | src/addrman.cpp:169-197 | In place, the eviction with its assertions |
| `AddressManager.AddrManager.MakeTried` | src/addrman.cpp:153-202 | In place, its three assertions hold |
| `AddressManager.AddrManager.FindBucket` | src/addrman.cpp:233-245 | The search from a random bucket finds one the entry holds, or none exactly if it holds none |
| `AddressManager.AddrManager.Good` | src/addrman.cpp:204-273 | In place, for every random start |
| `AddressManager.AddrManager.Add` | src/addrman.cpp:275-351 | In place, for every random draw |
| `AddressManager.AddrManager.PlaceEntry` | src/addrman.cpp:322-349 | In place, the placement of an entry |
| `AddressManager.AddrManager.Attempt` | src/addrman.cpp:353-374 | In place |
| `AddressManager.AddrManager.Connected` | src/addrman.cpp:556-574 | In place |
| `AddressManager.AddrManager.GetAddr` | src/addrman.cpp:534-554 | Returns the acceptable entries among the first of a partial shuffle, at most the limit, and stops early only at the limit |
| `AddressManager.AddrManager.ResolveCollisions` | src/addrman.cpp:576-642 | Walks the pending ids in increasing order and ends in the value-level result |
| `AddressManager.AddrManager.SelectTriedCollision` | src/addrman.cpp:644-671 | In place |
| `AddressManager.AddrManager.ResolveId` | src/addrman.cpp:580-640 | In place, the decision about one pending id |
| `AddrManCheck.CheckEntries` | src/addrman.cpp:455-483 | The first loop of Check_, in id order, reports no error exactly if every entry is fine, and collects the tried ids and the reference counts; the lookup enters at most addresses that were not indexed |
| `AddrManCheck.CheckTried` | src/addrman.cpp:490-505 | The second loop accepts and uses up the tried ids if and only if the tried table holds exactly them, each in its own slot |
| `AddrManCheck.CheckNew` | src/addrman.cpp:507-521 | The third loop accepts and uses up the counts if and only if every new entry holds exactly as many slots as its count, all at its own positions |
| `AddrManCheck.Check` | src/addrman.cpp:447-531 | Check_ returns 0 if and only if the manager is consistent in that sense and the key is not null; all it can change is to index the address of entry 0 |
| `AddrManCheck.InvConsistent` | src/addrman.cpp:447-531 | The invariant implies what Check_ asks for, and then Check_ changes nothing |
| `AddrManCheck.RunPassesCheck` | src/addrman.cpp:447-531 | No run from a new manager makes Check_ report an error, and every pending collision points at a real entry |
| `AddrManStore.Serialize` | src/addrman.h:296-351 | Saves the new and the tried entries in id order and every new bucket's entries by number; the two count assertions hold |
| `AddrManStore.SaveEntries` | src/addrman.h:309-332 | Lists the entries of one table in id order, as stored, with their numbers |
| `AddrManStore.SaveBucket` | src/addrman.h:333-350 | The numbers of a bucket's entries, empty slots left out |
| `AddrManStore.LoadNew` | src/addrman.h:386-407 | Whatever the record holds, the new entries get the numbers from zero as stored, each with its primary slot exactly if the buckets cannot be used and it is the first for that slot; entries and tables agree but for entries without a slot, and mapAddr finds the last entry with each address |
| `AddrManStore.LoadTried` | src/addrman.h:409-432 | Of the tried entries exactly the first one for each slot is kept, as stored and in its slot, and the others are counted as lost; a negative count of new entries only lowers the ids; none is lost when they come from a consistent manager |
| `AddrManStore.LoadEntries` | src/addrman.h:386-432 | All entries that were read are as stored in the record, new ones not tried and tried ones tried, in agreement with the tables |
| `AddrManStore.LoadAll` | src/addrman.h:386-454 | Reading the buckets changes reference counts alone; before pruning, entries and tables agree but for entries without a slot, and the counts are right, whatever the record holds, unless a count is negative |
| `AddrManStore.LoadBucket` | src/addrman.h:437-454 | Reads a bucket, whatever is in it, keeping entries and tables in agreement; from a consistent manager each entry fits into its empty slot below the reference limit |
| `AddrManStore.LoadSlot` | src/addrman.h:441-453 | Gives the entry a slot exactly if the index is a new entry, the slot is empty and the entry has fewer than eight, keeping entries and tables in agreement |
| `AddrManStore.Prune` | src/addrman.h:457-471 | Deletes exactly the entries that are neither tried nor referenced, and with them their addresses; everything else stays, up to places in the vector |
| `AddrManStore.PrunedInv` | src/addrman.h:457-471 | After pruning the manager is consistent if and only if each entry left is routable and reached if tried, and no entry, deleted ones included, had its address |
| `AddrManStore.Unserialize` | src/addrman.h:354-478 | Refuses exactly a wrong key size, too large a count or too short a record; negative counts and any bucket data are accepted. The result satisfies the whole invariant if and only if no count is negative and each entry that is kept is routable, reached if tried, and shares its address with no other entry that was read; so it does if all addresses of the record are different and routable and its tried entries were reached. Tried entries are kept exactly if first for their slot, and so are new ones for their primary slot where the buckets cannot be used. Loading what was saved of a consistent manager gives exactly the renamed manager |
| `AddrManStore.RepeatedAddress` | src/addrman.h:386-454 | A record with one address in two kept entries: it loads, and the invariant fails |
| `AddrManStore.CountsFit` | src/addrman.h:376-384 | A consistent manager never exceeds the limits that loading checks |
| `AddrManStore.ReloadedInv` | src/addrman.h:457-478 | The loaded manager satisfies the whole invariant, so the final Check passes |
| `AddrManStore.ReloadedSame` | src/addrman.h:283-287 | Every new and tried slot holds the same address as before, and every address is found |
| `AddrManStore.SaveAndLoad` | src/addrman.h:266-478 | Save then load succeeds and gives the same consistent manager up to the ids, with nothing lost |
| `Iblt.AddValue` | src/iblt.cpp:61-75 | The value sum is the byte-wise exclusive or, the shorter operand padded with zeros |
| `Iblt.UpdateEntry` | src/iblt.cpp:185-196 | One cell's count, key sum, masked check and value after one signed entry, cleared when it becomes empty |
| `Iblt.SubtractEntry` | src/iblt.cpp:330-343 | One cell of a difference, cleared when it becomes empty |
| `Iblt.CellIndex` | src/iblt.cpp:180-185 | Each hash function has its own segment of cells and a key has one cell in each |
| `Iblt.InsertEncodes` | src/iblt.cpp:169-203 | A table that holds a set of signed entries holds one more after an insertion, if no group of entries looks empty or pure by accident |
| `Iblt.PositiveSound` | src/iblt.cpp:185-196 | A table built by insertions alone never looks empty or pure by accident, with no assumption on the hash |
| `Iblt.RemoveEncodes` | src/iblt.cpp:169-203 | Inserting an entry with the opposite sign and its own value takes it out again |
| `Iblt.FoldDifference` | src/iblt.cpp:328-343 | Subtracting the sums of two sets is summing up their signed difference |
| `Iblt.SubtractEncodes` | src/iblt.cpp:323-347 | The difference of two tables holds the signed difference of their sets |
| `Iblt.PeelKeepsBalance` | src/iblt.cpp:284-305 | With no assumption at all, each peeling step keeps table plus log equal to the start in count, key sum and key check of every cell |
| `Iblt.PureIsEntry` | src/iblt.cpp:50-58 | A pure cell of a table that holds a set names the only entry there, with its sign and value |
| `Iblt.SingleIsPure` | src/iblt.cpp:50-58 | Conversely, a cell with a single entry is pure |
| `Iblt.NothingLeft` | src/iblt.cpp:307-320 | An empty first segment means that no entry is left |
| `Iblt.DecidesRight` | src/iblt.cpp:217-243 | A deciding cell tells correctly whether the key is there and its value |
| `Iblt.PeelingEnds` | src/iblt.cpp:284-320 | When no pure cell is left, the first segment is empty if and only if no entries of the original set block each other |
| `Iblt.ListedDifference` | src/iblt.cpp:323-347 | The signed difference of two sets lists exactly the two set differences |
| `IbltTable.InvertibleTable.Copy` | src/iblt.cpp:120-128 | A copy has the same shape and cells |
| `IbltTable.InvertibleTable.Update` | src/iblt.cpp:169-200 | The loop over the hash functions updates exactly the key's cells; tables too small for a segment stay as they are |
| `IbltTable.InvertibleTable.Minus` | src/iblt.cpp:323-347 | Subtracts cell by cell into a fresh table |
| `IbltTable.InvertibleTable.PeelPass` | src/iblt.cpp:284-305 | One pass keeps the balance unconditionally, erases nothing only if no cell is pure, and under the purity assumption keeps what is left and what is logged in step |
| `IbltTable.InvertibleTable.ListEntries` | src/iblt.cpp:275-321 | Balance of table and log always; true exactly if the first segment ends empty; peeling stops only at the cap or with no pure cell left; under the purity assumption everything listed is right, on true the listing is complete, and below the cap it is true if and only if no entries block each other, that is, no nonempty part of the set leaves every cell with none or several of its entries |
| `IbltTable.InvertibleTable.Probe` | src/iblt.cpp:217-245 | On any table, decides exactly if one of the key's cells is empty or pure; correctly, if the table holds a set under the purity assumption |
| `IbltTable.InvertibleTable.PeelFor` | src/iblt.cpp:247-266 | One peeling pass that ends early at the key, loses nothing about it, and erases nothing only if no cell is pure |
| `IbltTable.InvertibleTable.Get` | src/iblt.cpp:204-273 | Under the purity assumption get terminates, answers with the key's value or with nothing, and fails only with a nonempty rest that holds the key, if the set does, and has no cell with a single entry |
| `IbltTable.Build` | src/iblt.cpp:202 | A table built by inserting a set in any order holds that set, with no assumption on the hash |
| `IbltTable.Reconcile` | src/iblt.cpp:275-347 | Two parties' tables subtracted and listed: on true, positive is exactly A minus B and negative exactly B minus A with the right values; in any case nothing wrong is listed; below the cap it is true if and only if no differing entries block each other |
| `CuckooCache.LocsInRange` | src/cuckoocache.h:208-218 | Scaling a 32-bit hash by the size gives a slot of the table |
| `CuckooCache.EpochCheckMakesRoom` | src/cuckoocache.h:242-281 | After the epoch check one more insertion fits under the epoch bound, whether it decremented, scanned or aged |
| `CuckooCache.EpochCheckLive` | src/cuckoocache.h:242-281 | Only a scan that finds the epoch full ends anything, and it ends exactly the old epoch |
| `CuckooCache.NextLocIs` | src/cuckoocache.h:383-397 | The first swap goes to the second location; a later one to the location after the slot just filled |
| `CuckooCache.EvictKeeps` | src/cuckoocache.h:370-406 | The eviction chain loses at most the last element in hand, doubles none, and keeps every element in one of its locations |
| `CuckooCache.EvictCounts` | src/cuckoocache.h:397-402 | Relocated elements keep their epoch flags, so each epoch's count grows by at most the inserted element |
| `CuckooCache.HeldIffInTable` | src/cuckoocache.h:434-447 | An element is in the table exactly if one of its eight locations holds it |
| `CuckooCache.PlaceKeeps` | src/cuckoocache.h:352-407 | Relative to the table just after the epoch check, insert keeps every live element and the new one live except at most one, which is then nowhere in the table |
| `CuckooCache.PlaceLosesNothingIf` | src/cuckoocache.h:358-381 | Nothing is lost if the element is there or one of its locations is free |
| `CuckooCache.EraseKeepsInv` | src/cuckoocache.h:434-447 | Erasing through contains removes exactly that element from the live ones and keeps the table |
| `CuckooCache.StepKeepsInv` | src/cuckoocache.h:242-447 | Placement, uniqueness and the epoch bound are kept by every operation |
| `CuckooCache.RunKeepsInv` | src/cuckoocache.h:242-447 | In every reachable state every live element lies in one of its locations, no element but the default one lies in two slots, and live current-epoch entries plus counter are at most nEpochSize + max(1, nEpochSize/16) |
| `CuckooCache.RunBoundsLive` | src/cuckoocache.h:242-281 | In every reachable state the live elements of both epochs plus the counter are at most twice that bound |
| `CuckooTable.PackedFlags.constructor` | src/cuckoocache.h:62-69 | All flags start set |
| `CuckooTable.PackedFlags.Set` | src/cuckoocache.h:93 | Sets that flag and no other of the packed bytes |
| `CuckooTable.PackedFlags.Unset` | src/cuckoocache.h:100 | Clears that flag and no other |
| `CuckooTable.CuckooSet.constructor` | src/cuckoocache.h:301-317 | A table of 2^depth free slots, epoch size 45% in 32-bit arithmetic, satisfying the invariant |
| `CuckooTable.CuckooSet.ScanEpoch` | src/cuckoocache.h:250-254 | Counts exactly the live slots of the current epoch |
| `CuckooTable.CuckooSet.AgeEpochs` | src/cuckoocache.h:260-270 | The old epoch dies and the current one becomes old |
| `CuckooTable.CuckooSet.CheckEpoch` | src/cuckoocache.h:242-281 | epoch_check in place |
| `CuckooTable.CuckooSet.Locate` | src/cuckoocache.h:434-447 | The first of an element's locations that holds it |
| `CuckooTable.CuckooSet.LocateFree` | src/cuckoocache.h:372-376 | The first free location of an element |
| `CuckooTable.CuckooSet.Contains` | src/cuckoocache.h:434-447 | True exactly for elements of the table, discardable or not; erasing sets only the found slot's flag |
| `CuckooTable.CuckooSet.Insert` | src/cuckoocache.h:352-407 | The insertion loop in place is the eviction chain, with the lost element |
| `RollingBloom.WithBitIs` | src/bloom.cpp:335-339 | Clearing and setting one bit of a word changes no other bit |
| `RollingBloom.WipeIs` | src/bloom.cpp:319-328 | The masked words lose exactly the bits where both words carry the generation's pattern |
| `RollingBloom.WipeLabels` | src/bloom.cpp:319-328 | The wipe removes exactly the labels of one generation number |
| `RollingBloom.WritePositionsLabels` | src/bloom.cpp:332-340 | Inserting a key labels exactly its positions with the current generation |
| `RollingBloom.WipeForgetsOldest` | src/bloom.cpp:309-329 | Starting a generation forgets exactly the one three back |
| `RollingBloom.InsertHolds` | src/bloom.cpp:309-341 | Every insertion keeps the labels in step with the whole history of insertions |
| `RollingBloom.RunHolds` | src/bloom.cpp:309-341 | So they are after every run of insertions since a reset |
| `RollingBloom.ContainsIff` | src/bloom.cpp:350-364 | contains is true if and only if every position of the key was touched by a key of the current or the two previous generations |
| `RollingBloom.WindowSize` | src/bloom.cpp:280-281 | The window holds between two and three generations of keys, or all of them |
| `RollingBloom.WindowKeyFound` | src/bloom.h:166-167 | Every key of the window is found |
| `RollingBloom.RecentKeyFound` | src/bloom.h:166-167 | contains is true for each of the last nElements keys inserted |
| `RollingBloom.RollingFilter.constructor` | src/bloom.cpp:274-299 | A new filter is empty and keeps (nElements + 1) / 2 keys per generation |
| `RollingBloom.RollingFilter.Reset` | src/bloom.cpp:373-384 | Reset forgets the history and clears every word |
| `RollingBloom.RollingFilter.WipeGeneration` | src/bloom.cpp:319-328 | The loop over word pairs is the wipe |
| `RollingBloom.RollingFilter.Roll` | src/bloom.cpp:311-329 | A full generation is followed by the next one with its number wiped |
| `RollingBloom.RollingFilter.InsertKey` | src/bloom.cpp:309-341 | insert in place, with the history extended by the key |
| `RollingBloom.RollingFilter.Query` | src/bloom.cpp:350-364 | contains in place, with its exact meaning over the history |
| `Limbs.ShlValue` | src/arith_uint256.cpp:22-38 | Limb-wise left shift multiplies by a power of two modulo the width, for every shift |
| `Limbs.ShrValue` | src/arith_uint256.cpp:40-56 | Limb-wise right shift is division by a power of two, for every shift |
| `Limbs.ValueOrder` | src/arith_uint256.cpp:117-128 | The highest limb that differs decides the order of the numbers |
| `Limbs.ValueInjective` | src/arith_uint256.h:225-228 | Equal numbers have equal limbs |
| `ArithUint256.Uint256.Copy` | src/arith_uint256.h:43-47 | A copy has the same limbs in its own array |
| `ArithUint256.Uint256.ShiftLeft` | src/arith_uint256.cpp:22-38 | The in-place loop gives the number times 2^shift modulo 2^256 |
| `ArithUint256.Uint256.ShiftRight` | src/arith_uint256.cpp:40-56 | The in-place loop gives the number divided by 2^shift |
| `ArithUint256.Uint256.Add` | src/arith_uint256.h:140-150 | Sum modulo 2^256, also when a number is added to itself |
| `ArithUint256.Uint256.Increment` | src/arith_uint256.h:178-185 | Plus one modulo 2^256 |
| `ArithUint256.Uint256.Decrement` | src/arith_uint256.h:195-202 | Minus one modulo 2^256 |
| `ArithUint256.Uint256.Negate` | src/arith_uint256.h:82-89 | Additive inverse modulo 2^256 |
| `ArithUint256.Uint256.Subtract` | src/arith_uint256.h:152-156 | Difference modulo 2^256, also when a number is subtracted from itself |
| `ArithUint256.Uint256.MultiplySmall` | src/arith_uint256.cpp:58-69 | Product with a 32-bit number modulo 2^256, with no 64-bit wrap |
| `ArithUint256.Uint256.AddRow` | src/arith_uint256.cpp:78-84 | One row of the schoolbook product, what does not fit left out |
| `ArithUint256.Uint256.Multiply` | src/arith_uint256.cpp:71-87 | Product modulo 2^256 when the operands are different objects; multiplied in place by itself a number becomes 0, so the product is right if and only if they differ or the low four limbs are all zero |
| `ArithUint256.SquareVanishes` | src/arith_uint256.cpp:71-87 | A square is zero modulo 2^256 if and only if the low 128 bits of the number are zero |
| `ArithUint256.SquareOfOne` | src/arith_uint256.cpp:71-87 | The smallest number for which multiplying in place by itself is wrong: one |
| `ArithUint256.NoOverflow` | src/arith_uint256.cpp:81-83 | The 64-bit intermediate of a multiplication step cannot wrap and its carry is one limb |
| `ArithUint256.Uint256.CompareTo` | src/arith_uint256.cpp:117-128 | -1, 0 or 1 as the numbers compare |
| `ArithUint256.Uint256.Bits` | src/arith_uint256.cpp:182-198 | The position of the highest bit plus one, zero exactly for zero |
| `ArithUint256.Uint256.SetBit` | src/arith_uint256.cpp:108 | Setting a clear quotient bit adds its power of two |
| `ArithUint256.Uint256.DivideStep` | src/arith_uint256.cpp:103-112 | One step of long division keeps quotient times divisor plus remainder, and halves the bound on the remainder |
| `ArithUint256.Uint256.Divide` | src/arith_uint256.cpp:89-115 | Exactly the integer quotient for every nonzero divisor, the working copy ending as the remainder; division by zero is reported and leaves zero |
| `ArithUint256.Uint256.GetLow64` | src/arith_uint256.h:251-255 | The number modulo 2^64 |
| `ArithUint256.Uint256.SetCompact` | src/arith_uint256.cpp:218-237 | The encoded number modulo 2^256; overflow flagged if and only if the encoded number is at least 2^256; negative if and only if it is nonzero with the sign bit |
| `ArithUint256.Uint256.GetCompact` | src/arith_uint256.cpp:239-264 | The shortest size that leaves the sign bit free; the number encoded is the original without its low bytes; both assertions hold |
| `ArithUint256.EncodedSize` | src/arith_uint256.cpp:220-235 | The three overflow conditions are exactly the sizes at which 2^256 is reached |
| `ArithUint256.CompactRoundTrip` | src/arith_uint256.cpp:218-264 | SetCompact after GetCompact truncates the number to its leading bytes, keeps the sign and never overflows |
| `CashAddr.PolyStep` | src/cashaddr.cpp:106-146 | The body of the PolyMod loop is multiplication by x modulo g(x) plus the symbol |
| `CashAddr.PolyMod` | src/cashaddr.cpp:45-150 | The loop folds that step over the symbols |
| `CashAddr.TimesLinear` | src/cashaddr.cpp:83-104 | The step is linear under exclusive or |
| `CashAddr.TimesInjective` | src/cashaddr.cpp:53-61 | Multiplication by x modulo g(x) loses nothing |
| `CashAddr.FoldSplit` | src/cashaddr.cpp:40-44 | The checksum is linear in the last eight symbols |
| `CashAddr.ChecksumAccepted` | src/cashaddr.cpp:182-213 | VerifyChecksum accepts every payload followed by its CreateChecksum |
| `CashAddr.ChecksumUnique` | src/cashaddr.cpp:182-213 | And nothing else: the last eight symbols of an accepted sequence are the checksum of the rest |
| `CashAddr.BurstDetected` | src/cashaddr.cpp:57-62 | Two accepted sequences never differ only within eight symbols in a row |
| `CashAddr.ShortVerifiesIff` | src/cashaddr.cpp:182-192 | Fewer than eight symbols that pass as a checksum exist if and only if the prefix leaves a remainder that small |
| `CashAddr.ShortUnique` | src/cashaddr.cpp:182-192 | And for each length there is at most one such sequence |
| `CashAddrErrors.AlphaTimes` | src/cashaddr.cpp:64-72 | The step is linear over GF(32), not just under exclusive or: scaling and multiplying by x commute |
| `CashAddrErrors.ConstantIff` | src/cashaddr.cpp:57-62 | A power of x is a constant modulo g(x) if and only if the exponent is a multiple of 1025 |
| `CashAddrErrors.TwoErrors` | src/cashaddr.cpp:57-62 | Two wrong symbols in an accepted sequence go unnoticed if and only if they are wrong by the same amount and a multiple of 1025 symbols apart |
| `CashAddrBch.FieldOrder` | src/cashaddr.cpp:57-59 | On the multiples of one factor of g(x), no power of x but those of 1025 leaves anything unchanged except zero |
| `CashAddrBch.SixRoots` | src/cashaddr.cpp:54-58 | Six powers of x, in two runs of three at the same distance, are roots of g(x) there |
| `CashAddrBch.CancelAtRoot` | src/cashaddr.cpp:45-58 | Errors that cancel in the checksum cancel at each of these roots |
| `CashAddrBch.FirstIsNone` | src/cashaddr.cpp:57-59 | Of four errors that cancel, one that is no multiple of 1025 symbols away from the others is none |
| `CashAddrBch.FourErrorsDetected` | src/cashaddr.cpp:57-59 | Two accepted sequences never differ in one to four symbols within a window of 1025 |
| `CashAddrTypos.TyposRejected` | src/cashaddr.cpp:239-333 | An address that decodes is rejected with one to four of its characters mistyped within a window of 1025, in the letters of the prefix as well as behind it |
| `CashAddrText.LowerCaseIsLower` | src/cashaddr.cpp:157-161 | The case bit turns letters into lower case |
| `CashAddrText.RevChar` | src/cashaddr.cpp:17-29 | Every value's character is read back as the value |
| `CashAddrText.CharRev` | src/cashaddr.cpp:17-29 | Every readable character, in either case, prints back as its lower case |
| `CashAddrText.DecodeEncode` | src/cashaddr.cpp:221-333 | Decode undoes Encode for every lower-case prefix and every 5-bit payload up to the size limit, and rejects it beyond |
| `CashAddrText.EncodeDecode` | src/cashaddr.cpp:239-333 | Conversely an accepted string is, up to case and a missing prefix, the Encode of its decoded result |
| `CashAddrText.LongIsDefined` | src/cashaddr.cpp:326-332 | With eight data characters or more the payload before the checksum is well defined |
| `CashAddrText.UndefinedIff` | src/cashaddr.cpp:326-332 | Strings with fewer that pass the checksum, so that the payload would end before it starts, exist for a prefix and a length if and only if the prefix leaves a remainder that small |
| `CashAddrText.UndefinedDefault` | src/cashaddr.cpp:295-332 | Without a prefix in the string, such strings of a length exist if and only if the default prefix leaves a remainder that small |
| `CashAddrText.UndefinedExample` | src/cashaddr.cpp:326-332 | Such a string, for every default prefix |
| `CashAddrText.NetworkIsDefined` | src/chainparams.cpp:193 | With the prefix of any of the node's networks, written or not, no string of any length has an undefined result |
| `CashAddrText.ExpandPrefix` | src/cashaddr.cpp:166-177 | The low five bits of each character, then zero |
| `CashAddrText.VerifyChecksum` | src/cashaddr.cpp:182-192 | True exactly if the folded checksum is one |
| `CashAddrText.CreateChecksum` | src/cashaddr.cpp:197-213 | The eight symbols that the specification function gives |
| `CashAddrText.EncodeString` | src/cashaddr.cpp:221-234 | Builds the specified string |
| `CashAddrText.Scan` | src/cashaddr.cpp:245-291 | Accepts exactly the well-formed strings and finds their separator |
| `CashAddrText.LowerPrefix` | src/cashaddr.cpp:301-305 | The prefix in lower case |
| `CashAddrText.ReadValues` | src/cashaddr.cpp:311-324 | Reads the values exactly if every character has one |
| `CashAddrText.DecodeString` | src/cashaddr.cpp:239-333 | Decode with all its exits is the specification function |
| `CashAddrContent.ConvertBits` | src/utilstrencodings.h:155-187 | Regroups the bits of the input: as a number, padded with zeros or cut off; false exactly if bits are left over without padding |
| `CashAddrContent.UnpackPack` | src/utilstrencodings.h:155-187 | Bytes to padded five-bit groups and back is the identity |
| `CashAddrContent.PackUnpack` | src/utilstrencodings.h:155-187 | Five-bit groups to bytes and back is the identity if less than a group is cut off and it is zero |
| `CashAddrContent.PackAddrData` | src/cashaddrenc.cpp:20-66 | Packs version and hash; fails exactly for an unknown hash length |
| `CashAddrContent.VersionIs` | src/cashaddrenc.cpp:22-54 | The version byte is eight times the kind, modulo 256, plus the size code |
| `CashAddrContent.ReadPacked` | src/cashaddrenc.cpp:140-184 | What was packed is read as what it was packed from, if the kind fits into four bits |
| `CashAddrContent.PackRead` | src/cashaddrenc.cpp:140-184 | Whatever payload is read as a content packs back into that payload |
| `CashAddrContent.DecodeAddrContent` | src/cashaddrenc.cpp:124-184 | DecodeCashAddrContent with all its exits is the specification function |
| `CashAddrContent.UnspecifiedIff` | src/cashaddrenc.cpp:124-133 | The content is left open if and only if the payload is, and never with eight data characters or more |
| `CashAddrContent.UnspecifiedExample` | src/cashaddrenc.cpp:124-133 | An address whose content is left open, whatever the prefix |
| `CashAddrContent.ContentRoundTrip` | src/cashaddrenc.cpp:99-184 | Decoding undoes encoding of a content if and only if its kind is below 16; kind 16 decodes to nothing |
| `CashAddrContent.ContentCanonical` | src/cashaddrenc.cpp:124-184 | An address that decodes is, up to case and a missing prefix, the encoding of its content |
| `CashAddrContent.DestinationRoundTrip` | src/cashaddrenc.cpp:69-223 | Key hashes of 20 bytes and script hashes of 20 or 32 survive encoding and decoding with their token flag |
| `SkipHeights.InvertsLowest` | src/chain.cpp:81-82 | Exactly the largest power of two dividing the number goes away |
| `SkipHeights.SkipHeightBelow` | src/chain.cpp:84-93 | The skip height is below the height for every height above zero |
| `SkipHeights.StepsBounded` | src/chain.cpp:95-122 | A walk takes at most as many steps as the bits of the two heights allow |
| `SkipHeights.WalkIsShort` | src/chain.cpp:84-122 | A walk from a height of n bits takes at most n + 1 + 2(n - 2) + (n - 2)^2/4 steps |
| `SkipHeights.WalkExample` | src/chain.cpp:89-92 | At most 115 steps to go back among 2^18 blocks, proved for every pair of heights |
| `BlockTree.Block.BuildSkip` | src/chain.cpp:129-133 | The skip pointer of a new block leads to the right ancestor and the tree stays right |
| `BlockTree.Block.GetAncestor` | src/chain.cpp:95-122 | Equals stepping back along the parents for every block and height, and null outside; with all skip pointers set it takes exactly the steps of the walk over heights |
| `BlockTree.AddBlock` | src/chain.cpp:95-133 | Growing a tree by a block keeps every skip pointer right, and all set if they were |
| `BlockTree.Chain.constructor` | src/chain.h:462 | A new chain is empty |
| `BlockTree.Chain.SetTip` | src/chain.cpp:15-31 | After any sequence of calls entry i is the tip's ancestor at height i, despite the early stop |
| `BlockTree.KeptBelow` | src/chain.cpp:26-30 | Where the old and the new chain meet they agree all the way down |
| `BlockTree.Chain.FindFork` | src/chain.cpp:67-79 | The highest block a branch shares with the chain, null exactly if there is none |
| `BlockTree.Chain.AncestorOf` | src/chain.cpp:50-59 | Vector and skip list give the same ancestor |
| `BlockTree.Chain.GetLocator` | src/chain.cpp:33-65 | The ancestors at the specified heights, the tip's if no block is given |
| `BlockTree.LocatorDescends` | src/chain.cpp:42-62 | A locator starts at its block, goes down strictly and ends at the root |
| `BlockTree.LocatorShort` | src/chain.cpp:48-62 | A locator for a height below 2^m has at most m + 12 entries |
| `BlockTree.LastCommonAncestor` | src/chain.cpp:208-228 | The highest common ancestor, null exactly for different roots; the assertion holds |
| `BlockTree.AreOnTheSameFork` | src/chain.cpp:230-236 | True exactly if one block is an ancestor of the other |
| `MedianTime.SortedOrders` | src/chain.h:320 | The window in order is a permutation of it |
| `MedianTime.MedianIff` | src/chain.h:320-321 | The median reaches a time exactly if the upper half of the window does |
| `MedianTime.CollectTimes` | src/chain.h:307-318 | The buffer filled from its end holds the times of up to eleven blocks, the oldest first |
| `MedianTime.GetMedianTimePast` | src/chain.h:305-322 | The middle of the ordered window, the upper one of two |
| `MedianTime.SlideKeepsMedian` | src/chain.h:305-322 | Sliding the window by a time at least the median does not lower the median |
| `MedianTime.MedianMonotone` | src/chain.h:305-322 | If each time is at least the parent's median time past, the median never decreases along a branch, short windows included |
| `MedianTime.ActivatedIsSuffix` | src/chain.cpp:152-164 | forkActivated is true on a suffix of the branch |
| `MedianTime.NextBlockIsOneEarlier` | src/chain.cpp:175-188 | IsforkActiveOnNextBlock holds exactly one block earlier than forkActivated |
| `MedianTime.ActivationBlockIff` | src/chain.cpp:166-173 | A branch has a forkActivateNow block if and only if the fork is activated at its end and the root's median is below the fork time |
| `MedianTime.NoActivationBlock` | src/chain.cpp:166-173 | A branch on which the fork is activated but no block is the activation block |
| `MedianTime.ActivateNowOnce` | src/chain.cpp:166-173 | forkActivateNow holds for at most one block of a branch |
| `MedianTime.AtNextIffNotYet` | src/chain.cpp:190-200 | forkAtNextBlock holds exactly where the fork is due next and not yet activated, the root excepted |
| `Base58.RecodeRecode` | src/base58.cpp:23-108 | Writing a number in another base behind its leading zeros, and back, is the identity |
| `Base58.EncodeRoom` | src/base58.cpp:82 | 138/100 of the bytes plus one is room enough, for every length |
| `Base58.DecodeRoom` | src/base58.cpp:36 | 733/1000 of the digits plus one is room enough, for every length |
| `Base58.MulAdd` | src/base58.cpp:45-51 | The in-place carry loop multiplies and adds, with the carry out exact |
| `Base58.Convert` | src/base58.cpp:84-96 | The carry out is always zero and the buffer ends with the whole number |
| `Base58.CountZeros` | src/base58.cpp:76-80 | The number of leading zero digits |
| `Base58.EncodeBase58` | src/base58.cpp:72-108 | The specified string, leading zeros as ones |
| `Base58.ReadDigits` | src/base58.cpp:35-54 | Reads up to a space or the end, failing exactly on a character outside the alphabet; the carry out is always zero |
| `Base58.DecodeBase58` | src/base58.cpp:23-70 | Decodes exactly the strings that are a run of alphabet characters within spaces, to the specified bytes |
| `Base58.DecodeEncode` | src/base58.cpp:23-108 | DecodeBase58 after EncodeBase58 is the identity on every byte string |
| `Base58.EncodeDecode` | src/base58.cpp:23-108 | Whatever decodes is, without the spaces around it, the encoding of the result |
| `Base58.AlphabetRoundTrip` | src/base58.cpp:23-108 | Every string over the alphabet decodes and encodes back to itself |

## Left out

- Check queue: Shutdown and fExit, whose early return does not undo nTotal, and the timed wake-up as a clock; a wake-up is a step that may happen at any time.
- CheckQueue.RunKeepsInv: takes Adds that keep the outstanding checks below 2^32, which CheckQueue.AddCountsExactly shows to be exactly when nTodo is right; idle and total thread counts are unbounded integers.
- Check queue controller: CCheckQueueControl is covered by CheckQueue.ControllerFindsIdle and CheckQueue.WaitReturnsIdle, not as a class.
- Coins: best-block hashes, locks, cursors and the reset of a drifted usage sum.
- Coins: two caches over one base at the same time; a stack is a chain of layers.
- CoinsCache.CoinsViewDB.BatchWrite: whether coins stay cached after a write depends on sync state and settings, taken as an arbitrary choice per outpoint.
- CoinsCache.CoinsViewCache.Trim: the static trim height delta is passed in and handed out; its first value, a floating-point product, is any number.
- CoinsCache.ApplyTxInUndo: the largest number of outputs that a block can hold is a parameter.
- CoinsCache.AddCoins: takes outputs that are not null, as AddCoin asserts.
- BlockUpdates.DisconnectBlock: takes undo records that hold a coin each, as they are written; reading them from disk is not part of this model.
- BlockUpdates.ConnectAndDisconnect: takes coins of heights above 0, as height 0 marks an old undo record, and a block with one coinbase, in front.
- BlockUpdates.ConnectInTurn: input, script, token and fee checks of ConnectBlock, and the rejection of repeated or misordered transactions.
- Coin usage: the memory of a coin is an arbitrary function of its script, zero for a spent coin.
- Address manager: `Select_`, whose search ends only with probability, and `GetChance`, which is floating point.
- AddrMan.GoodKeepsInv: takes a positive time; the default is the adjusted time.
- AddrMan.AttemptKeepsInv: takes a time that is not negative; the default is the adjusted time.
- Address manager: `Clear` on a manager in use, which leaves its entries, addresses and pending collisions; loading is modelled into a new manager.
- AddrMan.ResolveKeepsInv: the adjusted time is read once per call, not at every comparison.
- AddrManStore.Unserialize: the byte stream is a record of its parts; a stream that ends early is a refused record.
- Invertible tables: 32-bit wrap-around of the cell count, sizing formulas and serialization; the cap on peeled entries is a parameter.
- IbltTable.Build: takes values of one length, as the tables store no lengths.
- IbltTable.Reconcile: takes values of one length that agree on common keys, and a difference that does not look empty or pure by accident, which is up to the hash.
- IbltTable.InvertibleTable.Get: without the purity assumption its recursion has no cap, so the contract takes a table that holds a set under that assumption.
- Cuckoo cache: memory ordering of the packed flags, and the floating-point logarithm in setup, whose result is the parameter.
- RollingBloom.RollingFilter.constructor: takes at least one element and one pair of words; with none the original divides by zero.
- CBloomFilter and the fast filters: raw bit arrays without history.
- 256-bit arithmetic: hexadecimal text and `getdouble`.
- CashAddrText.DecodeString: what the original does where its result is not defined is left open; the model calls it `Undefined`.
- CashAddrBch.FourErrorsDetected: the further guarantees for five errors within 160 and six within 126 symbols, which are due to the particular generator chosen, are not stated.
- Block tree: a block's parent, height and time are constants of the object, as they never change once it is in the index; validity flags and chain work are not part of this model.
- MedianTime.GetMedianTimePast: the library sort is an insertion sort proved to be an ordered permutation.
- Base58: the checked variants with their hash, and the key and address classes.
- Block validation, mempool, network, wallet, RPC and storage engines: not part of this model.
