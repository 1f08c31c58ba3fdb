# Bitcoin Core 0.9: a verified model of its core

A model of the parts of Bitcoin Core 0.9 that keep its state consistent, with the properties its code and comments
promise. Each module follows one component:

- `Coins`, `CoinsViews`, `Utxo`, `Validation`, `Supply`, `ChainState`: the unspent outputs. `Utxo` states the
  transition of connecting and disconnecting a block on plain maps of live coins; `Validation` shows that the loops over
  cached views do the same; `ChainState` lifts this to whole runs, and `Supply` to the total value.
- `BlockTree`, `BestChain`: chains indexed by height, locators and forks, and the choice and activation of the best chain.
- `Outcomes`: what `BestChain` takes as given about blocks is what `ChainState` computes, and the script checks
  `Validation` joins are those `CheckQueue` hands out.
- `Acceptance`, `Reversal`: which blocks connect, in one piece and without the order of the code, lifted to chains; and
  disconnecting the other way round.
- `Merkle`, `PartialMerkle`, `MerkleStream`: the flat Merkle tree, its recursive form, the bit and hash stream of BIP 37,
  and exactly which streams are accepted.
- `CheckQueue`: the shared queue of script checks, as critical sections under one mutex interleaved with private work.
- `AddrMan`, `AddrManCodec`: the address manager's redundant tables and their stored form.
- `CoinsCodec`, `Base58`, `Compact`: the stored form of coins, base-58 strings, compact targets and retargeting.
- `KnownForms`: the formats on the examples that the comments and unit tests of the original give.
- `Common`: arithmetic and sequences shared by the others.

Integers are unbounded except where a width matters, which is then written out: amounts and fees are shown to fit 64
bits, compact targets and stored times are 32-bit values. Hash functions, script verification, signature-operation counts
and checks of a block by itself are parameters; where a hash must resist collisions, this is assumed only of the pairs
actually hashed. Clocks and random numbers are parameters or arbitrary choices. Errors are values: a verdict with its
reason, an option, or a flag.

Six comments or promises of the code do not hold, and the code is followed; for each, the exact condition under which it
holds is proved, and an input on which it fails wherever the condition does not name one:

- the documented bound of 2N - 1 flag bits: `BitBoundFails`, `BitBoundHoldsIff`;
- the selection of the least recently tried entry among those inspected: `SelectionCanMiss`, `SelectsOldestIff`;
- the return of `ActivateBestChain` when a failure may be due to corruption: `DamagedBlock`, `Rounds`;
- the survival of the best-block marker when a layer without one is flushed: `FlushLosesMarker`, `Flush`;
- the consistency of the address manager after `Good` and `Attempt`, whose times may be zero or negative: their own
  contracts;
- the round trip of coins and undo records, whose versions may be negative: `CoinRoundTrip`, `UndoRoundTrip`.

`dafny verify dfyconfig.toml` checks the project.

## Model

| member | source | states |
|---|---|---|
| `Coins.UnspendInvertsSpend` | Bitcoin/bitcoin/src/coins.cpp:30-44 | restoring a spent output from its undo record gives back the very coin, trimmed vector and metadata included, if and only if the coin's height is above 0 or the output was not its last one |
| `Coins.TrimUnique` | Bitcoin/bitcoin/src/coins.h:93-98 | Cleanup has one possible result: the only prefix that ends in an unspent output and drops nothing but nulls |
| `Coins.ClearUnspendableIdempotent` | Bitcoin/bitcoin/src/coins.h:100-106 | clearing unspendable outputs twice changes nothing more |
| `Coins.CCoins.Cleanup` | Bitcoin/bitcoin/src/coins.h:93-98 | the loop leaves exactly the trimmed vector |
| `Coins.CCoins.ClearUnspendable` | Bitcoin/bitcoin/src/coins.h:100-106 | nulls the provably unspendable outputs and trims, leaving everything else |
| `Coins.CCoins.FromTx` | Bitcoin/bitcoin/src/coins.h:85-87 | a coin made from a transaction has its unspendable outputs cleared from the start |
| `Coins.CCoins.Spend` | Bitcoin/bitcoin/src/coins.cpp:30-44 | succeeds exactly on an available output; then nulls and trims, with metadata in the undo record exactly when nothing is left; otherwise changes nothing |
| `CoinsViews.CoinsView.GetCoins` | Bitcoin/bitcoin/src/coins.cpp:74-96 | a stack of caches answers as the flat map does, and filling caches changes no answer in any layer of the stack, down to the database |
| `CoinsViews.CoinsView.HaveCoins` | Bitcoin/bitcoin/src/coins.cpp:109-111 | presence is presence in the flat map |
| `CoinsViews.CoinsView.SetCoins` | Bitcoin/bitcoin/src/coins.cpp:104-107 | writes one entry of the flat map; every layer below answers as before |
| `CoinsViews.CoinsView.GetBestBlock` | Bitcoin/bitcoin/src/coins.cpp:113-117 | gives the marker of the topmost layer that has one and changes no answer |
| `CoinsViews.CoinsView.SetBestBlock` | Bitcoin/bitcoin/src/coins.cpp:119-122 | sets this layer's marker; a null one lets the layer below show through |
| `CoinsViews.CoinsView.BatchWrite` | Bitcoin/bitcoin/src/coins.cpp:124-129 | merges a batch into a cache, or into the database, which erases pruned coins and ignores a null marker: the live coins are those of the merged map |
| `CoinsViews.MergedAgrees` | Bitcoin/bitcoin/src/txdb.cpp:15-20 | erasing pruned coins instead of storing them leaves the same live coins |
| `CoinsViews.CoinsView.Flush` | Bitcoin/bitcoin/src/coins.cpp:131-136 | the live coins survive always; the best-block marker survives if and only if this layer has its own, or the layer below is the database, or the layer below has none or the same as its base |
| `CoinsViews.FlushLosesMarker` | Bitcoin/bitcoin/src/coins.cpp:124-136 | a layer without a marker, on a cache that has one, answers otherwise after it is flushed |
| `CoinsViews.CoinsView.HasInputs` | Bitcoin/bitcoin/src/coins.cpp:161-180 | true exactly when every input is available in the flat map |
| `CoinsViews.CoinsView.GetValueIn` | Bitcoin/bitcoin/src/coins.cpp:149-159 | the sum of the inputs' values in the flat map |
| `CoinsViews.CoinsView.GetOutputFor` | Bitcoin/bitcoin/src/coins.cpp:142-147 | the output the flat map holds; the availability assertion cannot fire |
| `Utxo.DisconnectInvertsConnect` | Bitcoin/bitcoin/src/main.cpp:1594-1680 | disconnecting a connected block with its own undo data reports clean and gives back exactly the set before, in-block spends and several inputs from one parent included, given distinct txids, no overwriting (BIP30) and heights above 0 |
| `Utxo.UpdateCoinsNeverAsserts` | Bitcoin/bitcoin/src/main.cpp:1474-1491 | in a block that connects, spending never meets a missing output |
| `Utxo.DisconnectTxInverts` | Bitcoin/bitcoin/src/main.cpp:1614-1669 | undoing one transaction right after applying it gives back the set |
| `Utxo.ConnectTxReversible` | Bitcoin/bitcoin/src/main.cpp:1775-1817 | each transaction of a block, connected as ConnectBlock does, can be undone on its own |
| `Utxo.RestoreInvertsSpend` | Bitcoin/bitcoin/src/main.cpp:1643-1667 | restoring inputs last to first undoes spending them first to last |
| `Utxo.DisconnectTxsInverts` | Bitcoin/bitcoin/src/main.cpp:1613-1669 | undoing the first k transactions, last to first, undoes connecting them |
| `Acceptance.ConnectsIffMeets` | Bitcoin/bitcoin/src/main.cpp:1714-1834 | a block connects if and only if it meets the rules: valid by itself, overwriting nothing, every input unspent, of a valid amount and 100 blocks deep if from a coinbase, no transaction paying out more than it takes in, the signature operations within the limit, the coinbase within the fees and the subsidy, every script verifying from the last checkpoint on; and what it leaves is what its transactions leave one by one |
| `Acceptance.AcceptedScripts` | Bitcoin/bitcoin/src/main.cpp:1798-1829 | from the last checkpoint on, in a block that connects the script of every output spent verifies for the input that spends it, with the flags of the block's time |
| `Acceptance.ScriptsDecide` | Bitcoin/bitcoin/src/main.cpp:1798-1829 | a block that meets every other rule is rejected exactly when one of its scripts does not verify, on the spot or at the end of the block |
| `Acceptance.CoinbaseLimit` | Bitcoin/bitcoin/src/main.cpp:1176-1184 | a coinbase is too high exactly above its fees and 50 coins shifted by the number of halvings |
| `Acceptance.ReplaysIffMeets` | Bitcoin/bitcoin/src/main.cpp:1974-2019 | a chain replays if and only if each block above the genesis block meets the rules on what those before it leave |
| `Acceptance.EveryInputHolds` | Bitcoin/bitcoin/src/main.cpp:1505-1590 | in a replayed chain every input spends an output of a transaction of the chain, at least 100 blocks deep if a coinbase made it, and from the last checkpoint on its script verifies |
| `Acceptance.OutputsAfter` | Bitcoin/bitcoin/src/main.cpp:1474-1491 | after a transaction the unspent outputs are those before it without the ones it spends, and its own that can be spent |
| `Reversal.ConnectInvertsDisconnect` | Bitcoin/bitcoin/src/main.cpp:1594-1680 | connecting a block again after a disconnect reported clean gives back exactly the set before: no missing, foreign or already unspent output passes as clean |
| `Reversal.ConnectKeepsCleared` | Bitcoin/bitcoin/src/main.cpp:1474-1491 | a connected block leaves no unspendable output, and its undo data can be spent again |
| `Reversal.ReplayCleared` | Bitcoin/bitcoin/src/coins.h:100-106 | no replayed set holds an unspendable output |
| `Validation.UpdateCoins` | Bitcoin/bitcoin/src/main.cpp:1474-1491 | on a view, does what the transition on live coins says; its assertions hold |
| `Validation.GetValueOut` | Bitcoin/bitcoin/src/core.cpp:109-119 | the sum of the outputs if all of them and all partial sums are in the money range; otherwise the exception |
| `Validation.ScanTxInputs` | Bitcoin/bitcoin/src/main.cpp:1523-1542 | the first immature coinbase or out-of-range value, or the sum of the inputs |
| `Validation.CheckInputs` | Bitcoin/bitcoin/src/main.cpp:1505-1590 | accepts or rejects, with the same reason, as the transition does, whether scripts are handed out, checked on the spot or skipped below the last checkpoint, and leaves the view's answers alone |
| `Validation.FindOverwrite` | Bitcoin/bitcoin/src/main.cpp:1748-1755 | finds a transaction of the block that would overwrite an unspent one exactly when there is one |
| `Validation.ConnectTransactions` | Bitcoin/bitcoin/src/main.cpp:1775-1817 | the loop over a block's transactions gives the set, fees, undo data and checks of the transition, or its reason to reject |
| `Validation.ConnectBlock` | Bitcoin/bitcoin/src/main.cpp:1714-1873 | connects on a view exactly when the transition accepts, BIP16 switched by the block's time, with its set and undo data and the marker moved; rejects with the same reason |
| `Validation.DisconnectBlock` | Bitcoin/bitcoin/src/main.cpp:1594-1680 | disconnects as the transition does: inconsistent undo data fails, a clean result is exactly the transition's set, with the marker moved back |
| `Validation.ConnectAtomically` | Bitcoin/bitcoin/src/main.cpp:1983-1993 | applied to a layer of its own: a rejected block leaves the tip's coins and marker as they were |
| `Validation.DisconnectAtomically` | Bitcoin/bitcoin/src/main.cpp:1942-1947 | applied to a layer of its own: without a clean result the tip is as it was |
| `Supply.UpdateCoinsTotal` | Bitcoin/bitcoin/src/main.cpp:1474-1491 | a transaction changes the unspent total by at most what it pays out less what it takes in |
| `Supply.ConnectTxsBalanced` | Bitcoin/bitcoin/src/main.cpp:1775-1817 | over any prefix of a block, unspent value plus fees grows by at most what the coinbase pays |
| `Supply.FeesDoNotOverflow` | Bitcoin/bitcoin/src/main.cpp:1802 | the running fee total is never negative and stays within a signed 64-bit integer |
| `Supply.BlockAddsAtMostSubsidy` | Bitcoin/bitcoin/src/main.cpp:1822-1826 | a connected block raises the unspent total by at most the subsidy of its height |
| `Supply.IssuedBound` | Bitcoin/bitcoin/src/main.cpp:1176-1184 | all subsidies together, and those still to come, stay below MAX_MONEY |
| `Supply.ReplayTotal` | Bitcoin/bitcoin/src/main.cpp:1714-1873 | on any replayed chain the unspent total is at most the subsidies issued |
| `Supply.SupplyNeverExceedsMaxMoney` | Bitcoin/bitcoin/src/core.h:18-19 | over any main-net chain of fewer than 64 halvings the unspent total never exceeds MAX_MONEY |
| `ChainState.ConnectSound` | Bitcoin/bitcoin/src/main.cpp:1974-2019 | connecting keeps the coin set equal to the replay of the active chain; undo data once written fits every later connection of the same entry |
| `ChainState.DisconnectSound` | Bitcoin/bitcoin/src/main.cpp:1932-1971 | the tip always disconnects cleanly, to the replay of the shorter chain |
| `ChainState.RunSound` | Bitcoin/bitcoin/src/main.cpp:1932-2019 | after any run of connects and disconnects, rejected blocks included, the coin set is the replay of the active chain and the marker is its tip |
| `ChainState.PathIndependence` | Bitcoin/bitcoin/src/main.cpp:1932-2019 | two runs to the same active chain end with the same coins and marker |
| `ChainState.RunKeepsSupply` | Bitcoin/bitcoin/src/main.cpp:1932-2019 | no run on the main net makes the coins worth more than MAX_MONEY |
| `ChainState.Chain.ConnectTip` | Bitcoin/bitcoin/src/main.cpp:1974-2019 | refines one connect step; the assertions on the previous block and the best-block marker hold, and a failed block changes nothing |
| `ChainState.Chain.DisconnectTip` | Bitcoin/bitcoin/src/main.cpp:1932-1971 | refines one disconnect step and cannot fail on the chain's own undo data |
| `ChainState.Chain.WriteChainState` | Bitcoin/bitcoin/src/main.cpp:1876-1893 | writing the cache down at any time changes nothing observable |
| `ChainState.Chain.Perform` | Bitcoin/bitcoin/src/main.cpp:1932-2019 | any sequence of connects and disconnects, with writes to the database at any of them, gives the state that Run gives |
| `ChainState.OutcomeIsFixed` | Bitcoin/bitcoin/src/main.cpp:1984-1989 | whether a block connects, and why not, depends on the active chain alone: it is the same in every run that gets there |
| `Merkle.HeightIsFirst` | Bitcoin/bitcoin/src/main.cpp:2680-2683 | the computed height is the first level of width 1 |
| `Merkle.TreeHeight` | Bitcoin/bitcoin/src/main.cpp:2706-2708 | the loop finds that height |
| `Merkle.WidthHalves` | Bitcoin/bitcoin/src/main.h:533-535 | the closed form of a level's width agrees with halving, rounded up, level by level |
| `Merkle.RootIsCalcHash` | Bitcoin/bitcoin/src/main.cpp:2610-2625 | the root of the level-by-level tree is the recursive hash at the computed height, duplicated last nodes included |
| `Merkle.LevelsEndInRoot` | Bitcoin/bitcoin/src/core.cpp:226-236 | the flat array ends in the root |
| `Merkle.BranchLeadsToRoot` | Bitcoin/bitcoin/src/core.cpp:239-268 | for every index, folding its branch gives the root |
| `Merkle.BranchBinds` | Bitcoin/bitcoin/src/core.cpp:255-268 | short of a collision among the pairs hashed, no other entry and no other branch of the right length leads to the root |
| `Merkle.RootBindsList` | Bitcoin/bitcoin/src/core.cpp:220-237 | short of a collision, a root binds the whole list among lists of its length |
| `Merkle.DoubledTailSharesRoot` | Bitcoin/bitcoin/src/core.cpp:230 | it does not bind the length: an odd list and the list with its last entry doubled share their root, whatever the hash |
| `Merkle.CBlock.BuildMerkleTree` | Bitcoin/bitcoin/src/core.cpp:220-237 | lays out all levels in the flat array and returns the root |
| `Merkle.CBlock.GetMerkleBranch` | Bitcoin/bitcoin/src/core.cpp:239-253 | reads the branch of an index out of the flat array, building it first where needed |
| `Merkle.CBlock.CheckMerkleBranch` | Bitcoin/bitcoin/src/core.cpp:255-268 | folds a branch, for negative indexes too, whose shift rounds down; index -1 gives the null hash |
| `PartialMerkle.TreeRoundTrip` | Bitcoin/bitcoin/src/main.cpp:2627-2722 | for 1 to MAX_BLOCK_SIZE/60 txids and any mask, the built tree passes every sanity check, padded to bytes or not, and gives the full root and exactly the masked ids in order |
| `PartialMerkle.ExtractInvertsBuild` | Bitcoin/bitcoin/src/main.cpp:2627-2673 | traversal of any subtree consumes exactly the bits and hashes that building it wrote |
| `PartialMerkle.AcceptedTreesAreSound` | Bitcoin/bitcoin/src/main.cpp:2645-2722 | any accepted tree that gives the root of a list of the declared length gives entries of that list at strictly increasing positions, short of a collision among the pairs hashed |
| `PartialMerkle.ExtractSound` | Bitcoin/bitcoin/src/main.cpp:2645-2673 | the same for every subtree |
| `PartialMerkle.BuiltTreeIsSmall` | Bitcoin/bitcoin/src/main.h:498-507 | at most one hash per txid and at most 1 + matches * height hashes; at most 2N - 1 + height bits |
| `PartialMerkle.BitBoundFails` | Bitcoin/bitcoin/src/main.h:514 | the documented 2N - 1 bits fail for three txids with the third matched: 4 bits, 2 hashes |
| `PartialMerkle.BitBoundHoldsIff` | Bitcoin/bitcoin/src/main.h:514 | they hold if and only if no level of odd width has a match below the last node of the next level |
| `PartialMerkle.PackBits` | Bitcoin/bitcoin/src/main.h:562-564 | packs bits eight to a byte, the rest padded with zeros |
| `PartialMerkle.UnpackBits` | Bitcoin/bitcoin/src/main.h:557-559 | reads all bits of all bytes |
| `PartialMerkle.CPartialMerkleTree.TraverseAndBuild` | Bitcoin/bitcoin/src/main.cpp:2627-2643 | appends exactly the bits and hashes of the subtree |
| `PartialMerkle.CPartialMerkleTree.TraverseAndExtract` | Bitcoin/bitcoin/src/main.cpp:2645-2673 | the recursive traversal moves both cursors and the match list as the specification does, and marks bad exactly when a stream runs out |
| `PartialMerkle.CPartialMerkleTree.ExtractMatches` | Bitcoin/bitcoin/src/main.cpp:2691-2722 | gives a root and matches exactly when all sanity checks pass, and the null hash otherwise; MerkleStream says what passes |
| `PartialMerkle.CPartialMerkleTree.constructor` | Bitcoin/bitcoin/src/main.cpp:2675-2687 | builds the tree of a list and a mask |
| `PartialMerkle.CPartialMerkleTree.Receive` | Bitcoin/bitcoin/src/main.h:550-560 | a received tree has the bits of its bytes and is not marked bad |
| `PartialMerkle.SendAndExtract` | Bitcoin/bitcoin/src/main.h:550-567 | built, packed, received and extracted, a tree gives the block's root and exactly the masked ids in order |
| `MerkleStream.AcceptedIsPartial` | Bitcoin/bitcoin/src/main.cpp:2645-2722 | a received tree is accepted if and only if it holds a partial tree of the declared size, node after node, and nothing but the padding of the last byte; the result is that tree's root and matched txids |
| `MerkleStream.AcceptedIsComplete` | Bitcoin/bitcoin/src/main.cpp:2712-2720 | of two accepted trees of one size, one cannot go on where the other ends but for padding |
| `MerkleStream.LeftoversAreRejected` | Bitcoin/bitcoin/src/main.cpp:2712-2720 | an accepted tree with a hash more, eight bits more, or its last hash gone is rejected |
| `MerkleStream.ReceiveAndExtract` | Bitcoin/bitcoin/src/main.h:550-560 | from received bytes to the root and matched txids of the partial tree they hold, or the null hash |
| `BlockTree.CChain.SetTip` | Bitcoin/bitcoin/src/main.cpp:348-359 | the early exit still leaves exactly the ancestors of the new tip |
| `BlockTree.CChain.GetLocator` | Bitcoin/bitcoin/src/main.cpp:361-386 | lists the ancestors at the locator heights, whether the block is on the chain or off it |
| `BlockTree.LocatorDescends` | Bitcoin/bitcoin/src/main.cpp:368-383 | the heights descend strictly and end in genesis |
| `BlockTree.LocatorIsShort` | Bitcoin/bitcoin/src/main.cpp:361-386 | beyond eleven entries, each further one takes twice the height |
| `BlockTree.LocatorShape` | Bitcoin/bitcoin/src/main.cpp:361-386 | twelve consecutive heights, then steps that double until genesis |
| `BlockTree.CChain.FindFork` | Bitcoin/bitcoin/src/main.cpp:388-400 | the first locator entry on this chain, or genesis, or none on an empty chain |
| `BlockTree.ForkOfHeights` | Bitcoin/bitcoin/src/main.cpp:388-400 | for another tip's locator this is the ancestor at the first locator height at or below the true fork |
| `BlockTree.FindForkIsNear` | Bitcoin/bitcoin/src/main.cpp:388-400 | the block found is a common ancestor at most twice as far from the other tip as the true fork |
| `BlockTree.ChainPrefix` | Bitcoin/bitcoin/src/main.h:999-1031 | every entry of a chain sits at its own height, above exactly its ancestors |
| `BestChain.ChainManager.FindMostWorkChain` | Bitcoin/bitcoin/src/main.cpp:2023-2072 | makes chainMostWork the greatest candidate with no failed ancestor, the one of most work, earliest arrival and smallest address; a failed tip can survive it only when a candidate has been struck off |
| `BestChain.ChainManager.MarkDescendants` | Bitcoin/bitcoin/src/main.cpp:2045-2057 | marks exactly the blocks above the failed one, up to the candidate, as failed children and strikes the candidate off; no block is marked but those a remembered failure rules out |
| `BestChain.ChainManager.FirstFailed` | Bitcoin/bitcoin/src/main.cpp:2045-2059 | stopping at the active chain misses no failed ancestor |
| `BestChain.ChainManager.DisconnectActive` | Bitcoin/bitcoin/src/main.cpp:2086-2089 | disconnects down to the fork with chainMostWork and no further: what is left is the longest common prefix, unless a block above it cannot be disconnected |
| `BestChain.ChainManager.ConnectBest` | Bitcoin/bitcoin/src/main.cpp:2092-2107 | connects up to the first block of the path that does not connect, whose outcome decides the result; unless the failure is flagged, there is one candidate fewer |
| `BestChain.ChainManager.InvalidBlockFound` | Bitcoin/bitcoin/src/main.cpp:1436-1453 | a block that broke a rule is marked and struck off, and all invariants stay |
| `BestChain.ChainManager.Round` | Bitcoin/bitcoin/src/main.cpp:2078-2108 | each round that must be repeated strikes a candidate off, except when the greatest eligible block has a failure on its path that is flagged as possible corruption: then every round must be repeated, and soon nothing changes any more |
| `BestChain.ChainManager.Rounds` | Bitcoin/bitcoin/src/main.cpp:2075-2108 | given undo data, the loop is still not through after more rounds than there are candidates if and only if the first bad block on the path to the greatest eligible block is flagged as possible corruption; then it never gets through |
| `BestChain.DamagedBlock` | Bitcoin/bitcoin/src/main.cpp:2095-2101 | one block whose data is damaged is such an input |
| `BestChain.ChainManager.FateIsFirst` | Bitcoin/bitcoin/src/main.cpp:2092-2107 | what becomes of a block is decided by the first block on its path that does not connect |
| `BestChain.ChainManager.EligibleUnmarked` | Bitcoin/bitcoin/src/main.cpp:2043-2066 | an eligible block, one that no unflagged failure rules out, is a candidate and has no marked ancestor: the marks say nothing that outcomes do not |
| `BestChain.ChainManager.ActivateBestChain` | Bitcoin/bitcoin/src/main.cpp:2075-2120 | returns unless the greatest eligible block has a failure on its path that is flagged as possible corruption; on success the active chain is chainMostWork and its tip comes first among the eligible blocks by work, then arrival, then address; no active block is marked failed, and the tip's work is not below the old tip's; given undo data, it fails only if a system error is on that path |
| `BestChain.ChainManager.BestActiveMeans` | Bitcoin/bitcoin/src/main.cpp:2075-2120 | with the best chain active, no active block is failed and no eligible old tip had more work |
| `BestChain.ChainManager.BestActiveIsFirst` | Bitcoin/bitcoin/src/main.cpp:2075-2120 | the best chain is active exactly when the tip comes first among the eligible blocks |
| `BestChain.ChainManager.ActiveConnects` | Bitcoin/bitcoin/src/main.cpp:2041-2042 | blocks of the active chain connect all the way and are never marked failed, which justifies the shortcut of the search |
| `BestChain.GreatestExists` | Bitcoin/bitcoin/src/main.cpp:77-96 | on every non-empty set the order has a greatest element: of most work, among those of earliest arrival, among those of smallest address |
| `BestChain.GreatestComesFirst` | Bitcoin/bitcoin/src/main.cpp:77-96 | being greatest in the order is exactly that |
| `BestChain.AddRival` | Bitcoin/bitcoin/src/main.cpp:2122-2151 | a later arrival of no more work than the active tip leaves the active chain as it is |
| `BestChain.ChainManager.Insert` | Bitcoin/bitcoin/src/main.cpp:2122-2151 | adding a block to the index keeps all invariants, with its links, height, work, sequence and address as given |
| `Outcomes.FateIsReplay` | Bitcoin/bitcoin/src/main.cpp:1974-1996 | where the outcome of each block is that of ConnectBlock on its ancestors' coins, a block connects all the way exactly when its path replays |
| `Outcomes.OutcomeInEveryRun` | Bitcoin/bitcoin/src/main.cpp:1932-2019 | whatever was connected and disconnected before, a node at a block's parent meets the outcome taken as given |
| `Outcomes.BestReplays` | Bitcoin/bitcoin/src/main.cpp:2075-2120 | with the best chain active, its tip is the greatest of all blocks whose path replays |
| `Outcomes.QueueJoinsChecks` | Bitcoin/bitcoin/src/main.cpp:1767-1829 | the checks of a block joined in the shared queue, by any threads in any interleaving, give what checking them in turn gives |
| `CheckQueue.CCheckQueue.StartRound` | Bitcoin/bitcoin/src/checkqueue.h:71-82 | accounts for the finished batch in the critical section, telling the master when it was the last |
| `CheckQueue.CCheckQueue.Proceed` | Bitcoin/bitcoin/src/checkqueue.h:84-112 | returns, sleeps or takes a batch off the end of the queue as Decide says |
| `CheckQueue.CCheckQueue.Add` | Bitcoin/bitcoin/src/checkqueue.h:138-149 | enqueues all checks and counts them |
| `CheckQueue.CCheckQueue.ExecuteBatch` | Bitcoin/bitcoin/src/checkqueue.h:114-118 | the result is the conjunction of the old one and the batch; the checks run are all of them, or those up to the first that fails, or none after an earlier failure |
| `CheckQueue.RunInv` | Bitcoin/bitcoin/src/checkqueue.h:63-149 | in every interleaving of any number of threads, nTodo counts queued and held checks, each added check is queued, held or checked exactly once, nIdle and nTotal count the threads, and no wakeup is lost |
| `CheckQueue.EveryWaitIsConjunction` | Bitcoin/bitcoin/src/checkqueue.h:84-93 | in every run, whenever Wait returns, every check added since the last reset has been accounted for and the result is their conjunction |
| `CheckQueue.WaitIsConjunction` | Bitcoin/bitcoin/src/checkqueue.h:84-93 | the same from any state with the invariant |
| `CheckQueue.MasterSleepsSafely` | Bitcoin/bitcoin/src/checkqueue.h:76-97 | while the master sleeps unnotified the queue is empty and a worker holds a batch |
| `CheckQueue.UnusedBetweenScopes` | Bitcoin/bitcoin/src/checkqueue.h:166-173 | between scopes the controller's three assertions hold |
| `CheckQueue.WorkRunsOut` | Bitcoin/bitcoin/src/checkqueue.h:69-119 | no step but Add adds work, and every step of a thread with a batch removes some: after n checks at most 2n such steps remain |
| `CheckQueue.TakeMoves` | Bitcoin/bitcoin/src/checkqueue.h:103-112 | taking a batch loses and duplicates no check |
| `CheckQueue.DecideMeans` | Bitcoin/bitcoin/src/checkqueue.h:84-112 | a thread leaves only when nothing is left to do, sleeps only when there is nothing to take, and otherwise takes a batch of the size due off the end of the queue, with the result so far |
| `CheckQueue.BatchSizeExact` | Bitcoin/bitcoin/src/checkqueue.h:98-103 | a batch is the greatest even share of the queue within the limit, or one check |
| `CheckQueue.AddWakes` | Bitcoin/bitcoin/src/checkqueue.h:138-149 | two checks or more wake every sleeping worker, one wakes the one picked |
| `AddrMan.CAddrMan.Create` | Bitcoin/bitcoin/src/addrman.cpp:96-106 | a new entry in the table, the index and the random order, and nothing else |
| `AddrMan.CAddrMan.SwapRandom` | Bitcoin/bitcoin/src/addrman.cpp:108-126 | exchanges two places of the random order and both entries' positions |
| `AddrMan.ShuffleFront` | Bitcoin/bitcoin/src/addrman.cpp:128-150 | the loop takes four draws, or as many as the bucket has entries if those are fewer, permutes the bucket by them and records the position as Scanned says, in range |
| `AddrMan.Scanned` | Bitcoin/bitcoin/src/addrman.cpp:128-150 | the bucket is permuted, the position is in range, and the oldest entry drawn stands in its slot |
| `AddrMan.SelectsOldestIff` | Bitcoin/bitcoin/src/addrman.cpp:138-146 | for all draws, the entry selected is as old as any inspected if and only if the first oldest one inspected was left in place by its draw, or the entry now standing where it was drawn from is no younger |
| `AddrMan.SelectionCanMiss` | Bitcoin/bitcoin/src/addrman.cpp:128-150 | from a full bucket whose second entry is older than its first, third and fourth, the draws 1, 0, 0, 0 select the first |
| `AddrMan.CAddrMan.SelectTried` | Bitcoin/bitcoin/src/addrman.cpp:128-150 | four draws rearrange a full bucket, and the position given up is the one that the first oldest entry drawn was drawn from |
| `AddrMan.EvictsOldestIff` | Bitcoin/bitcoin/src/addrman.cpp:138-146 | the condition of SelectsOldestIff, for an eviction |
| `AddrMan.CAddrMan.ShrinkNew` | Bitcoin/bitcoin/src/addrman.cpp:152-204 | drops one reference: of the first terrible entry, or else of the one seen longest ago among those at four positions drawn; the tables stay consistent |
| `AddrMan.OldestOfFour` | Bitcoin/bitcoin/src/addrman.cpp:178-190 | of the ids at the up to four positions drawn in the bucket's order, the one seen longest ago, and the smallest of those on a tie |
| `AddrMan.CAddrMan.MakeTried` | Bitcoin/bitcoin/src/addrman.cpp:206-262 | moves an entry from all its new buckets to its tried bucket, whatever its times; a full bucket gives up the entry that four draws select, to its own new bucket or, if that is full, to the place left behind |
| `AddrMan.CAddrMan.Good` | Bitcoin/bitcoin/src/addrman.cpp:264-311 | an exactly known service becomes tried with fresh statistics; no entry is lost, and at most one other falls back, the one that four draws select from a full bucket, as old as any of the four exactly under the condition of SelectsOldestIff; the tables stay consistent if and only if the time is positive or the service is not known |
| `AddrMan.CAddrMan.FindBucket` | Bitcoin/bitcoin/src/addrman.cpp:287-302 | the search from a random start finds a bucket of every new entry |
| `AddrMan.CAddrMan.Add` | Bitcoin/bitcoin/src/addrman.cpp:313-368 | an offered address has an entry afterwards, new exactly if it was unknown; at most one other entry is lost, referenced only from the full bucket; tried buckets are untouched |
| `AddrMan.KnownTimeKeepsUp` | Bitcoin/bitcoin/src/addrman.cpp:323-330 | after an offer the known time is at most an hour and the penalty behind it, or a day for an old offer; it never goes back, and moves only from further behind |
| `AddrMan.WorthAnother` | Bitcoin/bitcoin/src/addrman.cpp:332-347 | an entry with n references gains another from a newer offer exactly when a draw out of 2^n is 0, and not if tried or at the limit |
| `AddrMan.TerribleMeans` | Bitcoin/bitcoin/src/addrman.cpp:40-58 | which entries give way first |
| `AddrMan.CAddrMan.Attempt` | Bitcoin/bitcoin/src/addrman.cpp:370-387 | updates an exactly known service and nothing else; the tables stay consistent if and only if the time is not negative or the service is not known |
| `AddrMan.CAddrMan.Connected` | Bitcoin/bitcoin/src/addrman.cpp:509-527 | moves the time of an exactly known service on when it is more than 20 minutes old |
| `AddrMan.CAddrMan.GetAddr` | Bitcoin/bitcoin/src/addrman.cpp:493-507 | 23 per cent of the entries, at most 2500, with pairwise different addresses; only the random order changes |
| `AddrMan.CAddrMan.Check` | Bitcoin/bitcoin/src/addrman.cpp:434-490 | the consistency check returns 0 in every state the other operations can leave |
| `AddrMan.StrikeTried` | Bitcoin/bitcoin/src/addrman.cpp:463-472 | every tried id is found in the buckets exactly once |
| `AddrMan.StrikeNew` | Bitcoin/bitcoin/src/addrman.cpp:474-484 | every new id is found exactly as often as its reference count says |
| `AddrMan.CheckEntry` | Bitcoin/bitcoin/src/addrman.cpp:444-458 | finds no fault with an entry if and only if it agrees with the index, the random order and the limits |
| `AddrMan.TriedCount` | Bitcoin/bitcoin/src/addrman.cpp:460-461 | nTried and nNew count the tried and the new entries |
| `AddrMan.EntriesAreBounded` | Bitcoin/bitcoin/src/addrman.h:129-138 | every entry is listed once, and there are at most 64*64 + 256*64 of them |
| `AddrMan.DropRefConsistent` | Bitcoin/bitcoin/src/addrman.cpp:163-173 | dropping a reference, and with the last one the entry, keeps all structures in agreement |
| `AddrMan.PromoteConsistent` | Bitcoin/bitcoin/src/addrman.cpp:208-231 | moving an entry to a tried bucket with room keeps them in agreement |
| `AddrMan.ReplaceConsistent` | Bitcoin/bitcoin/src/addrman.cpp:233-261 | exchanging it for a tried entry does too |
| `AddrMan.CreateConsistent` | Bitcoin/bitcoin/src/addrman.cpp:350-354 | so does a new entry that waits for its bucket |
| `AddrMan.FillConsistent` | Bitcoin/bitcoin/src/addrman.cpp:359-366 | and filling the bucket settles it |
| `AddrMan.CAddrMan.constructor` | Bitcoin/bitcoin/src/addrman.h:383-391 | an empty manager is consistent |
| `AddrManCodec.Write` | Bitcoin/bitcoin/src/addrman.h:280-318 | writes every entry, new ones first, and every new bucket by index, each as long as the bucket; the early ends of both loops lose nothing |
| `AddrManCodec.Read` | Bitcoin/bitcoin/src/addrman.h:319-377 | reading what a consistent manager wrote gives a consistent one, isomorphic to it: same entries, reference counts and new buckets up to renaming, same tried buckets up to order, none lost |
| `AddrManCodec.ReadNew` | Bitcoin/bitcoin/src/addrman.h:328-340 | ids, index and random order of the new entries, placed by their own source when the number of buckets has changed |
| `AddrManCodec.ReadTried` | Bitcoin/bitcoin/src/addrman.h:342-361 | each tried bucket gets its share of the entries up to 64, the rest is counted as lost; where all shares fit, nothing is lost |
| `AddrManCodec.ReadBuckets` | Bitcoin/bitcoin/src/addrman.h:362-376 | the new buckets and reference counts are those of the stored lists where no index is listed in more than four |
| `AddrManCodec.ReadBackIsomorphic` | Bitcoin/bitcoin/src/addrman.h:255-269 | what is rebuilt from the stored parts is consistent and isomorphic |
| `AddrManCodec.TriedFit` | Bitcoin/bitcoin/src/addrman.h:348-359 | the tried entries of a consistent manager fit their buckets again |
| `CoinsCodec.VarIntIsBijective` | Bitcoin/bitcoin/src/serialize.h:241-258 | a stream reads as n if and only if it starts with the encoding of n: one encoding a number, none wasted |
| `CoinsCodec.WriteVarInt` | Bitcoin/bitcoin/src/serialize.h:277-292 | writes that encoding; of a negative number only the low seven bits |
| `CoinsCodec.ReadVarInt` | Bitcoin/bitcoin/src/serialize.h:294-307 | reads digits to the first without the continuation bit |
| `CoinsCodec.AmountsInverse` | Bitcoin/bitcoin/src/core.cpp:160-213 | compression and decompression of amounts are inverse to each other both ways |
| `CoinsCodec.AmountsFit` | Bitcoin/bitcoin/src/core.cpp:170-186 | up to MAX_MONEY a compressed amount stays below 9n + 10 and within 64 bits |
| `CoinsCodec.CompressAmount` | Bitcoin/bitcoin/src/core.cpp:170-186 | the loop strips trailing zeros up to exponent 9 |
| `CoinsCodec.DecompressAmount` | Bitcoin/bitcoin/src/core.cpp:188-213 | the loop puts them back |
| `CoinsCodec.CalcMaskSize` | Bitcoin/bitcoin/src/coins.cpp:12-28 | the mask ends with its last byte that is not zero, and the bytes that are not zero are counted |
| `CoinsCodec.TrimmedMask` | Bitcoin/bitcoin/src/coins.h:68-98 | the mask of a trimmed vector spans all its outputs: no byte of it is left off |
| `CoinsCodec.Serialize` | Bitcoin/bitcoin/src/coins.h:159-185 | writes the stored form of every coin that is not pruned; the assertion that something is left holds |
| `CoinsCodec.Unserialize` | Bitcoin/bitcoin/src/coins.h:188-219 | reads a coin and trims it, or fails at the end of the stream |
| `CoinsCodec.CoinRoundTrip` | Bitcoin/bitcoin/src/coins.h:159-219 | every trimmed, unpruned coin with canonical nulls comes back, exactly its own tokens are consumed, and it is the coin it was if and only if its version is not negative |
| `CoinsCodec.MaskRead` | Bitcoin/bitcoin/src/coins.h:199-209 | a mask is read to exactly its end |
| `CoinsCodec.UndoRoundTrip` | Bitcoin/bitcoin/src/core.h:305-320 | an undo record comes back if and only if its height is above 0 and its version not negative, or its height is 0 and the version was there already |
| `Base58.ConvertInverts` | Bitcoin/bitcoin/src/base58.h:33-125 | changing base and back, leading zeros kept, is the identity on all digit strings, for any two bases |
| `Base58.DecodesEncodings` | Bitcoin/bitcoin/src/base58.h:81-125 | a string decodes to given bytes if and only if it is their encoding between two stretches of white space: each of encoding and decoding undoes the other |
| `Base58.EncodeBase58` | Bitcoin/bitcoin/src/base58.h:33-71 | computes the base-58 string through the big-number conversions |
| `Base58.DecodeBase58` | Bitcoin/bitcoin/src/base58.h:81-125 | fails exactly on strings of another form, and otherwise gives the bytes |
| `Base58.TrimmedSign` | Bitcoin/bitcoin/src/base58.h:112-114 | the sign byte trimmed off is exactly the one getvch adds |
| `Base58.SetVchPositive` | Bitcoin/bitcoin/src/base58.h:39-47 | the extra zero byte makes the number positive |
| `Base58.RepVal` | Bitcoin/bitcoin/src/bignum.h:260-270 | reading digits and writing the number again drops the leading zeros only |
| `Compact.GetCompact` | Bitcoin/bitcoin/src/bignum.h:313-335 | mantissa and exponent with room for the sign bit |
| `Compact.SetCompact` | Bitcoin/bitcoin/src/bignum.h:294-311 | the number a compact form stands for |
| `Compact.DecodedIsExact` | Bitcoin/bitcoin/src/bignum.h:294-335 | no number that a compact form stands for changes when it is compressed again |
| `Compact.TruncationIsClose` | Bitcoin/bitcoin/src/bignum.h:294-335 | a target after the round trip is d <= t with (t - d) * 2^15 <= d |
| `Compact.TruncationIsIdempotent` | Bitcoin/bitcoin/src/bignum.h:294-335 | a second round trip changes nothing, in the number or its compact form |
| `Compact.TruncationIsMonotone` | Bitcoin/bitcoin/src/bignum.h:294-335 | the round trip is monotone |
| `Compact.SignBitMoves` | Bitcoin/bitcoin/src/bignum.h:316-330 | shifting once more when the top bit is set gives the normal form |
| `Compact.RetargetIsBounded` | Bitcoin/bitcoin/src/main.cpp:1252-1267 | a retarget gives at most the limit and four times the old target, and at least a quarter of it or the limit, as the compact form rounds them |
| `Compact.RetargetLaw` | Bitcoin/bitcoin/src/main.cpp:1252-1267 | the new target is the old one times the time taken, kept within a factor of four, over two weeks, rounded down and capped |
| `Compact.RetargetIsMonotone` | Bitcoin/bitcoin/src/main.cpp:1252-1267 | the longer an interval took, the easier the next |
| `Compact.RetargetKeeps` | Bitcoin/bitcoin/src/main.cpp:1252-1267 | an interval of exactly two weeks leaves the target as it is |
| `Compact.GetNextWorkRequired` | Bitcoin/bitcoin/src/main.cpp:1216-1275 | the required difficulty, on the main net and the test net; the first block of the interval is always found |
| `Compact.TargetsStayInRange` | Bitcoin/bitcoin/src/main.cpp:1216-1275 | on any chain that follows the rule, whatever its timestamps, no target is negative or above the limit, and consecutive main-net targets are within a factor of four but for rounding |
| `Compact.ChainRetargets` | Bitcoin/bitcoin/src/main.cpp:1244-1267 | on a chain that follows the rule, every 2016th block is retargeted by the time from the first to the last block of the interval before |
| `Compact.ChainKeepsDifficulty` | Bitcoin/bitcoin/src/main.cpp:1224-1242 | on the main net the blocks between have the difficulty of the last retarget |
| `Compact.TestNetDifficulty` | Bitcoin/bitcoin/src/main.cpp:1224-1242 | on the test net a block more than twenty minutes late has the least difficulty, and any other that of the last block which did not come by it in this way |
| `Compact.WorkOrdersTargets` | Bitcoin/bitcoin/src/main.h:813-820 | a block adds work exactly when its target is positive and below 2^256, and a lower target never adds less |
| `Compact.WorkIsQuotient` | Bitcoin/bitcoin/src/main.h:813-820 | the work is 2^256 over one more than the target, rounded down |
| `KnownForms.FirstExample` | Bitcoin/bitcoin/src/coins.h:33-47 | the stored form of the first coin the comment gives |
| `KnownForms.SecondExample` | Bitcoin/bitcoin/src/coins.h:50-69 | the stored form of the second |
| `KnownForms.KnownAmounts` | Bitcoin/bitcoin/src/test/compress_tests.cpp:37-45 | compressed amounts |
| `KnownForms.KnownTargets` | Bitcoin/bitcoin/src/test/bignum_tests.cpp:127-204 | decoded compact forms |
| `KnownForms.KnownCompacts` | Bitcoin/bitcoin/src/test/bignum_tests.cpp:127-204 | encoded numbers |
| `KnownForms.KnownStrings` | Bitcoin/bitcoin/src/test/data/base58_encode_decode.json:10 | a base-58 string, with and without a leading zero |

## Left out

- Script interpretation, signatures, hashing and the compressed special scripts: parameters, or one token of a stream.
- The checks of a block by itself (`CheckBlock`), signature-operation counts and the test whether a script is unspendable beyond its first opcode: parameters, or the first opcode alone.
- The two blocks exempt from BIP30 and the genesis block's coins: a replay starts after the genesis block with no coins, and overwriting is always refused.
- Validation.DisconnectBlock: does not say what an unclean disconnect leaves in the view; its callers throw that layer away.
- ChainState.Chain.ConnectTip: disk and database errors abort the run and are not modelled; the memory pool, the wallet and notifications are not either.
- ChainState.Chain.DisconnectTip: the genesis block is never disconnected; the original would dereference a null pointer there.
- Validation.ConnectBlock: always applies the block, as with fJustCheck off, and a genesis block is not connected. What remains of CheckBlock is a parameter.
- Supply.SupplyNeverExceedsMaxMoney: stops at 64 halvings, since shifting a 64-bit integer further is undefined in the original.
- CoinsViews.CoinsView.BatchWrite: the database is a bottom layer that holds a map; batching and failures of LevelDB are not modelled, nor is what its stored form loses of negative versions, which `CoinRoundTrip` states.
- BestChain.ChainManager.ActivateBestChain: requires that the loop ends, by the condition that `Rounds` shows to be exact where every block can be disconnected.
- `pindexBestInvalid`, warnings, block files and the memory pool are not modelled.
- CheckQueue.RunInv: shutting down and interruption of threads are not modelled; one master at a time, as the controller's scope ensures. That a notified thread eventually runs is fairness of the scheduler and not stated.
- CheckQueue.WorkRunsOut: bounds the steps that remain and does not claim that they are taken.
- AddrMan.CAddrMan.Add: whether the address is routable and the adjusted time are parameters; service bits are a set; ids do not wrap around.
- AddrManCodec.Read: says nothing of what an archive written by no consistent manager becomes, beyond where reading fails; counts are natural numbers. The stored key is represented by the hash functions it selects.
- AddrManCodec.ReadNew: with a changed number of new buckets the original does not limit their size, and neither does the model.
- `Select_` and `GetChance`: floating point.
- CoinsCodec.CoinRoundTrip: a script is one token, and integers are unbounded; values of money fit 64 bits by `AmountsFit`.
- Base58.EncodeBase58: the check sum of `EncodeBase58Check` and address prefixes are not modelled.
- Compact.TruncationIsClose: holds for exponents below 256, far above any 256-bit target; larger numbers lose their exponent in the 8 bits kept for it.
- Compact.TargetsStayInRange: gives no positive lower bound on targets; a retarget may round down to 0. `ComputeMinWork` is not modelled.
- Orphan transactions, block download, peers, filters, alerts, checkpoints, wallet, RPC and user interface: not part of this model.
