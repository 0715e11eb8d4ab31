# MemoryCoin: verified models of its core

A Dafny model of the parts of MemoryCoin (a fork of Bitcoin 0.8.5 with an on-chain election and a memory-hard proof of
work) where state is hardest to keep right, and proofs about it. `dafny verify dfyconfig.toml` checks everything.

Code that changes state is modelled by classes and loops that change it in place, each proved against a function or
predicate; what the code promises is then proved about those. The main results, by component:

- **Coins under connection, disconnection and reorganisation** (`CoinTypes`, `Utxo`, `Spending`, `BlockChecks`,
  `CoinsView`, `BlockConnect`, `BlockDisconnect`, `BlockTree`, `ChainState`, `ChainRuns`, `VerifyDb`, `UndoReport`).
  After any calls of `SetBestChain`, accepted or refused, the unspent set is the replay of the active branch from
  genesis, undo data written at any time is still right, and the `pnext` links are exactly the active branch. The
  check at start-up never gives a false alarm. A transaction applies exactly when its inputs are unspent and mature
  and cover its outputs. A block can be undone exactly when it overwrote nothing, and an undo that loses coins is
  noticed exactly when something had been spent from what was overwritten.
- **Supply and coinbase** (`Sums`, `Supply`, `Subsidy`, `Coinbase`, `BlockTree`, `ChainRuns`). Value is conserved by
  transactions and blocks; after any run the total stays within the premine, the subsidies and the grants; nobody but
  the winners of the grants gets more than subsidy and fees.
- **Grant election** (`Names`, `Election`, `PairElection`, `GrantElection`). It ends; a solid coalition with the
  quota, hence any majority, gets one of its own; with candidates listed twice on a ballot that still holds for one or
  two candidates and fails for three.
- **Grant database** (`GrantVotes`, `GrantBalances`, `GrantChain`, `GrantPayees`, `AddressText`). What a transaction
  does to every ballot follows from its outputs. The balances that weigh the votes are what the addresses hold in the
  unspent outputs of the branch, never negative and within 64 bits; the table in memory is the one of the branch below
  the award block; a coinbase can pay it exactly when nobody is awarded an address that does not exist, so the chain
  of the test net ends below its first award block.
- **Address manager** (`AddrTables`, `AddrMan`, `AddrSelect`, `AddrRuns`, `AddrMeaning`, `AddrCheck`, `AddrFile`,
  `AddrRoundTrip`, `AddrRebucket`, `AddrOverfull`). Every operation keeps five redundant tables consistent; the random
  choice of an address ends, with the first draw below the chance of its entry; after a success nothing is held
  against an entry; `Check_` is compared with that invariant in both directions; a saved manager comes back complete,
  and from a file with another number of buckets it comes back consistent exactly when no bucket is overfilled.
- **Check queue** (`CheckQueue`). Over all interleavings: the verdict is the conjunction, no deadlock, termination;
  from any state some run ends the wait.
- **Merkle trees and partial trees** (`Merkle`, `PartialTree`, `PartialShape`), along BIP 37, section "Partial Merkle
  branch format". The encodings accepted are exactly the listings of cut-off trees, and match only ids of the block.
- **Memory pool** (`MemPool`, `MemPoolReorg`, `PoolMaturity`, `PoolChain`, `PoolRuns`, `PoolDepth`). A transaction is
  accepted exactly when chain or pool offer its inputs and they cover its outputs. The index is exact and removal
  takes exactly the descendants. After any blocks, offers and reorganisations of fewer than 60 blocks the pool fits
  the coins and spends nothing immature; for any reorganisation the condition is exact, and one of 60 blocks breaks
  it.
- **Codecs** (`VarInt`, `Amounts`, `ScriptCodec`, `CoinsCodec`, `CodecMeaning`, `Vectors`, `Base58`), **framing**
  (`NetFraming`, `NetNode`), **compact targets and retargeting** (`Compact`, `Retarget`), **proof-of-work search**
  (`Words`, `Momentum`), **pool shares** (`ShareList`), **page locks** (`LockedPages`). `Basics`, `Sums`, `Names` and
  `Quotients` hold what several share.

How the model stands for the code:

- A coin map holds only records with something unspent, so "equal up to pruned records" is equality. `CoinsView.Norm`
  is the passage from what the caches hold, blank records included, to that map.
- Hashes, txids and addresses are plain values. Hypotheses about hash functions are stated where they are used: an
  injective pair hash (`Merkle.Injective`), ids that commit to their transactions (`MemPool.Genuine`).
- Script checks and sigop limits are a verdict that may only reject (`Env.accepts` and the `oracle` of `MemPool`); the
  award table a block is checked against is `Env.grantAwards`, the text of a script's address `Env.textOf`; what a
  previous output paid and to whom is a function of the outpoint (`source` in `GrantVotes`). Clocks, random numbers
  and what a socket takes are parameters or arbitrary choices.
- Threads are interleaved at the steps between lock releases (`CheckQueue`) or at one unit of work (`Momentum`, where
  the filling threads write disjoint chunks and the searching threads only read).
- Integers are unbounded. Where the width matters it is written out: the exponent byte of a compact target, the 32-bit
  share totals, the places a VARINT needs, the negative values a VARINT loses, the 64-bit products of an amount.
- Chances of addresses are real numbers (`AddrSelect`).
- A `requires` that names an invariant is established by the constructors and kept by every operation of its class.

Where the code does not do what it or its comments suggest, the model follows the code:

- Blocks exempt from BIP 30 (section "Specification") that do reuse an unspent id cannot be disconnected cleanly:
  `Utxo.UndoTxsExact` is the exact condition, `BlockTree.ExemptBlockCannotBeUndone` an instance. The loss can go
  unreported: `UndoReport.UndoReports` says exactly when.
- A transaction that spends a disconnected coinbase stays in the memory pool without its input. It takes a
  reorganisation of 60 blocks, `PoolDepth.DeepSwitch`, and fewer never do it, `PoolChain.GentleSwitch`;
  `PoolChain.SwitchChain` has the exact condition on the pool before the switch.
- On the test net no address begins like a grant address, so nobody can vote, all grants go to an address nobody can
  pay, and no branch is accepted as far as block 40: `GrantPayees.TestNetStops`. Anywhere else the grants can be paid
  if and only if that address exists or every office has a voter who holds coins: `GrantPayees.BranchPayableIff`.
- An address file with another number of buckets can overfill a new bucket: `AddrRebucket.RebucketedIff` is the exact
  condition, `AddrOverfull.Overfills` an instance reached by 66 calls.
- `Select_` with a bias of 100 and no new entries would never end: `AddrSelect.PicksFilledIff`.
- `FindBlockByHeight` follows a null link for a height off the active chain: `ChainState.Chain.FindBlockByHeight`.
- The flag bits of a partial tree can exceed 2N-1 (src/main.h:1191): `PartialTree.BuildAllSize`,
  `PartialTree.FlagBitsExceedTheComment`.
- `eliminateCandidate` strikes one preference per ballot, so a candidate listed twice survives, and three candidates a
  majority ranks first can all lose: `Election.ListedTwiceBreaksTheCriterion`. It cannot happen to sets of one or two,
  `PairElection.PairWins`, nor where ballots list each member once, `Election.CoalitionWins`.
- `Good_` with a time of 0 or less breaks what `Check_` asks: `AddrRuns.GoodKeepsTimes`. `Check_` does not look at
  stale keys of mapAddr, bucket sizes, bucket choice or the range of ids: `AddrCheck.CheckedIsGood`, and
  `AddrCheck.StaleKeyPasses` for the first of these.
- A negative version is not restored by the coin codec: `CoinsCodec.CoinsBack`.
- The bytes that a comment gives for 16511 and 65535 (src/serialize.h:255-256) are those of other numbers:
  `Vectors.NumberVectors`.
- From a target of 1 a fast window leads to a target of 0, which no block meets: `Retarget.StaysInRangeIff`.
- With more than 2^14 threads the proof-of-work search returns nothing: `Momentum.MomentumSearch`.

## Model

| member | source | states |
|---|---|---|
| `CoinTypes.UnspendUndoesSpend` | src/main.h:1042-1056 | for every clean record and available output, restoring what `Spend` took with its own undo record gives the record back (height, coinbase flag and version included) and looks clean |
| `CoinTypes.SpendIs` | src/main.h:1042-1056 | spending succeeds exactly on an output that is there, leaves the others as they were, and puts height, kind and version into the undo record exactly with the last one |
| `CoinTypes.Cleaned` | src/main.h:905-910 | dropping trailing spent outputs leaves a prefix whose last output is unspent and loses no unspent output |
| `CoinsView.CCoins.Cleanup` | src/main.h:905-910 | the loop leaves exactly the outputs up to the last unspent one |
| `CoinsView.CCoins.Spend` | src/main.h:1042-1056 | the object after spending and the undo record are the specified ones; a failed spend changes nothing |
| `Utxo.SpendAllSucceeds` | src/main.cpp:1596-1607 | the assertion in UpdateCoins holds: inputs that are all there and pairwise different can all be spent |
| `Utxo.SpendAllLeaves` | src/main.cpp:1596-1607 | spending some outputs leaves every other unspent output as it was |
| `Utxo.SpendAllGone` | src/main.cpp:1596-1607 | an output that is unspent after spending a list was unspent before and is not in the list |
| `Utxo.UndoTxUndoes` | src/main.cpp:1750-1806 | undoing one transaction that overwrote nothing restores the whole coin map and reports clean |
| `Utxo.ApplyTxsWf` | src/main.cpp:1907-1975 | a connected block leaves well-formed coins, undo records that hold real outputs, and no new record but those of its transactions |
| `Utxo.Bip30IsFresh` | src/main.cpp:1868-1888 | the BIP 30 check before the loop, with unique ids, excludes every overwrite inside the loop, also of transactions created and spent in the block |
| `Utxo.UndoTxsUndoes` | src/main.cpp:1728-1813 | disconnecting a block with the undo data of its own connection restores the coin map exactly and reports clean, including in-block spends and several inputs from one transaction |
| `Utxo.OverwriteLoses` | src/main.cpp:1868-1888 | when the last transaction overwrites unspent outputs of its own id, one of them is still missing after the undo |
| `Utxo.UndoTxsExact` | src/main.cpp:1728-1813 | exact condition: the undo restores the coins if and only if no transaction of the block overwrote unspent outputs of its own id at its turn, and then it reports clean |
| `Utxo.UndoTxsAlike` | src/main.cpp:1728-1813 | the outputs after an undo, clean or not, depend on the outputs before it alone, not on heights, versions or coinbase flags |
| `Utxo.CleanFits` | src/main.cpp:1769-1770 | an undo that looks clean had one record for every input |
| `UndoReport.UndoTxSilent` | src/main.cpp:1750-1806 | a transaction that overwrote unspent outputs of its own id without spending any of them first is undone, looks clean, and the old record is gone |
| `UndoReport.UndoTxNoticed` | src/main.cpp:1780-1791 | one that had spent some of them first does not look clean |
| `UndoReport.SilentLoss` | src/main.cpp:1728-1813 | a block whose overwritten records nobody spent from up to there: the undo looks clean and leaves the old coins without exactly those records |
| `UndoReport.LossNoticed` | src/main.cpp:1728-1813 | in every other case of overwriting the undo does not look clean |
| `UndoReport.UndoReports` | src/main.cpp:1728-1813 | for every connected block: the undo looks clean if and only if nothing was spent from what was overwritten up to the overwriting transaction; it then leaves the old coins minus the overwritten records; it restores the coins if and only if there are none |
| `BlockChecks.WellFormedIff` | src/main.cpp:571-615 | the tests of a transaction on its own come to: some input and output, outputs worth 0 to 10,000,000 coins each and together, no input twice, a null one only as the single input of a coinbase |
| `BlockChecks.CheckTx` | src/main.cpp:571-615 | the checks, loop by loop, accept exactly such transactions |
| `BlockChecks.CheckVtx` | src/main.cpp:2371-2450 | the checks of the transactions of a block accept exactly: a coinbase first and nowhere else, every transaction well formed, no id twice |
| `Spending.CheckInputsIff` | src/main.cpp:1645-1690 | the tests with their running total come to: every input unspent, mature and in range, and together worth what the outputs are or more |
| `Spending.AppliesIff` | src/main.cpp:1596-1690 | on well-formed coins within the limit of money a transaction applies if and only if each input is unspent and, from a coinbase, 60 blocks deep, and together they are worth what the outputs are or more; the fee is the difference, 0 included |
| `Spending.FreeApplies` | src/main.cpp:1680-1684 | a transaction that leaves no fee applies |
| `Spending.AppliesTo` | src/main.cpp:1596-1610 | afterwards exactly these outputs are unspent: its own, and those of others that were and are not among its inputs; each says what it said, with height and kind of its record |
| `Utxo.ApplyTxsLeft` | src/main.cpp:1907-1975 | an older output unspent after a block was unspent before it and no transaction of the block spends it |
| `CoinsView.AtNorm` | src/main.cpp:222-250 | a cached record and the unspent set agree on everything a spender looks at |
| `CoinsView.NormErase` | src/txdb.cpp:12-17 | erasing records that have nothing left, as the database does, does not change what is unspent |
| `CoinsView.CoinsViewCache.FetchCoins` | src/main.cpp:234-244 | reading through the layers finds the record exactly where one is to be seen, and no reader of this view or its base notices |
| `CoinsView.CoinsViewCache.GetCoins` | src/main.cpp:222-250 | returns the record on view or a blank one, and agrees with the unspent set |
| `CoinsView.CoinsViewCache.SetCoins` | src/main.cpp:252-255 | changes one record of this view and nothing of its base |
| `CoinsView.CoinsViewCache.GetBestBlock` | src/main.cpp:261-265 | the tip is read through and cached unnoticed |
| `CoinsView.CoinsViewCache.SetBestBlock` | src/main.cpp:267-270 | changes the tip of this view, not the coins, and nothing of its base |
| `CoinsView.CoinsViewCache.BatchWrite` | src/main.cpp:272-277 | the written records replace those of the same ids; the others stay |
| `CoinsView.CoinsViewCache.BatchWriteDb` | src/txdb.cpp:56-67 | the database stores what a batch leaves unspent and drops the rest; the unspent set is that of the overwritten records |
| `CoinsView.CoinsViewCache.Flush` | src/main.cpp:279-284 | what this view showed is afterwards shown by the layer below, and the view shows the same |
| `CoinsView.BaseKept` | src/main.cpp:2048-2050 | changes to a layered view leave what its base shows |
| `BlockConnect.HaveInputs` | src/main.cpp:1612-1631 | true exactly when every input names an available output |
| `BlockConnect.GetValueIn` | src/main.cpp:1568-1579 | the loop adds up the values of the outputs named |
| `BlockConnect.CheckInputs` | src/main.cpp:1645-1692 | accepts exactly transactions whose inputs are unspent, mature and in range and worth what the outputs are or more |
| `BlockConnect.SpendInputs` | src/main.cpp:1598-1606 | the loop through the view spends all inputs in order and keeps the undo records in order |
| `BlockConnect.UpdateCoins` | src/main.cpp:1596-1610 | through the layered view, spends the inputs and stores the outputs exactly as specified, and returns the undo records |
| `BlockConnect.CheckBip30` | src/main.cpp:1868-1888 | true exactly when no transaction of the block has unspent outputs on view |
| `BlockConnect.ExemptIff` | src/main.cpp:1868-1879 | exactly two blocks, by height and hash, are exempt |
| `BlockConnect.ConnectTx` | src/main.cpp:1921-1968 | one round of the loop succeeds exactly when the inputs are unspent and mature and cover the outputs, with the difference as its fee; the coins move as `Spending.AppliesTo` says, and the undo records are the outputs spent |
| `BlockConnect.ConnectTxs` | src/main.cpp:1912-1975 | the loop succeeds exactly when every transaction applies in turn, with all undo records and fees |
| `BlockConnect.SumAwards` | src/main.cpp:1979-1998 | the loop over the award table adds up all awards |
| `BlockConnect.ConnectBlock` | src/main.cpp:1847-2040 | accepts exactly the blocks of the specification, the grants paid included, and then leaves its coins, undo data and best block in the view; a block that is just checked is held to BIP 30 and leaves the best block; the base of the view never changes |
| `BlockConnect.CheckCoinbase` | src/main.cpp:1953-2000 | true exactly when the coinbase pays the grants of an award block and keeps to subsidy, fees and grants, or is the premine at height 1 |
| `BlockConnect.WinnersGetTheirs` | src/main.cpp:1953-2000 | of an accepted award block at most subsidy and fees goes to anyone who has not won |
| `Coinbase.AwardsPaid` | src/main.cpp:1964-1988 | the count reaches the size of the table exactly when every winner has an output of exactly its award |
| `Coinbase.WinnersPaid` | src/main.cpp:1964-1988 | an output pays for one award only, so together the winners are paid at least the whole table |
| `Coinbase.MinerShare` | src/main.cpp:1964-1998 | a coinbase that pays the grants and keeps the limit leaves at most subsidy and fees to all others |
| `Coinbase.PayableIff` | src/main.cpp:1964-2006 | some coinbase that is well formed, pays the table and keeps the coinbase limit exists if and only if every name in the table is the text of the address of some script |
| `Coinbase.BuildCoinbase` | src/main.cpp:4478-4540 | the coinbase of CreateNewBlock passes the checks of ConnectBlock: it is within the limit, at height 1 if and only if the balances handed out make up the premine, and pays the grants when the winners' names are read back from their scripts |
| `BlockDisconnect.RemoveOutputs` | src/main.cpp:1750-1770 | the outputs of a transaction are gone afterwards, and the answer is whether they were all there unchanged |
| `BlockDisconnect.RestoreInput` | src/main.cpp:1773-1804 | one input comes back as specified when nothing looked wrong, and with the specified outputs in any case; the answer is whether nothing looked wrong |
| `BlockDisconnect.RestoreInputs` | src/main.cpp:1771-1805 | the loop from the last input to the first restores them all, clean or not |
| `BlockDisconnect.DisconnectTx` | src/main.cpp:1748-1806 | one transaction undone through the view, clean or not; it gives up exactly when there is not one undo record for every input |
| `BlockDisconnect.DisconnectBlock` | src/main.cpp:1728-1813 | fails exactly when the undo data does not fit or, for a caller that does not ask for the verdict, when something looked wrong; who asks gets the verdict; the outputs left are those of the specification in any case, the records as well when it is clean, and the parent is the best block |
| `BlockTree.AncestorParent` | src/main.h:1624-1632 | the parent of an ancestor is the ancestor one lower |
| `BlockTree.LastCommonIs` | src/main.cpp:2053-2065 | a block on both branches with no common block above it is where they part |
| `BlockTree.SameBelow` | src/main.cpp:2053-2065 | branches that share a block share everything below it |
| `BlockTree.ConnectTip` | src/main.cpp:2103-2118 | a block accepted on the coins of its parent extends the replay of the branch, and its undo data is right for every later disconnection |
| `BlockTree.DisconnectTip` | src/main.cpp:2083-2091 | with right undo data the coins of a branch go back, cleanly, to the coins of its parent |
| `BlockTree.NextOnBranch` | src/main.cpp:1064-1079 | following `pnext` goes one step up the active branch |
| `BlockTree.LinkedShorter` | src/main.cpp:2152-2155 | clearing the link of the parent leaves exactly the links of the shorter branch |
| `BlockTree.LinkedLonger` | src/main.cpp:2157-2160 | linking the parent to a block leaves exactly the links of the longer branch |
| `BlockTree.ReplayGrown` | src/main.cpp:2226-2251 | adding blocks to the index does not change the replay of the branches already there |
| `BlockTree.AcceptsFunded` | src/main.cpp:1976-2006 | a branch whose new blocks are accepted, its award blocks with the table of their heights, kept to the coinbase limit throughout |
| `BlockTree.SupplyBound` | src/main.cpp:1098-1126 | over a whole chain, total unspent value is at most the premine, subsidies and grants up to its height |
| `BlockTree.SwitchKeepsSupply` | src/main.cpp:2046-2147 | a switch to an accepted branch keeps that bound, whatever was disconnected; only the award blocks from the fork up need the right table |
| `BlockTree.ExemptBlockCannotBeUndone` | src/main.cpp:1868-1888 | a concrete block at an exempt height is accepted and cannot be undone: its own undo data leaves a different coin map |
| `ChainState.Chain.constructor` | src/main.cpp:2046-2050 | an index with only genesis and no coins satisfies the invariant |
| `ChainState.Chain.FindFork` | src/main.cpp:2052-2065 | the nested loops find the highest common block; no null parent is followed |
| `ChainState.Chain.Plan` | src/main.cpp:2067-2076 | the two lists are the branch down to the fork and the other branch up from it |
| `ChainState.Chain.DisconnectOne` | src/main.cpp:2083-2091 | a block with stored undo data is disconnected cleanly, to the coins of its parent |
| `ChainState.Chain.DisconnectBranch` | src/main.cpp:2083-2101 | disconnecting down to the fork always succeeds and leaves the coins of the fork |
| `ChainState.Chain.ConnectOne` | src/main.cpp:1847-2040 | connects one block, genesis included, and writes its undo data once |
| `ChainState.Chain.ConnectBranch` | src/main.cpp:2103-2123 | succeeds exactly when every block up the branch is accepted in turn; all undo data written stays right |
| `ChainState.Chain.SwitchView` | src/main.cpp:2083-2123 | disconnections and connections in the temporary view leave the replay of the new branch, and the base unchanged |
| `ChainState.Chain.QueueBlock` | src/main.cpp:2093-2100 | of a disconnected block above the last checkpoint exactly the transactions that are not coinbases go in front of the queue |
| `ChainState.Chain.Queue` | src/main.cpp:2083-2121 | the two queues for the memory pool: what the disconnected branch gives back, in the order of the branch, and all transactions of the connected one |
| `ChainState.Chain.Commit` | src/main.cpp:2125-2147 | flushing puts the coins and tip of the temporary view into the global one |
| `ChainState.Chain.Relink` | src/main.cpp:2149-2160 | the links are afterwards exactly those of the new branch |
| `ChainState.Chain.SetBestChain` | src/main.cpp:2046-2190 | for any index and any earlier calls: succeeds exactly when every block from the fork up is accepted on the replay of its own branch; the unspent set is then that replay, whatever the history, and the two queues for the memory pool are those of the two branches; a refused switch leaves coins, links and best block alone; undo data once written stays and stays right |
| `ChainState.Chain.AddToBlockIndex` | src/main.cpp:2226-2251 | a new block under a known parent gets the next height; everything proved of the chain still holds |
| `ChainState.Chain.FindBlockByHeight` | src/main.cpp:1064-1079 | from whichever start, following `pprev` or `pnext` arrives at the block of the active chain with that height, and meets a null link exactly where there is none |
| `ChainRuns.FundedGrown` | src/main.cpp:2226-2251 | new blocks in the index change nothing about a branch having kept to its limits |
| `ChainRuns.SwitchTo` | src/main.cpp:2046-2190 | SetBestChain leaves the best branch within its limits, accepted or refused |
| `ChainRuns.Step` | src/main.cpp:2046-2251 | so does every call: a block arriving, exempt from BIP 30 or not, as long as an exempt one overwrites nothing on its branch; a switch; a look-up by height |
| `ChainRuns.Run` | src/main.cpp:2046-2251 | after any calls in any order from genesis: the coins are the replay of the best branch and their total value is within premine, subsidies and grants up to its height |
| `VerifyDb.CheckDown` | src/main.cpp:2944-2978 | the in-memory disconnections from the best block down never look wrong, however far the caches let them go, and leave the replay of the block they stop at |
| `VerifyDb.CheckUp` | src/main.cpp:2983-2996 | the reconnections along `pnext` succeed exactly when every block is accepted again |
| `VerifyDb.VerifyDB` | src/main.cpp:2930-3001 | no false alarm: after any calls the check passes up to level 3, and at level 4 exactly when the blocks taken off are accepted once more; coins, undo data and links stay |
| `Supply.TotalSpendAll` | src/main.cpp:1596-1607 | spending different inputs removes exactly their value from the total |
| `Supply.TotalApplyTx` | src/main.cpp:1596-1610 | a transaction lowers the total by its fee, a coinbase raises it by its outputs; what it overwrites is lost |
| `Supply.TotalApplyTxs` | src/main.cpp:1907-1998 | conservation over a block: the total rises by at most the coinbase outputs minus the fees, and by exactly that when nothing is overwritten |
| `Supply.GetBlockSubsidy` | src/main.cpp:1098-1115 | the reduction loop gives the subsidy of the height, positive and at most 280 coins |
| `Subsidy.SubsidyIs` | src/main.cpp:1098-1115 | the subsidy grows to 280 coins over 240 blocks, is then within 20 units of falling by exactly 5% every 1680 blocks, and never below 2.15 coins |
| `Subsidy.AllowanceIs` | src/main.cpp:1117-1126 | what a block may add: the premine in block 1, then the subsidy, and on award blocks from 40 on six fifths of it more |
| `Supply.TotalAtMost` | src/main.cpp:1098-1126 | the allowance of the first n blocks is at most the premine and 616 coins a block, far below the 64-bit range |
| `Supply.AwardTableSum` | src/main.cpp:5732-5737 | whoever wins, and however often, the award table adds up to one amount per office |
| `Supply.OneWinner` | src/main.cpp:5732-5737 | when one name wins every office, the table has one entry with all the amounts |
| `Supply.SupplyStep` | src/main.cpp:1976-2006 | a block whose coinbase is allowed with the table of its height adds at most subsidy and grants, or the premine at height 1 |
| `Names.BeforeTransitive` | src/main.cpp:5823-5837 | names compare transitively, as the map orders them |
| `Election.LeaderUnique` | src/main.cpp:5823-5832 | there is one leader of the poll, ties going to the first name |
| `Election.LoserUnique` | src/main.cpp:5823-5832 | there is one loser of the poll, ties going to the first name |
| `Names.BeforeIff` | src/main.cpp:5823-5837 | the order that breaks ties is that of dictionaries |
| `Election.TieBreak` | src/main.cpp:5823-5837 | of two candidates with the same support and no others the first by name is eliminated, so the other wins |
| `Election.EliminateGood` | src/main.cpp:5920-5954 | elimination leaves no empty ballot and keeps amounts rising |
| `Election.EliminateShrinks` | src/main.cpp:5920-5954 | eliminating a first preference removes at least one preference |
| `Election.RoundShrinks` | src/main.cpp:5784-5788 | every round that elects nobody has fewer preferences after it |
| `Election.ElectRound` | src/main.cpp:5799-5896 | one round elects the leader at the quota or when alone, and otherwise continues with the loser eliminated |
| `Election.WinnerNamed` | src/main.cpp:5748-5793 | whoever wins is on some ballot; with no ballot at all it is the unspendable address |
| `Election.SolidWithout` | src/main.cpp:5920-5954 | a ballot that ranks a set first still ranks what is left of it first, whoever is eliminated |
| `Election.OutsiderBelowQuota` | src/main.cpp:5858-5858 | against a coalition holding the quota, nobody outside its set can reach the quota |
| `Election.CoalitionAfter` | src/main.cpp:5920-5954 | elimination keeps the coalition for the rest of its set |
| `Election.CoalitionWins` | src/main.cpp:5748-5793 | majority-coalition criterion: if voters holding a quota of more than half rank all of a set, each once, above everyone else, the winner is in that set |
| `Election.ListedTwiceBreaksTheCriterion` | src/main.cpp:5928-5939 | with a candidate listed twice the criterion fails: four voters where a quota ranks three candidates above everyone else and a fourth wins |
| `PairElection.SinkingOn` | src/main.cpp:5920-5954 | once one of two candidates has been the loser of the poll, it stays behind all who were in the poll then, whoever of the others is eliminated: its tally only falls and theirs only rise |
| `PairElection.PairWins` | src/main.cpp:5748-5793 | for one or two candidates the criterion holds however often ballots list them: three, as in the failing example, is where it starts to fail |
| `GrantElection.ScanPoll` | src/main.cpp:5816-5837 | the scan finds the leader and the loser of the poll and the leader's amount |
| `GrantElection.StrikeFrom` | src/main.cpp:5927-5939 | the marking loop removes the last preference for a candidate, and only that one |
| `GrantElection.Count.EliminateCandidate` | src/main.cpp:5920-5954 | every ballot loses its last preference for the candidate, ballots left empty go, and the rest are in order |
| `GrantElection.CountsWith` | src/main.cpp:5809-5812 | adding one voter's balance to its first preference keeps the tally of the voters seen |
| `GrantElection.CountsRange` | src/main.cpp:5809-5812 | tallies are positive and never above the sum of all balances |
| `GrantElection.Count.CountBallots` | src/main.cpp:5805-5812 | the recount gives every first preference its tally |
| `GrantElection.Count.ElectOrEliminate` | src/main.cpp:5799-5896 | returns the winner of the whole count, or "" after a round that leaves the winner the same and fewer preferences |
| `GrantElection.TotalOf` | src/main.cpp:5762-5766 | the loop adds up the voters' balances |
| `GrantElection.Count.GetWinnerFromBallots` | src/main.cpp:5748-5793 | the rounds end, with the winner of the ballots under the Droop quota; voters with more than half of all balances who rank a set above everyone else get one of it |
| `GrantElection.MajorityElects` | src/main.cpp:5748-5793 | the same of the count as a function: the Droop quota is within reach of every majority |
| `GrantElection.InsertKeepsOrder` | src/main.cpp:5585-5585 | recording a vote keeps the amounts of a ballot rising and distinct |
| `GrantElection.InsertHolds` | src/main.cpp:5585-5585 | a vote replaces what the same amount said before, and nothing else |
| `GrantElection.CollectBallots` | src/main.cpp:5708-5726 | exactly the voters with a positive balance get a ballot and a weight |
| `GrantElection.GetGrantAwards` | src/main.cpp:5670-5740 | every office goes to the winner of its votes, who is on a ballot of a voter for it or else, when no such voter holds coins, is the unspendable address; a majority of an office's positive balances gets one of its own; the table credits the winners of the first six offices, which is what the supply bound relies on |
| `GrantElection.OfficeDecided` | src/main.cpp:5748-5793 | the same of the winner as a function of votes and balances |
| `GrantVotes.GetOfficeNumberFromAddress` | src/main.cpp:5479-5490 | the loop finds the office whose three letters follow the prefix, or -1 exactly when there is none |
| `GrantVotes.RecordNext` | src/main.cpp:5578-5588 | going through the noted votes by name records them one after the other, the last one winning where two have the same amount |
| `GrantVotes.NotedIs` | src/main.cpp:5553-5558 | an address is noted with an amount exactly when the last vote among the outputs for it pays that amount |
| `GrantVotes.TxVotes` | src/main.cpp:5536-5590 | from its outputs alone, what a transaction does to every ballot of every office: for a spender each amount voted with names the last address by name that was paid it, other amounts and other voters keep what they had |
| `GrantVotes.PaidLessRanksFirst` | src/main.cpp:5578-5588 | of two candidates paid different amounts the one paid less ranks first on the ballot of the spender |
| `GrantVotes.GrantDatabase.AddOutputs` | src/main.cpp:5543-5560 | the loop over the outputs credits every address and notes exactly the payments of one to nine units to grant addresses, the last one per address |
| `GrantVotes.GrantDatabase.RecordVotes` | src/main.cpp:5578-5588 | after it the ballot of the spender names, at each amount voted with, the last address of the office by name that was paid it, and is otherwise as it was; no other ballot changes |
| `GrantVotes.GrantDatabase.SubtractInputs` | src/main.cpp:5563-5591 | every input is taken from the address that held it, which gets all the votes of the transaction recorded |
| `GrantVotes.GrantDatabase.ProcessNextBlock` | src/main.cpp:5520-5606 | balances and votes after the block are the specified ones, and the table is recomputed exactly when an award block is one interval ahead |
| `GrantVotes.GrantDatabase.GetGrantAwards` | src/main.cpp:5413-5471 | false for a block that awards nothing; else counts exactly the blocks still missing up to one interval below, and leaves the table those balances and votes give |
| `GrantVotes.BlocksGenuine` | src/main.cpp:5536-5590 | whatever the blocks hold, every recorded ballot is in order and names only addresses of the office it is recorded for |
| `GrantBalances.SpendOutHeld` | src/main.cpp:5570-5576 | spending an output takes from its address exactly what looking it up says |
| `GrantBalances.TxHeld` | src/main.cpp:5543-5576 | a transaction that overwrites nothing changes the balance of every address as it changes what the address holds in unspent outputs |
| `GrantBalances.TxSum` | src/main.cpp:5543-5576 | and the sum of all balances as it changes the value of all unspent outputs |
| `GrantBalances.BranchTallies` | src/main.cpp:5520-5606 | after counting any branch the chain can hold, every balance in the database is what the address holds in the unspent outputs of that branch, and its share of the outputs of genesis; together they are the total supply and those outputs |
| `GrantBalances.TalliesSound` | src/main.cpp:5711-5722 | the case the code says should never occur never does: no balance is negative; the positive ones add up to the supply |
| `GrantBalances.BranchCountable` | src/main.cpp:5762-5766 | on a branch within its limits, up to block 100,000,000, no total of the count leaves 64 bits |
| `GrantChain.CountDue` | src/main.cpp:5466-5468 | counting on from any height of a branch, with the totals in range at every block, gives what counting from genesis gives |
| `GrantChain.AwardsFor` | src/main.cpp:5413-5471 | beside a chain in any state its runs lead to: the table left for an award block is the one of the best branch one interval below it, computed from the balances its addresses hold there, and is the kind of table the supply bound needs |
| `GrantPayees.WinnerIsAddress` | src/main.cpp:5748-5793 | the winner of an office is an address of that office if a voter for it holds coins, and the unspendable address otherwise |
| `GrantPayees.TablePayableIff` | src/main.cpp:1956-2006 | some coinbase passes with the table that votes and balances give if and only if the unspendable address is the text of some script's address or every one of the six offices has a voter who holds coins |
| `GrantPayees.BranchPayableIff` | src/main.cpp:1956-2006 | the same for the table counted from a branch, what voters hold being read off the unspent outputs |
| `AddressText.TestNetText` | src/base58.h:282-312 | the text of no address of the test net begins with M, as all grant addresses do |
| `GrantPayees.TestNetTable` | src/main.cpp:5748-5793 | on the test net nobody can vote, whatever the blocks hold, and everything is awarded to an address nobody can pay |
| `GrantPayees.TestNetStops` | src/main.cpp:1954-2006 | so no branch of the test net is ever accepted as far as its first award block, at height 40 |
| `AddrTables.AtMost` | src/addrman.h:122-141 | consistent tables list every entry once and hold at most 64*64 tried and 256*64 new entries |
| `AddrTables.SwappedGood` | src/addrman.cpp:106-124 | swapping two places of vRandom keeps the invariant |
| `AddrTables.ReleasedGood` | src/addrman.cpp:162-170 | taking an entry out of a new bucket, and out of every table with its last reference, keeps the invariant |
| `AddrTables.IntroducedGood` | src/addrman.cpp:345-354 | a new entry keeps the invariant, owed one bucket |
| `AddrTables.ReferencedGood` | src/addrman.cpp:358-361 | one more reference keeps the invariant, owed one bucket |
| `AddrTables.InsertedGood` | src/addrman.cpp:364-366 | the insertion pays the debt: the full invariant holds |
| `AddrTables.TouchedGood` | src/addrman.cpp:371-388 | changing times and attempts keeps the invariant |
| `AddrTables.UntiedBetween` | src/addrman.cpp:208-217 | an entry taken out of every new bucket leaves tables that are good but for it |
| `AddrTables.AppendedGood` | src/addrman.cpp:223-230 | appending it to its tried bucket restores the invariant |
| `AddrTables.ReplacedGood` | src/addrman.cpp:232-259 | putting it in the place of a tried entry that goes back to a new bucket restores the invariant |
| `AddrMan.CAddrMan.constructor` | src/addrman.h:382-390 | an empty manager satisfies the invariant |
| `AddrMan.CAddrMan.Find` | src/addrman.cpp:81-92 | finds exactly the addresses listed, with their id and entry |
| `AddrMan.CAddrMan.Create` | src/addrman.cpp:94-104 | the new entry gets the next id and the last place |
| `AddrMan.CAddrMan.SwapRandom` | src/addrman.cpp:106-124 | under the two asserts of the code, swaps the places and both back references |
| `AddrMan.CAddrMan.Release` | src/addrman.cpp:191-199 | removes one reference, and the entry from all tables with its last one, by a swap with the end of vRandom |
| `AddrMan.CAddrMan.FirstTerrible` | src/addrman.cpp:155-173 | finds the terrible entry with the smallest id, or knows there is none |
| `AddrMan.CAddrMan.OldestOfFour` | src/addrman.cpp:175-189 | returns, of up to four sampled entries of the bucket, one last seen no later than the others |
| `AddrMan.CAddrMan.ShrinkNew` | src/addrman.cpp:150-202 | makes room by removing exactly one entry, the first terrible one or, when there is none, the oldest of the sample; the invariant holds after it |
| `AddrMan.CAddrMan.SelectTried` | src/addrman.cpp:126-148 | permutes the bucket and returns a valid position |
| `AddrMan.CAddrMan.Untie` | src/addrman.cpp:208-217 | takes an entry out of every new bucket and zeroes its count |
| `AddrMan.CAddrMan.MakeTried` | src/addrman.cpp:204-260 | moves an entry to its tried bucket; when that is full one of its entries moves to the new bucket it hashes to, or to the origin; the invariant holds after it |
| `AddrMan.CAddrMan.ReplaceTried` | src/addrman.cpp:232-259 | says exactly which entry is evicted, where it goes, and that the other members stay |
| `AddrMan.CAddrMan.Good_` | src/addrman.cpp:262-311 | the invariant holds after it, and the outcome is: nothing for an unknown service, new times, and the move to tried where it applies |
| `AddrMan.SomeBucketHolds` | src/addrman.cpp:288-305 | an entry that is not tried is in some new bucket, so the bail-out of Good_ is never taken |
| `AddrMan.CAddrMan.FindBucket` | src/addrman.cpp:288-303 | finds a new bucket holding the entry from any start, or knows there is none |
| `AddrMan.CAddrMan.Attempt_` | src/addrman.cpp:371-388 | changes only the attempt time and count of exactly this service |
| `AddrMan.CAddrMan.Connected_` | src/addrman.cpp:510-528 | changes only the time of exactly this service, and only after the update interval |
| `AddrMan.CAddrMan.Factor` | src/addrman.cpp:342-344 | the doubling loop gives two to the number of references |
| `AddrMan.CAddrMan.UpdateKnown` | src/addrman.cpp:322-347 | takes over the time and services of a report, and says when one more bucket is allowed |
| `AddrMan.CAddrMan.PlaceNew` | src/addrman.cpp:356-367 | one more reference and one more bucket, with room made first in a full one |
| `AddrMan.CAddrMan.Add_` | src/addrman.cpp:313-369 | the invariant holds after it; true exactly for a routable address not known before; the outcome is one of the specified ones |
| `AddrMan.CAddrMan.GetAddr_` | src/addrman.cpp:494-508 | reports the promised number of entries, all of them known and no network address twice; only places in vRandom change |
| `AddrSelect.GetChance` | src/addrman.cpp:58-79 | the loop over failed attempts gives the chance of the entry |
| `AddrSelect.LeastChance` | src/addrman.cpp:58-79 | some positive number is below the chance of every entry |
| `AddrSelect.UseTried` | src/addrman.cpp:399-412 | the loop ends whenever buckets that are not empty keep being drawn, with the entry of the first draw that is below its chance times 1.2 for every entry passed over |
| `AddrSelect.UseNew` | src/addrman.cpp:415-430 | the same for the new table, whose buckets list their ids in order |
| `AddrSelect.PicksFilledIff` | src/addrman.cpp:395-397 | the table picked has an entry, whatever is drawn, if and only if the bias is below 100 or there are new entries; else the code looks for ever in an empty table |
| `AddrSelect.RandomLucky` | src/addrman.cpp:390-432 | if every bucket keeps being drawn, the table picked has one with an entry that keeps being drawn, for a bias below 100 or with new entries |
| `AddrSelect.Select_` | src/addrman.cpp:390-432 | takes a tried entry exactly when the first number drawn is below that part of 2^30 which the root of the tried count times 100 less the bias has, beside the root of the new count times the bias; then ends with the address of the first draw that table takes, or none when there is none; changes nothing |
| `AddrMeaning.TerribleIff` | src/addrman.cpp:36-56 | an entry may be thrown out unless tried in the last minute, or seen in the last 30 days and not failing three times without any success or ten without one in a week |
| `AddrMeaning.ChanceIs` | src/addrman.cpp:58-79 | the chance: 600 over 600 and the age in seconds, a hundredth of that in the ten minutes after a try, two thirds for every failure |
| `AddrMeaning.GoodClears` | src/addrman.cpp:262-286 | after Good_ the entry of that service, tried now, is not terrible for 30 days and has the chance of one just seen and tried that never failed; the others keep times and failures |
| `AddrMeaning.AttemptCounts` | src/addrman.cpp:371-388 | an attempt takes a third of the chance, and the third one without any success makes an entry terrible |
| `AddrMeaning.AttemptShields` | src/addrman.cpp:36-40 | but not in its first minute |
| `AddrMeaning.ConnectedRefreshes` | src/addrman.cpp:510-528 | the time is at most 20 minutes behind afterwards, and moves only if it was further |
| `AddrMeaning.ReportRefreshes` | src/addrman.cpp:322-338 | a report moves the time of a known entry exactly when it is an hour ahead of it, or a day if itself a day old, counting the penalty; it then is the time reported less the penalty, not below 0 |
| `AddrMeaning.ReportServices` | src/addrman.cpp:331 | services are those of either |
| `AddrMeaning.AddReports` | src/addrman.cpp:313-369 | what Add_ leaves of the address: a known entry refreshed so and otherwise unchanged, with one bucket more only on later news while new and in fewer than four; a new one dated back by the penalty |
| `AddrRuns.AddLosesLittle` | src/addrman.cpp:313-369 | adding makes the address known, leaves tried alone, and costs at most one other address, which was not tried and had its last reference in the full bucket |
| `AddrRuns.GoodMovesOneBack` | src/addrman.cpp:204-311 | a service known exactly becomes tried; no entry is lost and at most one goes back to new |
| `AddrRuns.AddKeepsTimes` | src/addrman.cpp:313-369 | what Check_ asks of the times holds after Add_ |
| `AddrRuns.GoodKeepsTimes` | src/addrman.cpp:262-280 | it holds after Good_ if and only if the service is unknown or the time passed is positive |
| `AddrRuns.Run` | src/addrman.cpp:106-528 | after any calls in any order from empty, with times past the epoch: the invariant, the time conditions, and the bounds on buckets and totals |
| `AddrCheck.CheckEntries` | src/addrman.cpp:442-464 | the first loop finds an error exactly when some entry breaks a rule, and collects the tried ids and counts |
| `AddrCheck.StrikeAllTried` | src/addrman.cpp:466-474 | the second loop accepts exactly buckets that hold each tried id at most once in all |
| `AddrCheck.StrikeAllNew` | src/addrman.cpp:476-485 | the third loop accepts exactly buckets that hold each id at most as often as it is counted |
| `AddrCheck.Check_` | src/addrman.cpp:435-491 | returns 0 exactly for the tables it means to accept |
| `AddrCheck.EveryPlaceTaken` | src/addrman.cpp:440-458 | sizes equal and every entry at its own place: vRandom is a bijection with the ids |
| `AddrCheck.GoodIsChecked` | src/addrman.cpp:435-491 | everything Check_ asks for is part of what the operations keep |
| `AddrCheck.CheckedIsGood` | src/addrman.cpp:435-491 | given the parts Check_ never looks at, it accepts if and only if the invariant and the time conditions hold |
| `AddrCheck.StaleKeyPasses` | src/addrman.cpp:435-491 | what it misses: to any consistent tables a key can be added to mapAddr that no entry has, and Check_ still accepts |
| `AddrFile.WriteNew` | src/addrman.h:283-295 | the loop writes every new entry once in id order and indexes it; the early stop loses none |
| `AddrFile.WriteTried` | src/addrman.h:296-306 | the loop writes every tried entry once in id order |
| `AddrFile.WriteBucket` | src/addrman.h:307-317 | a bucket is written as the indexes of exactly its members |
| `AddrFile.Write` | src/addrman.h:271-317 | the file of consistent tables |
| `AddrFile.LoadNewEntries` | src/addrman.h:327-340 | the loop over new entries builds the specified tables |
| `AddrFile.LoadTriedEntries` | src/addrman.h:341-360 | the loop over tried entries builds the specified tables; entries lost to full buckets are counted off |
| `AddrFile.LoadBucket` | src/addrman.h:361-377 | the loop over one bucket of indexes adds references and members |
| `AddrFile.Load` | src/addrman.h:318-378 | for any file, replaces the tables by those it describes |
| `AddrRoundTrip.RoomForTried` | src/addrman.h:346-358 | while a saved manager is read back, the bucket of the next tried entry always has room |
| `AddrRoundTrip.RoundTrip` | src/addrman.h:248-380 | reading back what consistent tables were written as gives consistent tables with the same entries (but for nLastTry), the same new buckets and the same tried buckets as sets, under a renaming of ids; nothing is lost |
| `AddrRoundTrip.SaveAndLoad` | src/addrman.h:248-380 | the same for the two loops run one after the other on objects |
| `AddrRebucket.LoadNewChanged` | src/addrman.h:334-340 | with another number of buckets in the file, every new entry goes to the bucket of its own source, once |
| `AddrRebucket.LoadTriedChanged` | src/addrman.h:341-360 | the tried entries are read as always |
| `AddrRebucket.BucketsIgnored` | src/addrman.h:361-377 | the saved buckets of known entries change nothing |
| `AddrRebucket.OwnHeld` | src/addrman.h:334-340 | the recomputed buckets hold every new entry exactly once |
| `AddrRebucket.RebucketedIff` | src/addrman.h:318-378 | saved under another number of buckets, the entries and tried buckets come back, each new entry once in its own bucket, and the tables are consistent if and only if no bucket got more than it may hold |
| `AddrOverfull.AddedGood` | src/addrman.cpp:313-369 | whatever Add_ may do to consistent tables leaves them consistent |
| `AddrOverfull.LastStep` | src/addrman.cpp:150-202 | the 66th call finds the bucket full; its first entry, last seen a month ago, is the one removed from it, and keeps its place in another |
| `AddrOverfull.Overfills` | src/addrman.h:318-378 | 66 calls of Add_ from no entries lead to consistent tables with 65 new entries that share one bucket of their own; saved and read back with another number of buckets they overfill it and are not consistent |
| `CheckQueue.InitInv` | src/checkqueue.h:121-123 | the initial state, a master outside and any number of workers about to enter, satisfies the invariant |
| `CheckQueue.NextInv` | src/checkqueue.h:61-147 | every step of every thread, spurious wake-ups included, keeps the invariant: nTodo is the queue plus the batches in flight, the counters match the threads, and the verdict is settled as far as checks ran |
| `CheckQueue.BatchSize` | src/checkqueue.h:97-101 | a batch is never empty and never more than the queue |
| `CheckQueue.BatchIs` | src/checkqueue.h:97-101 | the batch is a single check or within the batch size and its share of the queue, one for every thread in the loop, the idle ones counted twice, and one more; and none larger is |
| `CheckQueue.AddWakes` | src/checkqueue.h:136-147 | adding wakes every waiting worker for several checks, one for one, none for none |
| `CheckQueue.MasterWoken` | src/checkqueue.h:67-80 | a worker wakes the waiting master exactly when it reports the last check |
| `CheckQueue.WaitReturnsConjunction` | src/checkqueue.h:81-91 | in every interleaving Wait returns the conjunction of all checks added since the last one, and leaves what the next controller asserts: nothing to do, verdict reset, nTotal == nIdle, no stale batch |
| `CheckQueue.ControllerAsserts` | src/checkqueue.h:164-171 | in every reachable state with the master outside and nothing added, workers moving or not, the three assertions of the next controller hold |
| `CheckQueue.SomeStepEnabled` | src/checkqueue.h:82-95 | no deadlock: while the master waits, some thread can move without a spurious wake-up |
| `CheckQueue.StepDecreases` | src/checkqueue.h:67-117 | every step that is not a call, an Add or a spurious wake-up lowers the lexicographic measure |
| `CheckQueue.WeightDecreases` | src/checkqueue.h:67-117 | the measure as one number, falling with every such step |
| `CheckQueue.WaitTerminates` | src/checkqueue.h:131-133 | a run of such steps is never longer than the weight of the state it starts in |
| `CheckQueue.WaitEnds` | src/checkqueue.h:131-133 | from any state some run, without further checks or spurious wake-ups, ends the Wait under way |
| `Merkle.WidthHalves` | src/main.h:1210-1212 | each level is half as wide as the one below, rounded up: CalcTreeWidth and the halving loop agree |
| `Merkle.FindHeight` | src/main.cpp:2739-2741 | the loop finds the height at which one node is left |
| `Merkle.FlatTreeAt` | src/main.h:1380-1397 | node `p` of level `h` sits `p` places after the start of its level |
| `Merkle.BuildMerkleTree` | src/main.h:1380-1397 | the loop builds exactly the levels of CalcHash one after the other and returns the root |
| `Merkle.GetMerkleBranch` | src/main.h:1405-1419 | reads exactly the sibling hashes of the leaf off the flat tree |
| `Merkle.CheckMerkleBranch` | src/main.h:1421-1434 | folds the branch from the leaf up; 0 for index -1 |
| `Merkle.BranchLeadsToRoot` | src/main.h:1405-1434 | the branch of any node of any level leads to the root, odd widths included |
| `Merkle.BranchChecksExactlyItsLeaf` | src/main.h:1405-1434 | a leaf checks with its own branch, and with an injective hash no branch of that length makes another id check at that index |
| `PartialTree.ExtractBuild` | src/main.cpp:2685-2731 | traversing the encoding of a node, wherever it sits in the two streams, gives its hash, its matches in order and the exact amounts consumed |
| `PartialTree.ExtractSound` | src/main.cpp:2703-2731 | a traversal of arbitrary data that ends in the true hash of a node matched only ids that are there |
| `PartialTree.AcceptedSound` | src/main.cpp:2749-2780 | soundness: an arbitrary partial tree accepted with the root of a list of its length matches only ids of that list, at their positions, in order |
| `PartialShape.AcceptedIff` | src/main.cpp:2703-2780 | an encoding is accepted exactly when it lists a tree of the shape, all its hashes and its flags up to the end of their last byte, of at most 25000 leaves, with no more hashes than leaves or flags; what comes out is that tree's root and matched leaves |
| `PartialTree.BuildSize` | src/main.cpp:2685-2701 | hashes of a node against its leaves, matches and height; bits are 2N-1 plus the single-child nodes |
| `PartialTree.BuildAllSize` | src/main.h:1181-1192 | N <= total and N <= 1 + matched*height; at most 2N-1 flag bits if and only if no traversed node has a single child |
| `PartialTree.FlagBitsExceedTheComment` | src/main.h:1191-1191 | three ids matching only the last take four bits for two hashes |
| `PartialTree.RoundTrip` | src/main.cpp:2733-2780 | for every non-empty list within the size limit and every mask, the encoding padded to bytes is accepted with the root and exactly the matched ids, in order |
| `PartialTree.PackBits` | src/main.h:1238-1242 | the bytes hold the bits eight to a byte, least significant first |
| `PartialTree.UnpackBits` | src/main.h:1231-1237 | every byte gives its eight bits; unpacking packed bits pads them to whole bytes |
| `PartialTree.CPartialMerkleTree.constructor` | src/main.cpp:2733-2745 | bits and hashes are the encoding of the list and mask |
| `PartialTree.CPartialMerkleTree.TraverseAndBuild` | src/main.cpp:2685-2701 | appends exactly the encoding of the node |
| `PartialTree.CPartialMerkleTree.ParentOfMatch` | src/main.cpp:2686-2689 | true exactly when a leaf of the node is matched |
| `PartialTree.CPartialMerkleTree.TraverseAndExtract` | src/main.cpp:2703-2731 | on any data, sets fBad exactly when the specification finds an overflow and otherwise returns its hash, positions and matches |
| `PartialTree.CPartialMerkleTree.ExtractMatches` | src/main.cpp:2749-2780 | 0 on everything the checks refuse, else the root and the matched ids |
| `PartialTree.SendAndExtract` | src/main.h:1227-1253 | a list through the constructor, the wire form and ExtractMatches comes back as its root and matched ids |
| `MemPool.CTxMemPool.AddUnchecked` | src/main.cpp:854-865 | one transaction more and its inputs in the index |
| `MemPool.AddedOk` | src/main.cpp:854-865 | adding a transaction without conflicts keeps the index exactly that of the pool |
| `MemPool.EraseInputs` | src/main.cpp:881-887 | erasing a transaction and its inputs keeps the index exactly that of the pool |
| `MemPool.OnlyItselfLeft` | src/main.cpp:874-880 | when no output of a transaction is spent in the pool any more, only it is left of its descendants |
| `MemPool.CTxMemPool.Remove` | src/main.cpp:868-890 | the recursion ends; it takes out the transaction alone, or exactly it and its descendants in the pool; the index stays exact |
| `MemPool.ReachMore` | src/main.cpp:896-903 | removing one conflict after another removes what all of them together reach |
| `MemPool.CTxMemPool.RemoveConflicts` | src/main.cpp:892-905 | takes out exactly the other spenders of the inputs with all their descendants; afterwards no other pool transaction spends any of them |
| `MemPool.CTxMemPool.Accept` | src/main.cpp:680-835 | accepts exactly a well-formed transaction new to chain and pool whose inputs are each unspent on the chain and mature, or an output of the pool, spent by no pool transaction and together worth what the outputs are or more, if the oracle allows; a refusal changes nothing; every input in the pool stays backed by the chain or the pool |
| `MemPool.AcceptableIff` | src/main.cpp:680-835 | the tests of accept, through the view of chain and pool, come to those conditions |
| `MemPool.CTxMemPool.InputsSeen` | src/main.cpp:737-818 | the inputs are checked against the coins and the outputs of the pool seen through one view |
| `MemPool.StillThere` | src/main.cpp:2170-2174 | an output the confirmed transaction did not spend is still there |
| `MemPool.NowThere` | src/main.cpp:2170-2174 | its own outputs are there |
| `MemPool.ConfirmedFits` | src/main.cpp:2170-2174 | a pool that fits the coins fits the new coins once the confirmed transaction and its conflicts are removed |
| `MemPool.CTxMemPool.DeleteConfirmed` | src/main.cpp:2170-2174 | after the loop over a connected block the pool fits the coins after the block and holds none of its transactions |
| `MemPoolReorg.BranchPlays` | src/main.cpp:2083-2123 | the coins of a branch are those of any block on it with the transactions above played one by one |
| `MemPoolReorg.Forward` | src/main.cpp:2103-2123 | an output that was there is there after the new branch, or one of its transactions spent it |
| `MemPoolReorg.Backward` | src/main.cpp:2083-2101 | an output of none of the disconnected transactions was there at the fork |
| `MemPoolReorg.Created` | src/main.cpp:2170-2174 | the outputs of a connected transaction are there after all, or a later one spent them |
| `MemPoolReorg.BackedAtStart` | src/main.cpp:2162-2174 | a pool that fitted the old branch has each input in the pool, in the coins of the new branch, among what was disconnected, or spent by what was connected |
| `MemPoolReorg.OffersLeave` | src/main.cpp:2162-2168 | a transaction of the old pool without its input is left by the offers if and only if none of them sweeps it away with a refused one; it never comes back |
| `MemPoolReorg.BlocksLeave` | src/main.cpp:2170-2174 | what the connected blocks leave is exactly what none of their transactions sweeps away |
| `MemPoolReorg.OffersBack` | src/main.cpp:2162-2168 | after the offers no input waits for a transaction offered again |
| `MemPoolReorg.ClearsBack` | src/main.cpp:2170-2174 | after the removals no input waits for, or is spent by, a connected transaction |
| `MemPoolReorg.Resurrect` | src/main.cpp:2162-2168 | the loop over the disconnected transactions leaves exactly the specified pool: one that is refused goes with all its descendants |
| `MemPoolReorg.DeleteConnected` | src/main.cpp:2170-2174 | the loop over the connected ones leaves exactly the pool without them, their conflicts and the descendants of those |
| `MemPoolReorg.SwitchPool` | src/main.cpp:2162-2174 | the two loops one after the other leave exactly the specified pool, with an exact index |
| `MemPoolReorg.SwitchFits` | src/main.cpp:2162-2174 | a pool that fitted the old branch fits the new one after a reorganisation if and only if every transaction of the old pool that spends a missing output of a disconnected transaction not offered again is swept away: refused, confirmed, in conflict, or a descendant of one refused or in conflict |
| `PoolMaturity.OriginKept` | src/main.cpp:1596-1610 | a coin record none of the transactions of a branch made has the height and coinbase flag it had at the fork |
| `PoolMaturity.ShallowStrandsNone` | src/main.cpp:2093-2100 | when fewer than 60 blocks are disconnected no transaction of the pool spends a coinbase among them |
| `PoolMaturity.SwitchMatured` | src/main.cpp:1661-1671 | after such a switch that does not lower the height the coinbases the pool spends are old enough for the next block |
| `PoolChain.ResurrectableAre` | src/main.cpp:2093-2100 | the queue to offer again is part of the disconnected branch and, above the last checkpoint, leaves out exactly its coinbases |
| `PoolChain.TxsOfBranch` | src/main.cpp:2119-2121 | the queue to delete is every transaction of the connected branch in order |
| `PoolChain.BranchSwitch` | src/main.cpp:2083-2174 | SwitchFits for the two branches of an index, with the queues SetBestChain fills |
| `PoolChain.GentleSwitch` | src/main.cpp:2083-2174 | a switch that disconnects fewer than 60 blocks, all above the last checkpoint, and does not lower the height leaves the pool fitting the coins with no immature coinbase spent |
| `PoolChain.SwitchChain` | src/main.cpp:2046-2190 | SetBestChain with its last two loops: refused, it leaves chain and pool alone; made, it leaves exactly the specified pool, which fits the new coins if and only if everything stranded was swept away, and always after a switch of that kind |
| `PoolRuns.OfferTo` | src/main.cpp:680-835 | accept on the coins of the best block keeps the pool fitting them, and mature |
| `PoolRuns.Step` | src/main.cpp:680-2251 | so does every call: a block arriving, a switch of that kind, a transaction offered |
| `PoolRuns.Run` | src/main.cpp:680-2251 | after any such calls in any order from genesis every input of every pool transaction is an unspent output of the active chain or an output of the pool, none spends an immature coinbase, and the index is exact |
| `PoolDepth.SixtyBlocks` | src/main.cpp:1661-1671 | on 60 blocks with the real subsidies, premine and grants, a transaction that spends the first coinbase is accepted into the pool |
| `PoolDepth.DeepSwitch` | src/main.cpp:2093-2100 | when those 60 blocks are then disconnected, SetBestChain leaves that transaction in the pool although its input is gone: the bound of 60 is exact |
| `VarInt.RoundTrip` | src/serialize.h:272-302 | reading what was written gives the number and leaves what follows |
| `VarInt.Unique` | src/serialize.h:239-256 | every number has exactly one encoding: whatever parses is what would be written |
| `Vectors.NumberVectors` | src/serialize.h:251-256 | the documented bytes of five numbers; for 16511 and 65535, where the comment is wrong, those written instead, and the numbers that the bytes of the comment stand for |
| `VarInt.DigitsFit` | src/serialize.h:273-287 | a number below 128^k takes at most k digits, so the buffer is large enough |
| `VarInt.Widths` | src/serialize.h:275-275 | (n + 6) / 7 places are enough for 32 and 64 bits |
| `VarInt.GetSizeOfVarInt` | src/serialize.h:259-270 | the loop counts exactly the bytes written |
| `VarInt.WriteVarInt` | src/serialize.h:272-287 | filling the buffer from the low end and sending it backwards writes the digits in order, within the buffer |
| `VarInt.ReadVarInt` | src/serialize.h:289-302 | the loop parses one number, or stops at the end of a short stream |
| `Amounts.DecompressCompress` | src/main.cpp:5182-5225 | decompressing undoes compressing for every amount |
| `Amounts.CompressDecompress` | src/main.cpp:5182-5225 | compressing undoes decompressing for every code: no two codes mean the same amount |
| `Vectors.AmountVectors` | src/test/compress_tests.cpp:40-45 | the pairs the tests fix |
| `Amounts.Fits` | src/main.cpp:5182-5199 | below 2^64 / 100, hence up to MAX_MONEY, the code stays below 2^64 |
| `Amounts.CompressAmount` | src/main.cpp:5182-5199 | the loop stripping zeros gives the code |
| `Amounts.DecompressAmount` | src/main.cpp:5201-5225 | the loop restoring zeros gives the amount, modulo 2^64 where its 64-bit products wrap around |
| `ScriptCodec.DecompressCompress` | src/script.cpp:1822-1906 | every script of a special form comes back from its compressed form, whose first byte tells its size |
| `ScriptCodec.RoundTrip` | src/script.h:639-663 | every script, special or not, comes back with what follows it |
| `ScriptCodec.GetSerializeSize` | src/script.h:630-636 | the announced size is the number of bytes written |
| `CoinsCodec.OutBack` | src/main.h:681-704 | a compressed output comes back |
| `CoinsCodec.UndoBack` | src/main.h:712-747 | an undo record comes back; its version only when it has a height, and only its low seven bits when negative |
| `CoinsCodec.MaskBit` | src/main.h:991-998 | each bit of a mask byte is the availability of its output |
| `CoinsCodec.CalcMaskSize` | src/main.h:933-949 | the loops find the mask bytes in use and how many are not zero |
| `CoinsCodec.SomethingLeft` | src/main.h:984-984 | the assertion of Serialize holds for every record that is not pruned |
| `CoinsCodec.MaskBack` | src/main.h:1019-1030 | counting non-zero bytes finds the end of the mask |
| `CoinsCodec.FlagsBack` | src/main.h:1014-1030 | the flags read are the availabilities written |
| `CoinsCodec.CoinsBack` | src/main.h:979-1039 | every record with something left comes back, cleaned; a negative version comes back as its low seven bits |
| `CoinsCodec.StoredCoinsBack` | src/main.h:979-1039 | a cleaned record with non-negative version comes back exactly |
| `CoinsCodec.SizeOfCoins` | src/main.h:955-976 | the announced size is the number of bytes written |
| `CoinsCodec.Serialize` | src/main.h:979-1005 | the loops write exactly the specified bytes |
| `CoinsCodec.Unserialize` | src/main.h:1008-1039 | on any stream, reads what the specification reads, or fails with it |
| `CoinsCodec.StoreAndLoad` | src/main.h:979-1039 | writing a stored record and reading it into any object gives the record |
| `CodecMeaning.BytesMean` | src/serialize.h:237-256 | a number is written as bytes with the high bit on all but the last, and is their sum by places, one added to each but the last |
| `CodecMeaning.AmountIs` | src/main.cpp:5173-5180 | an amount with e < 9 zeros off is 1 + 10 (9 n + d - 1) + e, d the last digit left and n the rest; with nine off it is ten times the rest |
| `CodecMeaning.StandardForms` | src/script.cpp:1822-1871 | the four standard scripts and what each is stored as |
| `CodecMeaning.OtherForms` | src/script.h:639-650 | any other script is stored as its size and 6, and itself |
| `CodecMeaning.FirstRecord` | src/main.h:849-861 | the first documented record is stored as the bytes documented |
| `CodecMeaning.SecondRecord` | src/main.h:864-882 | so is the second, with a mask and two outputs |
| `NetFraming.FeedPieces` | src/net.cpp:632-658 | how a stream is cut into pieces makes no difference to the messages, the partial state or the verdict |
| `NetFraming.FeedKeepsBytes` | src/net.cpp:632-701 | all accepted bytes are in the messages, in order |
| `NetFraming.FeedHeader` | src/net.cpp:660-690 | copying a piece of header at once is taking its bytes one by one |
| `NetFraming.FeedData` | src/net.cpp:692-701 | the same for a piece of data |
| `NetFraming.TooLargeRefused` | src/net.cpp:681-683 | a frame above the limit is refused |
| `NetFraming.FrameArrives` | src/net.cpp:632-701 | one frame arrives whole behind any complete messages |
| `NetFraming.StreamArrives` | src/net.cpp:632-701 | a stream of frames arrives as exactly those messages, in order |
| `NetFraming.PrefixArrives` | src/net.cpp:632-701 | of any part of the stream, the complete messages are the first of those sent |
| `NetFraming.FrameLayout` | src/protocol.h:37-60 | the frame byte by byte: start string, command and zeros, size and checksum from the lowest byte up, payload |
| `NetFraming.CommandBack` | src/protocol.cpp:40-62 | a printable name padded with zeros passes the check and is read back |
| `NetFraming.IsValidIff` | src/protocol.cpp:49-78 | a header is valid exactly when it is the start string, a printable name filled up with zeros, and a size of at most 32 MiB |
| `NetFraming.ArrivedAccepted` | src/main.cpp:4102-4131 | every message that arrives passes the start, header and checksum checks and carries the command and payload sent |
| `NetNode.ReadHeader` | src/net.cpp:660-690 | takes as much as fits, at least one byte, and refuses exactly where the specification does |
| `NetNode.ReadData` | src/net.cpp:692-701 | takes as much as fits, at least one byte |
| `NetNode.CNode.ReceiveMsgBytes` | src/net.cpp:632-658 | the loop ends and does to the messages what feeding the bytes one by one does; all bytes are kept in order |
| `NetNode.CNode.BeginMessage` | src/net.h:384-391 | starts a header with size and checksum still blank |
| `NetNode.CNode.EndMessage` | src/net.h:405-441 | fills in size and checksum and queues exactly the frame; the counters agree with the queue |
| `NetNode.CNode.SocketSendData` | src/net.cpp:712-752 | whatever the socket takes, nSendSize stays the bytes queued, both asserts hold, and what went out is a prefix of what was queued, all of it when the queue is empty |
| `NetNode.CNode.PushMessage` | src/net.h:446-458 | appends exactly one frame to what is queued |
| `NetNode.SentIsPrefix` | src/net.cpp:712-752 | under the queue invariant what went out is a prefix of what was queued |
| `NetNode.ReceivePieces` | src/net.cpp:632-658 | receiving a stream in pieces of any size is receiving it at once |
| `NetNode.PushAll` | src/net.h:446-458 | queued frames make up their stream, and what has gone out is a prefix of it |
| `NetNode.Deliver` | src/net.cpp:632-701 | a prefix of a stream of frames, cut up in any way, leaves the first of those frames ready, and all of them once it is all through |
| `Compact.CompactLoss` | src/bignum.h:289-330 | decode(encode(N)) <= N < decode(encode(N)) * (1 + 2^-15) for every N > 0 whose exponent fits its eight bits |
| `Compact.RoundDownIs` | src/bignum.h:289-330 | exactly the bytes below the mantissa are cut |
| `Compact.EncodeMonotone` | src/bignum.h:308-330 | encoding keeps the order of targets |
| `Compact.Idempotent` | src/bignum.h:289-330 | encoding again what was decoded from an encoding changes nothing, signs included |
| `Compact.CanonicalIff` | src/bignum.h:289-330 | a 32-bit value survives decoding and encoding if and only if it is zero or its mantissa is the one an encoder writes |
| `Compact.EncodesGreatestBelow` | src/bignum.h:289-330 | of all targets a compact value can stand for, encoding picks the greatest not above N |
| `Vectors.CompactIs` | src/bignum.h:267-306 | exponent, sign and mantissa put together stand for the mantissa times a power of 256 as documented, towards zero below exponent 3 |
| `Vectors.CompactVectors` | src/test/bignum_tests.cpp:133-166 | the values the tests fix for seven compact targets |
| `Vectors.CompactBack` | src/test/bignum_tests.cpp:153-167 | those of them that are as short as can be come back |
| `Compact.CBigNum.SetCompact` | src/bignum.h:289-306 | the object holds the number the value stands for |
| `Compact.CBigNum.GetCompact` | src/bignum.h:308-330 | the value of the object, normalised away from the sign bit |
| `Retarget.OldGetNextWorkRequired` | src/main.cpp:1230-1304 | the walk back and the clamping give the target of the rule, or the limit where the chain is too short |
| `Retarget.NextIs` | src/main.cpp:1230-1304 | below 20 blocks the limit, 2^252 - 1; else the last target times the time since the block 20 before the tip, or 19 before it where there are exactly 20, held between 5760 and 8640 seconds, over 7200, towards zero, at most the limit |
| `Retarget.StepBounds` | src/main.cpp:1278-1303 | the new target decodes to at most the limit and 6/5 of the old one and, when not limited, to at least floor(4/5 of it) up to the compact error |
| `Retarget.StaysInRangeIff` | src/main.cpp:1325-1327 | the next block can pass the range check if and only if the old target is above 1 or the window was not faster than planned |
| `Retarget.SlowerIsEasier` | src/main.cpp:1278-1303 | a slower window never gives a harder target |
| `Retarget.CheckProofOfWork` | src/main.cpp:1320-1334 | accepts exactly hashes not above a target in range |
| `Momentum.Recompute` | src/momentum.cpp:239-246 | recomputing a region on demand gives the words of the table there, whatever was in the buffer |
| `Words.XorIs` | src/momentum.cpp:102 | a word is the exclusive or of two exactly when each of its 32 bits is set where theirs differ |
| `Words.XorSelf` | src/momentum.cpp:274 | a word against itself leaves nothing |
| `Words.XorTwice` | src/momentum.cpp:274 | twice the same word restores the other |
| `Momentum.XorInto` | src/momentum.cpp:272-276 | the loop leaves the exclusive ors, from which the same words restore what was there |
| `Momentum.OwnRegion` | src/momentum.cpp:262-294 | a table that is the region it points to gives the cipher only zeros |
| `Momentum.AcceptsIff` | src/momentum.cpp:239-313 | a pair is accepted exactly when there are fifty-one tables of 16384 words: the first cut out of the digests at the candidate, each next one the cipher of the bitwise differences between the last and the region its last word points to, under their last eight and four words; the last one ending in the solution 1968 with the second number before it |
| `Momentum.VerifyRound` | src/momentum.cpp:262-294 | one round with recomputed data is the round of the specification |
| `Momentum.MomentumVerify` | src/momentum.cpp:216-313 | accepts exactly the pairs with such tables, under the AES code for the mid-hash zero, EVP for the mid-hash one and the cipher asked for otherwise |
| `Momentum.RoundThreads` | src/main.cpp:1527-1532 | the doubling loop gives the least power of two not below the thread count |
| `Momentum.Shares` | src/momentum.cpp:31-32 | a power of two divides a larger one, and leaves no share of a smaller one |
| `Momentum.FillTable` | src/momentum.cpp:23-48 | in every interleaving of the filling threads the whole table is filled |
| `Momentum.SearchRound` | src/momentum.cpp:92-127 | one round with copied data is the round of the specification |
| `Momentum.TryCandidate` | src/momentum.cpp:73-139 | a candidate adds exactly its accepted pair, or nothing |
| `Momentum.SearchTable` | src/momentum.cpp:50-147 | in every interleaving of the searching threads each pair of the shared-out candidates is found once |
| `Momentum.MomentumSearch` | src/momentum.cpp:172-212 | returns exactly the pairs with such tables, each once, where there are at most 16384 threads, and otherwise nothing |
| `Momentum.SearchAgreesWithVerify` | src/momentum.cpp:250-255 | what is found is what is accepted, for every mid-hash where both ciphers agree and for all but two in any case |
| `Base58.AlphabetIs` | src/base58.h:26-26 | the digits run through the 58 letters of the published alphabet, in order |
| `Base58.IndexInAlphabet` | src/base58.h:89-92 | the place found for a character is its place in the alphabet, and characters without one are not in it |
| `Base58.SpacesAre` | src/base58.h:84-97 | what counts as white space |
| `Base58.DigitsOfValue` | src/base58.h:105-119 | digits are determined by the number they stand for, but for the zeros in front |
| `Base58.ConvertBack` | src/base58.h:29-121 | changing base and back gives the same digits, zeros in front included |
| `Base58.EncodeThenDecode` | src/base58.h:29-121 | decoding the text of any bytes gives the bytes |
| `Base58.DecodeThenEncode` | src/base58.h:77-121 | text is accepted if and only if it is letters with blanks around them, and encoding the bytes gives its letters back |
| `Base58.EncodeBase58` | src/base58.h:29-67 | the division loop, the zeros and the reversal give the text |
| `Base58.DecodeBase58` | src/base58.h:77-121 | the loops over blanks and letters, the sign byte and the zeros give the bytes, or refuse |
| `Base58.DecodeBase58Check` | src/base58.h:145-162 | returns bytes exactly when the letters are the checked text of some bytes, and then those |
| `Base58.SameText` | src/base58.h:29-67 | different bytes have different text |
| `ShareList.AddedSorted` | src/block.cpp:44-84 | adding shares keeps the list strictly sorted |
| `ShareList.AddedIsFair` | src/block.cpp:44-84 | adding shares changes the total of that user alone, by those shares, and the sum with it |
| `ShareList.Block.AddShares` | src/block.cpp:44-84 | the list in memory stays linked, strictly sorted and free of repeats, with the running total the sum of the users' totals modulo 2^32 |
| `ShareList.Block.Enter` | src/block.cpp:54-84 | the walk changes or inserts one node at the user's place |
| `ShareList.Block.GetUser` | src/block.cpp:36-42 | finds the node of the user exactly when there is one, with its total |
| `ShareList.RoundIsFair` | src/block.cpp:44-84 | after any round of calls every user has the worth of that user's chains and the total is the worth of all |
| `ShareList.RoundPays` | src/block.cpp:44-84 | after a round a user has 1, 15, 170, 1900 and 21000 shares for each chain of 6, 7, 8, 9 and 10 or more, modulo 2^32 |
| `LockedPages.LockedPageManager.LockRange` | src/allocators.h:57-77 | every page the range touches is counted once more; pages are locked as long as a range touches them |
| `LockedPages.LockedPageManager.UnlockRange` | src/allocators.h:80-100 | undoes one LockRange; the assert holds, and a page is released with its last range |
| `LockedPages.LockedIff` | src/allocators.h:34-44 | a page is locked if and only if an outstanding range touches it |

## Left out

- ChainState.Chain.Valid: excludes an index with one of the two blocks exempt from BIP 30 that overwrote unspent outputs on its branch (`ExemptFresh`), because such a block cannot be undone; the exact condition is `Utxo.UndoTxsExact`.
- ChainRuns.Run: a block with one of the two exempt hashes arrives only where it overwrites nothing; award blocks are checked against a table of the kind `GrantChain.AwardsFor` leaves for their height.
- BlockConnect.ConnectBlock: script checks, sigop limits and a failing award computation are one verdict.
- ChainState.Chain.AddToBlockIndex: refuses a block whose parent is unknown, which in the code is refused by its caller (src/main.cpp:2449-2480).
- ChainState.Chain.SetBestChain: reads and writes of blocks, undo data and coins never fail, so the aborts on I/O errors, and the inconsistent state after running out of disk space past the flush, are not modelled.
- BlockDisconnect.DisconnectBlock: when something looked wrong, height, version and coinbase flag of a record put back are not described; in the code they depend on what the caches still hold. Where the undo data does not fit, neither are the outputs.
- VerifyDb.VerifyDB: blocks and undo data are always readable.
- Coinbase.BuildCoinbase: the choice of the block's other transactions is not modelled; balances read from the file are not negative.
- BlockChecks.CheckTx: the size of the transaction and of a coinbase script, and with `BlockChecks.CheckVtx` the size, time, proof of work, sigop count and Merkle root of the block, are part of the verdict (`Env.accepts`).
- AddrMan.CAddrMan.SelectTried: which position it returns is not described further, because it is where the last improvement was swapped away from, not the oldest entry.
- AddrMan.CAddrMan.ShrinkNew: the removal written out twice in the code is one method, `Release`.
- AddrMan.CAddrMan.Add_: the id counter is unbounded.
- AddrCheck.Check_: reading a missing key of mapAddr reads as 0 without inserting it.
- AddrFile.Write: entries are values on the file, their byte encoding is not modelled.
- CheckQueue.WaitTerminates: counts every step but spurious wake-ups, of which there could be any number; `fQuit` is never set in the code.
- GrantElection.Count.ElectOrEliminate: one seat and weights of 1.0 as the code uses them, in exact integers (sums stay below 2^53); the reports on where votes went are not modelled.
- MemPool.CTxMemPool.DeleteConfirmed: covers the blocks connected one after the other; a reorganisation is `PoolChain.SwitchChain`.
- ChainState.Chain.Queue: the two queues are filled in a loop of their own after the blocks have been connected, in the order the code fills them; the height of the last checkpoint is a parameter.
- PoolRuns.Run: only switches that disconnect fewer than 60 blocks, all above the last checkpoint, and do not lower the height; `PoolChain.SwitchChain` has no such limit. The code switches to more work, which could be fewer blocks.
- MemPool.CTxMemPool.Accept: standardness, fees, rate limits and scripts are one verdict; records the caches hold with nothing left read as absent.
- GrantVotes.GrantDatabase.GetGrantAwards: counts the blocks it is given; the database is never taken back when the branch changes (the code does not either), so after a reorganisation deeper than what it has counted it mixes two branches. Its file is not modelled.
- GrantChain.AwardsFor: for a database that has counted blocks of the best branch only; on a branch being connected that is so for award blocks up to one interval above the fork.
- VarInt.ReadVarInt: the number read is unbounded; a stream that overflows the width of the type is not modelled.
- Amounts.CompressAmount: in unbounded integers; `Fits` says up to where the code stays in 64 bits.
- ScriptCodec.RoundTrip: expanding a compressed key is a function that recovers the full key it came from (`Lawful`); the curve is not modelled.
- CoinsCodec.Serialize: fields below 128^5, as unsigned 32-bit fields are.
- NetNode.CNode.EndMessage: without the option that drops messages at random.
- NetNode.CNode.SocketSendData: a socket error closes the node; the kinds of error are not told apart.
- Momentum.MomentumSearch: memory in 32-bit words, SHA-512 and the ciphers as functions of their inputs; the padding block the cipher writes past the cache is not modelled.
- Momentum.RoundThreads: thread counts above 2^30 would overflow the code's `int`.
- Retarget.OldGetNextWorkRequired: the products with 0.8 and 1.2 are the whole numbers they come to, 5760 and 8640 seconds.
- Compact.CompactLoss: numbers whose exponent does not fit eight bits wrap around and are excluded.
- Base58.DecodeBase58: text is a sequence of characters ended by its length, without embedded NULs.
- ShareList.Block.AddShares: payouts in floating point and the XML file are not modelled.
- LockedPages.LockedPageManager.LockRange: pages are numbered; ranges that reach the end of the address space are not modelled.
- Block status flags, `ConnectBestBlock`, `InvalidBlockFound` and the choice of the best block by work.
- AddrSelect.Select_: in real arithmetic; in floating point a chance can become 0 after many failed attempts. Draws in which, from some time on, no bucket with an entry comes up are excluded, because with them the code does not end.
- AddrFile.Load: files with more new buckets than the table has, for which the code would refer past its end, are read here as if the others were not there.
- Transaction priority, `KimotoGravityWell` and pool payouts: floating point.
- `ComputeMinWork`, `CalculateBestBirthdayHash`'s choice among results, the queue of pool blocks: only easy members.
- The outputs of the genesis block, which the code never adds to the coins.
- Networking threads, RPC, wallet, key store, alerts, bloom filters, checkpoints, databases and the user interface.
