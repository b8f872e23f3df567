# Verified models of the Penumbra view server, supply indexer, ceremony coordinator, planner and custody policy

The project models five parts of the Penumbra repository and proves what they promise over every input, every run and
every interleaving. `dafny verify dfyconfig.toml` checks all of it.

**The view server's sync engine** is the main part. A worker consumes compact blocks and keeps two copies of a wallet's
world: a state commitment tree in memory that remembers only our commitments, and a database with notes, swaps, epoch
rows, a height and a saved tree.

- `Chain` is what a full node serves. Commitments, nullifiers and tree hashes are terms, so two are equal exactly when
  they were computed from the same data. Trial decryption is an outcome carried by the payload.
- `Tct` and `TctShape` are the tiered commitment tree (epochs of blocks of commitments) with its operations and
  inclusion proofs, and the fact that what is kept never affects roots or positions.
- `ViewDatabase`, `ViewStorage`, `Scanning` and `SyncWorker` follow `storage.rs`, `sync.rs` and `worker.rs`: classes
  `Storage` and `Worker` whose methods loop as the code does, each proved against a function of the old state.
- `IdealRun`, `Agreement` and `Recovery` compare every run with crashes and restarts at any point with the uninterrupted
  run. `Recovery.System` is a state machine whose steps are the single database writes of `Worker.SyncBlock`.
- `Witnessing`, `ScanTruth` and `ChainRecords` say what the rows and the tree mean for a wallet: exactly what is still
  needed can be witnessed, and what every row says is what the chain says. These laws mention no operation of the tree,
  the scan or the storage: positions are counted along the chain, payouts are written out, and heights are block numbers.
- `BuildLock` and `Wakeup` are the interleavings: a transaction builder against the worker under the two locks, and
  readers that subscribe, query and wait against the writer's commits and broadcasts. `NoteQuery` is the note query.

What the theorems assume of the chain is written once, in `IdealRun.ChainOk`: heights are consecutive, genesis is worth
scanning, a block's root is that of its commitments, commitments never repeat, trial decryption returns only plaintexts of
the payload's commitment, no block reveals a nullifier of its own commitments, and a swap does not pay out in its own
block. Whether an asset is a delegation token is a fixed function of the asset.

**The supply indexer** is `SupplyIndex` (events, tables, conservation, a class `Indexer`), `SupplyColumns` (each column as a
sum over the events' own fields, and which events are accepted), `Ledger` (a table of versions by
height), `DelegatedSupply` (one validator's exchange between native and delegation tokens) and `FixedPoint` over
`IntegerDivision` (the 128.128 arithmetic, exactly as truncated). Unsigned arithmetic wraps, as in a release build. A failed
`expect` is an error of its own; like any other it ends the batch, whose transaction is then undone.

**The summoning ceremony** is `Queue` (the sorted vector, as a class that refines a map from address to bid) and `Ceremony`
(the slot tables, as a class, and the rounds, cancelled at any wait and restarted from anywhere). **The planner** is
`Planner`, with the gas and the prices of the code, and **custody policies** are `Policy`.

## Where the code and its own words disagree

- `crates/view/src/storage.rs:1468-1474` says the tree and the database stay in step even after errors. The scan changes the
  shared tree before that code runs, so a retry after a failure in between seals the block twice:
  `IdealRun.RetryDiverges`.
- `crates/view/src/storage.rs:913-917` says the amount is ignored unless one asset's unspent notes are asked for. The query then
  fails for every positive amount: `NoteQuery.Notes`.
- A waiting nullifier query looks only in the note table, so for a claimed swap it never finds anything
  (`Wakeup.ClaimedSwapNotFound`, with an instance in `Wakeup.SwapClaimed`), and if it comes after the broadcast it waits in
  every later state (`Wakeup.LateReader`). A comment at `crates/view/src/service.rs:263-265` knows of it.
- The delegated supply can claim exactly one native token too many after a revaluation, because the rate is truncated before it
  is multiplied: `DelegatedSupply.BoundAttained`, with the exact condition in `DelegatedSupply.StrictBound`.
- Rounding up can give one more than the ceiling: `DelegatedSupply.RoundsOverOnce`, with the exact condition in
  `DelegatedSupply.DelUmDeltaExact`.
- A reward large enough to wrap the 64-bit column is accepted and lost: `SupplyIndex.RewardLost`, with the exact condition
  and the exact loss in `SupplyIndex.Conservation`.
- A revaluation at a 128-bit rate can fail the conversion's `expect` that nothing overflows: `DelegatedSupply.RevaluePanics`,
  with the exact condition in `DelegatedSupply.ChangeRateExact`.
- The planner's `expect` that every required asset was queried fails when spends of other assets raise a fee that was covered
  at first: `Planner.ExpectFails` runs it on such an input. `Planner.Plan` says exactly when it fails, as a condition on the
  planner's input, `Planner.FeeUncovered`: the fee's asset was not required at first, and the notes that the other assets
  need, taken one by one, make the fee more than the actions provide. `Planner.AmpleFeeCovered` and
  `Planner.ScarceFeeUncovered` are bounds that a caller can compute from gas and prices alone.

## Model

| member | source | states |
|---|---|---|
| `Tct.WitnessVerifies` | crates/crypto/tct/src/tree.rs:268-304 | A witness exists exactly for kept commitments, is at the indexed position, and its path leads to the tree's root |
| `Tct.InsertHolds` | crates/crypto/tct/src/tree.rs:192-262 | A kept insertion is witnessable at the next position, no other commitment is lost or moved, and no leaf is kept that the index does not have |
| `Tct.EndBlockHolds` | crates/crypto/tct/src/tree.rs:492-519 | Ending a block loses and moves no kept commitment, and the next one goes to the first place of the next block |
| `Tct.EndEpochHolds` | crates/crypto/tct/src/tree.rs:643-666 | Ending an epoch loses and moves no kept commitment, and the next one goes to the first place of the next epoch |
| `Tct.InsertBlockHolds` | crates/crypto/tct/src/tree.rs:362-487 | Putting a whole block in by its root loses and moves no kept commitment and takes the place of one block |
| `Tct.ForgetHolds` | crates/crypto/tct/src/tree.rs:311-326 | Forgetting removes exactly that commitment from what can be witnessed, and its leaf from what is kept |
| `TctShape.SameShapeSameRoot` | crates/crypto/tct/src/tree.rs:174-190 | Trees that differ only in what they keep have the same root and the same next position |
| `TctShape.EraseForget` | crates/crypto/tct/src/tree.rs:311-326 | Forgetting does not change a tree's shape |
| `TctShape.InsertAllThenSeal` | crates/view/src/sync.rs:111-209 | Inserting a block's commitments one by one and sealing it gives the shape of inserting the block's root |
| `ViewDatabase.ForgetOneMore` | crates/view/src/storage.rs:1613-1630 | Forgetting one more commitment after a set of others is forgetting the larger set, in any order |
| `ViewDatabase.FilterNullifiers` | crates/view/src/storage.rs:1391-1418 | The result is exactly the known nullifiers of the list, each once |
| `ViewDatabase.FilteredExactly` | crates/view/src/storage.rs:1391-1418 | A nullifier passes exactly if it is of a recorded note, of a recorded swap or of a recorded transaction |
| `ViewStorage.InsertNotes` | crates/view/src/storage.rs:1490-1530 | The loop upserts every new note into both note tables and touches nothing else |
| `ViewStorage.InsertSwaps` | crates/view/src/storage.rs:1532-1562 | The loop upserts every new swap and touches nothing else |
| `ViewStorage.SpendNullifiers` | crates/view/src/storage.rs:1564-1630 | The loop marks every row of a revealed nullifier and forgets exactly those swaps and the notes that are not delegation tokens, whose meaning over runs is `Witnessing.RunKept` |
| `ViewStorage.InsertTransactions` | crates/view/src/storage.rs:1636-1666 | Transactions and their nullifiers are recorded in order, without replacing earlier ones |
| `ViewStorage.SendAll` | crates/view/src/storage.rs:1705-1728 | Every key of the block is sent on the channel exactly once |
| `ViewStorage.Storage.RecordEmptyBlock` | crates/view/src/storage.rs:1255-1296 | Accepted exactly for the height after the reported one and never as genesis; only the uncommitted height changes |
| `ViewStorage.Storage.RecordBlock` | crates/view/src/storage.rs:1420-1737 | Accepted exactly for the next height; one transaction with all rows, marks, the tree and parameters, then every broadcast; an error changes nothing |
| `Recovery.WrittenCells` | crates/view/src/storage.rs:1842-1868 | After a block's early writes its epoch's root and the next epoch's start are set, and every other cell of every epoch row is as before |
| `ViewDatabase.AdviceScanned` | crates/view/src/storage.rs:1323-1334 | A note given as advice is what the next scan of its commitment finds, unless it was seen on chain already, and no other commitment's advice changes |
| `Scanning.ScanBlock` | crates/view/src/sync.rs:31-241 | Tree, filtered block and early advice of a scanned block, for both the fast path and the rebuilt block |
| `Scanning.ScanNext` | crates/view/src/sync.rs:121-203 | One payload: kept and recorded if it is ours, kept without a record if a swap's output is missing, else not remembered |
| `Scanning.FetchTransactions` | crates/view/src/worker.rs:110-190 | The loop returns the relevant transactions and gives each new record, as its source, the last transaction that contains its commitment, if one does |
| `Scanning.RelevantInOrder` | crates/view/src/worker.rs:148-182 | The transactions returned are exactly those that spend a known nullifier or make one of our new records, in block order |
| `Scanning.RelevantAfter` | crates/view/src/worker.rs:162-177 | Giving sources keeps both key sets, so it does not change which transactions are relevant |
| `Scanning.LastTxWithIsLast` | crates/view/src/worker.rs:162-177 | A record's new source is the last transaction of the block that contains its commitment |
| `Scanning.EarlyReturnExact` | crates/view/src/worker.rs:120-136 | Skipping the download agrees with the full scan exactly when no transaction makes one of our new records |
| `SyncWorker.Worker.constructor` | crates/view/src/worker.rs:64-108 | A new process starts from the saved tree |
| `SyncWorker.Worker.SyncBlock` | crates/view/src/worker.rs:236-450 | One block: accepted exactly when it comes next, with the whole new state of database, tree, height and channels |
| `SyncWorker.Worker.Sync` | crates/view/src/worker.rs:192-461 | A run over any stream processes exactly the accepted blocks, and the reported height moves by their number |
| `SyncWorker.Worker.RecordNewAssets` | crates/view/src/worker.rs:384-433 | Records the metadata of exactly the new notes' unknown assets that have any |
| `SyncWorker.AcceptedInOrder` | crates/view/src/worker.rs:225-239 | Whatever the gaps, repeats and order of the stream, the processed heights are start, start + 1, and so on |
| `SyncWorker.ProcessedHeight` | crates/view/src/storage.rs:572-589 | After a block the reported height is the block's |
| `IdealRun.IdealEmpty` | crates/view/src/worker.rs:261-274 | In the uninterrupted run an empty block moves only the tree, the uncommitted height and epoch rows; no note, swap, asset or saved tree changes |
| `IdealRun.PlanShape` | crates/view/src/sync.rs:111-218 | Fast path, rebuilt block and unscanned seal all give the shape of the block's root |
| `IdealRun.SparseRefinesFull` | crates/view/src/sync.rs:111-218 | After every block the sparse tree has the root, the next position and the number of blocks of the tree that keeps everything |
| `IdealRun.FullLayout` | crates/crypto/tct/src/tree.rs:643-666 | The tree that keeps everything, and every tree of its shape, has each block's root at the place counted along the chain, finalizes exactly the epochs that ended, and holds nothing else |
| `IdealRun.LayoutRoot` | crates/crypto/tct/src/tree.rs:174-190 | The root of such a tree is the hash of the chain's epochs, of their blocks, of the blocks' commitments, each finalized exactly if it has ended |
| `IdealRun.IdealHeight` | crates/view/src/worker.rs:196-239 | After n blocks the next height is n |
| `IdealRun.IdealCommits` | crates/view/src/worker.rs:261-283 | A block moves the database's height and saved tree exactly if it has payloads, nullifiers or one of the listed notices |
| `IdealRun.RetryDiverges` | crates/view/src/storage.rs:1468-1474 | Scanning a block again on the tree a failed attempt left seals one block too many, so it never agrees with the uninterrupted run |
| `Agreement.PlanSame` | crates/view/src/sync.rs:91-110 | What a scan decides depends only on rows, tree and which rolled-up commitments are known, not on epoch or asset rows |
| `Agreement.ForgottenSame` | crates/view/src/storage.rs:1594-1624 | What is forgotten does not depend on the eagerly written tables, since a recorded note's asset is recorded |
| `Agreement.CommitSame` | crates/view/src/storage.rs:1476-1737 | Committing the same block to databases with the same core leaves the same core and the same tree |
| `Recovery.AdviceNotInBlock` | crates/view/src/sync.rs:173-176 | No note that a block gives advice about is one of the block's own commitments, and empty blocks give none |
| `Recovery.PlanNow` | crates/view/src/sync.rs:91-110 | Whatever crashes came before, the plan made for the next block is the uninterrupted run's, although advice of a lost attempt may be left behind |
| `Recovery.StepInv` | crates/view/src/worker.rs:236-450 | Every step, crash and restart keeps agreement with the uninterrupted run, up to what was written ahead |
| `Recovery.StepsMakeBlock` | crates/view/src/worker.rs:236-450 | Uninterrupted, the machine's steps of a block do exactly what the worker's block method does |
| `Recovery.NeverRefused` | crates/view/src/storage.rs:1427-1443 | A block that was started is never refused for its height |
| `Recovery.CrashRecovery` | crates/view/src/worker.rs:64-108 | Between blocks of any run with crashes anywhere, tree, heights, note and swap rows, transactions and saved tree are the uninterrupted run's; past every block ever started, epoch rows and known notes are too |
| `Recovery.RunTree` | crates/view/src/worker.rs:447-448 | In every such run the tree has the full tree's root, which is the hash counted out from the chain, each block's root at its place on the chain, and the next position that the chain gives |
| `Recovery.ReportedHeight` | crates/view/src/storage.rs:572-589 | The reported height is the number of sealed blocks minus one, and an uncommitted height exceeds the database's |
| `Recovery.HeightSteps` | crates/view/src/storage.rs:1294-1295 | Within a process the reported height never decreases, and moves by one at the end of each block |
| `Witnessing.RunWitness` | crates/view/src/storage.rs:1492-1630 | In every run, unspent notes, delegation notes and unclaimed swaps are kept at their recorded positions |
| `Witnessing.RunKept` | crates/view/src/storage.rs:1594-1624 | In every run, between blocks, a commitment has a proof exactly if it is a note that is unspent or of a delegation token, a swap that is unclaimed, or a swap of ours whose output its block did not give |
| `Witnessing.MarkedWitness` | crates/view/src/storage.rs:1564-1630 | Marking and forgetting never takes away a witness that is still needed |
| `Witnessing.VotingNotesWitnessed` | crates/view/src/storage.rs:995-1056 | Everything a voting query returns, spent or not, has a proof against the tree's root at its recorded position |
| `Witnessing.VotingNotesExact` | crates/view/src/storage.rs:995-1056 | Exactly the account's delegation notes made before the height and not spent by then are returned, with their validators, and when the query fails |
| `Witnessing.FilteringLosesNothing` | crates/view/src/storage.rs:1391-1418 | Committing with the filtered nullifiers leaves every table and the tree as committing with all of them |
| `Witnessing.PlanFilteringLosesNothing` | crates/view/src/sync.rs:221-227 | The same for a chain's block as the worker plans it |
| `ScanTruth.FullIndexed` | crates/crypto/tct/src/tree.rs:192-262 | The full tree can witness exactly the chain's commitments and never moves one |
| `ScanTruth.FullPlaces` | crates/crypto/tct/src/tree.rs:192-262 | It has each commitment at the number of epochs ended before its block, the blocks since, and the commitments before it in the block |
| `ScanTruth.RunTrue` | crates/view/src/sync.rs:121-203 | In every run each note and swap we can decrypt has its row, and each row names the block that made it, its place counted along the chain, and the block that last revealed its nullifier, if any |
| `ScanTruth.RunClaims` | crates/view/src/sync.rs:171-176 | In every run, when a later block rolls up a note that a swap of ours pays out (asset, amount, claim address and seed written out), that note has its row and is in the note table |
| `ChainRecords.RunRecords` | crates/view/src/storage.rs:1636-1703 | In every run rows are of our own notes and swaps only and have the sources the chain gives; recorded transactions are the chain's at their heights, and every one that concerns a row is recorded; parameters are those last set |
| `ChainRecords.RecordTxsIn` | crates/view/src/storage.rs:1636-1666 | Exactly the given transactions and their nullifiers are added, at the block's height, and what was recorded before stays |
| `BuildLock.SiteStepInv` | crates/view/src/service.rs:156-163 | Every interleaved step of worker, builder, other requests and crashes keeps the locks' meaning |
| `BuildLock.BuildNeverMisses` | crates/view/src/worker.rs:241-248 | While the builder holds the build lock, every note it read as spendable has a proof at its recorded position |
| `BuildLock.RequestSucceeds` | crates/view/src/service.rs:1590-1600 | The builder's witness request never fails for a missing commitment |
| `BuildLock.OneAnchor` | crates/view/src/service.rs:1559-1605 | All paths of one witness request, with or without the build lock, lead to the one anchor it returns |
| `Wakeup.ChannelStepInv` | crates/view/src/storage.rs:372-440 | A waiting reader's key, once recorded, is still ahead of it in the channel or about to be sent |
| `Wakeup.NoLostWakeup` | crates/view/src/storage.rs:448-500 | After the broadcasts a reader waiting for a recorded key gets it, or an explicit lag error exactly when it fell behind the capacity |
| `Wakeup.AskingStep` | crates/view/src/storage.rs:372-412 | A reader's query says yes exactly if the key is recorded, no exactly if it is not and the reader does not wait, and else it waits from where it subscribed |
| `Wakeup.WaitingStep` | crates/view/src/storage.rs:416-438 | A waiting reader is told yes exactly by its key's message, fails exactly when it lags or the channel has ended, and otherwise moves past one message |
| `Wakeup.NeverWaits` | crates/view/src/storage.rs:410-412 | In every run a reader that does not wait is answered by its query, and fails only with not found |
| `Wakeup.FoundIsThere` | crates/view/src/storage.rs:448-500 | Nobody is told yes about a key that was neither recorded nor sent |
| `Wakeup.LateReader` | crates/view/src/storage.rs:524-568 | A reader that subscribes after the broadcasts, for a key the query does not find, is still waiting in every later state of every run, until a block with that key commits, the channel closes or it lags |
| `Wakeup.FoundIffRow` | crates/view/src/storage.rs:376-408 | Exactly notes with a spendable row are found, so one known only from advice is not |
| `Wakeup.BlockIsCommit` | crates/view/src/storage.rs:1705-1730 | A block makes exactly its broadcast notes and swaps newly found by query |
| `Wakeup.NullifierFoundIff` | crates/view/src/storage.rs:534-553 | A revealed nullifier is found by query exactly when it is a note's |
| `Wakeup.ClaimedSwapNotFound` | crates/view/src/storage.rs:534-553 | A claimed swap's nullifier passes the filter and its row is marked, but the query never finds it |
| `Wakeup.SwapClaimed` | crates/view/src/storage.rs:1391-1418 | A database and a block for which this happens |
| `Wakeup.NullifiersAreCommit` | crates/view/src/storage.rs:1718-1723 | A nullifier newly found by query was broadcast, and none is lost |
| `NoteQuery.Notes` | crates/view/src/storage.rs:881-985 | Exactly when the query fails; every row returned is of the asked asset and account, worth something, and unspent unless spent ones are asked for; and which ones come before the cut-off |
| `NoteQuery.MatchingInOrder` | crates/view/src/storage.rs:925-957 | Exactly the wanted rows match, in the table's order |
| `NoteQuery.VisibleInOrder` | crates/view/src/storage.rs:959-976 | Of those, exactly the ones worth something are shown, in their order |
| `NoteQuery.UpToIsShortest` | crates/view/src/storage.rs:959-976 | The rows considered are a prefix that reaches the amount exactly when all rows do |
| `NoteQuery.ShorterFallsShort` | crates/view/src/storage.rs:959-976 | No shorter run of rows reaches the amount |
| `FixedPoint.MulExact` | crates/core/num/src/fixpoint.rs:119-154 | The word-by-word product is the truncated product and overflows exactly when that does not fit |
| `FixedPoint.DivByRatioIff` | crates/core/num/src/fixpoint.rs:156-159 | Dividing any integer by any nonzero truncated ratio gives the true whole part exactly when what truncation loses does not reach the next one |
| `DelegatedSupply.DelUmDeltaExact` | crates/bin/pindexer/src/supply.rs:160-177 | For all 64-bit changes and nonzero rates, rounding down is the floor of the true quotient, and rounding up its ceiling, or one more exactly when it rounds over |
| `DelegatedSupply.RoundsOverOnce` | crates/bin/pindexer/src/supply.rs:167-175 | Rounding up does exceed the ceiling, for one unit at the smallest rate |
| `DelegatedSupply.AddUmExact` | crates/bin/pindexer/src/supply.rs:160-205 | For every 64-bit change and every rate, zero included, when a change succeeds and what it leaves, in exact integers |
| `DelegatedSupply.UnbondedExact` | crates/core/component/stake/src/rate.rs:195-211 | For all 128-bit rates and amounts the worth is the exact floor, or one less exactly when truncation loses more than the product's fraction, and a worth that does not fit is a failed expectation |
| `DelegatedSupply.ChangeRateExact` | crates/bin/pindexer/src/supply.rs:207-218 | Exactly when a revaluation succeeds or panics, and what it leaves |
| `DelegatedSupply.RevaluePanics` | crates/core/component/stake/src/rate.rs:206-208 | A 128-bit rate does fail the expectation |
| `DelegatedSupply.NeverOverClaims` | crates/bin/pindexer/src/supply.rs:148-218 | In every reachable state delegation tokens claim at most one native token beyond what is there, and nothing beyond it without a revaluation |
| `DelegatedSupply.BoundAttained` | crates/bin/pindexer/src/supply.rs:207-218 | The bound is attained, so the strict one fails |
| `DelegatedSupply.StrictBound` | crates/bin/pindexer/src/supply.rs:207-218 | The strict bound holds after a revaluation exactly when that does not fall short, and adding or removing keeps it |
| `Ledger.LatestIsGreatest` | crates/bin/pindexer/src/supply.rs:65-82 | A read finds the row of the greatest height not above the one asked for |
| `Ledger.WriteShows` | crates/bin/pindexer/src/supply.rs:85-109 | A write changes no earlier version |
| `Ledger.ReadIsFold` | crates/bin/pindexer/src/supply.rs:115-126 | With changes in height order, a read at any height is the fold of exactly the changes at or below it |
| `SupplyIndex.Indexer.DefineValidator` | crates/bin/pindexer/src/supply.rs:257-279 | A known validator keeps its identifier, a new one gets the next |
| `SupplyIndex.IndexKeepsIds` | crates/bin/pindexer/src/supply.rs:257-279 | Over every event identity keys keep their identifiers and no two share one |
| `SupplyIndex.Indexer.Index` | crates/bin/pindexer/src/supply.rs:440-652 | One event: when it fails, and the tables it leaves |
| `SupplyIndex.Indexer.IndexBatch` | crates/bin/pindexer/src/supply.rs:938-953 | A batch applies every event or, on an error, leaves the tables as they were |
| `SupplyIndex.UnstakedNet` | crates/bin/pindexer/src/supply.rs:440-652 | Despite wrap-around, every stored change keeps the components' sum, up to validators and rewards |
| `SupplyIndex.Conservation` | crates/bin/pindexer/src/supply.rs:440-652 | The total of unstaked components and all validators changes only by a revaluation or a reward, by exactly that much, less exactly two to the 64 when the reward wraps around |
| `SupplyIndex.RewardLost` | crates/bin/pindexer/src/supply.rs:486-500 | A reward that is accepted and takes the only native token with it |
| `SupplyIndex.RunConservation` | crates/bin/pindexer/src/supply.rs:440-652 | Over any accepted events in height order the total changes by exactly the rewards and revaluations, less what wrapped rewards lose |
| `SupplyIndex.VersionsAreFolds` | crates/bin/pindexer/src/supply.rs:65-125 | From any genesis, reading either table at any height gives the genesis rows changed by exactly the events at or below it |
| `SupplyIndex.StakedReplays` | crates/bin/pindexer/src/supply.rs:282-356 | A validator's versions depend only on its own events |
| `SupplyIndex.SeedGenesis` | crates/bin/pindexer/src/supply.rs:841-904 | The genesis loop over allocations and validators, and when it fails |
| `SupplyIndex.GenesisTotal` | crates/bin/pindexer/src/supply.rs:841-904 | Genesis accounts for everything minted, delegation tokens one to one, counting a repeated key's last entry only; every row is at height zero and fits its columns |
| `SupplyIndex.TotalFromGenesis` | crates/bin/pindexer/src/supply.rs:921-953 | After genesis and any accepted events in height order, the total is what genesis, rewards and revaluations made, less what wrapped rewards lose |
| `SupplyIndex.MintIsSum` | crates/bin/pindexer/src/supply.rs:845-865 | The mint of an asset is the sum of its allocations modulo two to the 128 |
| `SupplyIndex.GenesisAccepted` | crates/bin/pindexer/src/supply.rs:866-902 | Genesis is accepted exactly if every amount it records fits a signed 64-bit integer |
| `SupplyColumns.ColumnsFromGenesis` | crates/bin/pindexer/src/supply.rs:440-652 | After any genesis and accepted events in height order, every column read at any height is the sum of its events' own fields up to there, modulo two to the 64 where unsigned |
| `SupplyColumns.StakedColumns` | crates/bin/pindexer/src/supply.rs:440-510 | A delegation, an undelegation and a rate change leave exactly these amounts, tokens and rate in the validator's row |
| `SupplyColumns.AcceptedIff` | crates/bin/pindexer/src/supply.rs:440-652 | An event is accepted exactly if it is of another asset or empty, or its height, its amount and every column it leaves fit their types |
| `Queue.BinarySearch` | tools/summonerd/src/queue.rs:54-60 | Finds a place that keeps the vector sorted, at an equal bid if there is one |
| `Queue.Inner.Push` | tools/summonerd/src/queue.rs:48-63 | Keeps the vector sorted with unique addresses, and replaces the address's entry in the map it stands for |
| `Queue.Inner.Prune` | tools/summonerd/src/queue.rs:66-75 | Exactly the connected participants stay |
| `Queue.Inner.Pop` | tools/summonerd/src/queue.rs:80-86 | Removes one entry that nobody outbids, or finds the queue empty |
| `Queue.Inner.PruneAndPop` | tools/summonerd/src/queue.rs:137-141 | Returns a connected entry of maximal bid and removes exactly it and the disconnected ones |
| `Queue.RunQueue` | tools/summonerd/src/queue.rs:17-111 | After any operations the vector is sorted, has unique addresses, and holds exactly the entries the map has |
| `Queue.LatestBid` | tools/summonerd/src/queue.rs:39-63 | An address in the queue has its latest bid, with no prune or pop of it since |
| `Ceremony.Storage.SetRoot` | tools/summonerd/src/storage.rs:103-120 | Sets slot zero of both tables as root, once |
| `Ceremony.Storage.CommitContribution` | tools/summonerd/src/storage.rs:293-333 | Appends one row to each table, each numbered by its own table |
| `Ceremony.Storage.Strike` | tools/summonerd/src/storage.rs:164-175 | The address has one strike more, no other address's count changes, and the slot tables stay |
| `Ceremony.StrikesCounted` | tools/summonerd/src/coordinator.rs:54-103 | After any run a participant has one strike for each of its rounds that failed or ran out of time, and no others |
| `Ceremony.Storage.ReadCurrentCrs` | tools/summonerd/src/storage.rs:229-291 | Reads the elements of the last slot present in both tables, as its root flag says |
| `Ceremony.Storage.CurrentSlot` | tools/summonerd/src/storage.rs:335-346 | The last slot, or zero without any |
| `Ceremony.CommitExtends` | tools/summonerd/src/storage.rs:293-333 | A validated contribution linked to the current elements extends the chain by one slot and becomes current |
| `Ceremony.ContributorsCredited` | tools/summonerd/src/coordinator.rs:76-103 | After any run slot k holds the contribution of the k-th round that was saved, in the name of its participant |
| `Ceremony.CeremonyChain` | tools/summonerd/src/coordinator.rs:54-103 | After any rounds, cancelled at any wait, and any restarts, both tables hold the same slots, only slot zero is a root, and each later slot is validated and linked to the one before |
| `Ceremony.AlwaysInitialized` | tools/summonerd/src/coordinator.rs:76-80 | Once the root is set, there always are current elements to send |
| `Planner.RefreshRequired` | crates/core/transaction/src/action_list.rs:152-245 | After a refresh exactly those assets are required of which the actions provide less than the fee in them, and the fee never goes down |
| `Planner.RefreshBalance` | crates/core/transaction/src/action_list.rs:152-245 | A refresh puts all that is provided into change and the fee, except what an asset that stops being the fee's has left within its old fee |
| `Planner.RefreshCovers` | crates/core/transaction/src/action_list.rs:152-186 | The fee is at least the estimate for the list as refreshed, and every change output is worth something |
| `Planner.PrioritizeSorts` | crates/view/src/planner.rs:545-566 | The list offered is exactly the notes of positive amount; those on one-time addresses stand before all others, and within a kind no note stands before a larger one |
| `Planner.Plan` | crates/view/src/planner.rs:607-659 | Ends within 101 spends; success balances every asset exactly, with a fee that covers the gas; "ran out" means that the first required asset's list is empty; the expectation fails exactly when the fee's asset was not queried and the notes the other assets need leave the fee uncovered; smaller notes on ordinary addresses are spent first |
| `Planner.SuffixTaken` | crates/view/src/planner.rs:628-645 | The spends of an asset are exactly a suffix of its list, taken from the back |
| `Planner.SpendsDistinct` | crates/view/src/planner.rs:600-621 | No note is spent twice |
| `Planner.RequiredShrinks` | crates/view/src/planner.rs:628-637 | While balancing, no asset other than the fee's becomes required that was not at first |
| `Planner.RequiredAfter` | crates/view/src/planner.rs:628-651 | After any spends exactly those assets are required of which the actions provide less than the fee in them |
| `Planner.SpendsAreNeeds` | crates/view/src/planner.rs:628-645 | What the condition counts for an asset is a beginning of the shortest run of notes from the back of its list that makes up for its shortfall, and all of it once the asset is met |
| `Planner.SpendsGas` | crates/core/transaction/src/gas.rs:47-66 | The gas of a list with spends added is the list's and one spend's gas for each |
| `Planner.EstimateMonotone` | crates/core/component/fee/src/gas.rs:123-130 | More gas never costs less, whatever the prices and the tier |
| `Planner.EstimateClose` | crates/core/component/fee/src/gas.rs:123-130 | The estimate is price times gas times the tier's percentage, to within the rounding of five divisions |
| `Planner.AmpleFeeCovered` | crates/view/src/planner.rs:630-633 | The expectation never fails if the actions provide the fee of a hundred spends and change of every asset |
| `Planner.ScarceFeeUncovered` | crates/view/src/planner.rs:630-633 | With the fee's asset not queried and enough notes of the others, it fails if the gas of the actions and spends alone costs more than is provided |
| `Planner.ExpectFails` | crates/view/src/planner.rs:630-633 | The planner, run on a spend that covers the fee exactly and an output of another asset, with one note of that asset, fails the expectation |
| `Policy.CheckPreAuthorizations` | crates/custody/src/policy.rs:87-129 | Succeeds exactly when each allowed signer's first packet verifies and enough distinct allowed signers are present |
| `Policy.RepeatsDoNotCount` | crates/custody/src/policy.rs:108-116 | A further packet of a signer changes nothing, whatever its signature |
| `Policy.SignersAsSet` | crates/custody/src/policy.rs:107-108 | Listing an allowed signer repeatedly changes nothing |
| `Policy.StrangersDoNotCount` | crates/custody/src/policy.rs:108-116 | A packet of a signer that is not allowed changes nothing |
| `Policy.CheckTransaction` | crates/custody/src/policy.rs:203-237 | Each policy succeeds exactly when every output and swap, or every action, or the pre-authorization is allowed |

## Left out

- The tree's tiers hold at most 65,536 entries each and are quad trees inside; here they are flat sequences of any length, and an inclusion proof carries the siblings of a whole tier.
- Saving and loading the tree is the identity. Only the whole saved tree is a database column.
- Cryptography (trial decryption, commitments, nullifier derivation, signatures, contribution validation) enters as free terms, payload outcomes or function parameters.
- A batch swap's output amounts are the block's data; the pro-rata arithmetic of our share is not part of the model.
- Position, auction and memo records, return addresses, app parameters and the transaction bodies are not recorded; asset rows are, but recovery does not claim them equal, only correct.
- ViewDatabase.FilterNullifiers: gives the known nullifiers in block order, because the query's own order is unspecified.
- In-process retry after an error between scan and commit is not a step of `Recovery`; `IdealRun.RetryDiverges` says why it could not agree.
- Recovery.CrashRecovery: compares epoch rows and early-known notes only once every block ever started is done, because before that a crash may have left them ahead.
- Builders request proofs for nonzero notes, swaps and votes; dummy proofs for zero-value spends are not modelled.
- A broadcast channel has any capacity; rounding it to a power of two and the watch channel for heights are not modelled.
- Planner.Plan: works on unbounded amounts; memo and detection data are not modelled, and asset identifiers are numbers in their order.
- ViewStorage.Storage.RecordBlock: fetching changed app parameters from the node, which can fail before anything is written, is left out, because what is fetched goes into a table that nothing else here reads.
- SyncWorker.Worker.SyncBlock: positions, auctions and their assets, which it also records, are not part of the database here.
- SyncWorker.Worker.RecordNewAssets: does not follow an asset to the auction or position it belongs to.
- Ceremony access control (bids, bans, repeat contributors) and notifications are not modelled; strikes are only counted.
- gRPC plumbing, SQL text, connection pools, the network and clocks are not modelled; a database transaction is one step.
