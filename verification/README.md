# PSob indexer: verification model

This project models the logic of the PSob indexer and of the checks its guest programs share, and proves properties of that model with Dafny. `dafny verify dfyconfig.toml` checks all of it.

What is modelled, file by file:

* `u256.dfy`, `slots.dfy`, `commitment.dfy`, `verify.dfy`: 256-bit arithmetic on byte arrays, compact targets, the slot generator, the AuxPoW commitment check in its three shapes (guest check, fast path, report) and the guest's chain check. `nodecoinbase.dfy` shows why one side condition is needed; `siblings.dfy` states the law of siblings on stored rows.
* `wire.dfy`, `payload.dfy`, `cursor.dfy`, `payments.dfy`: the grammar of transactions (legacy, and BIP 144, section "Serialization") with the integer widths that were really used, and the parsers over it: the cursor that strips witnesses to the form a txid commits to (BIP 141, section "Transaction ID"), and the independent walker that reads payments.
* `store.dfy`, `agreement.dfy`, `database.dfy`, `order.dfy`, `queries.dfy`, `latest.dfy`, `reopen.dfy`: the database. `store.dfy` gives every change to tables and caches as a function on one value; `database.dfy` is the class whose methods update those maps in place and are proved equal to those functions; `queries.dfy` states what the queries answer on the durable tables; a shared parent must also have a cached group, as in the program.
* `ingest.dfy`, `indexer.dfy`, `views.dfy`, `machine.dfy`, `safety.dfy`, `retention.dfy`, `tick.dfy`, `recovery.dfy`, `reorg.dfy`, `classification.dfy`, `sessions.dfy`: one ingest tick as a function, as methods on the database, and as a state machine with one task per chain whose steps interleave between any two database calls; safety of every run and across restarts, which rows each step keeps, when a classification is final, and termination of recovery.
* `swap.dfy`, `proofinput.dfy`: the signed text of a swap intent, and the second merkle fold with the header window of a deposit proof.
* `arith.dfy`, `bytes.dfy`: shared arithmetic and byte helpers.

Conventions:

* `sha256d` is a parameter of which only the length of its result is known. Results that need it not to collide say "equal, or two different strings of this finite set have the same hash", and the set always holds only strings the checks in question really hash.
* The node, the resolver and the order of events are parameters that may take any value. `usize` is 64 bits. Heights and cursors are unbounded in the model; every place where the program saturates or wraps is written out, and `cursor + max_batch` wraps as in a release build.
* Each database method is one atomic step. Table rows are stored as values, and the textual cursor entries of the meta table are a map from chain id to height. A row's key is derived from the row, as all callers do.
* Error messages are enumerations. Locator hashes and hexadecimal strings are byte strings.
* The class methods for queries require a consistent state: tables and caches say the same, but a parent that was never written to its table may be missing. Every state in which they agree is one (`Safety.RunSafe`), and so is every reopened database (`Reopen.ReopenedConsistent`). The methods that change the state require nothing of this kind.

Where the program and its own documentation differ, the program is followed:

* The description of the sibling check asks that the parent's chain id differ from the chain's own; the code also requires it to be 8192.
* "Latest sibling group" is described as the highest block; the code orders by the number of legs first. `LatestGroup.LowerIsLatest` gives a store where the two differ, `LatestGroup.LatestIsHighestIff` says exactly when they do not, and `LatestGroup.FewChainsLatest` gives a bound on the stored chains that a caller can check.
* A failed resolver answer is described as retried at the next tick; the code records it as a trial block. No later tick asks again, unless a rollback first forgets the parent and one of its blocks is then inserted anew (`Classification.ListedAgainIff`, `Classification.TrialListedAgain`). When ticks of two chains overlap, a failed answer can also overwrite a found one (`Classification.LaterAnswerWins`).
* The parent table is said to hold the parents seen; it holds only those already classified, so an unclassified parent does not survive a reopen. After complete ticks there is none.
* `insert_blocks` at an occupied key keeps the old sibling entries, and `prune_before` with bound zero removes height zero from the table alone. Both are stated with the exact condition under which tables and caches still agree.

## Model

| member | source | states |
|---|---|---|
| `U256.AddBe` | crates/common/src/lib.rs:529-536 | the buffer becomes the sum of both big-endian numbers modulo 2^256 |
| `U256.AddOne` | crates/common/src/lib.rs:558-569 | the result is the successor modulo 2^256, and the flag is set exactly for 2^256 - 1 |
| `U256.Shl1` | crates/common/src/lib.rs:571-579 | the buffer becomes twice its number modulo 2^256 |
| `U256.Ge` | crates/common/src/lib.rs:581-589 | byte-wise comparison decides the numeric order |
| `U256.Sub` | crates/common/src/lib.rs:591-605 | a larger number minus a smaller one, exactly |
| `U256.DivMod` | crates/common/src/lib.rs:607-624 | for every numerator and every non-zero denominator, num = q*den + r with r < den; the one-bit shift loses no bit even when den > 2^255 |
| `U256.NoBitLost` | crates/common/src/lib.rs:571-623 | the remainder, doubled, still fits 256 bits in every round: the invariant behind the division |
| `U256.BlockWork` | crates/common/src/lib.rs:539-556 | the work word is floor(2^256/(t+1)) for t >= 1 and 0 for t = 0, where 2^256 does not fit |
| `U256.WorkIdentity` | crates/common/src/lib.rs:544-555 | (2^256-1-t) divided by t+1, plus one, is floor(2^256/(t+1)) |
| `U256.WorkAntitone` | crates/common/src/lib.rs:538-556 | an easier target never records more work |
| `U256.ExpandTargetExact` | crates/common/src/lib.rs:637-674 | for every size, sign bit and 23-bit mantissa: the number expands exactly when the mantissa is not zero, the sign is clear and mantissa * 256^(size - 3), rounded down, fits 256 bits; and the expansion is that number |
| `U256.CompareTargets` | crates/common/src/lib.rs:677-684 | the byte loop decides numeric <= |
| `Slots.LcgArithmetic` | crates/common/src/lib.rs:209-212 | one round of the generator is 32-bit wrapping multiplication and addition |
| `Slots.SlotWritten` | crates/common/src/lib.rs:207-213 | the slot from nonce, chain id and depth in plain arithmetic, with the generator's constants |
| `Slots.SlotIsLinear` | crates/common/src/lib.rs:207-213 | the slot is a linear function of the chain id modulo 2^height, in spite of the 32-bit wrap-around at each step |
| `Slots.SlotCollision` | crates/common/src/lib.rs:207-213 | two chain ids get one slot exactly when they are congruent modulo 2^height, whatever the nonce |
| `Slots.SlotOfSmallerTree` | crates/common/src/lib.rs:207-213 | the slot of a smaller tree is the slot of the larger one reduced modulo the smaller size |
| `Commitment.MerkleFoldBranch` | crates/common/src/lib.rs:66-82 | the loop computes the fold of the branch |
| `Commitment.FoldInjective` | crates/common/src/lib.rs:66-82 | at one depth and slot a root fixes leaf and branch, or two hashed strings collide |
| `Commitment.FindSubslice` | crates/common/src/lib.rs:215-221 | the first occurrence, if there is any |
| `Commitment.CommitmentMeaning` | crates/common/src/lib.rs:145-199 | the check accepts exactly the witnesses whose coinbase folds to the parent root at index 0 under a Litecoin parent of another chain id, and holds one magic followed by the reversed chain root, 2^depth and a nonce that pins the slot |
| `Commitment.UpperHalf` | crates/common/src/lib.rs:115-118 | the chain id is the upper half of the version's four little-endian bytes |
| `Commitment.LeftmostLeafUnique` | crates/common/src/lib.rs:66-82 | transactions that fold to one root at index 0 along branches of any lengths are equal with equal branches, or one is byte for byte an inner node of the other, or strings collide |
| `Commitment.NodesAre64Bytes` | crates/common/src/lib.rs:66-82 | only a transaction of exactly 64 bytes can be such a node |
| `Commitment.SameCoinbase` | crates/common/src/lib.rs:167-198 | accepted witnesses sharing a coinbase have one depth, one chain root and one nonce |
| `Commitment.OneBlockOrNode` | crates/common/src/lib.rs:145-199 | accepted witnesses for one parent header and chain id are the same witness for the same block, or a coinbase is read as an inner node, or hashed strings collide |
| `Commitment.OneBlockPerParent` | crates/common/src/lib.rs:145-199 | one block per parent and chain, for coinbases that are not 64 bytes long |
| `NodeCoinbase.SixtyFourByteCoinbase` | crates/common/src/lib.rs:145-199 | the exclusion is needed: a hash and two accepted witnesses of one parent header for different blocks, one coinbase being 64 bytes, with no collision among the strings hashed |
| `Verify.StepsAreCommitment` | src/verify.rs:261-394 | the step-by-step copy of the check accepts exactly what the guest check accepts |
| `Verify.FormatReasons` | src/verify.rs:237-257 | the header's own conditions on its bytes (length, chain id in the upper half of the version, nBits at offset 72, limit), and which of them is reported first |
| `Verify.Proof1Reasons` | src/verify.rs:261-302 | which condition on the parent the first proof reports, on the parent header's bytes |
| `Verify.Proof2Unread` | src/verify.rs:311-361 | what the second proof reports when the coinbase does not hold one magic with a whole tail |
| `Verify.Proof2Read` | src/verify.rs:352-394 | what it reports otherwise: root, size and nonce as they stand there, and the first that is wrong |
| `Verify.ReportFields` | src/verify.rs:123-183 | what any report shows |
| `Verify.VerifiersAgree` | src/verify.rs:123-217 | fast path, report and guest check agree on every input, and the fast path names the first failing step |
| `Verify.ValidReportFields` | src/verify.rs:123-183 | what a valid report shows is what the witness proves: block and parent hash, chain ids, root, depth, size and slot |
| `Verify.OneHeaderOrNode` | src/verify.rs:196-217 | a parent anchors at most one header of a chain, byte for byte, or a coinbase is read as an inner node, or hashed strings collide |
| `Verify.OneHeaderPerParent` | src/verify.rs:196-217 | the same without the middle case, for coinbases that are not 64 bytes long |
| `Verify.SiblingsSitApart` | src/verify.rs:237-394 | blocks of different chains in one coinbase share depth and root, sit at different slots, and their ids differ modulo 2^depth, or hashed strings collide |
| `Verify.SharedRootOrNode` | crates/common/src/lib.rs:145-199 | all siblings under one parent header share one coinbase and fold to one root at one depth, or a coinbase is read as an inner node, or hashed strings collide |
| `Verify.SiblingsShareRoot` | crates/common/src/lib.rs:145-199 | the same without the middle case, for coinbases that are not 64 bytes long |
| `StoredSiblings.SiblingLaw` | src/verify.rs:196-394 | two rows that pass the fast path and have one parent hash are one block of one chain, or two chains with one coinbase and one root at different slots and ids that differ modulo 2^depth, or a coinbase is read as an inner node, or hashed strings collide |
| `StoredSiblings.RunSiblings` | src/ingest.rs:324-563 | in every run, at every moment, that holds of any two members of a cached sibling group |
| `Verify.VerifyPsobChain` | crates/common/src/lib.rs:704-748 | accepts exactly the non-empty chains in which no header has a fault, and otherwise reports the fault of the first faulty header |
| `Verify.FaultReasons` | crates/common/src/lib.rs:704-748 | which fault of a header is reported, on its bytes |
| `Verify.FaultlessIsLightVerified` | crates/common/src/lib.rs:719-742 | a header has no fault exactly when the fast path accepts it, it links, and its parent header has 80 bytes |
| `Wire.VarintSound` | crates/common/src/cauxpow.rs:111-127 | what a variable-length integer decodes to encodes back to the bytes read, at the width read |
| `Wire.VarintComplete` | crates/common/src/cauxpow.rs:111-127 | every integer at every width that holds it is read back |
| `Wire.TxSound` | crates/common/src/cauxpow.rs:129-183 | an accepted transaction is the serialization of what was decoded, legacy or BIP 144, followed by the rest |
| `Wire.TxComplete` | crates/common/src/cauxpow.rs:129-183 | every structured transaction with an input, with or without witnesses, is accepted and decoded to itself |
| `Wire.TxUnique` | crates/common/src/cauxpow.rs:129-183 | bytes decode to one transaction at most |
| `Wire.LegacyIsCanonical` | crates/common/src/cauxpow.rs:168-183 | the rebuilt legacy bytes are the canonical legacy serialization |
| `Wire.StripIgnoresWitness` | crates/common/src/cauxpow.rs:129-183 | the legacy and the BIP 144 serialization of one transaction yield the same bytes and stop at the same place |
| `Wire.WitnessIsFree` | crates/common/src/cauxpow.rs:129-183 | whatever witnesses are added to a transaction, it stays valid, keeps its canonical form and is stripped to the same bytes |
| `Wire.StripIdempotent` | crates/common/src/cauxpow.rs:129-183 | stripping its own output changes nothing |
| `Payload.WireRoundTrip` | crates/common/src/cauxpow.rs:224-264 | parsing the serialized header, coinbase, branches, indexes and parent header returns exactly those parts |
| `Payload.WireSound` | crates/common/src/cauxpow.rs:224-264 | an accepted payload is the serialization of its parts followed by trailing bytes |
| `Payload.BranchLimit` | crates/common/src/cauxpow.rs:186-200 | a branch is refused for its length exactly above 2^20 hashes |
| `Payload.TrailingIgnored` | crates/common/src/cauxpow.rs:224-264 | bytes appended to an accepted payload change nothing |
| `Payload.ReserializeInverts` | tests/support/mod.rs:41-57 | reserializing an accepted payload without witnesses and with canonical counts gives back the consumed prefix |
| `Cursors.WriteVarint` | crates/common/src/cauxpow.rs:207-220 | appends the canonical encoding |
| `Cursors.Cursor.Take` | crates/common/src/cauxpow.rs:82-97 | advances by exactly n bytes or fails without moving |
| `Cursors.Cursor.Varint` | crates/common/src/cauxpow.rs:111-127 | reads what the grammar reads, or fails as it does |
| `Cursors.Cursor.TakeTx` | crates/common/src/cauxpow.rs:129-183 | the loops return the stripped bytes of the grammar, stop where it stops, and do at most one round per byte consumed, plus one where they fail, whatever the counts claim |
| `Cursors.Cursor.Branch` | crates/common/src/cauxpow.rs:185-205 | reads a branch of at most 2^20 hashes, in rounds bounded by the bytes consumed |
| `Cursors.ReadAuxpow` | crates/common/src/cauxpow.rs:224-264 | the whole parser equals the grammar on every byte string, in at most one round more than the payload has bytes |
| `Payments.ReadVarintIsTake` | crates/common/src/lib.rs:761-783 | the second reader of integers reads what the first reads |
| `Payments.ParseDepositOutputs` | crates/common/src/lib.rs:788-871 | the walker computes the deposit of the decoded transaction: the sum paid to custody and the first recipient |
| `Payments.ParseWithdrawalOutputs` | crates/common/src/lib.rs:880-945 | the walker computes the first payout and the first withdrawal id of the decoded transaction |
| `Payments.DecodedMeaning` | crates/common/src/lib.rs:788-945 | bytes decode exactly when they are one legacy transaction, consumed to the last byte |
| `Payments.PaysToScript` | crates/common/src/lib.rs:840-846 | the payment test accepts exactly the one script of 25 bytes around the hash |
| `Payments.RecipientScript` | crates/common/src/lib.rs:849-861 | a recipient is read exactly from its two scripts, and it is the 20 bytes these carry |
| `Payments.WithdrawalScript` | crates/common/src/lib.rs:930-938 | a withdrawal id is read exactly from its one script, and it is the 32 bytes that one carries |
| `Payments.DepositMeaning` | crates/common/src/lib.rs:788-871 | a deposit is reported exactly for the bytes of a legacy transaction that is no generation transaction, whose outputs with the custody script add up to that positive 64-bit sum, and whose first output naming a recipient names this one |
| `Payments.WithdrawalMeaning` | crates/common/src/lib.rs:880-945 | a payout is reported exactly for the bytes of a legacy transaction whose first output with the recipient's script has this amount and whose first output naming a withdrawal names this one |
| `Payments.ScriptSigsIrrelevant` | crates/common/src/lib.rs:785-787 | transactions that differ only in input scripts give the same answers |
| `Payments.PaymentsAreTransactions` | crates/common/src/lib.rs:788-945 | whatever either parser accepts, the other transaction parser accepts too and consumes to the last byte |
| `Agreement.InsertRowsAgrees` | src/db.rs:511-580 | a batch at fresh keys keeps tables and caches in agreement |
| `Agreement.InsertAgreesIff` | src/db.rs:537-555 | a row keeps agreement exactly when its key is fresh or already holds that very row |
| `Agreement.RollbackAgrees` | src/db.rs:594-682 | rolling a chain back from any height keeps agreement; walking only the cached parents misses no index row |
| `Agreement.PruneAgrees` | src/db.rs:688-744 | pruning below any positive height keeps agreement |
| `Agreement.PruneBelowZero` | src/db.rs:696-724 | a bound of zero keeps agreement exactly when nothing is stored at height zero |
| `Agreement.ClassifyAgrees` | src/db.rs:763-784 | classifying a parent keeps agreement |
| `Agreement.InsertedBlocks` | src/db.rs:511-541 | a batch changes the block table and the block cache in the same way and nothing of the cursors or the parent table |
| `Agreement.NewParentIs` | src/db.rs:557-577 | what is recorded of a new parent, its work included |
| `Agreement.OverlayMeaning` | src/db.rs:511-541 | the table after a batch holds the batch and, elsewhere, what it held |
| `Store.EmptyAgrees` | src/db.rs:160-211 | an empty database agrees |
| `DatabaseModel.Database.constructor` | src/db.rs:160-211 | opening loads every cache from the tables |
| `DatabaseModel.Database.WarmUpCache` | src/db.rs:214-264 | the loading loop, rows in table order |
| `DatabaseModel.Database.InsertBlocks` | src/db.rs:511-580 | on success the whole new state; on a row without a witness the tables are untouched and the block cache has taken the batch |
| `DatabaseModel.Database.RollbackFrom` | src/db.rs:594-682 | the whole new state, and the number of rows removed |
| `DatabaseModel.Database.PruneBefore` | src/db.rs:688-744 | the whole new state, and the number of rows removed |
| `DatabaseModel.Database.ClassifyParent` | src/db.rs:763-784 | the whole new state |
| `DatabaseModel.Database.UnclassifiedParents` | src/db.rs:787-793 | the cached parents in state zero |
| `DatabaseModel.Database.BlockAt` | src/db.rs:421-435 | reads the cache, then the table, and caches what it found there |
| `DatabaseModel.Database.CursorHeight` | src/db.rs:968-971 | the stored cursor, if any |
| `DatabaseModel.Database.SetCursorHeight` | src/db.rs:973-975 | the whole new state |
| `DatabaseModel.Database.SiblingBlocksRange` | src/db.rs:809-835 | a page of the parent's rows in index order, and how many there are |
| `Queries.SiblingOrder` | src/db.rs:809-835 | the listing is by chain, then height, and names exactly the stored rows the index has under the parent |
| `Queries.IndexIsGroup` | src/db.rs:797-835 | the index range and the cached group name the same rows, equally many |
| `DatabaseModel.Database.EpochBlocks` | src/db.rs:897-922 | scanning the caches gives a page of exactly those stored rows whose parent the parent table places in the window, ordered by block height of the parent, chain and height |
| `Queries.EpochOrder` | src/db.rs:918 | the listing is by the parent's height, then chain, then height, with no two rows equal |
| `Queries.EpochsTile` | src/db.rs:897-922 | adjacent windows tile: the longer listing is the shorter ones one after the other, strictly ascending |
| `Queries.PagesTile` | src/db.rs:918-921 | pages of any size, one after the other, are the listing |
| `DatabaseModel.Database.SharedMainnetParents` | src/db.rs:839-886 | a page of a full listing: every mainnet parent with enough legs once, most legs first, then highest block; one leg per chain at its lowest stored height |
| `Queries.FoldLegsMean` | src/db.rs:856-867 | the fold keeps the lowest height per wanted chain |
| `Queries.LegsUnique` | src/db.rs:852-868 | the stored rows determine the legs |
| `Queries.LegsAreChains` | src/db.rs:868-869 | there are as many legs as distinct chains |
| `Queries.SharedTotal` | src/db.rs:839-886 | the total counts each shared parent once |
| `DatabaseModel.Database.LatestSiblingGroup` | src/db.rs:889-892 | there is an answer exactly when there is a shared parent, and no shared parent has more legs than it, or as many legs at a higher block |
| `LatestGroup.LatestIsHighestIff` | src/db.rs:888-892 | the answer is the highest shared parent exactly when no shared parent with blocks of fewer chains lies higher |
| `LatestGroup.FewChainsLatest` | src/db.rs:888-892 | with no more stored chains than legs asked for, the answer is the highest |
| `LatestGroup.LowerIsLatest` | src/db.rs:877-892 | a store in which tables and caches agree and the answer is the lower of two shared parents |
| `DatabaseModel.Database.Stats` | src/db.rs:928-964 | block count, lowest and highest height per chain, totals, and the number of sibling groups |
| `Queries.StatsCountShared` | src/db.rs:839-944 | the sibling-group counter equals the total of the shared-parent query at two legs in every consistent state |
| `Indexer.IngestChain` | src/ingest.rs:324-563 | the imperative tick, on the database, is the tick function: same new state, same result |
| `Ingest.TickStarts` | src/ingest.rs:343-352 | a tick starts above the stored cursor, else above the chain's start height, else above the global one, and fails exactly without any |
| `Ingest.TickFails` | src/ingest.rs:335-420 | when a tick fails, and for which reason, and when it has nothing to do; both leave the store as it is |
| `Ingest.BlockAtExact` | src/ingest.rs:418-492 | the block taken at a height is the one that verifies itself, has the node's bytes and hashes to the node's locator there |
| `Ingest.WalkExact` | src/ingest.rs:418-524 | the walk takes the node's block at every height up to the end, the first height without one, or the first that does not link, and only then names a stale height, the one below |
| `Indexer.VerifyWindow` | src/ingest.rs:418-524 | the loop computes the walk: the verified linked prefix, and the stale height of a broken link |
| `Indexer.StoreBlocks` | src/ingest.rs:526-555 | insert, cursor, prune |
| `Indexer.NeedsPrune` | src/ingest.rs:539-545 | pruning is due exactly when the lowest stored height lies below the bound |
| `Indexer.ClassifyPendingParents` | src/ingest.rs:569-606 | every unclassified parent is classified with the resolver's answer, in whatever order they come |
| `Safety.WalkShape` | src/ingest.rs:418-524 | the walk yields consecutive, verified, linked blocks; a stale height is the one below where it stopped |
| `Safety.RolledBackKeeps` | src/ingest.rs:499-524 | a break at the first block removes exactly the stale top row; a break inside the batch removes nothing |
| `Safety.BatchIsFresh` | src/ingest.rs:526-531 | the tick inserts only at fresh keys |
| `Safety.TaskKeeps` | src/ingest.rs:324-563 | every step of a tick keeps its chain one verified, linked stretch, through all intermediate states |
| `Safety.OthersUntouched` | src/ingest.rs:324-563 | no step touches the rows or the cursor of another chain |
| `Safety.TaskAgrees` | src/db.rs:511-784 | every step keeps tables and caches in agreement |
| `Safety.StepKeeps` | src/ingest.rs:110-128 | one step of any task keeps the invariant of the whole system |
| `Safety.RunSafe` | src/ingest.rs:366-555 | in every run from an empty store, for any answers and any interleaving, tables and caches agree, and each resting chain is one verified linked interval ending at its cursor, with only the newest blocks kept after a storing tick |
| `Retention.TickRows` | src/ingest.rs:494-555 | a tick that stores leaves exactly the old and new rows within the window below its last height, all of them without a window; any other tick leaves the rows or removes the top one |
| `Retention.StepRow` | src/ingest.rs:494-555 | one step of a chain's task removes, adds or keeps a row exactly in the stated cases and never changes one |
| `Retention.PrunesIff` | src/ingest.rs:539-545 | a task prunes exactly when some row lies outside the window |
| `Retention.RunKeepsRow` | src/ingest.rs:494-555 | in every run a stored row stays as it is until its own chain's task rolls it back or prunes it |
| `Safety.StoredRunIsAccepted` | crates/common/src/lib.rs:704-748 | the guest accepts any stored run with the hash of the block below it as checkpoint |
| `Classification.ListedAgainIff` | src/db.rs:557-577 | a step lists a parent as unclassified that was not exactly when it inserts a row whose parent is not cached |
| `Classification.TrialListedAgain` | src/db.rs:557-664 | so a trial parent is listed again when its only block is rolled back and inserted anew |
| `Classification.OverwrittenIff` | src/db.rs:763-784 | a step changes a classified parent that stays cached exactly when it classifies that parent with another answer |
| `Classification.LaterAnswerWins` | src/ingest.rs:569-596 | two tasks that have both to list one parent: a later failed answer overwrites the earlier one, and the parent's rows leave every epoch |
| `Classification.FinalUnderTicks` | src/ingest.rs:557-596 | under whole ticks a classification is final while the parent stays cached |
| `Ticks.TickIsRun` | src/ingest.rs:324-606 | a whole tick is a run of the machine in which only its own task moves, whatever the order of classification |
| `Ticks.TickKeeps` | src/ingest.rs:324-606 | a tick keeps every chain in order, is safe on its own chain and leaves the others' rows alone |
| `Ticks.TickSeqKeeps` | src/ingest.rs:148-226 | any sequence of ticks keeps every chain in order and tables and caches in agreement |
| `Ticks.TickSeqLeaves` | src/ingest.rs:148-226 | a chain that does not tick in it keeps its rows and its cursor |
| `Recovery.WindowOpens` | src/ingest.rs:366-368 | below the tip a window opens exactly when cursor + max_batch does not wrap; otherwise the tick stalls |
| `Recovery.Retreats` | src/ingest.rs:494-524 | against a node whose chain disagrees with the stored top, a tick removes exactly that row and moves the cursor down one |
| `Recovery.Advances` | src/ingest.rs:418-531 | against a node whose chain continues the stored one, a tick appends exactly min(max_batch, tip - cursor) of the node's blocks; of old and new rows exactly those within the window are left, unchanged |
| `Recovery.TipIsQuiet` | src/ingest.rs:353-373 | at the tip a tick changes nothing |
| `Recovery.OneTickLess` | src/ingest.rs:324-555 | each tick of the chain uses up exactly one of the ticks that are left, and a chain that follows the node still follows it afterwards |
| `Reorg.OwnProgress` | src/ingest.rs:324-555 | the same step by step: every step of the chain's task stays on course, and the step that ends a tick uses up one |
| `Reorg.Recovers` | src/ingest.rs:324-555 | in every run, whatever the other tasks do between its steps: once the chain has completed (cursor - fork) + ceil((tip - fork)/max_batch) ticks, its cursor is the tip, every stored block above the fork is the node's, and none within the window is missing; and it stays so |
| `Recovery.RecoversByTicks` | src/ingest.rs:324-555 | the same for whole ticks one after the other |
| `Reopen.ReopenKeeps` | src/db.rs:214-264 | reopening keeps rows, cursors and every sibling group as a set; a parent survives exactly when it was classified |
| `Reopen.ReopenedConsistent` | src/db.rs:214-264 | whatever was lost, the reopened database is consistent, so that its queries still answer from its tables |
| `Reopen.ReopenAgreesIff` | src/db.rs:214-264 | the reopened database agrees exactly when no stored row's parent was left unclassified |
| `Reopen.TickClassifies` | src/ingest.rs:353-588 | a tick leaves no parent unclassified, early returns included |
| `Reopen.ReopenLosesNothing` | src/ingest.rs:557-588 | in every run, whatever the interleaving: when all tasks rest no parent is unclassified, and reopening loses nothing |
| `Reopen.ReopenAfterTicks` | src/ingest.rs:557-588 | so after any sequence of whole ticks |
| `Sessions.RestartKeeps` | src/db.rs:160-264 | a restart with all tasks at rest and every parent classified keeps the invariant of the whole system |
| `Sessions.SessionsSafe` | src/db.rs:160-264 | safety across any number of runs, each stopped at rest and continued on the reopened database |
| `Swap.EscText` | src/swap.rs:87-97 | the escaping loop computes the escaped text |
| `Swap.UnescInverts` | src/swap.rs:87-97 | unescaping an escaped text gives it back |
| `Swap.DecimalDenotes` | src/swap.rs:98-115 | a numeral denotes its number, in digits, without a leading zero |
| `Swap.SignedTextIs` | src/swap.rs:98-116 | the signed text member by member: names, order, quotes and separators |
| `Swap.EscUnique` | src/swap.rs:87-97 | an escaped string followed by a quote decodes in one way |
| `Swap.DecimalUnique` | src/swap.rs:98-115 | a numeral ends at the first character that is no digit |
| `Swap.SignedTextInjective` | src/swap.rs:86-116 | two intents have the same signed text exactly when they agree on every field but the signature |
| `ProofInputModel.FoldMerkle` | crates/chain-rpc/src/lib.rs:548-562 | the loop folds the path |
| `ProofInputModel.BuildPath` | crates/chain-rpc/src/lib.rs:501-507 | one step per sibling, its side the bit of the position |
| `ProofInputModel.PathIsSides` | crates/chain-rpc/src/lib.rs:501-507 | the path takes the sides of the other fold exactly when no set bit of the position is read twice: always up to 64 levels |
| `ProofInputModel.FoldsAgree` | crates/chain-rpc/src/lib.rs:501-562 | the two folds agree for every transaction id, every branch of up to 64 levels and every position |
| `ProofInputModel.BuildProofInput` | crates/chain-rpc/src/lib.rs:467-528 | which requests and bounds must hold, and then one header per height from above the checkpoint to the end of the window, the index and the path |
| `ProofInputModel.BurialExact` | crates/chain-rpc/src/lib.rs:481-499 | from the deposit's header to the end there are exactly min_confirmations headers, or one if that is zero, exactly when the window does not wrap; the index points at the deposit exactly when it fits 32 bits |
| `ProofInputModel.FaultsExact` | crates/chain-rpc/src/lib.rs:472-490 | which fault is reported on every input; above the checkpoint the deposit is unconfirmed exactly when the tip lies below its height plus confirmations less one, modulo 2^64 |

## Left out

- HTTP clients, retries, paging of explorers and request pacing: only "the node or the resolver may answer anything" is kept.
- The web server, metrics, OpenAPI, authentication and rate limiting: plumbing around the library types.
- Peer-to-peer publishing: best effort, without protocol state.
- Configuration loading: only the uniqueness of chain ids and the batch size of at least one are used.
- SHA-256, ECDSA, scrypt and the storage engine: hashes are abstract, tables and caches are maps.
- Failed writes and crashes between two transactions of one tick: the program gives no atomicity there.
- Races inside one cache-updating method run by two threads at once.
- Journal encodings, report texts, hexadecimal display and the WebAssembly wrapper.
- The swap order book and the field checks of swap intents: single branches settle them.
- The chain registry kept by `upsert_chain`, and the schema gate of `open`.
- `get_parent`, `blocks_range`, `latest_height` and the per-chain counter: one lookup or range each.
- Agreement.InsertRowsAgrees: fresh keys are required, because an occupied key breaks agreement (Agreement.InsertAgreesIff); Safety.BatchIsFresh shows that ticks supply them.
- ProofInputModel.FoldsAgree: branches of up to 64 levels, because the program shifts a 64-bit word by the level; ProofInputModel.PathIsSides gives the exact condition beyond.
- Reorg.Recovers: requires tip - 1 + max_batch < 2^64, so that no window below the tip wraps around, because a wrapping window never opens (Recovery.WindowOpens).
- Recovery.RecoversByTicks: the same requirement.
- Indexer.IngestChain: requires the block cache to equal the block table; a failed batch with a row without a witness breaks that, and so does a prune with bound zero on a chain with a row at height zero (Agreement.PruneBelowZero); a tick does neither. Caching what a read finds in the table alone is not part of the tick function.
- Verify.OneHeaderPerParent: coinbases of exactly 64 bytes are excluded, as below; Verify.OneHeaderOrNode has no such condition.
- Verify.SiblingsShareRoot: coinbases of exactly 64 bytes are excluded, as below; Verify.SharedRootOrNode has no such condition.
- Commitment.OneBlockPerParent: coinbases of exactly 64 bytes are excluded, because for them the claim is false (NodeCoinbase.SixtyFourByteCoinbase); Commitment.OneBlockOrNode has no such condition.
- Swap.SignedTextInjective: injectivity only; control characters are not escaped, so the text need not be valid in the sense of section 7 of RFC 8259.
