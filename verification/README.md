# Receipts, slashing and the accounts database: a verified model

This project models four parts of the system and proves what they promise, for
every input, every run and every interleaving.

**The coverage pool and the slashing program.** Stakers share slashed bonds
through a reward-per-lamport index with floor division. `Slashing.dfy` holds the
pool's rules and the mutable pool and position objects, `PoolRuns.dfy` measures
whole runs against the exact pro-rata rule, and `PoolDust.dfy` bounds what rounding
strands. `Program.dfy` is the on-chain program as rules, `ProgramRuns.dfy` proves
solvency and conservation over every run, `Refusals.dfy` what is refused and why,
`BondStory.dfy` follows one bond and one escrow through every run, `PoolStory.dfy`
every staker, and `Processor.dfy` is the processor that changes accounts step by
step, with the same guarantees for any sequence of transactions.

**The watchtower.** `Receipt.dfy` is the receipt codec, `Fault.dfy` the faults and
their independent verification, `LogScan.dfy` and `LogTheorems.dfy` the receipt-log
scan, `Delivery.dfy` everything it reports and what the order of delivery means to
it, `Blocks.dfy` the recovered execution order and the theory of conflicting
transactions, `ReceiptTables.dfy`, `BlockScan.dfy` and `BlockTheorems.dfy` the block
scan, `BlockFaults.dfy` everything it reports, `Withholding.dfy` the delay scan.

**The evidence pipeline.** `Evidence.dfy` is the ed25519 instruction builder, its
reader and the contradiction check. `EndToEnd.dfy` joins the watchtower to the
program: exactly when what is detected convicts, and that what convicts was signed.
`Instances.dfy` holds concrete runs of the two together.

**The accounts database.** `Allocator.dfy` is the lock-free allocator as
interleaved atomic steps, `Rollbacks.dfy` says when a failed call loses its rollback,
`Requests.dfy` for which requests that can happen, and `Wrapping.dfy` how many blocks
must be asked for before a grant can go wrong. `Extents.dfy`,
`AccountTables.dfy` and `Compaction.dfy` are tilings, index tables and compaction as
values, and `AccountsDb.dfy` the index, storage and database objects proved to refine
a plain map.

`Base.dfy` holds shared vocabulary.

## How it is set up

- Ed25519, SHA-256 and blake3 are function parameters (`Crypto`), so every theorem
  holds for all of them. Nothing is assumed injective: where collision resistance
  matters, the conclusion is "or these two different strings collide".
- The clock, rent, the sibling instruction, wallets and the fee payer of a wire
  transaction are inputs. A transaction whose ed25519 instruction does not verify
  has no effect.
- Anyone may transfer lamports to any address, created or not. What an address holds
  before it is created is part of the ledger, and creating an account there is
  refused, as the system program refuses it.
- Machine integers are unbounded numbers with the wrap-around, narrowing or
  saturation written out where the code has it. In the program, an addition that
  would overflow needs more lamports than exist, and is refused like any other
  payment that is not covered; conservation then keeps every sum within 64 bits.
- Runs are sequences of states, each the result of one step on the one before.
- One block of storage is one number and a record is a sequence of blocks. A borrowed
  account carries the range it was read from, and a commit is a write to that range.

## Where code and comments differ

- The comment on the reserved floor lists unclaimed rewards
  (crates/program/src/processor.rs:59-60); the code counts rent, bond and stake
  only. The model follows the code, and `ProgramRuns.EveryRunCoversClaims` shows
  rewards are covered all the same.
- The comment on distribution says truncated lamports accrue to later
  distributions (crates/slashing/src/pool.rs:63-65); the code carries no remainder.
  `PoolDust.DustPerDistribution` bounds what one slash strands and
  `PoolDust.StrandedIsBounded` what a whole run does.
- A conviction is meant to follow whenever evidence is valid and a bond stands
  (crates/program/src/processor.rs:296-300, 436-441). The conviction account is
  created with `create_account`, which refuses an address that already holds
  lamports, and that address follows from the two messages.
  `EndToEnd.DetectionConvicts` and `BondStory.BondIsSlashableIff` state exactly when
  evidence convicts, in terms of balances a caller can read beforehand;
  `Instances.OccupiedAddressRun` and `Instances.OccupiedAddressExample` are runs in
  which the address was funded and the bond was withdrawn.
- Two receipts that differ only in their signature are reported as equivocation
  and verify, but the program refuses them: `EndToEnd.DetectionConvicts` has the
  exact condition, `Instances.SignatureOnlyExample` an instance.
- A reorder accusation that rests on commit tickets is raised but does not verify:
  `BlockTheorems.BlockFaultVerifiesIff` gives the exact condition,
  `BlockTheorems.TicketReorderExample` an instance.
- The check that a receipt follows its predecessor adds one to a 64-bit sequence
  number, which wraps. An honest log that has used every number has one pair of
  receipts that passes for a broken chain: `LogTheorems.HonestLogFramedIff` gives the
  exact condition, `LogTheorems.FullLogExample` the log.
- A failed allocation may fail to put the cursor back when calls overlap.
  `Rollbacks.StuckIffLost` says at which step, `Requests.StuckIffOverfull` for which
  requests it can happen at all, `Rollbacks.StuckForGood` that it is for good, and
  `Requests.StuckExample` is an instance. Calls that do not overlap never do
  (`Rollbacks.AloneNeverStuck`); the database serializes them with its index write
  transaction, and `AccountsDb.dfy` models them that way.
- An upsert is meant to store the account given, and a borrowed
  account is committed to the range it was read from, wherever its key stands by then.
  `AccountTables.CommitUpdatesIff` says that this is the update whatever is written
  exactly when the key still stands there, `AccountTables.CommitSparesIff` which other
  accounts are sure to be spared, and `AccountTables.StaleCommitExample` is an
  instance in which one is not.
- The comment on the log scan says that the order and repetition of the input carry no
  meaning (crates/watchtower/src/equivocation.rs:12-13); the scan keeps whichever
  statement about a position came first. `Delivery.FaultsAreExact` says what it raises,
  `Delivery.DeliveryMeansNothingIff` for exactly which logs the comment holds, and
  `Delivery.DeliveryExample` has an accusation that depends on the order. Which
  positions are accused of equivocation never does (`LogTheorems.DeliveryInsensitive`).
- Grants are meant never to overlap. `Wrapping.MisgrantsIffWraps` says exactly how many
  blocks must be asked for before one can go wrong, and `Allocator.WrapExample` grants
  one block twice.

## Model

| member | source | states |
|---|---|---|
| `Slashing.SplitOf` | crates/slashing/src/split.rs:17-26 | the three shares add up to exactly what was slashed, neither payout share is rounded up, the burn absorbs at most two lamports of rounding and is at least the other two together |
| `Slashing.ClaimableWithinWorth` | crates/slashing/src/position.rs:20-29 | flooring and the 64-bit narrowing only take away: what can be claimed never exceeds the exact worth of the position |
| `Slashing.SettleLosesLessThanOne` | crates/slashing/src/position.rs:32-35 | while the worth fits 64 bits the narrowing is the identity and one settlement loses less than one lamport |
| `Slashing.AccrualIsNarrowed` | crates/slashing/src/position.rs:20-25 | past 64 bits the narrowing drops whole multiples of 2^64, with an instance; behind its entry index a position accrues nothing |
| `Slashing.StakeRefusedIff` | crates/slashing/src/pool.rs:19-31 | a stake is refused exactly when it is zero or the position is ahead of the pool, and the error says which |
| `Slashing.IndexStep` | crates/slashing/src/pool.rs:58-67 | one distribution credits at most the pool share to all stakers together, and misses it by less than one index unit per staked lamport |
| `PoolObjects.Position.Settle` | crates/slashing/src/position.rs:32-35 | settling in place banks the accrued reward and re-anchors the position, and nothing else |
| `PoolObjects.Pool.Stake` | crates/slashing/src/pool.rs:19-31 | the in-place call carries out the staking rule, with both refusals leaving pool and position untouched |
| `PoolObjects.Pool.Unstake` | crates/slashing/src/pool.rs:33-45 | the in-place call carries out the unstaking rule, refusing exactly an overdraw |
| `PoolObjects.Pool.Claim` | crates/slashing/src/pool.rs:48-51 | pays everything claimable and leaves the stake alone |
| `PoolObjects.Pool.Distribute` | crates/slashing/src/pool.rs:58-68 | moves the index by the floored quotient, or burns the share when nobody is staked |
| `PoolRuns.RunIsSound` | crates/slashing/src/pool.rs:19-68 | invariant of every run of stakes, unstakes, claims and slashes: positions anchored, pool total equal to the sum of stakes, worth plus payouts within what was distributed, every staker between the two bounds of the pro-rata rule |
| `PoolRuns.NeverPaysMoreThanDistributed` | crates/slashing/src/pool.rs:48-68 | over every run, total claimed plus total claimable never exceeds the pool shares distributed |
| `PoolRuns.AccrualNeverOverflows` | crates/slashing/src/position.rs:20-25 | over every run whose distributions fit 64 bits, the product is at most distributed times the scale, so narrowing to u64 loses nothing |
| `PoolRuns.PaidTracksExactShare` | crates/slashing/src/pool.rs:5-10 | refinement of "split each slash pro rata among those staked at that moment": paid plus claimable never exceeds the exact share, and falls short by at most one lamport per settlement plus one plus the index truncation of the stake exposed |
| `PoolRuns.NoStakeNoReward` | crates/slashing/src/pool.rs:7-10 | a staker with nothing staked at any slash is due nothing, is paid nothing and can claim nothing |
| `PoolDust.DustPerDistribution` | crates/slashing/src/pool.rs:63-66 | at every slash of every run, the claimable total rises by more than the share distributed less one lamport per staked lamport |
| `PoolDust.StrandedIsBounded` | crates/slashing/src/pool.rs:58-68 | over every run, the lamports distributed but neither paid nor claimable are never negative and at most one per call, one per position, and one index unit per lamport staked at each slash |
| `PoolDust.OneSlashCanReleaseMoreThanItAdds` | crates/slashing/src/pool.rs:63-66 | a concrete pool in which one slash raises what is claimable by more than its own share: fractions kept in unsettled positions are released, so an upper bound holds only cumulatively |
| `PoolStory.SlashPaysEveryone` | crates/program/src/processor.rs:360-406 | in the ledger, a conviction burns to the incinerator and shares the bond out whole: three tenths to a funded escrow filed with bond and slot, two tenths to the pool if anyone is staked, the rest burned; the positions together are worth the pool share more, to within one index unit per staked lamport |
| `PoolStory.EveryRunHasABook` | crates/program/src/processor.rs:29-42 | seen from one operator, every run of the program is a run of stakes, unstakes, claims and slashes of its pool, with the same positions and the same history of every staker |
| `PoolStory.StakersGetTheirShare` | crates/slashing/src/pool.rs:5-10 | at every moment of every run of the program, what claims brought a staker and what it can still claim never exceeds its pro-rata share of the slashes, and falls short by at most one lamport per call, one, and one index unit per lamport and slash stood behind |
| `Receipts.ToBytes` | crates/receipt/src/receipt.rs:31-47 | filling the zeroed buffer field by field gives exactly the specified layout |
| `Receipts.EncodeLayout` | crates/receipt/src/receipt.rs:31-47 | every field of an encoded receipt is found at its documented offset |
| `Receipts.DecodeEncode` | crates/receipt/src/receipt.rs:49-110 | decoding an encoding gives the receipt back, or exactly the error validation gives |
| `Receipts.EncodeDecode` | crates/receipt/src/receipt.rs:49-110 | any bytes that decode re-encode to themselves |
| `Receipts.DecodesIff` | crates/receipt/src/receipt.rs:49-110 | exactly which byte strings decode: length, tag, mode byte, and which fields are zero in which mode |
| `Receipts.EncodeInjective` | crates/receipt/src/receipt.rs:31-47 | two receipts with the same bytes are the same receipt |
| `Receipts.DecodeEncodeSigned` | crates/receipt/src/signed_receipt.rs:27-44 | the signed form round-trips, or fails exactly as validation does |
| `Receipts.EncodeDecodeSigned` | crates/receipt/src/signed_receipt.rs:27-44 | any bytes that decode as a signed receipt re-encode to themselves |
| `Receipts.EncodeSignedInjective` | crates/receipt/src/signed_receipt.rs:18-32 | the bytes under the chain hash determine receipt and signature |
| `BlockHash.Fold` | crates/watchtower/src/order.rs:33-40 | the streaming hasher computes the hash of the previous hash followed by the signatures |
| `BlockHash.PreimageLayout` | crates/watchtower/src/order.rs:33-40 | what is hashed is the 32 bytes of the previous hash and then every 64-byte signature in its place |
| `BlockHash.PreimageInjective` | crates/watchtower/src/order.rs:33-40 | two signature lists with the same preimage are the same list |
| `Faults.TallyReports` | crates/watchtower/src/scan.rs:16-33 | a fault is in a scan exactly when some check raised it and a doubt exactly when some check had it, a scan is clean exactly when every check was, and every check is counted |
| `Faults.AcceptsIs` | crates/watchtower/src/operator.rs:28-36 | an entry is accepted exactly when it is of this log, in the format and signed, and otherwise refused for the right reason |
| `Faults.VerifyIffProven` | crates/watchtower/src/fault.rs:156-304 | for every kind of fault, `Fault::verify` accepts exactly when the receipts carried are genuine and what they say is at odds in the way claimed |
| `LogScan.StableSortSpec` | crates/watchtower/src/equivocation.rs:19-20 | the sort is ascending and keeps the arrival order of each sequence number |
| `LogScan.AttributeEntries` | crates/watchtower/src/equivocation.rs:22-31 | the attribution loop records one verdict per entry and keeps exactly the accepted ones |
| `LogScan.GroupEntries` | crates/watchtower/src/equivocation.rs:33-49 | the grouping loop records one verdict per sequence number and keeps the first statement of each |
| `LogScan.LinkEntries` | crates/watchtower/src/equivocation.rs:51-58 | the linking loop records the origin check and one verdict per neighbouring pair |
| `LogScan.ScanReceipts` | crates/watchtower/src/equivocation.rs:16-59 | the imperative scan computes the specified scan of the delivered receipts |
| `LogTheorems.EquivocationExact` | crates/watchtower/src/equivocation.rs:33-49 | a sequence number is accused of equivocation exactly when two distinct accepted receipts sit at it |
| `LogTheorems.EquivocationNamesDelivered` | crates/watchtower/src/equivocation.rs:70-80 | an accusation names two different delivered, accepted statements about that position |
| `LogTheorems.DeliveryInsensitive` | crates/watchtower/src/equivocation.rs:16-59 | permuting or duplicating the delivered receipts changes no position accused of equivocation |
| `Delivery.FaultsAreExact` | crates/watchtower/src/equivocation.rs:16-111 | a scan raises exactly these faults: an equivocation between the first statement delivered about a position and the first after it that differs, and a broken chain or a bad origin between or of statements delivered first about theirs |
| `Delivery.DoubtsAreExact` | crates/watchtower/src/equivocation.rs:16-111 | a log scan leaves open exactly these: foreign and unverifiable entries by position, a log that does not start at its origin, and the gaps between neighbouring positions |
| `Delivery.DeliveryMeansNothingIff` | crates/watchtower/src/equivocation.rs:12-59 | every delivery of the same receipts, in any order and multiplicity, gives the same faults exactly when no two accepted statements share a position |
| `Delivery.BreakDependsOnOrder` | crates/watchtower/src/equivocation.rs:33-58 | of two statements about position 0 and one that follows the first of them: delivered in that order no broken chain is raised, with the two swapped one is |
| `Delivery.DeliveryExample` | crates/watchtower/src/equivocation.rs:33-58 | an operator and three receipts for which that happens |
| `LogTheorems.FaultFreeIffCoherent` | crates/watchtower/src/equivocation.rs:16-111 | no fault is raised exactly when the accepted entries never contradict each other: one statement per sequence number, neighbours linked, a genuine origin |
| `LogTheorems.HonestLogNeverAccused` | crates/watchtower/src/equivocation.rs:16-111 | any part of an honestly chained log, in any order and multiplicity, mixed with junk and foreign entries, gives no fault |
| `LogTheorems.HonestLogFramedIff` | crates/watchtower/src/fault.rs:156-191 | of two receipts of an honest log no equivocation object verifies under any key, and a broken-chain object verifies exactly for the first and the last receipt of a log that has used every sequence number |
| `LogTheorems.FullLogExample` | crates/watchtower/src/fault.rs:173-191 | the honest log of 2^64 receipts whose first and last verify as a broken chain |
| `LogTheorems.CleanIffChain` | crates/watchtower/src/equivocation.rs:16-111 | a scan is clean exactly when every entry is accepted and the distinct entries form one hash chain from genesis |
| `LogTheorems.SameTipSameLog` | crates/watchtower/src/equivocation.rs:96-111 | two clean logs that end in the same receipt have the same entries, or two of their receipts collide |
| `LogTheorems.SameTipOrCollision` | crates/receipt/src/signed_receipt.rs:18-25 | the same with the collision spelled out as two distinct signed encodings with one SHA-256 hash |
| `LogTheorems.EveryFaultVerifies` | crates/watchtower/src/fault.rs:156-200 | every fault of a log scan passes `Fault::verify` |
| `Blocks.ExecutedOrder` | crates/watchtower/src/observed_block.rs:23-30 | what is returned is the reported list or its reverse, and reproduces the block hash |
| `Blocks.RecoveredOrderIsTrue` | crates/watchtower/src/order.rs:14-40 | any order that is returned is the signature list that produced the hash, or blake3 collides |
| `Blocks.OrderIsRecovered` | crates/watchtower/src/order.rs:14-40 | a block reported in true or reversed order is always recovered |
| `Serializability.NonConflictingCommute` | crates/watchtower/src/conflict.rs:9-17 | transactions that do not conflict commute, for any deterministic semantics that reads listed and writes writable accounts |
| `Serializability.ConflictIsNecessary` | crates/watchtower/src/conflict.rs:3-17 | for two different transactions that write something, `conflicts` holds exactly when some semantics can tell their order |
| `Serializability.ConflictOrderDecidesState` | crates/watchtower/src/conflict.rs:9-17 | any rearrangement of a block that keeps conflicting pairs in order leaves the same accounts |
| `ReceiptTables.LastByIsLast` | crates/watchtower/src/receipt_index.rs:25-54 | a table holds a key exactly when some delivered receipt files under it, and then the last such receipt |
| `ReceiptTables.BuildWithdrawals` | crates/watchtower/src/withdrawals.rs:24-35 | the loop files exactly the accepted retractions under the hash they withdraw, last one winning |
| `ReceiptTables.BuildIndex` | crates/watchtower/src/receipt_index.rs:25-54 | the loop files accepted plain receipts by signature and accepted tickets by content hash |
| `ReceiptTables.FoundReceipt` | crates/watchtower/src/receipt_index.rs:56-60 | a receipt found for a transaction was delivered, is accepted, is plain or a ticket, and names that transaction |
| `ReceiptTables.NotFoundMeans` | crates/watchtower/src/receipt_index.rs:56-60 | nothing is found exactly when no accepted plain receipt names the signature and no accepted ticket names the contents |
| `ReceiptTables.FindIsExact` | crates/watchtower/src/receipt_index.rs:56-60 | a transaction is judged by the last accepted plain receipt that names its signature, and failing any by the last accepted ticket that names its contents |
| `ReceiptTables.FoundWithdrawal` | crates/watchtower/src/withdrawals.rs:38-40 | a withdrawal found is an accepted retraction naming exactly that receipt, and none is found exactly when none was delivered |
| `ReceiptTables.WithdrawalIsExact` | crates/watchtower/src/withdrawals.rs:38-40 | a receipt is withdrawn by the last accepted retraction that names it |
| `BlockScan.ScanBlock` | crates/watchtower/src/reorder.rs:13-52 | the nested loops compute the specified scan of the block |
| `BlockScan.VerdictsAreChecks` | crates/watchtower/src/reorder.rs:28-49 | every position and every ordered pair of positions is checked once and nothing else contributes |
| `BlockTheorems.CleanBlockMeans` | crates/watchtower/src/reorder.rs:13-165 | a block scan is clean exactly when the order is recovered, every position has a standing receipt, and conflicting transactions ran in sequence order |
| `BlockTheorems.CleanBlockIsSerializable` | crates/watchtower/src/reorder.rs:13-165 | a clean block leaves exactly the accounts that running its transactions in any order sorted by receipt sequence would |
| `BlockFaults.BlockFaultsAreExact` | crates/watchtower/src/reorder.rs:13-165 | a block scan raises exactly the faults that happened, with every field of their evidence: a transaction no receipt names, one whose receipt was retracted, and a conflicting pair that ran against standing receipts |
| `BlockFaults.BlockDoubtsAreExact` | crates/watchtower/src/reorder.rs:13-165 | a block scan leaves open exactly a block whose order is not recovered, and conflicting pairs of which one has no receipt or a retracted one, or ran out of order as the validator's own work |
| `BlockTheorems.ReorderIsExact` | crates/watchtower/src/reorder.rs:92-165 | a pair of positions is accused exactly when two conflicting transactions, neither the validator's own, ran against the sequence numbers of receipts that both still stand |
| `BlockTheorems.UnticketedIsExact` | crates/watchtower/src/reorder.rs:54-90 | a block scan accuses a position of having no ticket exactly when no accepted plain receipt names its signature and no accepted ticket names its contents |
| `BlockTheorems.WithdrawnIsExact` | crates/watchtower/src/reorder.rs:54-90 | a block scan accuses a position of running a withdrawn transaction exactly when the receipt found for it is named by some accepted retraction |
| `BlockTheorems.BlockFaultVerifiesIff` | crates/watchtower/src/fault.rs:214-304 | a fault of a block scan passes `Fault::verify` exactly when its receipts bind the observed signatures and bytes and its sequence numbers are strictly ordered |
| `BlockTheorems.PlainWithdrawnVerifiesIff` | crates/watchtower/src/reorder.rs:59-90 | for a plain receipt, a withdrawn-but-executed fault verifies exactly when the withdrawal is later in the log |
| `BlockTheorems.PlainReorderVerifiesIff` | crates/watchtower/src/reorder.rs:94-165 | for plain receipts, a reorder fault verifies exactly when both bind the observed bytes and the sequence numbers differ |
| `BlockTheorems.TicketFaultNeverVerifies` | crates/watchtower/src/fault.rs:298-304 | an accusation resting on a commit ticket is refused whenever the executed signatures are not all zero |
| `BlockTheorems.TicketReorderExample` | crates/watchtower/src/reorder.rs:94-165 | a concrete block of two tickets that the scan accuses and `Fault::verify` refuses |
| `ExecutionTables.ExecutionIndex.Record` | crates/watchtower/src/execution.rs:26-40 | after recording, both the plain receipt and the ticket of the transaction find it, and no other receipt finds anything different |
| `ExecutionTables.BlockhashSlots.Record` | crates/watchtower/src/blockhash_slots.rs:29-39 | recording keeps the queue and the map in step within the capacity, evicting the oldest hash only |
| `ExecutionTables.RememberedWhileRecent` | crates/watchtower/src/blockhash_slots.rs:15-43 | a newly seen hash is still known, with its latest slot, until capacity further hashes have been recorded |
| `Withholding.ScanWithholding` | crates/watchtower/src/withholding.rs:58-93 | the loop computes the specified scan |
| `Withholding.WithholdingIsExact` | crates/watchtower/src/withholding.rs:58-184 | a fault is raised exactly when it was observed: an impossible ingress of an accepted receipt, or a late, absent or unrevealed transaction whose promise was not withdrawn |
| `Withholding.WithholdingDoubtsAreExact` | crates/watchtower/src/withholding.rs:58-184 | the scan leaves open exactly the ingress of a promise whose block hash is not known and the delivery of a standing one that is neither kept nor overdue |
| `Withholding.WithholdingCleanIff` | crates/watchtower/src/withholding.rs:58-184 | a withholding scan is clean exactly when every promise is a ticket or has an ingress its block hash allows, and every standing one was kept within the slots allowed |
| `Withholding.WithholdingFaultsVerify` | crates/watchtower/src/fault.rs:201-266 | every withholding fault passes `Fault::verify` |
| `Ed25519.ReadPairs` | crates/program/src/ed25519.rs:25-65 | the loop returns the specified pairs, or the first refusal |
| `Ed25519.EntriesAreRead` | crates/program/src/ed25519.rs:31-64 | a read succeeds exactly when every announced entry does, and reports them in order |
| `Ed25519.EntryReadIff` | crates/program/src/ed25519.rs:31-64 | an entry is read exactly when its fourteen bytes are there, all three instruction indices point here, and signature, key and message lie within the data; otherwise the error says whether it was there |
| `Ed25519.EntryIsExact` | crates/program/src/ed25519.rs:38-64 | and then gives exactly the bytes at the offsets it names |
| `Ed25519.PairsLieInData` | crates/program/src/ed25519.rs:42-62 | every reported key and message is a run of this instruction's own bytes, and the precompile was pointed at 64 bytes of it too |
| `Ed25519.VerifyTwo` | crates/court/src/ed25519_instruction.rs:16-49 | the loop that grows data and payload builds the specified instruction, with no offset truncated |
| `Ed25519.BuiltIsReadBack` | crates/court/src/ed25519_instruction.rs:11-49 | for every instruction index the program reads back exactly the signer's key and both signed messages, in order, with each receipt's own signature |
| `Contradiction.RawFieldsAreDecoded` | crates/program/src/evidence.rs:38-55 | the raw offsets read on chain hold the decoded log id, sequence number, signature and content hash |
| `Contradiction.CheckIsExact` | crates/program/src/evidence.rs:22-62 | two encoded receipts are accepted exactly when they differ and share log and sequence number, those are what is reported, and otherwise the error says which of the three fails first |
| `Contradiction.OrderedIsCanonical` | crates/program/src/evidence.rs:69-75 | swapping the pair gives the same ordered pair, and different pairs give different ones |
| `Contradiction.KeysAgree` | crates/court/src/addresses.rs:36-48 | client and program derive the same conviction address whichever way round either holds the pair |
| `Contradiction.KeyIsOrdered` | crates/court/src/addresses.rs:36-48 | the address is made of the two hashes, first that of the message with the lesser byte where the two first differ |
| `Contradiction.KeyNamesPair` | crates/court/src/addresses.rs:36-48 | two pairs share an address only if they are the same pair or SHA-256 collides |
| `Contradiction.VictimIsCanonical` | crates/program/src/evidence.rs:82-94 | the wronged transaction is one of the two and does not depend on the order of presentation |
| `Contradiction.VictimIsLesser` | crates/program/src/evidence.rs:82-94 | the wronged transaction is that of the receipt with the lesser byte where the two encodings first differ |
| `Processor.Accounts.PayOutOfOperator` | crates/program/src/processor.rs:213-239 | pays exactly when the balance covers the amount and the new state's floor, else refuses |
| `Processor.Accounts.DoRegister` | crates/program/src/processor.rs:72-116 | carries out registration with every refusal in source order, among them an address that is in use or holds lamports |
| `Processor.Accounts.OpenPosition` | crates/program/src/processor.rs:120-170 | finds the caller's position or creates an empty one at the caller's expense, refusing an address that holds lamports |
| `Processor.Accounts.StakeAt` | crates/program/src/processor.rs:172-205 | opens the position, updates the pool, moves the lamports and writes both back, or refuses as the rules do |
| `Processor.Accounts.DoStake` | crates/program/src/processor.rs:172-205 | carries out staking with every refusal, among them a position address that holds lamports |
| `Processor.Accounts.DoUnstake` | crates/program/src/processor.rs:241-269 | carries out unstaking through the floor check |
| `Processor.Accounts.DoClaim` | crates/program/src/processor.rs:271-294 | carries out claiming through the floor check |
| `Processor.Accounts.DoProve` | crates/program/src/processor.rs:300-417 | carries out conviction: sibling instruction, registered key, contradiction, address and what it holds, bond |
| `Processor.Accounts.TakeTheBond` | crates/program/src/processor.rs:360-406 | splits the whole bond between incinerator, conviction and pool, or refuses: no bond, an address that holds lamports, or rent that cannot be paid |
| `Processor.Accounts.DoClaimVictim` | crates/program/src/processor.rs:483-508 | carries out the escrow payout |
| `Processor.Accounts.DoBeginUnbond` | crates/program/src/processor.rs:442-460 | starts the lock once; asking again does not restart it |
| `Processor.Accounts.DoWithdrawBond` | crates/program/src/processor.rs:462-477 | carries out the withdrawal of an unlocked bond |
| `Processor.Accounts.Process` | crates/program/src/processor.rs:29-42 | one transaction takes effect whole or not at all, and not at all when its ed25519 sibling does not verify |
| `Processor.Accounts.ProcessAll` | crates/program/src/processor.rs:29-42 | for any sequence of transactions from any sound state: the state follows the rules step by step, stays solvent, keeps the supply and covers every claim; from a state without operators each bond has left at most once, exactly once if it is gone |
| `ProgramRuns.ResettleKeepsSolvent` | crates/program/src/processor.rs:172-294 | any call that pays out no more than the stake given up and the rewards taken keeps the account covered |
| `ProgramRuns.SlashKeepsSolvent` | crates/program/src/processor.rs:360-406 | a slash, which pays without the floor check, keeps the account covered |
| `ProgramRuns.RunKeepsSolvent` | crates/program/src/processor.rs:29-42 | every instruction keeps rent + bond + stake + the worth of all positions within the lamports held, and every escrow funded |
| `ProgramRuns.RunConserves` | crates/program/src/processor.rs:229-239 | no instruction creates or loses a lamport among wallets, accounts, addresses and incinerator |
| `ProgramRuns.EveryRunIsSound` | crates/program/src/processor.rs:29-42 | over every run of instructions and transfers, all operators stay solvent and the total supply is constant |
| `ProgramRuns.EveryRunCoversClaims` | crates/program/src/processor.rs:59-70 | at every moment of every run, lamports cover rent, bond, stake and every claimable reward together |
| `Refusals.UnsignedIsRefused` | crates/program/src/processor.rs:83-85 | nothing happens without the caller's signature, or when a signature the ed25519 program was pointed at does not verify |
| `Refusals.RegisterSucceedsIff` | crates/program/src/processor.rs:72-116 | registration succeeds exactly for the operator itself, once, with a bond, at an empty address and with rent and bond to pay; the error says what failed first, and success leaves exactly the new account |
| `Refusals.NeedsOperator` | crates/program/src/processor.rs:300-330 | every other instruction needs a registered operator, and a proof the incinerator to burn to |
| `Refusals.NeedsOwnPosition` | crates/program/src/processor.rs:120-294 | stake, unstake and claim refuse any position but the caller's own with that operator, the last two any that does not exist |
| `Refusals.NeedsAuthority` | crates/program/src/processor.rs:420-477 | only the operator starts the lock or withdraws, and the lock starts exactly while a bond stands |
| `Refusals.PayoutsKeepFloor` | crates/program/src/processor.rs:59-70 | in any ledger at all, an unstake, claim or withdrawal that goes through leaves at least rent, bond and stake in the account |
| `Refusals.TransferSucceedsIff` | crates/program/src/processor.rs:62-63 | a plain transfer succeeds exactly when the sender has it, counts towards an existing operator account, and otherwise stays at its address |
| `Refusals.EscrowRefusals` | crates/program/src/processor.rs:483-508 | an escrow is refused for an unknown conviction, other bytes, bytes without a payer, and another caller, each with its error |
| `Refusals.EvidenceRefusals` | crates/program/src/processor.rs:318-358 | evidence is refused for its messages, then for not contradicting, then for its address, then for a repeated conviction |
| `ProgramRuns.ClaimIsNeverRefused` | crates/program/src/processor.rs:271-294 | in every reachable ledger a claim succeeds and pays the claimable amount in full |
| `ProgramRuns.UnstakeIsRefusedOnlyForOverdraw` | crates/program/src/processor.rs:241-269 | in every reachable ledger an unstake succeeds exactly up to the stake held |
| `ProgramRuns.StakeSucceedsIff` | crates/program/src/processor.rs:120-205 | in every reachable ledger a stake succeeds exactly when it is not zero, the caller has it and, for a first stake, also the rent, and the address of a first position holds nothing |
| `ProgramRuns.WithdrawIsRefusedOnlyWhileLocked` | crates/program/src/processor.rs:462-477 | in every reachable ledger a withdrawal succeeds exactly when the lock has run out, and pays the bond whole |
| `ProgramRuns.SlashSucceedsIff` | crates/program/src/processor.rs:356-417 | in every reachable ledger, evidence that passes the checks convicts exactly when a bond stands, the conviction's address holds nothing and the accuser can pay its rent; no payout refuses it, and the error says which failed |
| `ProgramRuns.EscrowIsNeverRefused` | crates/program/src/processor.rs:483-508 | in every reachable ledger the escrow is paid in full to the payer of the wronged transaction |
| `ProgramRuns.OthersAreUntouched` | crates/program/src/processor.rs:62-63 | a successful transaction leaves every wallet but its caller's and every operator but its own alone, and only a transfer changes what an address holds before it is created, upwards |
| `ProgramRuns.OthersLoseNothing` | crates/program/src/processor.rs:62-63 | in every reachable ledger a successful transaction lowers nobody else's stake and nobody else's claimable reward |
| `BondStory.BondLeavesOnce` | crates/program/src/processor.rs:356-406 | over every run the bond has left exactly once if it is gone and never if it stands |
| `BondStory.BondIsAsPosted` | crates/program/src/processor.rs:105-114 | while it stands the bond is the one posted at registration, and the signing key is the one named there |
| `BondStory.LockWasAskedFor` | crates/program/src/processor.rs:442-460 | a running lock was started by the operator itself, exactly UNBOND_SLOTS before it ends |
| `BondStory.WithdrawalWaits` | crates/program/src/processor.rs:462-477 | any paying withdrawal comes at least UNBOND_SLOTS after a request for it, with the bond untouched until then |
| `BondStory.BondIsSlashableIff` | crates/program/src/processor.rs:436-460 | at every moment of every run, locked or not, valid evidence convicts exactly when the bond has not left, the conviction's address holds nothing and the accuser can pay its rent |
| `BondStory.EscrowPaysOnce` | crates/program/src/processor.rs:504-507 | over every run, what an escrow has paid and what it still owes add up to the victim share of its slash, and one of the two is zero |
| `BondStory.ClaimPaysOwed` | crates/program/src/processor.rs:504-507 | a successful claim raises the claimant's wallet by exactly what the escrow owed |
| `BondStory.EscrowNeedsTransaction` | crates/program/src/processor.rs:488-502 | an escrow is paid only to the signer who is the payer of bytes hashing to the wronged transaction |
| `EndToEnd.CourtEvidence` | crates/program/src/processor.rs:318-358 | the program accepts the court's evidence exactly when the receipts differ, and files it where the client derived |
| `EndToEnd.UnconvictedWhileBonded` | crates/program/src/processor.rs:398-403 | over every run nothing has been convicted while the bond stands |
| `EndToEnd.DetectionConvicts` | crates/program/src/processor.rs:296-417 | at every moment of every run at which the bond has not left, any equivocation any log scan reports convicts through the court's transaction exactly when the two receipts differ, the conviction's address holds nothing and the accuser can pay its rent; and then it takes the bond |
| `EndToEnd.ConvictionIsJust` | crates/program/src/processor.rs:318-358 | behind every conviction stand two different messages in the receipt format about one position of one log, each verified under the registered key; it is filed under their two hashes, the lesser message first, and names the transaction of the lesser one |
| `Instances.ConvictionExample` | crates/program/src/processor.rs:300-417 | an instance: an operator registers, a scan of two statements reports it, and the court's transaction takes the bond |
| `Instances.SignatureOnlyExample` | crates/program/src/processor.rs:318-358 | an instance: a scan reports two signatures over one receipt, the report verifies, and the program refuses the court's transaction |
| `Instances.OccupiedAddressRun` | crates/program/src/processor.rs:356-385 | every run that ends with a standing bond, no lock running and lamports to spare in the operator's wallet extends to one in which the conviction's address is funded, the court's transaction is refused whoever sends it, and the bond is back in the wallet after the lock |
| `Instances.OccupiedAddressExample` | crates/program/src/processor.rs:356-385 | an instance of it, with the scan that reports the two statements |
| `Allocator.RunKeepsInv` | magicblock-validator/magicblock-accounts-db/src/storage.rs:220-264 | invariant of every interleaving of fetch-add, comparison and rollback in which no fetch-add wraps: ranges that fit lie apart and below the cursor, and at most one live call crosses the capacity |
| `Allocator.GrantsAreDisjoint` | magicblock-validator/magicblock-accounts-db/src/storage.rs:220-264 | for any number of callers and any interleaving in which no fetch-add wraps, grants are inside the capacity, above what was there, and pairwise disjoint |
| `Wrapping.MisgrantsIffWraps` | magicblock-validator/magicblock-accounts-db/src/storage.rs:220-264 | some run from a cursor whose calls ask for at most so many blocks in all grants a range that is out of room or overlaps another exactly when cursor and blocks come to 2^64 |
| `Allocator.RollBackIsSafe` | magicblock-validator/magicblock-accounts-db/src/storage.rs:238-244 | as long as no fetch-add wraps, a rollback never brings the cursor below a range someone holds or will be granted |
| `Rollbacks.StuckIffLost` | magicblock-validator/magicblock-accounts-db/src/storage.rs:238-251 | at every moment of every run in which no fetch-add wraps, the cursor is past the capacity with nobody left to put it back exactly when some rollback of a call that crossed the capacity found the cursor moved |
| `Requests.StuckIffOverfull` | magicblock-validator/magicblock-accounts-db/src/storage.rs:220-264 | a family of requests has an interleaving that ends stuck exactly when, leaving out some nonzero one of them, the others do not fit in what is left |
| `Requests.StuckExample` | magicblock-validator/magicblock-accounts-db/src/storage.rs:238-251 | two requests of two blocks can leave the cursor past the one block of an empty storage |
| `Rollbacks.StuckForGood` | magicblock-validator/magicblock-accounts-db/src/storage.rs:238-251 | once that happens, and as long as no fetch-add wraps, nothing is ever granted again |
| `Rollbacks.AloneNeverStuck` | magicblock-validator/magicblock-accounts-db/src/storage.rs:220-264 | over every run of calls that do not overlap, no rollback is ever lost, and between calls the cursor has moved by exactly what was granted |
| `Allocator.WrapExample` | magicblock-validator/magicblock-accounts-db/src/storage.rs:230-234 | if a fetch-add wraps the same block can be granted twice: a run that carries the cursor round to zero |
| `Extents.TilesAppend` | magicblock-validator/magicblock-accounts-db/src/storage.rs:230-240 | appending at the cursor keeps the tiling |
| `Extents.TilesSplit` | magicblock-validator/magicblock-accounts-db/src/index.rs:334-346 | splitting a hole keeps the tiling |
| `AccountTables.BestFitExists` | magicblock-validator/magicblock-accounts-db/src/index.rs:320-326 | whenever some hole is large enough there is a smallest such hole |
| `AccountTables.RecycleKeepsSound` | magicblock-validator/magicblock-accounts-db/src/index.rs:313-352 | recycling hands out exactly the blocks needed and puts the remainder back: live ranges, holes and the new range still tile the storage |
| `AccountTables.UpsertKeepsSound` | magicblock-validator/magicblock-accounts-db/src/index.rs:151-206 | filing an account keeps the four tables in agreement and the tiling |
| `AccountTables.RemoveKeepsSound` | magicblock-validator/magicblock-accounts-db/src/index.rs:209-235 | removing keeps the four tables in agreement and the tiling |
| `AccountTables.EnsureOwnerKeepsSound` | magicblock-validator/magicblock-accounts-db/src/index.rs:238-267 | an owner change in place keeps the four tables in agreement |
| `AccountTables.UpsertViews` | magicblock-validator/magicblock-accounts-db/src/lib.rs:170-206 | filing and writing a record is exactly an update of the plain map |
| `AccountTables.RemoveViews` | magicblock-validator/magicblock-accounts-db/src/index.rs:209-235 | removing is exactly a removal from the plain map |
| `AccountTables.RewriteViews` | magicblock-validator/magicblock-accounts-db/src/lib.rs:162-169 | committing in place is exactly an update of the plain map |
| `AccountTables.CommitInPlace` | magicblock-validator/magicblock-accounts-db/src/lib.rs:162-169 | committing a borrowed account whose key still stands where it was read is exactly an update of the plain map |
| `AccountTables.RecordSurvivesIff` | magicblock-validator/magicblock-accounts-db/src/lib.rs:162-169 | a commit adds and drops no account, and for the blocks given a record survives it exactly when they agree with it wherever the ranges meet and its owner is not changed |
| `AccountTables.CommitSparesIff` | magicblock-validator/magicblock-accounts-db/src/lib.rs:162-169 | whatever is written, a commit spares another account exactly when its range lies apart from the range written |
| `AccountTables.CommitUpdatesIff` | magicblock-validator/magicblock-accounts-db/src/lib.rs:162-169 | whatever is written, a commit is an update of the plain map at its key and nowhere else exactly when the key still stands where the account was read |
| `AccountTables.StaleCommitExample` | magicblock-validator/magicblock-accounts-db/src/lib.rs:162-169 | an account is filed, moved by a resize, and its old place recycled for a second: committing the first where it was read leaves its record as it was and destroys the second |
| `AccountsDatabase.Index.UpsertAccount` | magicblock-validator/magicblock-accounts-db/src/index.rs:151-179 | the in-place call carries out the table rule and returns the old allocation |
| `AccountsDatabase.Index.ReallocateAccount` | magicblock-validator/magicblock-accounts-db/src/index.rs:183-206 | frees the old range, files the new one and drops the stale program entry |
| `AccountsDatabase.Index.Remove` | magicblock-validator/magicblock-accounts-db/src/index.rs:209-235 | carries out the table rule; removing an absent account changes nothing |
| `AccountsDatabase.Index.EnsureCorrectOwner` | magicblock-validator/magicblock-accounts-db/src/index.rs:238-267 | carries out the table rule, or reports a missing account and changes nothing |
| `AccountsDatabase.Index.RemoveProgramIndexEntry` | magicblock-validator/magicblock-accounts-db/src/index.rs:284-309 | drops exactly the entry of that owner, offset and account |
| `AccountsDatabase.Index.TryRecycle` | magicblock-validator/magicblock-accounts-db/src/index.rs:313-352 | takes a smallest sufficient hole, or nothing when none suffices |
| `AccountsDatabase.Index.AccountsByOffset` | magicblock-validator/magicblock-accounts-db/src/index.rs:354-402 | lists every account once, with owner and place, by ascending offset |
| `AccountsDatabase.Index.ApplyAccountMoves` | magicblock-validator/magicblock-accounts-db/src/index.rs:404-458 | carries out all moves and clears the holes |
| `AccountsDatabase.Storage.Allocate` | magicblock-validator/magicblock-accounts-db/src/storage.rs:220-264 | grants the next range or leaves the cursor where it was |
| `AccountsDatabase.Storage.ValidateAllocation` | magicblock-validator/magicblock-accounts-db/src/storage.rs:338-364 | accepts exactly non-empty ranges below cursor and capacity whose end fits 32 bits |
| `AccountsDatabase.Storage.ValidateCursor` | magicblock-validator/magicblock-accounts-db/src/storage.rs:366-381 | accepts exactly cursors within the current one and the capacity |
| `AccountsDatabase.Storage.MoveAllocation` | magicblock-validator/magicblock-accounts-db/src/storage.rs:389-410 | copies a range through a scratch buffer, overlapping or not |
| `AccountsDatabase.Storage.FinishDefragment` | magicblock-validator/magicblock-accounts-db/src/storage.rs:417-436 | sets the cursor and zeroes exactly the old tail |
| `AccountsDatabase.AccountsDb.TakeSpace` | magicblock-validator/magicblock-accounts-db/src/lib.rs:178-189 | takes the front of a smallest sufficient hole, appends only when no hole suffices, and refuses exactly when the tail is too short as well |
| `AccountsDatabase.AccountsDb.InsertOwned` | magicblock-validator/magicblock-accounts-db/src/lib.rs:170-206 | an insert or resize updates the plain map, or without room changes nothing |
| `AccountsDatabase.AccountsDb.CommitBorrowed` | magicblock-validator/magicblock-accounts-db/src/lib.rs:162-169 | writes the account to the range it was read from, filing a changed owner first; refused, with nothing changed, exactly when the owner changed and the index does not hold the key |
| `AccountsDatabase.AccountsDb.CommitIsUpdateIff` | magicblock-validator/magicblock-accounts-db/src/lib.rs:162-169 | a commit is the update an upsert means, whatever is written, exactly when the index has the key at the place the account was read from |
| `AccountsDatabase.AccountsDb.RewriteInPlace` | magicblock-validator/magicblock-accounts-db/src/lib.rs:162-169 | reading an account, changing it at its size and committing it updates the plain map, and does nothing when the key or the size is not there |
| `AccountsDatabase.AccountsDb.Upsert` | magicblock-validator/magicblock-accounts-db/src/lib.rs:140-209 | an ephemeral account without an owner is removed; any other owned account is stored in the plain map; a borrowed one is stored when it still stands where it was read, and otherwise written to that range, which is that update for every content exactly when it does stand there; refused, with nothing changed, exactly without room or with a changed owner and no key |
| `AccountsDatabase.AccountsDb.RemoveAccount` | magicblock-validator/magicblock-accounts-db/src/lib.rs:554-564 | removes the account from the plain map and nothing else |
| `AccountsDatabase.AccountsDb.GetAccount` | magicblock-validator/magicblock-accounts-db/src/lib.rs:549-552 | returns what the plain map holds |
| `AccountsDatabase.AccountsDb.GetProgramAccounts` | magicblock-validator/magicblock-accounts-db/src/lib.rs:224-242 | returns exactly the accounts the plain map files under the program that pass the filter |
| `AccountsDatabase.AccountsDb.IterateAll` | magicblock-validator/magicblock-accounts-db/src/lib.rs:466-472 | returns exactly the plain map |
| `AccountsDatabase.AccountsDb.RemoveWhere` | magicblock-validator/magicblock-accounts-db/src/lib.rs:567-584 | removes exactly the matching accounts and counts them |
| `AccountsDatabase.AccountsDb.PlanMoves` | magicblock-validator/magicblock-accounts-db/src/lib.rs:413-441 | on a well-formed database no validation refuses, and the targets are packed from zero |
| `AccountsDatabase.AccountsDb.MoveRecords` | magicblock-validator/magicblock-accounts-db/src/lib.rs:444-456 | after the moves every record stands at its target unchanged |
| `AccountsDatabase.AccountsDb.Defragment` | magicblock-validator/magicblock-accounts-db/src/lib.rs:413-464 | never refuses, shows the same accounts, leaves no hole, tiles a prefix with live records and zeroes the old tail |
| `AccountsDatabase.AccountsDb.RunAll` | magicblock-validator/magicblock-accounts-db/src/lib.rs:140-209 | after any sequence of inserts, rewrites, deletions and compactions the database shows what a plain map would |
| `AccountsDatabase.ReplayMeans` | magicblock-validator/magicblock-accounts-db/src/lib.rs:156-206 | what the plain map does for an insert or a rewrite: stored, removed when ephemeral without an owner, or unchanged without room or another size |
| `Compaction.SortLists` | magicblock-validator/magicblock-accounts-db/src/index.rs:400-401 | sorting by offset keeps every account once |
| `Compaction.PackedSlides` | magicblock-validator/magicblock-accounts-db/src/lib.rs:418-441 | packed targets never lie right of their sources, stay apart, and end within the old cursor |
| `Compaction.MovesKeepPrograms` | magicblock-validator/magicblock-accounts-db/src/index.rs:404-453 | applying the moves keeps the program table exact |
| `Compaction.SlideStep` | magicblock-validator/magicblock-accounts-db/src/storage.rs:389-410 | one in-place move damages neither a record already moved nor one still to move |
| `Compaction.CompactedIsSound` | magicblock-validator/magicblock-accounts-db/src/index.rs:404-458 | after the moves live records alone tile the new prefix and the tables agree |
| `Compaction.CompactionKeepsView` | magicblock-validator/magicblock-accounts-db/src/lib.rs:413-464 | every account reads back the same owner and record |

## Left out

- PoolDust.DustPerDistribution: asks that the pool shares distributed over the run fit 64 bits, as `PoolDust.StrandedIsBounded` does, because past that the narrowing in `accrued` drops whole multiples of 2^64.
- Allocator.GrantsAreDisjoint: asks that no fetch-add wraps; `Wrapping.MisgrantsIffWraps` says exactly when a run can go wrong otherwise.
- Requests.StuckIffOverfull: asks that the requests together stay within 64 bits, so that no interleaving of them wraps.
- AccountsDatabase.AccountsDb.Upsert: asks that a borrowed account lies within the storage and has the size of the range it was read from, which is what being borrowed means.
- AccountsDatabase.AccountsDb.RunAll: its rewrites commit accounts read at that moment; commits from ranges read earlier are `Upsert`'s.
- The roll-back of a failed `insert_batch`, which depends on `AccountSharedData::rollback`; committed operations only.
- `recycled_count`, a metric that nothing reads back.
- Memory-mapped files, record serialization, snapshots, checksums, and crash safety of `defragment`, which the code disclaims.
- The order in which iterators yield accounts, and which of several equally small holes is recycled.
- Truncation of block positions to 32 bits in `scan_block`: blocks of 2^32 transactions are not considered.
- Instruction and account byte layouts of the program, address derivation (addresses are the seeds they are derived from), the rent-exempt minimum of a plain transfer, and parsing of the fee payer out of wire bytes.
- That `BadOrigin`, `Absent`, `NotRevealed` or `Unticketed` verifying proves guilt: the code does not decide that.
- Clients, configuration, metrics, the application and the validator's other services.
