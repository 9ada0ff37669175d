# Elektron Net PPLNS pool: a verified model

The pool hands out mining jobs over Stratum, counts accepted shares, splits each found block over the
shares of a time window, and pays the miners in batches. This project models four linked parts of it in
Dafny and proves what they promise.

1. **The money pipeline** (`Ledger`, `RewardSplit`, `ShareLog`, `PayoutScheduling`, and over whole runs
   `PayoutRuns`, `PayoutGuarantees`, `BlockCredits`). A reward becomes a fee, one floored amount per share
   and dust; credits are ledger rows that go PENDING, SENT, CONFIRMED; payout cycles request the mature
   balance and mark rows up to a cutoff id. The services are classes that change their fields; each method
   is tied to a function of the old state. `PayoutRuns` is the step system in which block credits, an
   in-flight `sendmany`, marks and confirmations interleave. `PayoutGuarantees` holds for every run of it.
2. **Job construction** (`Transactions`, `Merkle`, `MiningJobs`). The coinbase and its bytes, the two halves
   sent to miners, the Merkle branch, and the header computed twice: from the halves, and from the block
   that would be submitted.
3. **The session and job protocol** (`JobTables`, `Sessions`, `VersionRotation`, `HexIds`, `HexNumbers`,
   `LineFraming`, `Utf8`, and over whole runs `SessionRuns`, `ShareHeaders`, `BlockFound`). Many sessions share one set
   of tables; every segment of code without an `await` is one step. `BlockFound` ties the protocol to job
   construction: from the node's answer, or from any share of any run, to the block that is submitted.
4. **Feedback controllers** (`Vardiff`, `LargeTargets`, `ClientStatistics`, `Difficulties`, `Backpressure`).

The double SHA-256 is a parameter `H` from byte sequences to 32 bytes, so every result holds for any hash.
Doubles are reals. Version words are naturals below 2^32 with bitwise operators defined bit by bit (`Bits`).
RPC answers, clocks and load samples are parameters; a failed call is an absent answer. JavaScript's
`undefined`, `null` and thrown errors are `None` (or a null job).

## Where the code and its words differ

- **The payout cutoff.** The comments at `src/ORM/payout-ledger/payout-ledger.service.ts:54-60` and `:78-85`
  say that rows of immature blocks stay PENDING. `markSentUpTo` compares only the id, so it also takes an
  immature row whose id is below the cutoff. This happens when a lower block is credited after a higher one.
  `PayoutsAgreeIff` gives the exact condition on the table a cycle reads, for every run; `HeightsInOrderIff` says
  which runs keep all heights in order, which suffices; `OutOfOrderCreditsAreSweptAlong` is a run that sends 7
  and marks 12. A marked amount is never below the sent one.
- **MIN_DIFF.** It is not a lower bound of `nearestPowerOfTwo`: values from 0.00001 up to, but not including,
  0.000016 round to 0.000008 (`RoundsBelowMinimumIff`).
- **Targets out of range.** Five or more submissions at one instant give an infinite target, for which the
  recursion of `nearestPowerOfTwo` never ends (`OneInstantNeverReturns`); nor does it for 2^31
  (`TwoTo31NeverReturns`). `ReturnsAtAllIff` says for which finite targets it ends, with exact products; doubles
  round products from 2^53 on.
- **Stale work.** The comment at `src/services/stratum-v1-jobs.service.ts:114` says that a new tip makes every
  active job stale (another previous hash). `clearJobs` compares heights alone, so after a block is replaced at
  its height, jobs on the old previous hash still pass (`SameHeightReplacement`). `OneTipIff` gives the condition
  under which all templates are on one previous hash, and `WorkIsCurrentIff` says when all accepted work is.
- **Duplicate shares.** The duplicate check makes the submitted texts unique within one session, not the work.
  The second extranonce is no part of the coinbase and a nonce has many spellings, so one header can pass again
  on one job (`SameHeaderPassesAgain`). A refresh and a re-sent job make a second job of the same work under other
  ids, and the same share passes for both (`SameHeaderPassesOnTwoJobs`). The lookups know no session, so one share
  sent over several connections passes on each (`SameSharePassesInEachSession`). `SameHeaderIff` says exactly when
  any two accepted shares are the same header. Within one session and one job, fields in one spelling with one
  second extranonce are credited once (`NoHeaderTwiceOnJob`).
- **Backpressure, hypothetically.** The service starts one listener, and for that every overload stops accepting
  (`OverloadStopsAccepting`). Were a second one started during a pause, it would go on accepting through any
  number of overloaded checks (`SecondListenerWouldGoOn`, `OverloadPausesAllIff`).
- **coinb1.** "Ends immediately after scriptSig" holds exactly for scriptSigs under 253 bytes
  (`CutAtScriptSigEnd`). The concatenation is right for every length.
- **Templates per miner.** The comment at `src/services/stratum-v1-jobs.service.ts:48-51` says templates are
  per payout address; all sessions pass the pool wallet's address, which is what makes `OneHeight` true.
- **Duplicate key.** Fields are joined with colons, so a submission with a colon in any of its five texts shares
  its key with another one, and one without never does (`KeyIsUniqueIff`, with the example `ColonsCollide`).
- **Chunks.** Each chunk of the socket is decoded by itself. A chunk that continues a character left open by the
  one before changes the message: both parts become U+FFFD (`CutCharacterIsReplacedTwice`). Otherwise, and only
  otherwise, the chunks do not show (`ChunkingIsInvisibleIff`).

## Model

| member | source | states |
|---|---|---|
| `PayoutRuns.StepKeepsInv` | src/pplns/payout-scheduler.service.ts:56-139 | every credit, cycle start, send, single mark and confirmation keeps: a batch's txid sits on exactly the snapshot rows its marked miners' cutoffs claim, nothing else leaves PENDING, all rewards are accounted for |
| `PayoutRuns.RunKeepsInv` | src/pplns/payout-scheduler.service.ts:56-139 | the same for every interleaving |
| `PayoutRuns.MarkTakesClaimedRows` | src/ORM/payout-ledger/payout-ledger.service.ts:104-113 | a mark running after arbitrary new credits takes a row if and only if the row was pending in the snapshot at or below the cutoff: shares credited while the send is in flight are left alone |
| `PayoutGuarantees.StepMovesForward` | src/ORM/payout-ledger/payout-ledger.service.ts:104-132 | a step moves a status by at most one, only by a mark or a confirmation; id, miner, height and amount never change; a txid is present exactly when not PENDING |
| `PayoutGuarantees.RunMovesForward` | src/ORM/payout-ledger/payout-ledger.service.ts:104-132 | over runs rows are never removed, never go back, and keep their txid |
| `PayoutGuarantees.RowsAgreeWithAmountIff` | src/ORM/payout-ledger/payout-ledger.service.ts:86-113 | rows marked for a miner sum to at least the amount sent, and to exactly it if and only if the snapshot has no pending immature row at or below the cutoff |
| `PayoutGuarantees.PayoutsAgreeIff` | src/ORM/payout-ledger/payout-ledger.service.ts:86-113 | in every run a batch's rows for a miner sum to the amount sent if and only if the table it read had no pending immature row at or below the miner's cutoff |
| `PayoutGuarantees.OrderedHeightsMakeCutoffSafe` | src/ORM/payout-ledger/payout-ledger.service.ts:86-113 | ids monotone in block height per miner imply that condition |
| `PayoutGuarantees.HeightsInOrderIff` | src/pplns/reward-calculator.service.ts:53-60 | heights are in order at the end of a run if and only if each credit was written when its miner had none of a higher block |
| `PayoutGuarantees.PayoutsAgree` | src/pplns/payout-scheduler.service.ts:84-130 | in every run with heights in order, each batch's rows sum, per miner, to exactly the amount sent |
| `PayoutGuarantees.OnlyCandidatesArePaid` | src/pplns/payout-scheduler.service.ts:128-130 | no row of a miner outside the batch carries its txid |
| `PayoutGuarantees.CountedRowsAreMarked` | src/ORM/payout-ledger/payout-ledger.service.ts:86-113 | every row whose amount was sent ends up with that txid and not PENDING |
| `PayoutGuarantees.NoCreditIsPaidTwice` | src/pplns/payout-scheduler.service.ts:30-35 | in every run no row is counted in two batches |
| `PayoutGuarantees.TotalPaidIsTotalSent` | src/ORM/payout-ledger/payout-ledger.service.ts:145-153 | between batches a miner's total paid is the sum of all amounts ever sent to that miner, heights being in order |
| `PayoutGuarantees.TotalPaidIsTotalSentIff` | src/ORM/payout-ledger/payout-ledger.service.ts:145-153 | in every run, between batches, a miner's total paid is at least all that was sent, and exactly that if and only if every batch's cutoff for the miner was safe |
| `PayoutGuarantees.Balances` | src/controllers/pplns/pplns.controller.ts:28-37 | pending and paid balance are together everything credited, and the paid one is what was sent under that condition |
| `PayoutGuarantees.OutOfOrderCreditsAreSweptAlong` | src/ORM/payout-ledger/payout-ledger.service.ts:78-113 | a concrete run in which an immature row is marked although it was not paid |
| `PayoutGuarantees.NothingIsLost` | src/pplns/reward-calculator.service.ts:23-66 | once all started blocks are finished, PENDING + SENT + CONFIRMED rows + fee + dust is the sum of all rewards, for any rounding of the proportions |
| `PayoutGuarantees.RequestedIsConfirmed` | src/pplns/payout-scheduler.service.ts:67-75 | the requested amount is exactly the sum of the miner's pending rows with at least the maturity's number of confirmations |
| `PayoutGuarantees.CandidatesAreChosen` | src/pplns/payout-scheduler.service.ts:67-86 | whose threshold decides: a miner is chosen if and only if the balance with enough confirmations is positive and reaches the miner's own override, or the pool's threshold when there is none; the whole such balance is then sent |
| `PayoutGuarantees.NoMinerIsLeftAboveThreshold` | src/pplns/payout-scheduler.service.ts:80-86 | after a fully marked cycle the mature snapshot balance left to any miner is below the own override, or below the pool's threshold when there is none |
| `BlockCredits.BlockRunIsOneBooking` | src/pplns/reward-calculator.service.ts:53-63 | the step system's block events, run without interruption, change rows, ids, fee and dust exactly as the calculator's loop does |
| `BlockCredits.ProcessBlockFound` | src/pplns/reward-calculator.service.ts:23-66 | every call of the reward calculator is such a run, with or without difficulty in the window |
| `Ledger.SnapshotSum` | src/ORM/payout-ledger/payout-ledger.service.ts:86-102 | the grouped totals are the sums of each miner's mature pending rows; no entry means no such row |
| `Ledger.SnapshotCutoff` | src/ORM/payout-ledger/payout-ledger.service.ts:86-102 | every counted row is at or below its miner's cutoff |
| `Ledger.SnapshotWitness` | src/ORM/payout-ledger/payout-ledger.service.ts:86-102 | the cutoff is the id of a counted row |
| `Ledger.FreshBlocksDoNotMatter` | src/ORM/payout-ledger/payout-ledger.service.ts:78-85 | what is requested depends on the mature pending rows alone, whatever other rows stand anywhere among them |
| `Ledger.PayoutLedgerService.Credit` | src/ORM/payout-ledger/payout-ledger.service.ts:22-33 | appends one PENDING row with the next id, or nothing for an amount of zero or less |
| `Ledger.PayoutLedgerService.MarkSentUpTo` | src/ORM/payout-ledger/payout-ledger.service.ts:104-113 | row by row: exactly the miner's pending rows up to the id become SENT with the txid, at any height |
| `Ledger.PayoutLedgerService.GetDistinctSentTxids` | src/ORM/payout-ledger/payout-ledger.service.ts:115-122 | the txids of SENT rows, both directions |
| `Ledger.PayoutLedgerService.MarkConfirmed` | src/ORM/payout-ledger/payout-ledger.service.ts:124-132 | exactly the txid's SENT rows become CONFIRMED |
| `Ledger.PoolAccountingService.AddFeeAndDust` | src/ORM/pool-accounting/pool-accounting.service.ts:18-36 | creates the singleton row on first use and adds to both totals |
| `PayoutScheduling.PayoutScheduler.RunPayoutCycle` | src/pplns/payout-scheduler.service.ts:56-139 | with credits and confirmations at every wait: the candidates are chosen by that rule for every miner; which of skip, dry run, failed balance lookup, deferral, failed send or payment happens; without payment no row is taken; with one exactly the claimed rows of the table it read carry the txid, every other row keeps its txid or stays pending, and rows only move forward |
| `PayoutScheduling.PayoutScheduler.TotalRequested` | src/pplns/payout-scheduler.service.ts:100 | the loop's total is the sum of the candidates' mature pending rows |
| `PayoutScheduling.PayoutScheduler.MarkCandidates` | src/pplns/payout-scheduler.service.ts:128-130 | one mark at a time, with arrivals between the marks, the batch ends fully marked, and nothing else is taken |
| `PayoutScheduling.PayoutScheduler.ReconcileSentPayouts` | src/pplns/payout-scheduler.service.ts:141-154 | with credits, marks and confirmations between the lookups: every row that was SENT and whose lookup succeeds with enough confirmations ends CONFIRMED, and only such txids and those that others confirmed do; a failed lookup stops nothing else |
| `RewardSplit.MinerBounds` | src/pplns/reward-calculator.service.ts:43-51 | a miner with k shares gets at most the reward times the own part of the difficulty, and more than that minus k |
| `RewardSplit.DustBounds` | src/pplns/reward-calculator.service.ts:62 | the floors leave at least 0 and less than one lep per share |
| `RewardSplit.OrderDoesNotMatter` | src/pplns/reward-calculator.service.ts:43-51 | the order in which shares are read changes no payout |
| `RewardSplit.SplittingNeverPays` | src/pplns/reward-calculator.service.ts:44-46 | cutting one share into k of the same total never gains and costs at most k-1 |
| `RewardSplit.SplittingInWindow` | src/pplns/reward-calculator.service.ts:39-51 | replacing a share of a window by k pieces leaves the total and all other payouts, and changes the own payout by between -(k-1) and 0 |
| `RewardSplit.FeeIsRoundedUp` | src/pplns/reward-calculator.service.ts:39-41 | the fee is the exact percentage rounded up to less than one lep more, between 0 and the reward |
| `RewardSplit.PerMinerIsPerShare` | src/pplns/reward-calculator.service.ts:43-60 | summing per miner equals summing per share |
| `RewardSplit.RewardCalculatorService.PerMinerTotals` | src/pplns/reward-calculator.service.ts:43-51 | the map loop yields every miner's total, once each, and nobody else |
| `RewardSplit.RewardCalculatorService.SplitOver` | src/pplns/reward-calculator.service.ts:28-63 | the reward is conserved; one row per miner with a positive total, holding it; the fee; dust below one lep per share; all to dust when the window has no difficulty; and which credits were written in which order |
| `RewardSplit.RewardCalculatorService.ProcessBlockFound` | src/pplns/reward-calculator.service.ts:23-71 | the same for exactly the logged shares that are at most `windowMinutes` times 60000 ms old; the fee is the configured percentage rounded up |
| `RewardSplit.RewardCalculatorService.constructor` | src/pplns/reward-calculator.service.ts:68-71 | a configured fee counts if it lies in [0, 100), else the fee is zero |
| `ShareLog.PruningIsInvisible` | src/ORM/pplns-shares/pplns-shares.service.ts:29-78 | over any run with a clock that never goes back, the window query gives what the never-pruned log gives, up to 60 minutes beyond the windows used for pruning |
| `ShareLog.QueryUnchangedIff` | src/ORM/pplns-shares/pplns-shares.service.ts:51-78 | for any start, the query is unaffected if and only if no logged share lies between the start and the highest cutoff |
| `ShareLog.SinceExactly` | src/ORM/pplns-shares/pplns-shares.service.ts:51-56 | the query returns each share from the start on as often as it was logged, and nothing older |
| `ShareLog.PplnsShareLogService.Sweep` | src/ORM/pplns-shares/pplns-shares.service.ts:29-34 | a share goes if and only if it is older than the window and sixty minutes more |
| `ShareLog.PplnsShareLogService.GetSharesInWindow` | src/ORM/pplns-shares/pplns-shares.service.ts:51-56 | not before the horizon, the result is the never-pruned log's |
| `Merkle.ExtractBranch` | src/services/stratum-v1-jobs.service.ts:79-82 | filtering the proof, popping the root and slicing off the leaf leaves the right neighbours of the leftmost path and the root of the tree |
| `Merkle.SiblingsIgnoreLeaf` | src/services/stratum-v1-jobs.service.ts:70-82 | the branch does not depend on leaf 0, the placeholder coinbase |
| `Merkle.FoldIsRoot` | src/models/MiningJob.ts:292-305 | folding any leaf through the branch is the root of the whole tree with leaf 0 replaced, for every non-empty list, odd levels duplicating their last node |
| `Merkle.DeriveAt` | src/services/stratum-v1-jobs.service.ts:79-80 | node i of the next level hashes nodes 2i and 2i+1 side by side, or the last node twice |
| `Merkle.RootOfThree` | src/services/stratum-v1-jobs.service.ts:79-80 | the root of three leaves, written out |
| `Merkle.CalculateMerkleRootHash` | src/models/MiningJob.ts:292-305 | the loop over the reused 64-byte buffer computes that fold |
| `MiningJobs.TemplateTransactions` | src/services/stratum-v1-jobs.service.ts:66-82 | the branch is the right neighbours of the leftmost path, and gives, for every coinbase, the root over that coinbase and the node's transactions |
| `Transactions.CloneIsIdentity` | src/models/MiningJob.ts:149-151 | writing a transaction with its witness and parsing it back gives the same transaction |
| `MiningJobs.FastHeaderIsBlockHeader` | src/models/MiningJob.ts:153-289 | for every template, mask, nonce and time the fast header is the header of the block to submit, range errors included |
| `MiningJobs.BlockCommitsToItsTransactions` | src/models/MiningJob.ts:267-289 | the submitted block's Merkle root is the root over its own transactions, for templates with their own branch |
| `MiningJobs.HeaderFields` | src/models/MiningJob.ts:168-174 | reading the 80 bytes back gives each field at its offset |
| `MiningJobs.HeadersEqualIff` | src/models/MiningJob.ts:167-174 | two headers are the same bytes if and only if every field is, version, time and nonce as 32-bit words |
| `MiningJobs.MiningJob.BuildHeaderBuffer` | src/models/MiningJob.ts:153-176 | a header exists if and only if a zero mask meets no version with its top bit set and time and nonce lie in [0, 2^32) or are no number; then every field is where it belongs |
| `MiningJobs.HeaderExistsIff` | src/models/MiningJob.ts:162-173 | that condition, for every job, mask, time and nonce |
| `MiningJobs.HeaderContents` | src/models/MiningJob.ts:160-174 | the version's bits are flipped by the mask bit by bit; previous hash, folded root, time, target and nonce are read back from their offsets |
| `ShareHeaders.CanonicalHeader` | src/models/StratumV1Client.ts:758-769 | a share of eight-digit fields with a non-zero mask always has a header, holding the time and nonce that were sent |
| `MiningJobs.MiningJob.CopyAndUpdateBlock` | src/models/MiningJob.ts:267-289 | the block has the job's own coinbase first and the template's other transactions unchanged |
| `MiningJobs.CreateCoinbaseTransaction` | src/models/MiningJob.ts:308-334 | the payout outputs sum to exactly the reward for any percent list; it fails exactly for an empty list or an amount out of range |
| `MiningJobs.MiningJob.Build` | src/models/MiningJob.ts:61-147 | the job's coinbase is the described one (version, input, locktime, payout then required outputs in order), the halves concatenate to it, the second starts fe ff ff ff, and exactly when construction throws |
| `MiningJobs.CoinbaseUnique` | src/models/MiningJob.ts:61-117 | that description fixes the transaction completely |
| `MiningJobs.CutAtScriptSigEnd` | src/models/MiningJob.ts:127-146 | the halves always concatenate to the serialisation; the first ends at the last scriptSig byte exactly for scriptSigs under 253 bytes, and then the second starts at nSequence |
| `MiningJobs.FirstHalfIs` | src/models/MiningJob.ts:127-142 | the first half byte by byte: version 2, one input without outpoint, the scriptSig behind its length |
| `MiningJobs.SecondHalfIs` | src/models/MiningJob.ts:127-142 | the second half: fe ff ff ff, the outputs behind their count, the locktime |
| `MiningJobs.BlockWeightIs` | src/models/MiningJob.ts:123-125 | a block weighs four times its header and count plus what its transactions weigh |
| `MiningJobs.WeightIs` | src/models/MiningJob.ts:123-125 | a transaction weighs four times its stripped size, witnesses counted once more |
| `MiningJobs.CoinbaseSerializableIff` | src/models/MiningJob.ts:77-80 | the coinbase can be written if and only if the height is between 1 and 2^32 and values and lengths fit |
| `MiningJobs.WitnessCommitIs` | src/services/stratum-v1-jobs.service.ts:88-91 | the commitment hashes the root over the witness hashes, zero for the coinbase, with 32 zero bytes |
| `MiningJobs.HeightScriptDecodes` | src/models/MiningJob.ts:92-102 | the fallback scriptSig is never a single byte and never looks negative, and its bytes decode to the height if and only if that is below 2^32 |
| `MiningJobs.HeightScriptIsShort` | src/models/MiningJob.ts:92-102 | it pushes as few bytes as a positive number allows |
| `VersionRotation.JobVersionBit` | src/models/StratumV1Client.ts:614-622 | bits 13-16 carry the counter's low nibble, every other bit is the template's |
| `VersionRotation.SameVersionIffSameRotation` | src/models/StratumV1Client.ts:614-622 | two jobs on one template share a version exactly when their counters agree modulo 16 |
| `VersionRotation.SearchSpacesDisjoint` | src/models/stratum-messages/ConfigurationMessage.ts:22-26 | no two miner masks inside 1ffe0000 make the rolled versions of differently rotated jobs equal |
| `MiningJobs.RotatedHeadersDiffer` | src/models/MiningJob.ts:162-168 | so their headers differ, whatever else is in them, also with a mask of 0 or one that is no number |
| `SessionRuns.DisjointSearchSpaces` | src/models/StratumV1Client.ts:603-626 | in every run, jobs of a session less than 16 apart since the last reset never lead to equal headers |
| `SessionRuns.OtherVersionBitsAreTheTemplates` | src/models/StratumV1Client.ts:617-622 | in every run a job differs from its template's version in bits 13-16 only |
| `SessionRuns.StepKeepsInv` | src/models/StratumV1Client.ts:547-681 | every step of any session keeps the table and session invariants |
| `SessionRuns.AtMostOneCredit` | src/models/StratumV1Client.ts:737-756 | in every run one tuple passes a session's duplicate check at most once, although the set is cleared |
| `ShareHeaders.SameHeaderIff` | src/models/MiningJob.ts:153-176 | in every run any two shares that passed, of whatever sessions, jobs and templates, have equal headers if and only if rolled versions, times and nonces agree as 32-bit words and previous hash, target and folded root are equal |
| `ShareHeaders.SameHeaderOnSameWorkIff` | src/models/MiningJob.ts:153-176 | when the templates are equal in all but their ids, the three words alone decide |
| `ShareHeaders.NoHeaderTwiceOnJob` | src/models/StratumV1Client.ts:737-769 | in every run two shares of one session on one job, with one second extranonce and fields of eight lower-case digits, have different headers |
| `ShareHeaders.SameHeaderPassesAgain` | src/models/StratumV1Client.ts:737-769 | a run in which one header passes twice, with another second extranonce or another spelling of the nonce |
| `ShareHeaders.SameHeaderPassesOnTwoJobs` | src/models/StratumV1Client.ts:1012-1028 | a run for any node answer in which the same texts but the job id pass twice, on jobs and templates equal in all but their ids, with the same three words |
| `ShareHeaders.SameSharePassesInEachSession` | src/services/stratum-v1-jobs.service.ts:162-164 | a run in which one share passes on one job through two connections |
| `HexNumbers.Respelled` | src/models/StratumV1Client.ts:758-760 | leading zeros, a prefix, white space in front and junk behind do not change what a field is read as |
| `HexNumbers.SignedOrNone` | src/models/StratumV1Client.ts:758-760 | a minus sign negates, and a text without a leading digit is no number |
| `HexNumbers.ParseHexOfHex` | src/models/StratumV1Client.ts:758-760 | reading undoes writing in base 16 |
| `SessionRuns.NoStaleWork` | src/models/StratumV1Client.ts:705-735 | in every run what passes both lookups is for the height of the latest template, the template found is in every field but the version the one the job was built from, and its branch is that of its transactions |
| `SessionRuns.EveryTemplateIsAnswered` | src/services/stratum-v1-jobs.service.ts:52-105 | in every run each template in the table, and each one a share passed on, carries an answer that the node gave |
| `SessionRuns.OneHeight` | src/services/stratum-v1-jobs.service.ts:113-130 | in every run all templates in the table have the height of the latest one |
| `SessionRuns.BuildLeavesOneTipIff` | src/services/stratum-v1-jobs.service.ts:58-60 | a build leaves one previous hash in the table if and only if the height is new or every template of the last five minutes was on it already |
| `SessionRuns.OneTipIff` | src/services/stratum-v1-jobs.service.ts:113-130 | in every run all templates are on the newest one's previous hash if and only if the last build found that condition |
| `SessionRuns.WorkIsCurrentIff` | src/models/StratumV1Client.ts:705-735 | in every run everything a session can get past the lookups is on the newest previous hash if and only if no job in the table points to a template on another one |
| `SessionRuns.NoStaleJobIff` | src/services/stratum-v1-jobs.service.ts:113-130 | one previous hash in the table means no stale job; the converse holds when every template has a job |
| `SessionRuns.SameHeightReplacement` | src/services/stratum-v1-jobs.service.ts:113-117 | a run in which a block is replaced at its height and a share for the old previous hash passes |
| `JobTables.StratumV1JobsService.BuildTemplateFor` | src/services/stratum-v1-jobs.service.ts:52-133 | field by field: the node's height, reward, required outputs, scriptSig prefix, version, previous hash, target and transactions, the time and `clearJobs`; and exactly which entries of both tables stay, by height and five minutes |
| `JobTables.StratumV1JobsService.BuildWork` | src/services/stratum-v1-jobs.service.ts:62-105 | the work carries the node's answer unchanged and the branch of its own transactions |
| `JobTables.StratumV1JobsService.DropOldTemplates` | src/services/stratum-v1-jobs.service.ts:119-123 | the deleting loop keeps exactly the templates of at most five minutes |
| `JobTables.StratumV1JobsService.DropOldJobs` | src/services/stratum-v1-jobs.service.ts:124-128 | the deleting loop keeps exactly the jobs of at most five minutes |
| `HexIds.HexInjective` | src/services/stratum-v1-jobs.service.ts:166-171 | ids of different counters differ, so none is reused |
| `Sessions.StratumV1Client.SendNewMiningJob` | src/models/StratumV1Client.ts:603-668 | nothing on a closed socket; otherwise the counter restarts on clearJobs, advances, and one job is added, unless construction throws after the counter has moved |
| `Sessions.StratumV1Client.RefreshMiningJob` | src/models/StratumV1Client.ts:554-559 | the duplicate set is emptied exactly when the tables are |
| `Sessions.StratumV1Client.RefreshLocalMiningWork` | src/models/StratumV1Client.ts:567-586 | at most every 350 ms, a job on the held template with clearJobs off |
| `Sessions.StratumV1Client.ResendAfterDifficultyChange` | src/models/StratumV1Client.ts:1012-1028 | fetches a template only if none is held, and re-sends it with a later time |
| `Sessions.StratumV1Client.CheckSubmission` | src/models/StratumV1Client.ts:705-756 | which refusal: an unknown job, then a job whose template is gone, then a known key; and only a fresh share is remembered |
| `Sessions.KeyIsUniqueIff` | src/models/StratumV1Client.ts:737-743 | a submission's key differs from that of every submission of other texts if and only if none of its five texts contains a colon |
| `Sessions.KeyDeterminesSubmission` | src/models/StratumV1Client.ts:737-743 | without colons in one submission, equal keys mean equal texts, whatever the other one holds |
| `Sessions.Collides` | src/models/StratumV1Client.ts:737-743 | for every submission with a colon in some text, another one with the same key |
| `LineFraming.SplitJoins` | src/models/StratumV1Client.ts:100-103 | the parts contain no newline and, joined by newlines, give back the text |
| `LineFraming.NonEmptyExactly` | src/models/StratumV1Client.ts:106 | the filter drops the empty lines and nothing else |
| `LineFraming.ChunkingIsInvisibleIff` | src/models/StratumV1Client.ts:100-106 | messages and remainder are those of the whole byte stream if and only if no chunk continues a character that the stream before it leaves open |
| `LineFraming.WholeCharactersArrive` | src/models/StratumV1Client.ts:100-106 | text sent in pieces of whole characters gives the messages of the whole text |
| `LineFraming.CutCharacterIsReplacedTwice` | src/models/StratumV1Client.ts:101 | a two-byte character cut by a chunk boundary becomes two replacement characters |
| `Utf8.CutIff` | src/models/StratumV1Client.ts:101 | decoding two pieces apart gives the same as decoding them together if and only if the cut is not inside a character that goes on, and a longer text otherwise |
| `Utf8.DecodeEncode` | src/models/StratumV1Client.ts:101 | decoding undoes encoding, for every text |
| `Utf8.DecodeNewlines` | src/models/StratumV1Client.ts:101-102 | newlines come from newline bytes alone, wherever the stream is cut |
| `Utf8.IllFormed` | src/models/StratumV1Client.ts:101 | overlong forms, surrogates and stray bytes are replaced byte by byte, a truncated character once |
| `LineFraming.LineReader.OnData` | src/models/StratumV1Client.ts:100-106 | after every chunk the non-empty complete lines of the decoded chunks have been extracted; they are the byte stream's if and only if all cuts were harmless |
| `Vardiff.TopBitIsolates` | src/models/StratumV1ClientStatistics.ts:165-171 | the or-shift cascade leaves exactly the top set bit of a 31-bit value |
| `Vardiff.NearestPowerBounds` | src/models/StratumV1ClientStatistics.ts:158-179 | the result is 2^k/100^j with at most 3 nested calls (j), and r <= v < 2r |
| `Vardiff.RoundsBelowMinimumIff` | src/models/StratumV1ClientStatistics.ts:158-179 | the result is below MIN_DIFF exactly for values under 0.000016 |
| `Vardiff.OneCheckSettles` | src/models/StratumV1ClientStatistics.ts:141-155 | for a target from 0.00001 up to 2^31 one check brings the difficulty within a factor of two and a second changes nothing |
| `Vardiff.TargetIs` | src/models/StratumV1ClientStatistics.ts:141-149 | the target times the cache's milliseconds is ten thousand times the summed difficulty: ten submissions a second |
| `LargeTargets.IdleSuggestion` | src/models/StratumV1ClientStatistics.ts:133-135 | the suggestion for a session with too few submissions is the idle check of the convergence results |
| `LargeTargets.BitFoundIff` | src/models/StratumV1ClientStatistics.ts:165-171 | on 32-bit words with sign the shifts find a bit exactly in the positive ones; negative words smear to all ones |
| `LargeTargets.SmallTargetsReturn` | src/models/StratumV1ClientStatistics.ts:158-179 | below 2^31 the recursion on wrapped words returns within three nested calls, with the rounded value |
| `LargeTargets.ReturnsAtAllIff` | src/models/StratumV1ClientStatistics.ts:158-179 | for a value with 2k binary places the recursion ends at all if and only if one of its first k+16 scalings by 100 wraps to a positive 32-bit integer |
| `LargeTargets.ReturnsIff` | src/models/StratumV1ClientStatistics.ts:158-179 | from MIN_DIFF up it ends within n nested calls if and only if one of the first n+1 scalings does |
| `LargeTargets.OneInstantNeverReturns` | src/models/StratumV1ClientStatistics.ts:141-155 | with submissions of positive weight at one instant the suggestion never returns, at any depth |
| `LargeTargets.TwoTo31NeverReturns` | src/models/StratumV1ClientStatistics.ts:158-179 | nor does rounding 2^31 |
| `LargeTargets.OrdinarySuggestion` | src/models/StratumV1ClientStatistics.ts:141-155 | with time between the submissions and a target below 2^31 the suggestion returns and is the one the fixed-point results are about |
| `Vardiff.IdleCheckFalls` | src/models/StratumV1ClientStatistics.ts:130-139 | an idle check falls by a factor between 6 and 12, or to exactly MIN_DIFF once a sixth is below it, and stays above MIN_DIFF/2 |
| `Vardiff.MinimumStays` | src/models/StratumV1ClientStatistics.ts:130-139 | at MIN_DIFF an idle session stays |
| `Vardiff.IdleConverges` | src/models/StratumV1ClientStatistics.ts:130-139 | n idle checks suffice below 6^n times MIN_DIFF |
| `Vardiff.TwentyIdleChecksSuffice` | src/models/StratumV1ClientStatistics.ts:130-139 | twenty idle checks bring every difficulty below 12884901888 to 0.00001 |
| `ClientStatistics.StratumV1ClientStatistics.GetSuggestedDifficulty` | src/models/StratumV1ClientStatistics.ts:130-156 | the summing loop and the branches give the suggestion for the cache's target, for every cache, time span and target, on a call stack of any depth |
| `ClientStatistics.StratumV1ClientStatistics.AddShares` | src/models/StratumV1ClientStatistics.ts:45-128 | each of the four branches is the accounting step of the run |
| `ClientStatistics.SlotAccounting` | src/models/StratumV1ClientStatistics.ts:45-128 | over every run rows have increasing slots, closed slots hold their exact sum and count, the open slot is exact in memory and its row never exceeds it |
| `ClientStatistics.RowsAreWritten` | src/models/StratumV1ClientStatistics.ts:64-118 | a row is written, exactly, for the first share of a slot and for one more than a minute after the last write, and otherwise no row changes |
| `ClientStatistics.SlotIs` | src/models/StratumV1ClientStatistics.ts:47-50 | a slot is a stretch of 600000 ms from a multiple of it |
| `ClientStatistics.UsedSlotsHaveRows` | src/models/StratumV1ClientStatistics.ts:64-103 | the slots with a row are exactly the slots in which a share was accepted |
| `ClientStatistics.CacheIsNewest` | src/models/StratumV1ClientStatistics.ts:52-58 | the cache is always the newest min(n, 31) submissions in order |
| `Difficulties.Le256ToDouble` | src/models/StratumV1Client.ts:1043-1051 | the loop computes the little-endian value |
| `Difficulties.BlockFoundIffHashMeetsTarget` | src/services/stratum-v1-jobs.service.ts:135-145 | a share counts as a block exactly when its hash is at most the compact target, for every encoding, zero hash and zero target included |
| `Difficulties.CompactTargetIs` | src/services/stratum-v1-jobs.service.ts:135-139 | for every mantissa and exponent a compact target is the mantissa times 256^(exponent - 3), in whole numbers; the sign bit changes nothing |
| `Difficulties.EasiestTarget` | src/services/stratum-v1-jobs.service.ts:141-142 | 0x1d00ffff is 65535 * 256^26, in digits, and has difficulty 1 |
| `Difficulties.ShareAcceptedIff` | src/models/StratumV1Client.ts:863 | a share is accepted exactly when its hash is at most the session's target |
| `BlockFound.SubmittedBlockIsValidWork` | src/models/StratumV1Client.ts:882-892 | when the fast header passes the network difficulty, the block submitted has that header, meets its own target and commits to its own transactions |
| `BlockFound.HandleShare` | src/models/StratumV1Client.ts:758-892 | a share throws, is rejected, accepted or a block exactly by writability and by its hash against the session's and the network's targets; eight-digit fields with a non-zero mask never throw; a block is valid work |
| `BlockFound.FromNodeToBlock` | src/models/StratumV1Client.ts:554-892 | from the node's answer through template, job and share: a submitted block holds the node's transactions behind a coinbase with the whole reward for the pool, the node's required outputs in order, its scriptSig prefix and locktime height - 1, on the node's previous hash, and is valid work |
| `BlockFound.EveryBlockFoundIsValidWork` | src/models/StratumV1Client.ts:705-892 | in every run, every share that passed and meets the network's target gives such a block, on an answer the node gave in that run for the height of the tip at that moment |
| `Backpressure.PausedIffNotListening` | src/services/stratum-v1.service.ts:140-230 | in every run a started listener is paused exactly when it has no server |
| `Backpressure.ResumeNeedsHealthyStreak` | src/services/stratum-v1.service.ts:186-198 | in every run a resume ends at least N healthy, non-overloaded checks in a row |
| `Backpressure.ResumeMeansHealthyChecks` | src/services/stratum-v1.service.ts:165-198 | in every run, when a listener resumes, each of the last N checks was at most both resume limits and below both overload limits |
| `Backpressure.PauseEndsStreak` | src/services/stratum-v1.service.ts:172-179 | a pause restarts that count |
| `Backpressure.HealthyChecksResume` | src/services/stratum-v1.service.ts:186-198 | from a pause, exactly the check that completes the count resumes every listener |
| `Backpressure.OverloadStopsAccepting` | src/services/stratum-v1.service.ts:70-230 | in every run with one listener, from a check at or above either overload limit on nobody is accepted until N healthy, non-overloaded checks in a row have passed |
| `Backpressure.OverloadPausesAllIff` | src/services/stratum-v1.service.ts:170-179 | any number of overloaded checks leave all listeners paused if and only if the first found none or all paused |
| `Backpressure.SecondListenerWouldGoOn` | src/services/stratum-v1.service.ts:170-179 | the input on which that would fail, which the service does not produce: a second listener started during a pause |
| `Backpressure.StratumV1Service.CheckBackpressure` | src/services/stratum-v1.service.ts:165-201 | the new counter and the new state of every listener object |
| `Backpressure.StratumV1Service.PauseAccepting` | src/services/stratum-v1.service.ts:203-219 | each listener with a server loses it and becomes paused, the others are untouched |
| `Backpressure.StratumV1Service.ResumeAccepting` | src/services/stratum-v1.service.ts:221-230 | each paused listener listens again |

## Smaller facts

Also proved, and close to their definitions: `Sessions.TimesMoveForward` (re-sent work is dated later),
`MiningJobs.SequenceBytes` (nSequence is fe ff ff ff), `SessionRuns.NothingOldAfterRefresh` (nothing older than
five minutes), `Backpressure.NeverBoth` (no check pauses and resumes), `Vardiff.OneCheckSettlesLowTargets`
(below MIN_DIFF a second check changes nothing).

## Left out

- PayoutRuns.Step: payout cycles do not overlap and a successful send is followed by its marks; a crash between the two, a timed-out send that went out, overlapping timers and database errors are outside the model, because the code has no guard against them.
- PayoutRuns.Step: the wallet never returns a txid it returned before.
- RewardSplit.RewardCalculatorService.ProcessBlockFound: one call without interleaving; credits among other writes are steps of `PayoutRuns`, and `BlockCredits.ProcessBlockFound` connects the two.
- RewardSplit.MinerBounds: proportions are exact; the rounding of doubles is not modelled. Conservation does not depend on it.
- LargeTargets.NearestPower: products are exact; doubles at and above 2^53 would be rounded. Share difficulties are finite and not negative.
- ClientStatistics.StratumV1ClientStatistics.AddShares: calls on one session are sequential; its awaits would let concurrent calls lose updates. The displayed hash rate is not modelled.
- Transactions.CloneIsIdentity: for transactions that the format can write, with at least one input. The wire format and the shape of the Merkle proof follow bitcoinjs-lib and merkle-lib, which are not part of this model.
- MiningJobs.MiningJob.Build: the script of a payout address is a parameter.
- HexNumbers.ParseHex: numbers are exact; a double would round masks of more than 53 bits before they are cut to 32.
- JobTables.StratumV1JobsService.BuildTemplateFor: one clock reading per build; hashes arrive in internal byte order.
- Sessions.StratumV1Client.SendNewMiningJob: whether construction throws is an input here; `MiningJobs.MiningJob.Build` says when it does.
- Sessions.StratumV1Client.RefreshMiningJob: wiping the tables and clearing the requesting session's duplicate set are one step.
- LineFraming.LineReader.OnData: messages of different chunks may be handled concurrently, which is not modelled; characters are code points.
- Tables are sequences and maps; SQL, RPC, ZMQ and the file system are not modelled.
- The wallet reconciliation alert, notifications and logging change no modelled state.
- The diagnostic splice headers and the notify message's JSON and byte swapping.
- Socket lifecycle, authorisation, user-agent limits, controllers, charts, Telegram and Discord.
