# Most bridge: a verified model

Most is a guardian bridge between Ethereum and Aleph Zero. Tokens are locked by a Solidity contract and minted by an
ink! contract, or burned there and released again. Guardians relay transfer requests by voting for the hash of the
request on the other chain; committees of guardians rotate while votes are pending; fees are split among committee
members. A relayer process watches each chain, votes, and keeps a checkpoint in Redis. On Ethereum a Gnosis Safe owns
the bridge, and wrapped ether backs the native path.

The project models these parts and proves what they keep over every run.

| module | what it models |
|---|---|
| `Prelude`, `Bytes`, `Requests`, `Tally`, `Redelivery` | options, sums and counting; byte strings; requests, the bytes hashed for them on both chains and by the relayer; counting votes; votes delivered more than once |
| `AzeroSpec`, `AzeroVotes`, `AzeroRewards`, `AzeroEffects`, `AzeroContract` | the ink! contract: transition function, votes and supply over runs, native money over runs, what a message means to its caller, the contract as a class |
| `EthereumSpec`, `EthereumVotes`, `EthereumEscrow`, `EthereumEffects`, `EthereumContract` | the Solidity contract in the same parts |
| `Bridge`, `Network` | both contracts and their guardians as one transition system; the same with the relayers of honest guardians and both chains growing block by block |
| `Relayer`, `EthRelayer`, `Listeners`, `Delivery`, `AzeroDelivery` | the checkpointing of both listeners as step machines, the loops of the listeners, and relayer and contract together in either direction |
| `SentinelList`, `SafeOwners`, `SafeQuorum`, `MultiSend` | the Safe: linked lists in mappings, owners and modules, quorum and nonces, batch decoding |
| `Weth9` | the wrapped-ether ledger with its unchecked arithmetic |

Both bridge contracts appear twice: as a function from states to states, over which runs are sequences of calls by
arbitrary callers, and as a class whose methods follow that function, roll back on every error, keep the invariant that
runs have, and promise their caller what the message is for: exactly when it goes through (`May`), that an error is
true and changes nothing (`TrueError`), and exactly what changes and what does not. `Replay` carries every theorem about
runs over to the class. What
other contracts and the chain answer (does a token call, a native transfer or an unwrapping go through, which fee does
the oracle give) is a parameter of each call, so every theorem holds for all answers. Keccak-256 is a free constructor;
the byte strings fed to it are modelled exactly and have left inverses.

## What holds, and where the code does something else

Collateral, quorum, exactly-once and checkpoint safety hold over all runs, as the table states. In these places the
code, as written, misses a property one would expect. The model follows the code, and each gap has its exact condition:

- Aleph Zero judges a request by the threshold of the *active* committee (azero/contracts/most/lib.rs:417-420), while
  Ethereum uses that of the request's own committee (eth/contracts/Most.sol:239). A request is minted once it holds as
  many votes as the active threshold says, and at least one more than it held when that threshold was lowered
  (`AzeroVotes.ActiveThresholdDecides`); so a vote mints below the quorum of the request's own committee exactly when it
  brings the counter to the active threshold and not to the own one (`AzeroVotes.MintsBelowOwnQuorum`).
  `AzeroVotes.RotationUndercutsQuorum` is such a run.
- Pocket money is subtracted from a local copy of the pool that is not stored (azero/contracts/most/lib.rs:435-438), so
  it can be paid out of rewards. `AzeroRewards.PocketMoneyEatsRewards` is such a run; `AzeroRewards.BackingKeptIff` says
  exactly which calls leave the rewards owed without cover, `AzeroRewards.PocketWithinPool` which payments overdraw the
  pool.
- `committee_sizes` is written for the first committee only, so later committees are never paid:
  `AzeroRewards.LaterCommitteesAreNotPaid`, with the run `AzeroRewards.SecondCommitteeUnpaid`.
- `threshold as usize` drops the upper bits of a threshold of 2^32 or more (`AzeroSpec.ThresholdTruncated`,
  `AzeroSpec.ThresholdWithinCommittee`).
- A failed Redis read at start makes the relayer begin at the configured block. The checkpoint can then move back exactly
  if it had reached that block (`Relayer.RewindNeedsFailedRead`); it stays truthful all the same
  (`Relayer.CheckpointSafety`).
- The batch loop compares a cursor shifted by 32 with the unshifted length. This is harmless for packed encodings, and
  up to 32 trailing bytes are ignored (`MultiSend.BatchRoundTrip`, `MultiSend.BatchSound`).

## Assumptions of the two-chain results

The theorems of `Bridge` and `Network` are about runs in which token pairs follow one fixed one-to-one pairing and faulty
guardians are fewer than the thresholds in use: while Aleph Zero is not halted, the faulty members of the active or any
earlier committee are fewer than the active threshold; while Ethereum is not paused, the faulty members of a committee
are fewer than its own threshold. In `Bridge`, guardians that are not faulty vote only for requests the other chain has
sent; in `Network` this is proved from what their relayers do, given that a finalized block carries only requests its
contract emitted and relayers ask for finalized blocks only. Faulty guardians, users and everybody else may call
anything in any order; the owner may rotate committees, halt either side and recover tokens at any time.

## Model

| member | source | states |
|---|---|---|
| `Bridge.CollateralAlways` | azero/contracts/most/lib.rs:283-454 | in every reachable state of both chains, the Ethereum escrow of a token covers its Aleph Zero supply and all amounts in flight in either direction iff the owner recovered at most the surplus at deployment and the windfall since; so always without recoveries, if the escrow covered the supply at deployment |
| `Bridge.CollateralExact` | eth/contracts/Most.sol:134-298 | the exact identity behind it: escrow plus recoveries equals supply, both in-flight sums, donations, holders' burns, undelivered releases and the surplus at deployment |
| `Bridge.NoForgery` | eth/contracts/Most.sol:201-274 | with fewer faulty guardians than the thresholds in use, every hash processed on either chain is that of a request the other chain emitted |
| `Bridge.AzLandedWasSent` | azero/contracts/most/lib.rs:417-448 | a vote that gets a request minted has an honest signer, so the request was sent on Ethereum |
| `Bridge.EthLandedWasSent` | eth/contracts/Most.sol:239-241 | a vote that gets a request released has an honest signer, so the request was sent on Aleph Zero |
| `Bridge.UnsentIsOpenOnEthereum` | azero/contracts/most/lib.rs:332-350 | no request is through on Ethereum before it is sent, whatever faulty guardians do |
| `Bridge.ReleaseNeverLacksFunds` | eth/contracts/Most.sol:239-271 | unless the owner recovered more than surplus and windfall, the escrow covers every emitted and still open request, so its vote is never refused for want of wrapped ether |
| `Bridge.MintLandsInFlight` | azero/contracts/most/lib.rs:403-448 | a mint takes exactly its own request out of the amount in flight, for every token |
| `Bridge.ReleaseLandsInFlight` | eth/contracts/Most.sol:239-271 | a release takes exactly its own request out of the amount in flight, and that request was sent |
| `Bridge.StepKeepsInv` | eth/contracts/Most.sol:134-274 | every call on either chain keeps the two-chain invariant |
| `Bridge.AzPairsKept` | azero/contracts/most/lib.rs:655-680 | under a fixed pairing, every call keeps configured pairs and requests sent within it |
| `Bridge.EthPairsKept` | eth/contracts/Most.sol:309-315 | the same for the pairs of the Solidity contract |
| `Network.RelayersAreHonest` | relayer/relayer/src/listeners/azero.rs:138-235 | in any run of both chains, relayers and everybody else, the calls reaching the contracts are such that honest guardians vote only for requests the other chain sent |
| `Network.NetworkCollateral` | relayer/relayer/src/listeners/eth.rs:102-168 | no forgery and the collateral condition for contracts, chains and relayers together |
| `Network.RelayedVoteIsReal` | relayer/relayer/src/listeners/azero.rs:344-400 | a relayer's vote is for a request that the other contract has logged |
| `Network.StepKeepsInv` | relayer/relayer/src/listeners/azero.rs:138-235 | every step keeps finalized blocks real and relayers within finalized blocks |
| `AzeroVotes.CounterRefinesSignatures` | azero/contracts/most/lib.rs:357-454 | over every run, the stored count of an unprocessed hash is the number of its signers, processed hashes are not pending, signers sit on the committee inside the hashed data, and a processed hash has as many signers as the threshold active at that time |
| `AzeroVotes.MintOnceAndSupplyLedger` | azero/contracts/most/lib.rs:313-350 | over every run each hash is minted at most once, sent requests carry nonces 0..n-1, and supply is initial supply minus burned plus minted amounts |
| `AzeroVotes.PastCommitteesImmutable` | azero/contracts/most/lib.rs:701-727 | no run changes the members or the threshold of a committee once set |
| `AzeroVotes.ActiveThresholdDecides` | azero/contracts/most/lib.rs:417-422 | whatever votes a request already holds and whatever rotations happened, newcomers get it minted exactly when the votes reach max(votes so far + 1, active threshold); its own committee's quorum is reached iff its threshold is at most that |
| `AzeroVotes.OwnQuorumOfMint` | azero/contracts/most/lib.rs:403-422 | every mint has its own committee's quorum iff the stored counter before the call was at most one short of it |
| `AzeroVotes.MintsBelowOwnQuorum` | azero/contracts/most/lib.rs:417-422 | exactly which calls mint below the own committee's quorum, by guards readable before the call |
| `AzeroVotes.ReachingMints` | azero/contracts/most/lib.rs:366-424 | a call mints iff it is a member's first vote for the data it names, not halted, and brings the counter to the active threshold |
| `AzeroVotes.RotationUndercutsQuorum` | azero/contracts/most/lib.rs:417-422 | a run from deployment in which one vote mints a request of a committee with threshold two |
| `AzeroVotes.OwnQuorumUnderRisingThresholds` | azero/contracts/most/lib.rs:417-422 | if thresholds never drop across rotations, every mint has the quorum of its own committee |
| `AzeroVotes.HaltFreezes` | azero/contracts/most/lib.rs:809-821 | while halted and without the owner, no run changes votes, mints, requests, pairs or rewards |
| `AzeroVotes.RecordedVoteChangesNothing` | azero/contracts/most/lib.rs:375-389 | a vote that was counted, or whose request is through, leaves the whole state unchanged |
| `AzeroVotes.RedeliveryIsInvisible` | azero/contracts/most/lib.rs:375-389 | any run with re-delivered votes ends in the same state as the run without them |
| `AzeroVotes.NoRedeliveriesLeft` | azero/contracts/most/lib.rs:375-389 | the run without re-deliveries contains none (dropping them again changes nothing) |
| `AzeroVotes.StepKeepsWellFormed` | azero/contracts/most/lib.rs:357-454 | every message keeps the vote, mint, nonce and committee invariants and only extends the registry |
| `AzeroRewards.RewardsNeverOverpaid` | azero/contracts/most/lib.rs:460-484 | over every run, what a committee's members were paid in sum is at most what the committee collected |
| `AzeroRewards.DustBelowCommitteeSize` | azero/contracts/most/lib.rs:569-588 | once every member is paid, less than one unit per member is left |
| `AzeroRewards.PayoutScheduleIndependent` | azero/contracts/most/lib.rs:467-481 | after a payout a member has exactly floor(collected / size), whatever payouts happened before, the same as with one payout at the end; that one goes through iff nothing is due or the transfer is made and the balance covers it, so always while rewards are backed |
| `AzeroRewards.LaterCommitteesAreNotPaid` | azero/contracts/most/lib.rs:569-588 | in every reachable state, a member's payout fails with `NoSuchCommittee` iff the committee is not the first one |
| `AzeroRewards.SecondCommitteeUnpaid` | azero/contracts/most/lib.rs:701-727 | a run from deployment after which the only member of the active committee is refused with `NoSuchCommittee` |
| `AzeroRewards.NativeLedger` | azero/contracts/most/lib.rs:306-342 | the native balance identity over every run, and rewards owed are backed iff pocket money and recoveries stay within initial balance, donations and the pool |
| `AzeroRewards.BackingKeptIff` | azero/contracts/most/lib.rs:430-439 | a call leaves the rewards owed covered by the balance iff the pocket money or recovery it pays out is at most what the balance holds beyond them |
| `AzeroRewards.PocketWithinPool` | azero/contracts/most/lib.rs:430-439 | a mint keeps pocket money within the pool iff the unspent rest covers it (or nothing is paid) |
| `AzeroRewards.PocketMoneyEatsRewards` | azero/contracts/most/lib.rs:430-439 | a concrete run from deployment that pays pocket money twice from a pool funded once and leaves rewards unbacked |
| `AzeroSpec.ThresholdWithinCommittee` | azero/contracts/most/lib.rs:823-836 | an accepted threshold lies between 1 and the committee size iff it is below 2^32 |
| `AzeroSpec.ThresholdTruncated` | azero/contracts/most/lib.rs:823-826 | one guardian with threshold 2^32 + 1 is accepted |
| `AzeroContract.CheckCommitteeMembers` | azero/contracts/most/lib.rs:823-836 | the nested loops accept exactly the duplicate-free lists with a non-zero threshold that (truncated) fits |
| `AzeroContract.Most.New` | azero/contracts/most/lib.rs:218-273 | succeeds iff the list is duplicate-free and the (truncated) threshold fits; the contract is then halted, with exactly the given first committee and threshold, and sound |
| `AzeroContract.Most.SendRequest` | azero/contracts/most/lib.rs:283-350 | goes through iff the stated guards hold in the state before, an error is true and changes nothing; keeps all books sound; the value received less the refund stays, the fee is booked for the active committee only, exactly the amount is burned, the request has a hash no earlier request has, and nothing else changes |
| `AzeroContract.Most.ReceiveRequest` | azero/contracts/most/lib.rs:357-454 | goes through iff the stated guards hold in the state before, an error is true and changes nothing; a known vote changes nothing, a first vote is recorded alone and repeating it changes nothing, an open hash counts exactly its signers; it gets through exactly at the active threshold, is then minted for the first time by its amount only, and pocket money is paid without touching the pool |
| `AzeroContract.Most.PayoutRewards` | azero/contracts/most/lib.rs:460-484 | goes through iff the stated guards hold in the state before, an error is true and changes nothing; the member then has exactly the takings divided by the number of members and nothing outstanding, the difference left the balance, nothing else changed, and the committee is not overpaid |
| `AzeroContract.Most.OutstandingMemberRewards` | azero/contracts/most/lib.rs:569-588 | in reachable states answers exactly the members of the first committee, with what is missing to the takings divided by the number of members |
| `AzeroContract.Most.RotateCommittee` | azero/contracts/most/lib.rs:701-727 | goes through iff the stated guards hold in the state before, an error is true and changes nothing; the new committee has exactly the listed members and the given threshold, its size is not recorded, and every earlier committee and threshold stays as it was |
| `AzeroContract.Most.Halt` | azero/contracts/most/lib.rs:733-751 | goes through iff the stated guards hold in the state before, an error is true and changes nothing; only the flag changes, to the given value; after halting, no sequence of calls without the owner moves votes, requests, committees or rewards |
| `AzeroContract.Most.Recover` | azero/contracts/most/lib.rs:774-783 | goes through iff the stated guards hold in the state before, an error is true and changes nothing; exactly the amount leaves; rewards stay backed iff it is at most what the balance holds beyond the rewards owed |
| `AzeroContract.Most.FundPocketMoney` | azero/contracts/most/lib.rs:488-497 | goes through iff the stated guards hold in the state before, an error is true and changes nothing; pool and balance grow by exactly the value, and rewards that were backed stay backed |
| `AzeroContract.Most.PairTokens` | azero/contracts/most/lib.rs:666-680 | goes through iff the stated guards hold in the state before, an error is true and changes nothing; the source then leads to the destination and every other pair is as it was |
| `AzeroContract.Most.UnpairTokens` | azero/contracts/most/lib.rs:655-660 | goes through iff the stated guards hold in the state before, an error is true and changes nothing; the source then leads nowhere and every other pair is as it was |
| `AzeroContract.Most.Replay` | azero/contracts/most/lib.rs:283-783 | after any sequence of calls the contract is in the state the specification run gives, so every theorem about runs holds of it |
| `AzeroEffects.SoundKept` | azero/contracts/most/lib.rs:283-783 | every call keeps counters, mints, nonces, committees, rewards, the native ledger and all token supplies in order |
| `AzeroEffects.CallJudged` | azero/contracts/most/lib.rs:283-783 | for every message, exactly which calls go through, told from the state before, and that every error is true |
| `AzeroEffects.CommitteeAsConfigured` | azero/contracts/most/lib.rs:701-727 | over every run, a committee has and keeps exactly the members and threshold given to the call that set it |
| `AzeroEffects.InitMeans` | azero/contracts/most/lib.rs:218-273 | exactly which deployments succeed, and what they leave behind |
| `AzeroEffects.PlainMeans` | azero/contracts/most/lib.rs:488-497 | funding, recovering, halting and pairing change exactly the fields they are for |
| `AzeroEffects.SendMeans` | azero/contracts/most/lib.rs:313-350 | a successful send keeps value less refund, books the fee for the active committee, burns the amount, and its request has a hash different from all earlier ones; nothing else changes |
| `AzeroEffects.VoteMeans` | azero/contracts/most/lib.rs:357-454 | what an accepted vote leaves behind, idempotence included |
| `AzeroEffects.PayoutMeans` | azero/contracts/most/lib.rs:460-484 | what a payout leaves behind, for the member, the others and the committee |
| `AzeroEffects.OutstandingMeans` | azero/contracts/most/lib.rs:569-588 | who is told an outstanding amount, and that paid plus outstanding is an equal share |
| `AzeroEffects.RotationMeans` | azero/contracts/most/lib.rs:701-727 | members and threshold of the new, and of all earlier committees after a rotation |
| `EthereumVotes.ExactQuorum` | eth/contracts/Most.sol:226-241 | over every run, a processed hash was signed by exactly its own committee's threshold of members and released once, an unprocessed one has fewer signers, and 1 <= threshold <= size = number of members for every committee |
| `EthereumVotes.PastCommitteesImmutable` | eth/contracts/Most.sol:105-126 | no run changes members, size or threshold of a committee once set |
| `EthereumVotes.VoteOrderIndependent` | eth/contracts/Most.sol:201-274 | for any sequence of proper votes (members, right digests, not paused, unwrapping works, wrapped ether covers the different requests), all go through, a hash is processed iff it was or its distinct voters reach its threshold, and it is released exactly once |
| `EthereumVotes.ProperVotesAreSmooth` | eth/contracts/Most.sol:201-274 | proper votes never revert, whatever their order and repetitions |
| `EthereumVotes.SmoothVotesDecide` | eth/contracts/Most.sol:201-274 | the same outcome for any votes that do not revert |
| `EthereumVotes.VotesAddUp` | eth/contracts/Most.sol:226-237 | an open hash has collected exactly its earlier voters and those of the run |
| `EthereumVotes.RedeliveryIsInvisible` | eth/contracts/Most.sol:211-235 | any run with re-delivered votes ends in the same state as the run without them |
| `EthereumVotes.NoRedeliveriesLeft` | eth/contracts/Most.sol:211-235 | the run without re-deliveries contains none |
| `EthereumVotes.StepKeepsWellFormed` | eth/contracts/Most.sol:201-307 | every external function keeps the vote, quorum, release, nonce and committee invariants |
| `EthereumEscrow.EscrowLedger` | eth/contracts/Most.sol:134-298 | over every run, tokens held are initial plus locked plus donated minus released minus recovered, and ether held is exactly the unwrapped ether that receivers refused, and ether forced on the contract, that nobody recovered |
| `EthereumEscrow.PauseFreezes` | eth/contracts/Most.sol:276-282 | while paused and without the owner, no run changes votes, releases, requests, pairs or committees |
| `EthereumContract.SeatCommittee` | eth/contracts/Most.sol:105-126 | the loop accepts exactly lists of distinct new members with a reachable threshold, seats exactly them, and records size and threshold |
| `EthereumContract.Most.Initialize` | eth/contracts/Most.sol:83-97 | succeeds iff the members are distinct and can reach the threshold; the contract is then paused, with exactly the given committee, size and threshold, and sound |
| `EthereumContract.Most.SetCommittee` | eth/contracts/Most.sol:300-307 | goes through iff the stated guards hold in the state before, an error is true and changes nothing; the next committee has exactly the listed members, size and threshold, and earlier ones stay |
| `EthereumContract.Most.SendRequest` | eth/contracts/Most.sol:134-159 | goes through iff the stated guards hold in the state before, an error is true and changes nothing; keeps all books sound; exactly the amount of exactly the source token comes in, the request has a hash that no earlier request has on the other chain, and nothing else changes |
| `EthereumContract.Most.SendRequestNative` | eth/contracts/Most.sol:167-194 | goes through iff the stated guards hold in the state before, an error is true and changes nothing; the same for ether, which is held as wrapped ether and named by the token paired with it |
| `EthereumContract.Most.ReleaseTokens` | eth/contracts/Most.sol:243-271 | delivers iff the receiver can be paid and the escrow has the amount; then exactly the amount leaves; undelivered wrapped ether stays behind as ether and other tokens stay in escrow; fails iff wrapped ether cannot be unwrapped; nothing else changes |
| `EthereumContract.Most.ReceiveRequest` | eth/contracts/Most.sol:201-274 | goes through iff the stated guards hold in the state before, an error is true and changes nothing; a known vote changes nothing, a first vote is recorded alone and repeating it changes nothing, an open hash has fewer signers than its own threshold; it gets through exactly at that threshold, with exactly that many signers of its own committee, for the first time, and is paid out as the receiver's answer and the escrow allow |
| `EthereumContract.Most.SetPaused` | eth/contracts/Most.sol:276-282 | goes through iff the stated guards hold in the state before, an error is true and changes nothing; only the flag changes, to the given value; after pausing, no sequence of calls without the owner moves votes, releases, requests, pairs or committees |
| `EthereumContract.Most.AddPair` | eth/contracts/Most.sol:309-311 | goes through iff the stated guards hold in the state before, an error is true and changes nothing; the source then leads to the destination and every other pair is as it was |
| `EthereumContract.Most.RemovePair` | eth/contracts/Most.sol:313-315 | goes through iff the stated guards hold in the state before, an error is true and changes nothing; the source then leads nowhere and every other pair is as it was |
| `EthereumContract.Most.Recover` | eth/contracts/Most.sol:284-298 | goes through iff the stated guards hold in the state before, an error is true and changes nothing; exactly the amount of exactly that token, or of ether, leaves |
| `EthereumContract.Most.Replay` | eth/contracts/Most.sol:134-315 | after any sequence of calls the contract is in the state the specification run gives |
| `EthereumEffects.SoundKept` | eth/contracts/Most.sol:134-315 | every call keeps votes, quorums, releases, nonces, committees and the token and ether ledgers in order |
| `EthereumEffects.Answered` | eth/contracts/Most.sol:134-315 | for every function, exactly which calls go through, told from the state before, and that every error is true |
| `EthereumEffects.QuorumAsConfigured` | eth/contracts/Most.sol:105-126 | over every run, a committee has and keeps exactly the members, size and threshold given to the call that set it, and its requests are processed with exactly that threshold of signers from that list |
| `EthereumEffects.FirstQuorumAsConfigured` | eth/contracts/Most.sol:83-97 | the same for the committee given at deployment |
| `EthereumEffects.RotationMeans` | eth/contracts/Most.sol:300-307 | members, size and threshold of the new, and of all earlier committees |
| `EthereumEffects.PlainMeans` | eth/contracts/Most.sol:276-315 | pausing, pairing and recovering change exactly the fields they are for |
| `EthereumEffects.LockMeans` | eth/contracts/Most.sol:134-194 | locking adds exactly the amount of the token, and the request's hash on Aleph Zero is new |
| `EthereumEffects.VoteMeans` | eth/contracts/Most.sol:201-274 | what an accepted vote leaves behind, idempotence included |
| `EthereumEffects.ReleaseMeans` | eth/contracts/Most.sol:243-271 | delivered iff the receiver can be paid and the escrow has the amount, and what then moves, exactly |
| `Requests.AzRoundTrip` | azero/contracts/shared/src/hash.rs:12-28 | the little-endian pre-image has a left inverse on all u128 requests |
| `Requests.EthRoundTrip` | eth/contracts/Most.sol:216-224 | the packed pre-image has a left inverse on all requests |
| `Requests.AzFields` | azero/contracts/shared/src/hash.rs:12-28 | where each field stands in the Aleph Zero pre-image |
| `Requests.EthFields` | eth/contracts/Most.sol:216-224 | where each field stands in the Ethereum pre-image |
| `Bytes.LittleEndianDigit` | azero/contracts/shared/src/hash.rs:12-28 | byte k of a little-endian field is the digit of weight 256^k |
| `Bytes.BigEndianDigit` | eth/contracts/Most.sol:216-224 | byte k of a big-endian field of n bytes is the digit of weight 256^(n-1-k) |
| `Requests.MemberIdInjective` | eth/contracts/Most.sol:324-329 | committee keys of different committees or members differ |
| `Requests.ConcatU8Arrays` | relayer/relayer/src/helpers.rs:1-7 | the loop yields the concatenation in order |
| `Requests.RelayToAzero` | relayer/relayer/src/listeners/eth.rs:197-207 | the relayer's hash is the one the ink! contract computes for the same event, for every event within u128 |
| `Requests.RelayToEthereum` | relayer/relayer/src/listeners/azero.rs:379-389 | the ABI encoding hashed by the relayer is the packed encoding hashed by the Solidity contract, for every event |
| `Requests.ShortestPadded` | relayer/relayer/src/listeners/azero.rs:379-389 | padding the shortest big-endian spelling of an integer to a word gives its fixed-width spelling |
| `Tally.CountedKeepsCounts` | azero/contracts/most/lib.rs:401-410 | a counted vote keeps the stored counter of every open hash equal to the number of its signers |
| `Redelivery.Invisible` | relayer/relayer/src/listeners/azero.rs:344-478 | for any contract that counts votes once, a run with re-delivered votes ends as without them |
| `Relayer.CheckpointSafety` | relayer/relayer/src/listeners/azero.rs:138-235 | for all interleavings, task failures, crashes and restarts: if the stored value is k, every transfer event of the blocks from the start block to k has been handled |
| `Relayer.PendingNeverRunsOut` | relayer/relayer/src/listeners/azero.rs:458-475 | pending and sealed blocks partition a contiguous range up to the next unscheduled block, so sealing never finds the set empty or a minimum of zero |
| `Relayer.CheckpointIsTight` | relayer/relayer/src/listeners/azero.rs:458-475 | what a sealing task writes is the last block of the stretch of sealed blocks, so the block after it is pending |
| `Relayer.FailureHoldsCheckpoint` | relayer/relayer/src/listeners/azero.rs:452-456 | a failed event keeps its block pending, and everything at or above it unwritten, until the listener restarts |
| `Relayer.RestartForgets` | relayer/relayer/src/listeners/azero.rs:138-147 | after a crash and a restart only the checkpoint and what happened on Ethereum count |
| `Relayer.OnlySealWrites` | relayer/relayer/src/listeners/azero.rs:464-475 | the checkpoint changes only where a sealing task's write succeeds, and events count as handled only where their task or vote says so |
| `Relayer.SealKeeps` | relayer/relayer/src/listeners/azero.rs:444-478 | sealing keeps the invariant, and everything below the new minimum has been handled |
| `Relayer.StepKeepsInv` | relayer/relayer/src/listeners/azero.rs:138-235 | every atomic step of main loop, tasks, crash and restart keeps the invariant |
| `Relayer.CheckpointNeverDecreases` | relayer/relayer/src/connections/redis_helpers.rs:6-34 | with successful reads the checkpoint never goes back, within a run or across restarts |
| `Relayer.RewindNeedsFailedRead` | relayer/relayer/src/connections/redis_helpers.rs:14-20 | after a start, some schedule without further failed reads moves the checkpoint back iff the read failed and the checkpoint had reached the start block |
| `EthRelayer.CheckpointSafety` | relayer/relayer/src/listeners/eth.rs:92-168 | the same for the Ethereum listener: over all failures, crashes and restarts, everything from the start block to the checkpoint has been handled |
| `Listeners.EarliestPending` | relayer/relayer/src/listeners/azero.rs:464-466 | the least block of the set |
| `Listeners.PendingBlocks.AddToPending` | relayer/relayer/src/listeners/azero.rs:287-290 | adds one block |
| `Listeners.PendingBlocks.AddSuccessors` | relayer/relayer/src/listeners/azero.rs:172-174 | adds exactly the successors of the range |
| `Listeners.PendingBlocks.Seal` | relayer/relayer/src/listeners/azero.rs:458-475 | removes the block and writes one less than the earliest block left; fails exactly where the source would panic |
| `Listeners.EthListener.ProcessRange` | relayer/relayer/src/listeners/eth.rs:102-168 | a turn is a run of the listener's steps; it covers exactly min(finalized, next + step - 1), retries while halted, ends as the replies dictate, advances and checkpoints only after every event was accepted, and handles only events of its range |
| `Listeners.EthListener.RelayBlock` | relayer/relayer/src/listeners/eth.rs:134-152 | the events of a block are accepted one by one, or the turn ends as the replies dictate |
| `Listeners.EthListener.RelayRange` | relayer/relayer/src/listeners/eth.rs:112-152 | the blocks of a range are relayed in order, as a run of the listener's steps |
| `Listeners.Retry` | relayer/relayer/src/listeners/eth.rs:136-151 | refusals by a halted contract are skipped without changing the outcome |
| `Listeners.EthListener.Restart` | relayer/relayer/src/listeners/eth.rs:92-98 | continues after the checkpoint, or at the start block if it cannot be read, and keeps the invariant |
| `Delivery.CheckpointedVotesAreRecorded` | relayer/relayer/src/listeners/azero.rs:344-478 | relayer and contract together: if the checkpoint is k, the contract has counted this guardian's vote, or released the request, for every transfer up to block k |
| `Delivery.ExactlyOnceEffect` | relayer/relayer/src/listeners/azero.rs:344-478 | relayer and contract together: any run with re-deliveries after restarts leaves the contract in the state reached with every repeated vote left out |
| `Delivery.ContractSees` | relayer/relayer/src/listeners/azero.rs:344-440 | the contract's part of a joint run is the run of the calls that reached it |
| `AzeroDelivery.CheckpointedVotesAreRecorded` | relayer/relayer/src/listeners/eth.rs:102-168 | Ethereum listener and ink! contract together: if the checkpoint is k, the contract has counted this guardian's vote, or minted the request, for every transfer up to block k |
| `AzeroDelivery.ExactlyOnceEffect` | relayer/relayer/src/listeners/eth.rs:102-168 | any run with re-deliveries after restarts leaves the ink! contract in the state reached with every repeated vote left out |
| `AzeroDelivery.StepKeepsInv` | relayer/relayer/src/listeners/eth.rs:102-168 | every step of the listener's loop, of restarts and of other callers keeps the joint invariant |
| `SentinelList.LinkFront` | eth/contracts/gnosis-1.3.0/base/OwnerManager.sol:51-62 | the two writes of an insertion turn the cycle into the cycle with the element in front |
| `SentinelList.Unlink` | eth/contracts/gnosis-1.3.0/base/OwnerManager.sol:70-86 | the two writes of a removal turn the cycle into the cycle without the element |
| `SentinelList.Replace` | eth/contracts/gnosis-1.3.0/base/OwnerManager.sol:94-111 | the three writes of a swap replace one element in place, also next to the sentinel |
| `SentinelList.OnlyLinksPrecede` | eth/contracts/gnosis-1.3.0/base/OwnerManager.sol:75-80 | the `prevOwner` test passes iff that element precedes the owner in the walk |
| `SentinelList.MemberIsLinked` | eth/contracts/gnosis-1.3.0/base/OwnerManager.sol:130-132 | an address is in the list iff it has a link |
| `SentinelList.LinkedUnique` | eth/contracts/gnosis-1.3.0/base/OwnerManager.sol:136-148 | the mapping determines the list |
| `SafeOwners.LinkAll` | eth/contracts/gnosis-1.3.0/base/OwnerManager.sol:30-43 | the setup loop accepts exactly distinct proper owners, adjacent and non-adjacent repeats included, and builds one cycle through all of them |
| `SafeOwners.TurnKeeps` | eth/contracts/gnosis-1.3.0/base/OwnerManager.sol:31-39 | one turn of the setup loop refuses an owner only where the list is not eligible, and extends the chain otherwise |
| `SafeOwners.OwnerManager.SetupOwners` | eth/contracts/gnosis-1.3.0/base/OwnerManager.sol:22-44 | succeeds once, iff the owners are distinct and proper and the threshold reachable; unchanged on failure |
| `SafeOwners.OwnerManager.AddOwnerWithThreshold` | eth/contracts/gnosis-1.3.0/base/OwnerManager.sol:51-62 | succeeds iff the owner is new and proper and the threshold reachable afterwards; the owner goes in front |
| `SafeOwners.OwnerManager.RemoveOwner` | eth/contracts/gnosis-1.3.0/base/OwnerManager.sol:70-86 | succeeds iff `prevOwner` precedes the owner and the threshold stays reachable; exactly that owner leaves |
| `SafeOwners.OwnerManager.SwapOwner` | eth/contracts/gnosis-1.3.0/base/OwnerManager.sol:94-111 | succeeds iff `prevOwner` precedes the old owner and the new one is new and proper; takes its place |
| `SafeOwners.OwnerManager.ChangeThreshold` | eth/contracts/gnosis-1.3.0/base/OwnerManager.sol:117-124 | succeeds iff 1 <= threshold <= number of owners |
| `SafeOwners.OwnerManager.IsOwner` | eth/contracts/gnosis-1.3.0/base/OwnerManager.sol:130-132 | true iff the address is in the list |
| `SafeOwners.OwnerManager.GetOwners` | eth/contracts/gnosis-1.3.0/base/OwnerManager.sol:136-148 | terminates within the array and returns every owner once, in list order |
| `SafeOwners.OwnerManager.Perform` | eth/contracts/gnosis-1.3.0/base/OwnerManager.sol:51-124 | any sequence of owner operations keeps one cycle of the recorded length and a reachable threshold, with exactly the owners the same operations on the list give |
| `SafeOwners.OwnerManager.PerformOne` | eth/contracts/gnosis-1.3.0/base/OwnerManager.sol:51-124 | the linked list does what the operation does to the list of owners |
| `SafeOwners.ChangedStaysGovernable` | eth/contracts/gnosis-1.3.0/base/OwnerManager.sol:51-124 | every owner operation leaves distinct proper owners and a threshold they can reach |
| `SafeOwners.ModuleManager.EnableModule` | eth/contracts/gnosis-1.3.0/base/ModuleManager.sol:32-40 | succeeds iff the module is new and proper; it goes in front |
| `SafeOwners.ModuleManager.DisableModule` | eth/contracts/gnosis-1.3.0/base/ModuleManager.sol:47-54 | succeeds iff `prevModule` precedes the module; exactly that module leaves |
| `SafeOwners.ModuleManager.GetModulesPaginated` | eth/contracts/gnosis-1.3.0/base/ModuleManager.sol:114-132 | a page is the next elements after `start`, as many as fit, with `next` the element that follows; nothing if `start` is not in the walk |
| `SafeQuorum.SplitLayout` | eth/contracts/gnosis-1.3.0/common/SignatureDecoder.sol:11-35 | the overlapping word loads read exactly the 65 bytes r, s, v of the slot |
| `SafeQuorum.CheckNSignatures` | eth/contracts/gnosis-1.3.0/GnosisSafe.sol:240-304 | the loop accepts iff the buffer holds n slots and they name current owners in strictly increasing order; all reads are inside the buffer |
| `SafeQuorum.QuorumSound` | eth/contracts/gnosis-1.3.0/GnosisSafe.sol:240-304 | acceptance means that n different current owners each approved the hash by a slot of the very buffer that was checked: a key signature in it, a contract signature in its tail, or a slot naming the sender or a pre-approved owner |
| `SafeQuorum.AcceptedIff` | eth/contracts/gnosis-1.3.0/GnosisSafe.sol:240-304 | acceptance iff the i-th slot's bytes carry the approval of the i-th of some current owners in strictly increasing order |
| `SafeQuorum.SlotSpeaksFor` | eth/contracts/gnosis-1.3.0/GnosisSafe.sol:255-300 | a slot speaks for an owner iff its bytes carry that owner's approval, for all four kinds of signature |
| `SafeQuorum.ApprovedQuorumPasses` | eth/contracts/gnosis-1.3.0/GnosisSafe.sol:278-285 | owners in increasing order, each the sender or pre-approved, always pass with one type-1 slot each |
| `SafeQuorum.NoReplay` | eth/contracts/gnosis-1.3.0/GnosisSafe.sol:126-146 | over any actions, re-entrant executions included, executed transactions carry nonces 0, 1, 2, ... and no signed hash is executed twice |
| `SafeQuorum.HashInjective` | eth/contracts/gnosis-1.3.0/GnosisSafe.sol:365-403 | different transactions, nonces or domains have different hashes |
| `SafeQuorum.HashLayout` | eth/contracts/gnosis-1.3.0/GnosisSafe.sol:377-403 | where each field of the transaction stands in what is hashed |
| `SafeQuorum.DomainInjective` | eth/contracts/gnosis-1.3.0/GnosisSafe.sol:349-351 | different chains or Safes have different domains |
| `SafeQuorum.ApprovalMeans` | eth/contracts/gnosis-1.3.0/GnosisSafe.sol:333-337 | approving is for owners and adds exactly the caller's own approval |
| `SafeQuorum.NobodyApprovesForAnother` | eth/contracts/gnosis-1.3.0/GnosisSafe.sol:333-337 | over any run, an approval on record was made by that account itself |
| `SafeQuorum.EveryExecutionHadQuorum` | eth/contracts/gnosis-1.3.0/GnosisSafe.sol:111-163 | over any actions, re-entrant executions and owner changes included, every executed transaction was approved by as many different owners of that moment as the threshold then said, for a hash of that very transaction, nonce, Safe and chain and of no other |
| `SafeQuorum.ExecutionIsLogged` | eth/contracts/gnosis-1.3.0/GnosisSafe.sol:126-160 | an execution goes through iff signatures are accepted for the hash of its transaction under the current nonce and the call succeeds or may fail; it takes the nonce, is judged by the owners, threshold and approvals of the state it started in, and otherwise changes nothing |
| `SafeQuorum.OwnersChangeOnlyByQuorum` | eth/contracts/gnosis-1.3.0/base/OwnerManager.sol:51-124 | over any run, wherever owners or threshold change, a quorum of the owners of that moment approved the transaction that did it |
| `SafeQuorum.OwnersChangeByQuorum` | eth/contracts/gnosis-1.3.0/common/SelfAuthorized.sol:6-17 | an action from outside that changes owners or threshold is an execution of a transaction that a quorum of the owners it found signed, and signed for nothing else |
| `SafeQuorum.StaysGovernable` | eth/contracts/gnosis-1.3.0/base/OwnerManager.sol:22-148 | whatever happens to the Safe, its owners are distinct and proper and can reach the threshold |
| `SafeQuorum.PerformOrderly` | eth/contracts/gnosis-1.3.0/GnosisSafe.sol:126-146 | every action keeps executed transactions numbered and certified, and only appends to them |
| `MultiSend.MultiSend` | eth/contracts/gnosis-1.3.0/libraries/MultiSend.sol:26-65 | reverts when not called by delegate call; otherwise the cursor loop terminates and executes what the recursive reading of the buffer says |
| `MultiSend.ReadEntry` | eth/contracts/gnosis-1.3.0/libraries/MultiSend.sol:38-47 | the shifted word loads give operation, address, value and data of the entry |
| `MultiSend.EntryRoundTrip` | eth/contracts/gnosis-1.3.0/libraries/MultiSend.sol:38-47 | an encoded entry is read back |
| `MultiSend.EntryBytes` | eth/contracts/gnosis-1.3.0/libraries/MultiSend.sol:38-47 | re-encoding what was read gives back the bytes |
| `MultiSend.BatchRoundTrip` | eth/contracts/gnosis-1.3.0/libraries/MultiSend.sol:26-65 | for every list with operations 0 or 1, the loop over its packed encoding executes exactly that list in order, or reverts if a call fails, also with up to 32 bytes behind it counted into the length |
| `MultiSend.BatchSound` | eth/contracts/gnosis-1.3.0/libraries/MultiSend.sol:26-65 | whatever a batch executed was spelled out in the buffer from its start, with at most 32 bytes unread |
| `Weth9.Credit` | eth/contracts/WETH9.sol:38-41 | a credit that the total leaves room for does not wrap and grows the sum of balances by the amount |
| `Weth9.Debit` | eth/contracts/WETH9.sol:42-47 | a covered debit does not wrap and shrinks the sum by the amount |
| `Weth9.MoveConserves` | eth/contracts/WETH9.sol:75-76 | debit then credit conserves the sum and moves the amount, self-transfers included |
| `Weth9.Weth.Deposit` | eth/contracts/WETH9.sol:38-41 | credits the caller without wrapping and keeps the backing |
| `Weth9.Weth.Withdraw` | eth/contracts/WETH9.sol:42-47 | fails iff the balance is short or the receiver refuses; the contract is never short of ether |
| `Weth9.Weth.Approve` | eth/contracts/WETH9.sol:53-57 | sets one allowance |
| `Weth9.Weth.TransferFrom` | eth/contracts/WETH9.sol:63-81 | exact success condition, balances and allowance, infinite allowance included |
| `Weth9.Weth.Replay` | eth/contracts/WETH9.sol:32-81 | over every call sequence the balances add up to the ether held minus what was forced in, so nothing wraps |

## Left out

- Network, RPC, Redis transport, the signer, key handling and transaction submission: only success and failure are kept.
- PSP22, ERC-20 and OpenZeppelin internals: a token is a ledger of totals with standard behaviour; fee-on-transfer tokens
  and tokens that call back are not modelled. A release whose receiver is the bridge itself is booked as leaving the
  escrow; it then comes back as a donation.
- UUPS upgrades, `set_code`, proxies, `Ownable2Step` hand-over, token role checks, `Advisory`, `Migrations`: the owner is fixed.
- `get_base_fee` and the gas price oracle: the fee is an arbitrary value, `None` where its arithmetic fails.
- Ecrecover and EIP-1271 validation are parameters; Keccak-256 is collision-free by construction.
- `recover_psp22` does not change total supply and is not a call of the model; events other than requests, mints and
  releases; `request_status`, `hasSignedRequest` and other plain getters.
- `handlePayment`, guards, fallback handlers, module transactions, the gas check after `execTransaction`.
- Finality polling, timing, liveness, emergency waiting; overflow of u32 block numbers.
- Concatenation of pages of `getModulesPaginated`: only one page is described.
- Deployment scripts and devnet configuration.
- Storage layout: the fields of the two bridge contracts are grouped into records (committees, votes, money, tokens).
- AzeroContract.Most.constructor: takes a committee that `check_committee` accepts; `Most.New` has the error cases. The list
  is shorter than 2^32, the most a wasm32 vector can hold.
- AzeroVotes.ActiveThresholdDecides: the votes needed must fit the u128 counter, which otherwise fails with an error.
- AzeroVotes.CounterRefinesSignatures: runs are shorter than 2^128 calls, before the unchecked u128 committee counter could
  wrap; the same holds for the other run lemmas about Aleph Zero, and `RotateCommittee` keeps the invariant up to there.
- SafeQuorum.NoReplay: `execTransaction` is modelled on values, with the calls made while it runs as a tree, so that
  re-entrancy is explicit; storage updates in place are not.
- SafeQuorum.OwnersChangeOnlyByQuorum: enabled modules, which act for the Safe without signatures, are not part of the runs.
- SafeQuorum.CheckNSignatures: an offset in a contract signature that overflows 256 bits is refused as out of the buffer,
  as checked arithmetic does.
- MultiSend.MultiSend: gas is represented by a bound on the memory a batch can address.
- Weth9.Weth.Deposit: calls that carry more ether than can exist are excluded; `transfer` is `transferFrom` by the owner.
