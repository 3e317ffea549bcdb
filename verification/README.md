# Verified model of the Fula node pallets

This project models the four FRAME pallets of the Fula node and proves what they promise
over every sequence of calls. `dafny verify dfyconfig.toml` checks all of it.

- **Pool** (`pallets/pool/src/lib.rs`). Accounts create pools, ask to join them, are voted
  in or out by the participants, and leave. Three storage maps describe the same relation
  (`Users`, `Pools` with ascending participant lists and an 8-bit request counter, and
  `PoolRequests` with ascending voter lists and a 16-bit tally).
- **Treasury** (`pallets/treasury/src/lib.rs`). Uploaders reserve tokens for a cid; root
  releases them to storers; uploaders take back the rest.
- **Data** (`pallets/data/src/lib.rs`). Batches of cids are recorded in a primary map and
  in a list for each pool.
- **Proof** (`pallets/proof/src/lib.rs`). Storers submit proofs; a distribution mints a
  reward for each verified, eligible proof, at most once in a period.

## How it is built

Each pallet has a value model of its storage with a function `Apply` from storage and call
to a new storage or an error (`PoolSpec`, `TreasurySpec`, `DataSpec`, `ProofSpec`), and a
class whose fields are the storage items and whose methods are the dispatchables, loops and
binary searches included (`PoolPallet`, `TreasuryPallet`, `DataPallet`, `ProofPallet`).
Several dispatchables write before they fail, so a class method may leave any storage
behind an error; `Dispatch` takes a snapshot and restores it, as the runtime's storage
transaction does. Every method is proved to follow `Apply`, and `Valid()` says that the
fields are what the calls dispatched so far make of the initial storage. The theorems are
therefore stated about `Run`, the storage after an arbitrary sequence of calls.

For the pool pallet there is a second, independent description, `PoolSimple`: every account
has one status, capacities are compared with `>=`, votes are sets, and there are no
counters, lists or integer widths. `PoolRefinement` proves that the pallet is that machine
if and only if pools have at most 255 places.

## What the proofs found

- The request counter is a `u8` and wraps in a release build, and `is_full` tests equality.
  Counters are exact and capacities respected in every run, and the pallet behaves like the
  simple pools, if and only if `MaxPoolParticipants` is at most 255 (`CapacityIff`,
  `RefinementIff`); no call ever ends in `InternalError` if and only if it is at most 256.
  The runtime sets 300 (`runtime/src/lib.rs:267`).
- Locking a cid that is already locked overwrites its request. The running total stays
  equal to the reserved balances, but the tokens of the old request stay reserved for good.
  The total is what the stored requests hold if and only if no lock met a request that
  still held tokens (`TotalIsLockedIff`); `LockTwice` is a run where one did.
- The gate of `distribute_rewards` adds the period to the last block in 32 bits. Up to block
  B distributions are a period P apart, and the minted supply bounded, if and only if B + P
  fits or B is within the first period (`DistributionsApartIff`, `MintedSupplyIff`); beyond,
  the same call succeeds any number of times in one block.
- `check_votes` accepts with more than a third of the participants in favour, or with nine
  votes, or at once when the owner has voted and anybody is in favour; the comments of
  `VoteResult` speak of a majority (`pallets/pool/src/lib.rs:38-43`). The model follows the
  code; without the owner the two agree only in pools of one or three (`MajorityIff`).
- A request is decided by the time all participants have voted if the size of the pool stays
  the same; if participants leave during the vote it can be left pending with nobody to
  vote on it.
- Pool identifiers are 32-bit; they are exactly 1 .. `LastPoolId` throughout a run if and
  only if the run makes at most 2^32 - 1 pools, which every run does if and only if
  `MaxPools` is set or no pool can be made (`IdsAlwaysContiguousIff`).

The statements about limits need a chain on which pools can be made at all, that is,
`MaxPools` unset or positive.

## Model

| member | source | states |
|---|---|---|
| PoolHistory.RunKeepsInv | pallets/pool/src/lib.rs:229-445 | After every run that does not exhaust the identifiers: `pool_id == Some(p)` iff the account is in p's participants, `request_pool_id == Some(p)` iff a request to p exists, nobody has both, lists are strictly ascending and bounded, tallies are open, counters are right modulo 256, and `LastPoolId` counts the successful creates |
| PoolVoting.StepKeepsInv | pallets/pool/src/lib.rs:229-445 | The invariant is inductive: any of the five calls, succeeding or failing, keeps it |
| PoolInvariant.AdmitRelations | pallets/pool/src/lib.rs:647-661 | An acceptance keeps the three maps in agreement, and nobody who is accepted was a participant of any pool |
| PoolInvariant.DropRequestRelations | pallets/pool/src/lib.rs:633-637 | Withdrawing or denying a request keeps the three maps in agreement |
| PoolInvariant.CounterMoves | pallets/pool/src/lib.rs:363 | A wrapping step of the counter together with one request more or less keeps the counter right modulo 256 |
| PoolHistory.MembershipChanges | pallets/pool/src/lib.rs:290-338 | A call makes somebody a member iff it is their `create` or an accepting `vote` of a participant, and ends a membership iff it is the member's or the owner's `leave_pool` |
| PoolHistory.MembersEntered | pallets/pool/src/lib.rs:639-672 | Every member of every reachable state entered by such a call at some point of the run and has been a member since |
| PoolHistory.TallyIsHistory | pallets/pool/src/lib.rs:412-445 | A pending request is the tally of the ballots cast since the join: its voters are exactly those who balloted, each once, its positive votes count the positive ballots, and it was undecided at the pool's size at the last of them |
| PoolHistory.BallotsWereCast | pallets/pool/src/lib.rs:418-425 | The ballots on a request are exactly the successful `vote` calls on it since the last successful `join` of its applicant, one by one and in their order; each voter was then a participant and is not the applicant |
| PoolVoting.UndecidedIsSmall | pallets/pool/src/lib.rs:427-432 | A stored request has fewer ballots than the pool maximum, so the insertion into `voted` has room, whatever joins and departures happened |
| PoolVoting.CastFits | pallets/pool/src/lib.rs:120-123 | On any stored request with one more ballot the conversions to 16 bits do not truncate and the subtraction does not underflow |
| PoolVoting.InconclusiveIff | pallets/pool/src/lib.rs:111-128 | A request stays open iff at most half are against, at most min(n/3, 8) in favour, and the owner has not decided it |
| PoolVerdicts.NextBallotVerdict | pallets/pool/src/lib.rs:111-128 | At unchanged size a positive ballot is never denied, and each verdict on a positive or negative ballot has an exact condition; a negative ballot is accepted iff it is the owner's and a positive vote exists |
| PoolVerdicts.MajorityIff | pallets/pool/src/lib.rs:38-43 | An acceptance without the owner's vote means more than half of n participants in favour iff n is 1 or 3, although `VoteResult` documents a majority |
| PoolVerdicts.VoteFollowsBallots | pallets/pool/src/lib.rs:412-445 | After any run a successful vote admits, denies or keeps the applicant exactly as the ballots since the join say |
| PoolVerdicts.OpenRequestLimit | pallets/pool/src/lib.rs:120-127 | An open request has at most n/2 + min(n/3, 8) ballots, n being the size at its last vote, and fewer than n |
| PoolVerdicts.DecisionByLastParticipant | pallets/pool/src/lib.rs:120-127 | At fixed size n the request is decided by ballot n/2 + min(n/3, 8) + 1 at the latest, which is at most n |
| PoolVerdicts.OpenVoteLeavesSilentParticipant | pallets/pool/src/lib.rs:412-445 | After any vote that leaves a request open some participant has not voted on it, without any assumption on earlier membership |
| PoolVerdicts.CanBeVotedOnIff | pallets/pool/src/lib.rs:418-439 | Whatever the maximum, a pending request of any reachable state can be voted on iff its pool is not full and a participant who has not voted has a ballot that would not admit into a list at its bound |
| PoolVerdicts.SilentParticipantSuffices | pallets/pool/src/lib.rs:418-439 | For every maximum below 2^16, so for the 300 of the runtime, that is iff the pool is not full and some participant has not voted: in a list at its bound somebody other than the owner may always vote against |
| PoolLimits.OpenRequestCanBeStuck | pallets/pool/src/lib.rs:412-445 | The fixed size in the previous statements is needed: in a run where a participant leaves during the vote, a request stays pending in a pool that is neither empty nor full, with nobody left to vote |
| PoolCapacity.RunKeepsCapacity | pallets/pool/src/lib.rs:59-63 | Up to 255 places, counters equal the pending requests and participants plus requests never exceed the maximum, in every run |
| PoolCapacity.FullMeansNoRoom | pallets/pool/src/lib.rs:60-62 | Where the counter is exact and the capacity respected, the equality test of `is_full` means "no room left" |
| PoolLimits.CapacityIff | pallets/pool/src/lib.rs:55-63 | Counters are exact and capacities respected in every run iff the maximum is at most 255 |
| PoolLimits.CounterOverflows | pallets/pool/src/lib.rs:363 | For every maximum from 256 on there is a run after which 256 pending requests count as none |
| PoolCapacity.InternalErrorIff | pallets/pool/src/lib.rs:319-336 | From a reachable state the only source of `InternalError` is an acceptance into a participant list at its bound; a departing member is always found, the voter list always has room, and an applicant is never already in |
| PoolLimits.NoInternalErrorIff | pallets/pool/src/lib.rs:651-654 | No call of any run ends in `InternalError` iff the maximum is at most 256 |
| PoolLimits.PoolsNeverFilledIff | pallets/pool/src/lib.rs:438-442 | With at least two places, no run ever fills a pool with participants iff the maximum is at most 256 |
| PoolCapacity.LoadedPoolRefuses | pallets/pool/src/lib.rs:350 | After any run, up to 255 places, `join` is refused for capacity iff participants and requests have reached the maximum, and then every `vote` fails too |
| PoolCapacity.FullPoolFrozen | pallets/pool/src/lib.rs:438-442 | Whatever the maximum, once `is_full` holds the pool and all requests to it stay as they are until a `leave_pool` or `cancel_join` on it |
| PoolHistory.IdsContiguousIff | pallets/pool/src/lib.rs:244-247 | Pool ids are 1 .. `LastPoolId` throughout a run iff it makes at most 2^32 - 1 pools |
| PoolHistory.IdsAlwaysContiguousIff | pallets/pool/src/lib.rs:240-247 | That holds in all runs iff `MaxPools` is set or no pool can be made at all; otherwise the run of 2^32 creates by different accounts makes pool 0 |
| PoolHistory.MaxPoolsBoundsRuns | pallets/pool/src/lib.rs:240-242 | With `MaxPools` set, the pools of any run are as many as its successful creates and never more than that limit |
| PoolHistory.PoolsPersist | pallets/pool/src/lib.rs:267-283 | Pools are never removed or overwritten: owner, name, region and parent last through any later calls, and users are never forgotten |
| PoolHistory.PoolsWereCreated | pallets/pool/src/lib.rs:244-275 | After any run pool p was made by the p-th successful `create`, and still has that call's name, region and caller as owner, and no parent |
| PoolHistory.PeerIsHistory | pallets/pool/src/lib.rs:277-361 | The users are exactly the accounts that ever successfully created or joined, and the peer id stored with one is what it gave the last time, whatever votes and departures followed |
| PoolViews.ViewsAgree | pallets/pool/src/lib.rs:552-598 | After any run, asked for one pool, `list_pools` gives one row and `get_pool_members` lists exactly the members in that row with the same peer ids, those the accounts gave when they last created or joined; without such a pool both are empty |
| PoolViews.ViewsAreSound | pallets/pool/src/lib.rs:584-611 | After any run the storage meets what the listings need (an owner and a participant is a user, requests and users agree), and every request carries the peer id of its applicant's last `join` |
| PoolRefinement.PalletRefinesSimplePools | pallets/pool/src/lib.rs:229-445 | Up to 255 places, the next call after any run has exactly the effect of the simple pools: the same error, or the same new world |
| PoolRefinement.RunRefinesSimplePools | pallets/pool/src/lib.rs:155-179 | Up to 255 places, the storage after any run means the world the simple pools reach with the same calls |
| PoolRefinement.RefinementIff | pallets/pool/src/lib.rs:55-63 | Every run means the run of the simple pools iff the maximum is at most 255: beyond, there is a run that leaves one more account waiting than the simple pools ever let in |
| PoolPallet.Pallet.Dispatch | pallets/pool/src/lib.rs:225-445 | Updating the four storage items in place and restoring them on error yields the specified result and storage, and keeps the history |
| PoolPallet.Pallet.CheckVotes | pallets/pool/src/lib.rs:111-128 | The loop over the voters computes the verdict from the owner's presence among them, wherever the owner stands in the list |
| PoolPallet.Pallet.VoteCall | pallets/pool/src/lib.rs:412-445 | The bisection, insertion and tally of `vote` in the order of the code have the specified outcome |
| PoolPallet.Pallet.ProcessVoteResultCall | pallets/pool/src/lib.rs:639-700 | The three ways of processing a verdict, with the insertion at the bisected position, have the specified outcome |
| PoolPallet.Pallet.LeavePoolCall | pallets/pool/src/lib.rs:290-338 | Removal at the bisected position has the specified outcome |
| PoolPallet.Pallet.IsMemberOf | pallets/pool/src/lib.rs:707-711 | Where the maps agree, the user's record alone answers whether the account is in the participant list |
| PoolPallet.Pallet.GetPoolMembers | pallets/pool/src/lib.rs:552-570 | With a pool, the rows are its participants with their peer ids, whatever the account; with only an account, its row with the pool it is a participant of, if any; with neither, none; nobody twice, in any order of iteration |
| PoolPallet.Pallet.ListPools | pallets/pool/src/lib.rs:572-598 | One row for each pool, or for the one asked for, with its name, region, owner, the current block, the owner's peer id, and all participants in order with their peer ids |
| PoolPallet.Pallet.ListPoolJoinRequests | pallets/pool/src/lib.rs:600-614 | One row for each account that waits, for any pool or for the one asked for, with its stored peer id and the current block, and no other |
| SortedSeq.BinarySearch | pallets/pool/src/lib.rs:429-432 | Finds an account in an ascending list, or the place where it belongs |
| SortedSeq.InsertAtIndex | pallets/pool/src/lib.rs:651-654 | Inserting at the place a failed search reports is inserting in order |
| SortedSeq.RemoveAtIndex | pallets/pool/src/lib.rs:319-322 | Removing at the place a search reports is removing the account |
| TreasuryConservation.TotalIsReserved | pallets/treasury/src/lib.rs:116-119 | After every run `TotalLockedTokens` is the sum of all reserved balances and the issuance is what it was at the start, even when requests are overwritten |
| TreasuryConservation.ReservedIsLockedPlusOrphaned | pallets/treasury/src/lib.rs:100-115 | For every account, the reserved balance is what its live requests hold plus what its overwritten requests held |
| TreasuryConservation.RequestsAreBacked | pallets/treasury/src/lib.rs:135-136 | `unreserve` never falls short: the uploader has at least the request's tokens reserved |
| TreasuryConservation.TotalIsLockedPlusOrphaned | pallets/treasury/src/lib.rs:115-119 | The running total is what the stored requests hold plus what the overwritten ones held |
| TreasuryConservation.TotalIsLockedIff | pallets/treasury/src/lib.rs:115-119 | After any run the running total is exactly what the stored requests hold iff no successful lock met a request that still held tokens |
| TreasuryConservation.ReservedIsLockedIff | pallets/treasury/src/lib.rs:100-115 | Under exactly that condition every account's reserved balance is what its stored requests hold |
| TreasuryConservation.LockTwice | pallets/treasury/src/lib.rs:100-119 | Two locks of one cid by an account that can pay both, after any run: the total grows by both prices, the stored requests by the second only, the first is orphaned |
| TreasuryConservation.TotalAlwaysLockedIff | pallets/treasury/src/lib.rs:81-124 | The total is what the requests hold in every run iff nobody has a token at genesis |
| TreasuryConservation.OrphanedStaysReserved | pallets/treasury/src/lib.rs:115 | Tokens of an overwritten request stay reserved whatever calls follow |
| TreasuryConservation.LifeCycle | pallets/treasury/src/lib.rs:88-190 | For a live request the amount locked is what it still holds plus all releases, whatever calls interleave |
| TreasuryConservation.PriceIsHistory | pallets/treasury/src/lib.rs:183-190 | The price after any run is what root set last, or the one at genesis |
| TreasuryConservation.LockNeverOverflows | pallets/treasury/src/lib.rs:88-124 | The amount of a lock is that price times the size, or 2^128 - 1 where the product does not fit; `lock_tokens` fails for root, for less free balance, or if the currency refuses a positive amount, each with its error, and otherwise moves exactly that amount from free to reserved, into the total and into the recorded request; the checked addition never fails |
| TreasuryConservation.UnlockReturnsTheRest | pallets/treasury/src/lib.rs:128-145 | `unlock_tokens` fails for root, for an unknown cid and for anybody but the uploader, each with its error; otherwise it returns the amount locked less all releases and touches nothing else; the checked subtraction never fails |
| TreasuryConservation.ReleasePaysTheStorer | pallets/treasury/src/lib.rs:150-179 | `release_tokens` fails for every origin but root, for an unknown cid, for more than the request holds, or if the currency refuses, each with its error; otherwise the storer gets exactly the amount out of the uploader's reserve and the request shrinks by it |
| TreasuryRights.OriginsAreChecked | pallets/treasury/src/lib.rs:94-187 | After any run a call fails for its origin iff it is a signed `release_tokens` or `update_monthly_storage_cost`, or a `lock_tokens` or `unlock_tokens` by root |
| TreasuryRights.RootSetsThePrice | pallets/treasury/src/lib.rs:183-190 | Root's update of the price always succeeds and changes nothing else, and no other call changes the price |
| TreasuryRights.RequestsAreSafe | pallets/treasury/src/lib.rs:94-173 | The amount in a request shrinks only by a release of root's, its uploader's own unlock, or a lock of the same cid |
| TreasuryRights.BalancesAreSafe | pallets/treasury/src/lib.rs:94-158 | A reserved balance shrinks only by the owner's own unlock or a release of root's from the owner's request; a free balance only by the owner's own lock or payment |
| TreasuryRights.RequestsWereLocked | pallets/treasury/src/lib.rs:106-115 | Every stored request carries the uploader, size, block and peer id of the last successful lock of its cid |
| TreasuryPallet.Pallet.Dispatch | pallets/treasury/src/lib.rs:81-191 | Moving balances and storage in place and restoring them on error yields the specified result and storage |
| TreasuryPallet.Pallet.ReleaseTokensCall | pallets/treasury/src/lib.rs:150-179 | The unreserve, transfer, mutation and checked subtraction in the order of the code have the specified outcome; every signed origin is refused, and success takes exactly the amount out of the request |
| DataIndex.IndexIsHistory | pallets/data/src/lib.rs:91-115 | After every run the list of a pool is the successful uploads to it in order, names each cid recorded for it exactly once and nothing else, and respects the bound |
| DataIndex.UploadConcat | pallets/data/src/lib.rs:84-120 | Uploading a concatenation succeeds iff uploading the parts in sequence does, with the same storage |
| DataIndex.RecordsPersist | pallets/data/src/lib.rs:92-102 | A recorded cid keeps its uploader, pool and time whatever uploads follow |
| DataHistory.RecordsWereUploaded | pallets/data/src/lib.rs:95-102 | Every record comes from one successful upload that names its cid, the only one there is, and carries that call's uploader, pool and block |
| DataHistory.UploadSucceedsIff | pallets/data/src/lib.rs:91-116 | After any run a batch is taken iff its cids fit, are all different and were in no batch taken before, and the pool's list has room for it beside all batches taken for the pool; it traps iff the bound is zero and the batch starts with the empty cid |
| DataIndex.ListedIs | pallets/data/src/lib.rs:124-130 | `get_cids_by_pool` answers with the filter of the primary map, without repetition and in upload order |
| DataPallet.Pallet.UploadCidsCall | pallets/data/src/lib.rs:91-120 | The batch loop succeeds iff all cids fit, are distinct and new, and the list has room for the whole batch, and then records each of them with the caller, the pool and the block and leaves the other records alone; it traps only under a bound of zero (pallets/data/src/types.rs:13) |
| DataPallet.Pallet.Dispatch | pallets/data/src/lib.rs:84-120 | A failing batch leaves no trace |
| ProofHistory.DistributionPays | pallets/proof/src/lib.rs:186-207 | A distribution after any run pays each account the period plus the mining reward for each cid it submitted that a call has verified and that had a replica at genesis; it mints nothing else and touches nothing reserved |
| ProofHistory.BalanceIsHistory | pallets/proof/src/lib.rs:195-202 | After any run every balance, and the issuance, is that of genesis plus the rewards of the distributions made, counted by submissions and verifications alone |
| ProofHistory.UnverifiedRunsMintNothing | pallets/proof/src/lib.rs:196 | A run without a successful `verify_proof` pays nobody and mints nothing |
| ProofHistory.SubmitSucceedsIff | pallets/proof/src/lib.rs:118-136 | After any run `submit_proof` succeeds iff the cid has not been submitted, has a replication factor from genesis, and every part is within its own bound, and otherwise fails with the error of the code |
| ProofHistory.VerifySucceedsIff | pallets/proof/src/lib.rs:166-176 | `verify_proof` succeeds on every submitted cid, eligible or not, whoever calls it, and on no other |
| ProofHistory.DistributeSucceedsIff | pallets/proof/src/lib.rs:189-192 | Where the sum of the gate does not wrap below the block, `distribute_rewards` succeeds iff more than a period has passed since the start and since each distribution before |
| ProofRewards.DistributionsAreApart | pallets/proof/src/lib.rs:189-192 | Of any two successful distributions of a run the later one is more than a period after the earlier, where the 32-bit sum of the gate does not wrap below the last block |
| ProofRewards.DistributionsApartIff | pallets/proof/src/lib.rs:192 | In all runs up to block B distributions are more than a period P apart iff B + P fits into 32 bits or B <= P |
| ProofRewards.DistributionCountIff | pallets/proof/src/lib.rs:192 | At most B / (P + 1) distributions happen by block B in every run under exactly the same condition; otherwise any number passes in block B |
| ProofRewards.MintedSupplyBound | pallets/proof/src/lib.rs:186-207 | By a block B up to which the gate holds, minting is at most B / (P + 1) times the reward for every submittable cid with a positive initial replication factor |
| ProofRewards.MintedSupplyIff | pallets/proof/src/lib.rs:186-207 | That bound holds in all runs up to B iff the gate holds up to B or there is nothing to be minted |
| ProofRewards.RunSpendsFactors | pallets/proof/src/lib.rs:134-157 | After every run a factor is one less exactly for the cids with a proof that had a replica to spend, and a proof is eligible exactly then |
| ProofRewards.ProofsWereSubmitted | pallets/proof/src/lib.rs:120-181 | Every stored proof is the record of the one successful submission of its cid, and is verified iff a call of the run verified it |
| ProofPallet.Pallet.DistributeRewardsCall | pallets/proof/src/lib.rs:186-207 | The gate and the minting loop have the specified outcome; in whatever order the proofs are visited, every account gets the sum, over its own verified and eligible proofs, of their storage reward and the mining reward |
| ProofPallet.Pallet.Dispatch | pallets/proof/src/lib.rs:106-208 | The in-place dispatchables have the specified result and storage |

## Left out

- Node, RPC, service, chain specification and the composition of the runtime; weights, benchmarks, mocks and template tests.
- Storage encoding, hashing and the order in which a storage map is iterated: maps are values, and loops over them pick keys in any order.
- Events, and the dispatchable versions of the listing calls, which compute a list and discard it (pallets/pool/src/lib.rs:447-542).
- The length of a peer id or cid argument that is already a bounded vector when the call is decoded; longer ones are accepted by the model.
- Internals of the balances pallet: existential deposits, dust, freezes, other reserves. The currency is a small ledger that may refuse a reserve or a transfer, and whose successful operations move exactly the amount asked for.
- Account ids are unbounded numbers instead of 32-byte keys; only their order and equality are used.
- Integer widths other than the pool's 8-, 16- and 32-bit counters, the block numbers and the 128-bit checks of the treasury.
- ProofRewards.MintedSupplyBound: assumes that balances have room for what is minted.
- PoolHistory.RunKeepsInv: assumes at most 2^32 - 1 pools in the run, beyond which `IdsContiguousIff` shows that pool 0 is made.
- PoolRefinement.PalletRefinesSimplePools: is for at most 255 places a pool; `RefinementIff` shows that beyond that runs leave the simple pools.
- `offchain_verify_proof`, whose body is commented out, so that `verify_proof` always succeeds on a stored proof; and `verify_merkle_proof`, which nothing calls.
- The storage item `Rewards` of the proof pallet, which no call reads or writes.
