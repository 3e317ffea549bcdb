/** The storage of the proof pallet together with the balances it mints into, and what each
    dispatchable does to it. */
module ProofSpec {
  import opened Wrappers
  import opened Widths
  import opened MapSum
  import opened Ledger

  type Cid = Bytes

  datatype Config = Config(
    maxCidLength: nat,
    maxProofDataLength: nat,
    maxRootHashLength: nat,
    maxHashLength: nat,
    maxProofHashesLength: nat,
    rewardPeriod: BlockNumber,
    miningReward: nat)

  datatype Proof = Proof(
    cid: Cid,
    storer: AccountId,
    verified: bool,
    proofData: Bytes,
    timestamp: BlockNumber,
    rootHash: Bytes,
    proofHashes: seq<Bytes>,
    rewardEligible: bool,
    storageRewardPerBlock: nat,
    poolId: PoolId)

  datatype State = State(
    proofs: map<Cid, Proof>,
    factors: map<Cid, u32>,
    lastDistribution: Option<BlockNumber>,
    ledger: Ledger)

  datatype Error = ProofAlreadyExists | ProofNotFound | ReplicationFactorExhausted | PeriodNotElapsed

  datatype Outcome = Done(post: State) | Failed(error: Error)

  datatype Call =
    | SubmitProof(storer: AccountId, cid: Cid, proofData: Bytes, rootHash: Bytes, proofHashes: seq<Bytes>, pool: PoolId, now: BlockNumber)
    | VerifyProof(who: AccountId, cid: Cid, now: BlockNumber)
    | DistributeRewards(who: AccountId, now: BlockNumber)

  // ----- submit_proof and verify_proof -----

  predicate ProofFits(cfg: Config, proofData: Bytes, rootHash: Bytes, proofHashes: seq<Bytes>) {
    && |proofData| <= cfg.maxProofDataLength
    && |rootHash| <= cfg.maxRootHashLength
    && (forall i :: 0 <= i < |proofHashes| ==> |proofHashes[i]| <= cfg.maxHashLength)
    && |proofHashes| <= cfg.maxProofHashesLength
  }

  function Submit(cfg: Config, s: State, storer: AccountId, cid: Cid, proofData: Bytes, rootHash: Bytes,
                  proofHashes: seq<Bytes>, pool: PoolId, now: BlockNumber): Outcome {
    if |cid| > cfg.maxCidLength || cid in s.proofs || !ProofFits(cfg, proofData, rootHash, proofHashes)
    then Failed(ProofAlreadyExists)
    else if cid !in s.factors then Failed(ReplicationFactorExhausted)
    else
      var factor := s.factors[cid];
      Done(s.(proofs := s.proofs[cid := Proof(cid, storer, false, proofData, now, rootHash, proofHashes,
                                              factor > 0, cfg.rewardPeriod, pool)],
              factors := s.factors[cid := if factor > 0 then factor - 1 else 0]))
  }

  function Verify(cfg: Config, s: State, cid: Cid): Outcome {
    if |cid| > cfg.maxCidLength || cid !in s.proofs then Failed(ProofNotFound)
    else Done(s.(proofs := s.proofs[cid := s.proofs[cid].(verified := true)]))
  }

  // ----- distribute_rewards -----

  predicate Earns(proof: Proof) {
    proof.verified && proof.rewardEligible
  }

  function RewardOf(cfg: Config, proof: Proof): nat {
    proof.storageRewardPerBlock + cfg.miningReward
  }

  /** What each proof earns for `a`. */
  ghost function Earnings(cfg: Config, proofs: map<Cid, Proof>, a: AccountId): map<Cid, nat> {
    map cid | cid in proofs :: if Earns(proofs[cid]) && proofs[cid].storer == a then RewardOf(cfg, proofs[cid]) else 0
  }

  ghost function Storers(proofs: map<Cid, Proof>): set<AccountId> {
    set cid | cid in proofs && Earns(proofs[cid]) :: proofs[cid].storer
  }

  /** Every account gets the sum of what its proofs earn; nobody else is touched. */
  ghost function Paid(cfg: Config, l: Ledger, proofs: map<Cid, Proof>): Ledger {
    l.(free := map a | a in l.free.Keys + Storers(proofs) :: Get(l.free, a) + Sum(Earnings(cfg, proofs, a)))
  }

  /** The gate of a distribution, in 32-bit block numbers. */
  predicate PeriodElapsed(cfg: Config, s: State, now: BlockNumber) {
    now > WrapU32((if s.lastDistribution.Some? then s.lastDistribution.value else 0) + cfg.rewardPeriod)
  }

  ghost function Distribute(cfg: Config, s: State, now: BlockNumber): Outcome {
    if !PeriodElapsed(cfg, s, now) then Failed(PeriodNotElapsed)
    else Done(s.(ledger := Paid(cfg, s.ledger, s.proofs), lastDistribution := Some(now)))
  }

  ghost function Apply(cfg: Config, s: State, c: Call): Outcome {
    match c
    case SubmitProof(storer, cid, proofData, rootHash, proofHashes, pool, now) =>
      Submit(cfg, s, storer, cid, proofData, rootHash, proofHashes, pool, now)
    case VerifyProof(_, cid, _) => Verify(cfg, s, cid)
    case DistributeRewards(_, now) => Distribute(cfg, s, now)
  }

  ghost function Step(cfg: Config, s: State, c: Call): State {
    match Apply(cfg, s, c)
    case Done(post) => post
    case Failed(_) => s
  }

  ghost function Run(cfg: Config, genesis: State, calls: seq<Call>): State {
    if calls == [] then genesis
    else Step(cfg, Run(cfg, genesis, calls[..|calls| - 1]), calls[|calls| - 1])
  }

  /** Some replication factors and balances, and nothing submitted or distributed. */
  predicate Genesis(s: State) {
    s.proofs == map[] && s.lastDistribution.None?
  }
}
