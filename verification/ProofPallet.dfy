/** The proof pallet as an object. */
module ProofPallet {
  import opened Wrappers
  import opened Widths
  import opened MapSum
  import opened Ledger
  import opened ProofSpec
  import opened ProofRewards

  datatype DispatchResult = Ok | Err(error: Error)

  ghost predicate Follows(r: DispatchResult, after: State, spec: Outcome) {
    match spec
    case Done(post) => r == Ok && after == post
    case Failed(error) => r == Err(error)
  }

  /** What is due to `a` for each proof. */
  ghost function Dues(cfg: Config, proofs: map<Cid, Proof>, a: AccountId): map<Cid, nat> {
    map cid | cid in proofs ::
      if proofs[cid].verified && proofs[cid].rewardEligible && proofs[cid].storer == a
      then proofs[cid].storageRewardPerBlock + cfg.miningReward
      else 0
  }

  /** From `l` to `m` every account has got its dues. */
  ghost predicate PaysDues(cfg: Config, l: Ledger, m: Ledger, proofs: map<Cid, Proof>) {
    forall a :: Get(m.free, a) == Get(l.free, a) + Sum(Dues(cfg, proofs, a))
  }

  lemma DuesAreEarnings(cfg: Config, proofs: map<Cid, Proof>, a: AccountId)
    ensures Dues(cfg, proofs, a) == Earnings(cfg, proofs, a)
  {
  }

  lemma PaidIsDues(cfg: Config, l: Ledger, proofs: map<Cid, Proof>)
    ensures PaysDues(cfg, l, Paid(cfg, l, proofs), proofs)
  {
    forall a ensures Get(Paid(cfg, l, proofs).free, a) == Get(l.free, a) + Sum(Dues(cfg, proofs, a)) {
      PaidIs(cfg, l, proofs, a);
      DuesAreEarnings(cfg, proofs, a);
    }
  }

  class Pallet {
    const cfg: Config
    var proofs: map<Cid, Proof>
    var replicationFactors: map<Cid, u32>
    var lastRewardDistribution: Option<BlockNumber>
    var ledger: Ledger
    ghost const genesis: State
    ghost var history: seq<Call>

    function Storage(): State
      reads this
    {
      State(proofs, replicationFactors, lastRewardDistribution, ledger)
    }

    ghost predicate Valid()
      reads this
    {
      Genesis(genesis) && Storage() == Run(cfg, genesis, history)
    }

    constructor (cfg: Config, factors: map<Cid, u32>, ledger: Ledger)
      ensures Valid() && this.cfg == cfg && history == []
      ensures Storage() == State(map[], factors, None, ledger)
    {
      this.cfg := cfg;
      proofs, replicationFactors, lastRewardDistribution, this.ledger := map[], factors, None, ledger;
      genesis := State(map[], factors, None, ledger);
      history := [];
    }

    method Dispatch(c: Call) returns (r: DispatchResult)
      requires Valid()
      modifies this
      ensures Valid() && history == old(history) + [c]
      ensures Storage() == Step(cfg, old(Storage()), c)
      ensures Follows(r, Storage(), Apply(cfg, old(Storage()), c))
    {
      var snapshot := Storage();
      match c {
        case SubmitProof(storer, cid, proofData, rootHash, proofHashes, pool, now) =>
          r := SubmitProofCall(storer, cid, proofData, rootHash, proofHashes, pool, now);
        case VerifyProof(_, cid, _) => r := VerifyProofCall(cid);
        case DistributeRewards(_, now) => r := DistributeRewardsCall(now);
      }
      if r.Err? {
        proofs, replicationFactors := snapshot.proofs, snapshot.factors;
        lastRewardDistribution, ledger := snapshot.lastDistribution, snapshot.ledger;
      }
      history := history + [c];
      assert history[..|history| - 1] == old(history);
    }

    method SubmitProofCall(storer: AccountId, cid: Cid, proofData: Bytes, rootHash: Bytes, proofHashes: seq<Bytes>,
                           pool: PoolId, now: BlockNumber) returns (r: DispatchResult)
      modifies this`proofs, this`replicationFactors
      ensures Follows(r, Storage(), Submit(cfg, old(Storage()), storer, cid, proofData, rootHash, proofHashes, pool, now))
    {
      if |cid| > cfg.maxCidLength {
        return Err(ProofAlreadyExists);
      }
      if cid in proofs {
        return Err(ProofAlreadyExists);
      }
      if |proofData| > cfg.maxProofDataLength {
        return Err(ProofAlreadyExists);
      }
      if |rootHash| > cfg.maxRootHashLength {
        return Err(ProofAlreadyExists);
      }
      for i := 0 to |proofHashes|
        invariant forall k :: 0 <= k < i ==> |proofHashes[k]| <= cfg.maxHashLength
      {
        if |proofHashes[i]| > cfg.maxHashLength {
          return Err(ProofAlreadyExists);
        }
      }
      if |proofHashes| > cfg.maxProofHashesLength {
        return Err(ProofAlreadyExists);
      }
      if cid !in replicationFactors {
        return Err(ReplicationFactorExhausted);
      }
      var replicationFactor := replicationFactors[cid];
      var rewardEligible := replicationFactor > 0;
      proofs := proofs[cid := Proof(cid, storer, false, proofData, now, rootHash, proofHashes, rewardEligible, cfg.rewardPeriod, pool)];
      replicationFactors := replicationFactors[cid := if replicationFactor > 0 then replicationFactor - 1 else 0];
      return Ok;
    }

    method VerifyProofCall(cid: Cid) returns (r: DispatchResult)
      modifies this`proofs
      ensures Follows(r, Storage(), Verify(cfg, old(Storage()), cid))
    {
      if |cid| > cfg.maxCidLength {
        return Err(ProofNotFound);
      }
      if cid !in proofs {
        return Err(ProofNotFound);
      }
      proofs := proofs[cid := proofs[cid].(verified := true)];
      return Ok;
    }

    method DistributeRewardsCall(now: BlockNumber) returns (r: DispatchResult)
      modifies this`ledger, this`lastRewardDistribution
      ensures Follows(r, Storage(), Distribute(cfg, old(Storage()), now))
      ensures r.Ok? ==> PaysDues(cfg, old(ledger), ledger, proofs)
    {
      var last := if lastRewardDistribution.Some? then lastRewardDistribution.value else 0;
      if !(now > WrapU32(last + cfg.rewardPeriod)) {
        return Err(PeriodNotElapsed);
      }
      ghost var before := ledger;
      PayEarningProofs();
      PaidIsDues(cfg, before, proofs);
      lastRewardDistribution := Some(now);
      return Ok;
    }

    /** The minting loop of `distribute_rewards`, which visits the proofs in any order. */
    method PayEarningProofs()
      modifies this`ledger
      ensures ledger == Paid(cfg, old(ledger), proofs)
    {
      ghost var before := ledger;
      var remaining := proofs.Keys;
      assert proofs - remaining == map[];
      PaidNothing(cfg, before);
      while remaining != {}
        invariant remaining <= proofs.Keys
        invariant ledger == Paid(cfg, before, proofs - remaining)
      {
        var cid :| cid in remaining;
        PayNext(cfg, before, proofs, remaining, cid, remaining - {cid});
        PayProof(proofs[cid]);
        remaining := remaining - {cid};
      }
      assert proofs - remaining == proofs;
    }

    method PayProof(proof: Proof)
      modifies this`ledger
      ensures Earns(proof) ==> ledger == Deposit(old(ledger), proof.storer, RewardOf(cfg, proof))
      ensures !Earns(proof) ==> ledger == old(ledger)
    {
      if proof.verified && proof.rewardEligible {
        var totalReward := proof.storageRewardPerBlock + cfg.miningReward;
        ledger := Deposit(ledger, proof.storer, totalReward);
      }
    }
  }
}
