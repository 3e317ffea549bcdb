/** What the proof pallet does in terms of the calls of a run alone: which submissions,
    verifications and distributions succeed, and what each account has been paid. */
module ProofHistory {
  import opened Wrappers
  import opened Widths
  import opened MapSum
  import opened Ledger
  import opened ProofSpec
  import opened ProofRewards

  // ----- Submissions and verifications -----

  /** The `k`-th call of the run is a successful submission for the cid. */
  ghost predicate SubmitsAt(cfg: Config, genesis: State, calls: seq<Call>, k: nat, cid: Cid) {
    && k < |calls| && calls[k].SubmitProof? && calls[k].cid == cid
    && Apply(cfg, Run(cfg, genesis, calls[..k]), calls[k]).Done?
  }

  /** One of the calls is, by `a` or, if no account is given, by anybody. */
  ghost predicate SubmittedBy(cfg: Config, genesis: State, calls: seq<Call>, cid: Cid, a: Option<AccountId>) {
    exists k: nat :: SubmitsAt(cfg, genesis, calls, k, cid) && (a.Some? ==> calls[k].storer == a.value)
  }

  lemma {:induction false} SubmittedIsStored(cfg: Config, genesis: State, calls: seq<Call>, k: nat, cid: Cid)
    requires SubmitsAt(cfg, genesis, calls, k, cid)
    ensures cid in Run(cfg, genesis, calls).proofs
  {
    var front := calls[..|calls| - 1];
    if k < |front| {
      assert front[..k] == calls[..k];
      SubmittedIsStored(cfg, genesis, front, k, cid);
    }
  }

  lemma NotSubmittedAgain(cfg: Config, genesis: State, calls: seq<Call>, j: nat, k: nat, cid: Cid)
    requires j < k && SubmitsAt(cfg, genesis, calls, j, cid)
    ensures !SubmitsAt(cfg, genesis, calls, k, cid)
  {
    if k < |calls| {
      assert calls[..k][..j] == calls[..j];
      SubmittedIsStored(cfg, genesis, calls[..k], j, cid);
    }
  }

  lemma StoredIff(cfg: Config, genesis: State, calls: seq<Call>, cid: Cid)
    requires Genesis(genesis)
    ensures cid in Run(cfg, genesis, calls).proofs <==> SubmittedBy(cfg, genesis, calls, cid, None)
  {
    if cid in Run(cfg, genesis, calls).proofs {
      var k := ProofsWereSubmitted(cfg, genesis, calls, cid);
      assert SubmitsAt(cfg, genesis, calls, k, cid);
    }
    if k: nat :| SubmitsAt(cfg, genesis, calls, k, cid) {
      SubmittedIsStored(cfg, genesis, calls, k, cid);
    }
  }

  /** After any run `submit_proof` succeeds exactly for a cid without a submission before it,
      with a replication factor from the start, and with every part within its own bound. */
  lemma SubmitSucceedsIff(cfg: Config, genesis: State, calls: seq<Call>, c: Call)
    requires Genesis(genesis) && c.SubmitProof?
    ensures var outcome := Apply(cfg, Run(cfg, genesis, calls), c);
            if || |c.cid| > cfg.maxCidLength
               || SubmittedBy(cfg, genesis, calls, c.cid, None)
               || |c.proofData| > cfg.maxProofDataLength
               || |c.rootHash| > cfg.maxRootHashLength
               || (exists i :: 0 <= i < |c.proofHashes| && |c.proofHashes[i]| > cfg.maxHashLength)
               || |c.proofHashes| > cfg.maxProofHashesLength
            then outcome == Failed(ProofAlreadyExists)
            else if c.cid !in genesis.factors then outcome == Failed(ReplicationFactorExhausted)
            else outcome.Done?
  {
    RunSpendsFactors(cfg, genesis, calls);
    StoredIff(cfg, genesis, calls, c.cid);
  }

  /** `verify_proof` succeeds on every stored proof, whoever calls it and whether or not the
      proof is eligible. */
  lemma VerifySucceedsIff(cfg: Config, genesis: State, calls: seq<Call>, who: AccountId, cid: Cid, now: BlockNumber)
    requires Genesis(genesis)
    ensures var outcome := Apply(cfg, Run(cfg, genesis, calls), VerifyProof(who, cid, now));
            if SubmittedBy(cfg, genesis, calls, cid, None) then outcome.Done?
            else outcome == Failed(ProofNotFound)
  {
    RunSpendsFactors(cfg, genesis, calls);
    StoredIff(cfg, genesis, calls, cid);
  }

  // ----- Distributions -----

  lemma {:induction false} LastWasMade(cfg: Config, genesis: State, calls: seq<Call>) returns (j: nat)
    requires Genesis(genesis) && Run(cfg, genesis, calls).lastDistribution.Some?
    ensures IsDistribution(cfg, genesis, calls, j) && Run(cfg, genesis, calls).lastDistribution == Some(calls[j].now)
  {
    var front := calls[..|calls| - 1];
    if IsDistribution(cfg, genesis, calls, |front|) {
      j := |front|;
    } else {
      j := LastWasMade(cfg, genesis, front);
      assert front[..j] == calls[..j];
    }
  }

  /** More than a period has passed since the start and since each distribution of the run. */
  ghost predicate PeriodPassed(cfg: Config, genesis: State, calls: seq<Call>, now: BlockNumber) {
    && now > cfg.rewardPeriod
    && forall j: nat :: IsDistribution(cfg, genesis, calls, j) ==> now > calls[j].now + cfg.rewardPeriod
  }

  lemma PassedAfterLast(cfg: Config, genesis: State, calls: seq<Call>, block: BlockNumber, now: BlockNumber)
    requires Genesis(genesis)
    requires UpToBlock(calls, block) && GateHolds(cfg, block)
    ensures var last := Run(cfg, genesis, calls).lastDistribution;
            PeriodPassed(cfg, genesis, calls, now)
            <==> now > cfg.rewardPeriod && (last.Some? ==> now > last.value + cfg.rewardPeriod)
  {
    var last := Run(cfg, genesis, calls).lastDistribution;
    forall j: nat | IsDistribution(cfg, genesis, calls, j) ensures last.Some? && calls[j].now <= last.value {
      LastIsLatest(cfg, genesis, calls, block, j);
    }
    if last.Some? && PeriodPassed(cfg, genesis, calls, now) {
      var j := LastWasMade(cfg, genesis, calls);
      assert now > calls[j].now + cfg.rewardPeriod;
    }
  }

  lemma GateIs(cfg: Config, s: State, who: AccountId, now: BlockNumber)
    requires s.lastDistribution.Some? ==> s.lastDistribution.value + cfg.rewardPeriod <= U32_MAX
    ensures var last := if s.lastDistribution.Some? then s.lastDistribution.value else 0;
            if now > last + cfg.rewardPeriod then Apply(cfg, s, DistributeRewards(who, now)).Done?
            else Apply(cfg, s, DistributeRewards(who, now)) == Failed(PeriodNotElapsed)
  {
  }

  /** Where the gate holds, `distribute_rewards` succeeds exactly then. */
  lemma DistributeSucceedsIff(cfg: Config, genesis: State, calls: seq<Call>, block: BlockNumber, who: AccountId, now: BlockNumber)
    requires Genesis(genesis)
    requires UpToBlock(calls, block) && GateHolds(cfg, block) && now <= block
    ensures var outcome := Apply(cfg, Run(cfg, genesis, calls), DistributeRewards(who, now));
            if PeriodPassed(cfg, genesis, calls, now) then outcome.Done? else outcome == Failed(PeriodNotElapsed)
  {
    LastIsBounded(cfg, genesis, calls, block);
    PassedAfterLast(cfg, genesis, calls, block, now);
    GateIs(cfg, Run(cfg, genesis, calls), who, now);
  }

  // ----- What is paid -----

  /** The cids that had a replica at genesis and have been verified since their submission by
      `a`; by anybody, if no account is given. */
  ghost function Owed(cfg: Config, genesis: State, calls: seq<Call>, a: Option<AccountId>): set<Cid> {
    set cid | && cid in genesis.factors && genesis.factors[cid] > 0
              && WasVerified(cfg, genesis, calls, cid)
              && SubmittedBy(cfg, genesis, calls, cid, a)
  }

  lemma OwedIfEarns(cfg: Config, genesis: State, calls: seq<Call>, a: Option<AccountId>, cid: Cid)
    requires Genesis(genesis) && cid in Run(cfg, genesis, calls).proofs
    ensures cid in Owed(cfg, genesis, calls, a)
            <==> var proof := Run(cfg, genesis, calls).proofs[cid];
                 proof.verified && proof.rewardEligible && (a.Some? ==> proof.storer == a.value)
  {
    RunSpendsFactors(cfg, genesis, calls);
    var k := ProofsWereSubmitted(cfg, genesis, calls, cid);
    assert SubmitsAt(cfg, genesis, calls, k, cid);
    forall j: nat | SubmitsAt(cfg, genesis, calls, j, cid) ensures j == k {
      if j < k {
        NotSubmittedAgain(cfg, genesis, calls, j, k, cid);
      } else if k < j {
        NotSubmittedAgain(cfg, genesis, calls, k, j, cid);
      }
    }
  }

  lemma OwedOnlyIfStored(cfg: Config, genesis: State, calls: seq<Call>, a: Option<AccountId>, cid: Cid)
    requires Genesis(genesis) && cid in Owed(cfg, genesis, calls, a)
    ensures cid in Run(cfg, genesis, calls).proofs
  {
    var k: nat :| SubmitsAt(cfg, genesis, calls, k, cid) && (a.Some? ==> calls[k].storer == a.value);
    SubmittedIsStored(cfg, genesis, calls, k, cid);
  }

  lemma OwedIff(cfg: Config, genesis: State, calls: seq<Call>, a: Option<AccountId>, cid: Cid)
    requires Genesis(genesis)
    ensures cid in Owed(cfg, genesis, calls, a)
            <==> var proofs := Run(cfg, genesis, calls).proofs;
                 cid in proofs && proofs[cid].verified && proofs[cid].rewardEligible && (a.Some? ==> proofs[cid].storer == a.value)
  {
    if cid in Run(cfg, genesis, calls).proofs {
      OwedIfEarns(cfg, genesis, calls, a, cid);
    } else if cid in Owed(cfg, genesis, calls, a) {
      OwedOnlyIfStored(cfg, genesis, calls, a, cid);
    }
  }

  lemma OwedIsEarning(cfg: Config, genesis: State, calls: seq<Call>, a: AccountId)
    requires Genesis(genesis)
    ensures Owed(cfg, genesis, calls, Some(a)) == EarningFor(Run(cfg, genesis, calls).proofs, a)
    ensures Owed(cfg, genesis, calls, None) == Earning(Run(cfg, genesis, calls).proofs)
  {
    forall cid ensures cid in Owed(cfg, genesis, calls, Some(a)) <==> cid in EarningFor(Run(cfg, genesis, calls).proofs, a) {
      OwedIff(cfg, genesis, calls, Some(a), cid);
    }
    forall cid ensures cid in Owed(cfg, genesis, calls, None) <==> cid in Earning(Run(cfg, genesis, calls).proofs) {
      OwedIff(cfg, genesis, calls, None, cid);
    }
  }

  /** What `n` rewards come to. */
  function Rewards(cfg: Config, n: nat): nat {
    n * (cfg.rewardPeriod + cfg.miningReward)
  }

  /** From `s` to `t` the account gets `own` rewards and all accounts together `all`. */
  ghost predicate PaysOut(cfg: Config, s: State, t: State, a: AccountId, own: nat, all: nat) {
    && Get(t.ledger.free, a) == Get(s.ledger.free, a) + Rewards(cfg, own)
    && Issuance(t.ledger) == Issuance(s.ledger) + Rewards(cfg, all)
    && t.ledger.reserved == s.ledger.reserved
  }

  lemma EarningIsPaid(cfg: Config, s: State, t: State, a: AccountId)
    requires SameReward(cfg, s.proofs) && t.ledger == Paid(cfg, s.ledger, s.proofs)
    ensures PaysOut(cfg, s, t, a, |EarningFor(s.proofs, a)|, |Earning(s.proofs)|)
  {
    PaidIs(cfg, s.ledger, s.proofs, a);
    EarningsCount(cfg, s.proofs, a);
    PaidMints(cfg, s.ledger, s.proofs);
  }

  /** A distribution pays each account the period plus the mining reward for each cid it
      submitted that has been verified and had a replica to spend, and mints nothing else. */
  lemma DistributionPays(cfg: Config, genesis: State, calls: seq<Call>, c: Call, a: AccountId)
    requires Genesis(genesis) && c.DistributeRewards?
    requires Apply(cfg, Run(cfg, genesis, calls), c).Done?
    ensures PaysOut(cfg, Run(cfg, genesis, calls), Step(cfg, Run(cfg, genesis, calls), c), a,
                    |Owed(cfg, genesis, calls, Some(a))|, |Owed(cfg, genesis, calls, None)|)
  {
    RunSpendsFactors(cfg, genesis, calls);
    OwedIsEarning(cfg, genesis, calls, a);
    EarningIsPaid(cfg, Run(cfg, genesis, calls), Step(cfg, Run(cfg, genesis, calls), c), a);
  }

  /** What the distributions of a run have paid to `a`, or to anybody. */
  ghost function PaidSoFar(cfg: Config, genesis: State, calls: seq<Call>, a: Option<AccountId>): nat {
    if calls == [] then 0
    else
      var front, last := calls[..|calls| - 1], calls[|calls| - 1];
      PaidSoFar(cfg, genesis, front, a)
      + if last.DistributeRewards? && Apply(cfg, Run(cfg, genesis, front), last).Done?
        then Rewards(cfg, |Owed(cfg, genesis, front, a)|)
        else 0
  }

  lemma OthersPayNothing(cfg: Config, s: State, c: Call)
    requires !(c.DistributeRewards? && Apply(cfg, s, c).Done?)
    ensures Step(cfg, s, c).ledger == s.ledger
  {
  }

  /** After any run an account has what it had at genesis and its rewards, one for each of its
      verified, eligible cids in each distribution; and that is all that is minted. */
  lemma {:induction false} BalanceIsHistory(cfg: Config, genesis: State, calls: seq<Call>, a: AccountId)
    requires Genesis(genesis)
    ensures var l := Run(cfg, genesis, calls).ledger;
            && Get(l.free, a) == Get(genesis.ledger.free, a) + PaidSoFar(cfg, genesis, calls, Some(a))
            && Issuance(l) == Issuance(genesis.ledger) + PaidSoFar(cfg, genesis, calls, None)
            && l.reserved == genesis.ledger.reserved
  {
    if calls != [] {
      var front, last := calls[..|calls| - 1], calls[|calls| - 1];
      BalanceIsHistory(cfg, genesis, front, a);
      if last.DistributeRewards? && Apply(cfg, Run(cfg, genesis, front), last).Done? {
        DistributionPays(cfg, genesis, front, last, a);
      } else {
        OthersPayNothing(cfg, Run(cfg, genesis, front), last);
      }
    }
  }

  lemma {:induction false} NothingOwed(cfg: Config, genesis: State, calls: seq<Call>, a: Option<AccountId>)
    requires forall cid :: !WasVerified(cfg, genesis, calls, cid)
    ensures PaidSoFar(cfg, genesis, calls, a) == 0
  {
    if calls != [] {
      var front := calls[..|calls| - 1];
      forall cid ensures !WasVerified(cfg, genesis, front, cid) {
        assert !WasVerified(cfg, genesis, calls, cid);
      }
      NothingOwed(cfg, genesis, front, a);
      assert Owed(cfg, genesis, front, a) == {};
    }
  }

  /** A run without a successful `verify_proof` pays nobody and mints nothing. */
  lemma UnverifiedRunsMintNothing(cfg: Config, genesis: State, calls: seq<Call>, a: AccountId)
    requires Genesis(genesis) && forall cid :: !WasVerified(cfg, genesis, calls, cid)
    ensures var l := Run(cfg, genesis, calls).ledger;
            Get(l.free, a) == Get(genesis.ledger.free, a) && Issuance(l) == Issuance(genesis.ledger)
  {
    BalanceIsHistory(cfg, genesis, calls, a);
    NothingOwed(cfg, genesis, calls, Some(a));
    NothingOwed(cfg, genesis, calls, None);
  }
}
