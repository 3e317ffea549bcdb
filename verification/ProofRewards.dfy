/** How much the proof pallet mints: exactly per distribution, and at most over any run. */
module ProofRewards {
  import opened Wrappers
  import opened Widths
  import opened MapSum
  import opened Ledger
  import opened Sets
  import opened ProofSpec

  // ----- One proof at a time, in any order -----

  lemma EarningsWithout(cfg: Config, proofs: map<Cid, Proof>, cid: Cid, a: AccountId)
    requires cid in proofs
    ensures Sum(Earnings(cfg, proofs, a))
            == Sum(Earnings(cfg, proofs - {cid}, a))
               + if Earns(proofs[cid]) && proofs[cid].storer == a then RewardOf(cfg, proofs[cid]) else 0
  {
    SumRemove(Earnings(cfg, proofs, a), cid);
    assert Earnings(cfg, proofs - {cid}, a) == Earnings(cfg, proofs, a) - {cid};
  }

  lemma StorersWithout(proofs: map<Cid, Proof>, cid: Cid)
    requires cid in proofs
    ensures Storers(proofs) == Storers(proofs - {cid}) + if Earns(proofs[cid]) then {proofs[cid].storer} else {}
  {
    var rest := proofs - {cid};
    forall a ensures a in Storers(proofs) <==> a in Storers(rest) || (Earns(proofs[cid]) && a == proofs[cid].storer) {
      if a in Storers(proofs) {
        var c :| c in proofs && Earns(proofs[c]) && proofs[c].storer == a;
        assert c != cid ==> c in rest && rest[c] == proofs[c];
      }
      if a in Storers(rest) {
        var c :| c in rest && Earns(rest[c]) && rest[c].storer == a;
        assert c in proofs && proofs[c] == rest[c];
      }
    }
  }

  /** Whoever stores nothing that earns is paid nothing. */
  lemma PaidIs(cfg: Config, l: Ledger, proofs: map<Cid, Proof>, a: AccountId)
    ensures Get(Paid(cfg, l, proofs).free, a) == Get(l.free, a) + Sum(Earnings(cfg, proofs, a))
  {
    if a !in l.free && a !in Storers(proofs) {
      forall cid | cid in proofs ensures !(Earns(proofs[cid]) && proofs[cid].storer == a) {
        if Earns(proofs[cid]) {
          assert proofs[cid].storer in Storers(proofs);
        }
      }
      SumOfZeros(Earnings(cfg, proofs, a));
    }
  }

  lemma PayOneMoreAt(cfg: Config, l: Ledger, proofs: map<Cid, Proof>, cid: Cid, a: AccountId)
    requires cid in proofs
    ensures Get(Paid(cfg, l, proofs).free, a)
            == Get(Paid(cfg, l, proofs - {cid}).free, a)
               + if Earns(proofs[cid]) && proofs[cid].storer == a then RewardOf(cfg, proofs[cid]) else 0
  {
    EarningsWithout(cfg, proofs, cid, a);
    PaidIs(cfg, l, proofs, a);
    PaidIs(cfg, l, proofs - {cid}, a);
  }

  lemma PaidKeys(cfg: Config, l: Ledger, proofs: map<Cid, Proof>)
    ensures Paid(cfg, l, proofs).free.Keys == l.free.Keys + Storers(proofs)
    ensures Paid(cfg, l, proofs).reserved == l.reserved
  {
  }

  lemma SameBalances(m: map<AccountId, nat>, n: map<AccountId, nat>)
    requires m.Keys == n.Keys && forall a :: Get(m, a) == Get(n, a)
    ensures m == n
  {
    forall a | a in m ensures m[a] == n[a] {
      assert Get(m, a) == Get(n, a);
    }
  }

  /** Two ledgers that differ by a deposit, account by account. */
  lemma OneDeposit(before: Ledger, after: Ledger, who: AccountId, amount: nat)
    requires after.reserved == before.reserved
    requires forall a :: Get(after.free, a) == Get(before.free, a) + if a == who then amount else 0
    ensures after.free.Keys == before.free.Keys + {who} ==> after == Deposit(before, who, amount)
    ensures after.free.Keys == before.free.Keys && amount == 0 ==> after == before
  {
    if after.free.Keys == before.free.Keys + {who} {
      SameBalances(after.free, before.free[who := Get(before.free, who) + amount]);
    }
    if after.free.Keys == before.free.Keys && amount == 0 {
      SameBalances(after.free, before.free);
    }
  }

  /** Who has an entry, and what is reserved. */
  lemma PaidFrame(cfg: Config, l: Ledger, proofs: map<Cid, Proof>, cid: Cid)
    requires cid in proofs
    ensures Paid(cfg, l, proofs).reserved == Paid(cfg, l, proofs - {cid}).reserved
    ensures Paid(cfg, l, proofs).free.Keys
            == Paid(cfg, l, proofs - {cid}).free.Keys + if Earns(proofs[cid]) then {proofs[cid].storer} else {}
  {
    StorersWithout(proofs, cid);
    PaidKeys(cfg, l, proofs);
    PaidKeys(cfg, l, proofs - {cid});
  }

  /** Paying out one more proof is one deposit, or nothing. */
  lemma PayOneMore(cfg: Config, l: Ledger, proofs: map<Cid, Proof>, cid: Cid)
    requires cid in proofs
    ensures Earns(proofs[cid])
            ==> Paid(cfg, l, proofs) == Deposit(Paid(cfg, l, proofs - {cid}), proofs[cid].storer, RewardOf(cfg, proofs[cid]))
    ensures !Earns(proofs[cid]) ==> Paid(cfg, l, proofs) == Paid(cfg, l, proofs - {cid})
  {
    var proof := proofs[cid];
    var amount := if Earns(proof) then RewardOf(cfg, proof) else 0;
    PaidFrame(cfg, l, proofs, cid);
    forall a
      ensures Get(Paid(cfg, l, proofs).free, a)
              == Get(Paid(cfg, l, proofs - {cid}).free, a) + if a == proof.storer then amount else 0
    {
      PayOneMoreAt(cfg, l, proofs, cid, a);
    }
    OneDeposit(Paid(cfg, l, proofs - {cid}), Paid(cfg, l, proofs), proof.storer, amount);
  }

  /** The same, for a visit of the minting loop. */
  lemma PayNext(cfg: Config, l: Ledger, proofs: map<Cid, Proof>, before: set<Cid>, cid: Cid, after: set<Cid>)
    requires cid in before && before <= proofs.Keys && after == before - {cid}
    ensures Earns(proofs[cid])
            ==> Paid(cfg, l, proofs - after) == Deposit(Paid(cfg, l, proofs - before), proofs[cid].storer, RewardOf(cfg, proofs[cid]))
    ensures !Earns(proofs[cid]) ==> Paid(cfg, l, proofs - after) == Paid(cfg, l, proofs - before)
  {
    var visited := proofs - after;
    assert visited - {cid} == proofs - before;
    PayOneMore(cfg, l, visited, cid);
  }

  lemma PaidNothing(cfg: Config, l: Ledger)
    ensures Paid(cfg, l, map[]) == l
  {
    assert Storers(map[]) == {};
    forall a | a in l.free ensures Paid(cfg, l, map[]).free[a] == l.free[a] {
      assert Earnings(cfg, map[], a) == map[];
    }
    assert Paid(cfg, l, map[]).free == l.free;
  }

  // ----- What a distribution mints -----

  ghost function Earning(proofs: map<Cid, Proof>): set<Cid> {
    set cid | cid in proofs && Earns(proofs[cid])
  }

  ghost predicate SameReward(cfg: Config, proofs: map<Cid, Proof>) {
    forall cid :: cid in proofs ==> proofs[cid].storageRewardPerBlock == cfg.rewardPeriod
  }

  function Reward(cfg: Config): nat {
    cfg.rewardPeriod + cfg.miningReward
  }

  lemma OneMore(d: nat, x: nat)
    ensures (d + 1) * x == d * x + x
  {
  }

  lemma EarningWithout(proofs: map<Cid, Proof>, cid: Cid)
    requires cid in proofs
    ensures |Earning(proofs)| == |Earning(proofs - {cid})| + if Earns(proofs[cid]) then 1 else 0
  {
    assert Earning(proofs - {cid}) == Earning(proofs) - {cid};
  }

  lemma {:induction false} PaidMints(cfg: Config, l: Ledger, proofs: map<Cid, Proof>)
    requires SameReward(cfg, proofs)
    ensures Issuance(Paid(cfg, l, proofs)) == Issuance(l) + |Earning(proofs)| * Reward(cfg)
    decreases |proofs|
  {
    if proofs == map[] {
      PaidNothing(cfg, l);
      assert Earning(proofs) == {};
    } else {
      var cid :| cid in proofs;
      PaidMints(cfg, l, proofs - {cid});
      EarningWithout(proofs, cid);
      OneMore(|Earning(proofs - {cid})|, Reward(cfg));
      DepositMints(Paid(cfg, l, proofs - {cid}), proofs[cid].storer, RewardOf(cfg, proofs[cid]));
      PayOneMore(cfg, l, proofs, cid);
    }
  }

  ghost function EarningFor(proofs: map<Cid, Proof>, a: AccountId): set<Cid> {
    set cid | cid in proofs && Earns(proofs[cid]) && proofs[cid].storer == a
  }

  lemma EarningForWithout(proofs: map<Cid, Proof>, cid: Cid, a: AccountId)
    requires cid in proofs
    ensures |EarningFor(proofs, a)|
            == |EarningFor(proofs - {cid}, a)| + if Earns(proofs[cid]) && proofs[cid].storer == a then 1 else 0
  {
    assert EarningFor(proofs - {cid}, a) == EarningFor(proofs, a) - {cid};
  }

  /** An account earns the same reward for each of its verified, eligible proofs. */
  lemma {:induction false} EarningsCount(cfg: Config, proofs: map<Cid, Proof>, a: AccountId)
    requires SameReward(cfg, proofs)
    ensures Sum(Earnings(cfg, proofs, a)) == |EarningFor(proofs, a)| * Reward(cfg)
    decreases |proofs|
  {
    if proofs == map[] {
      assert Earnings(cfg, proofs, a) == map[] && EarningFor(proofs, a) == {};
    } else {
      var cid :| cid in proofs;
      EarningsCount(cfg, proofs - {cid}, a);
      EarningsWithout(cfg, proofs, cid, a);
      EarningForWithout(proofs, cid, a);
      OneMore(|EarningFor(proofs - {cid}, a)|, Reward(cfg));
    }
  }

  // ----- Over runs -----

  /** The cids that can ever earn. */
  ghost function Rewardable(cfg: Config, genesis: State): set<Cid> {
    set cid | cid in genesis.factors && genesis.factors[cid] > 0 && |cid| <= cfg.maxCidLength
  }

  /** A proof spends one replica of its cid; an eligible one had a replica to spend. */
  ghost predicate FactorsSpent(cfg: Config, genesis: State, s: State) {
    && s.factors.Keys == genesis.factors.Keys
    && (forall cid :: cid in s.factors ==>
          s.factors[cid] == if cid in s.proofs && genesis.factors[cid] > 0 then genesis.factors[cid] - 1 else genesis.factors[cid])
    && (forall cid :: cid in s.proofs ==> cid in genesis.factors && (s.proofs[cid].rewardEligible <==> genesis.factors[cid] > 0))
    && (forall cid :: cid in s.proofs ==> |cid| <= cfg.maxCidLength)
    && SameReward(cfg, s.proofs)
  }

  lemma SubmitSpendsFactors(cfg: Config, genesis: State, s: State, c: Call)
    requires FactorsSpent(cfg, genesis, s) && c.SubmitProof? && Apply(cfg, s, c).Done?
    ensures FactorsSpent(cfg, genesis, Step(cfg, s, c))
  {
    var t := Step(cfg, s, c);
    assert t.factors.Keys == s.factors.Keys;
    forall cid | cid in t.proofs && cid != c.cid ensures t.proofs[cid] == s.proofs[cid] && t.factors[cid] == s.factors[cid] {
    }
  }

  lemma StepSpendsFactors(cfg: Config, genesis: State, s: State, c: Call)
    requires FactorsSpent(cfg, genesis, s)
    ensures FactorsSpent(cfg, genesis, Step(cfg, s, c))
  {
    match c
    case SubmitProof(_, _, _, _, _, _, _) =>
      if Apply(cfg, s, c).Done? {
        SubmitSpendsFactors(cfg, genesis, s, c);
      }
    case VerifyProof(_, _, _) =>
    case DistributeRewards(_, _) =>
  }

  /** After every run a cid has lost a replica exactly if it has a proof and had one to lose,
      and its proof is eligible exactly if it had. */
  lemma {:induction false} RunSpendsFactors(cfg: Config, genesis: State, calls: seq<Call>)
    requires Genesis(genesis)
    ensures FactorsSpent(cfg, genesis, Run(cfg, genesis, calls))
  {
    if calls != [] {
      RunSpendsFactors(cfg, genesis, calls[..|calls| - 1]);
      StepSpendsFactors(cfg, genesis, Run(cfg, genesis, calls[..|calls| - 1]), calls[|calls| - 1]);
    }
  }

  /** The cid was verified by a successful call of the run. */
  ghost predicate WasVerified(cfg: Config, genesis: State, calls: seq<Call>, cid: Cid) {
    calls != [] &&
    var front, last := calls[..|calls| - 1], calls[|calls| - 1];
    || WasVerified(cfg, genesis, front, cid)
    || (last.VerifyProof? && last.cid == cid && Apply(cfg, Run(cfg, genesis, front), last).Done?)
  }

  /** The record a submission writes, later verified or not. */
  ghost predicate RecordOf(c: Call, proof: Proof) {
    && c.SubmitProof? && proof.cid == c.cid && proof.storer == c.storer
    && proof.proofData == c.proofData && proof.rootHash == c.rootHash && proof.proofHashes == c.proofHashes
    && proof.timestamp == c.now && proof.poolId == c.pool
  }

  lemma StepKeepsRecord(cfg: Config, s: State, c: Call, cid: Cid)
    requires cid in Step(cfg, s, c).proofs
    ensures cid in s.proofs ==>
              var verifies := c.VerifyProof? && c.cid == cid && Apply(cfg, s, c).Done?;
              Step(cfg, s, c).proofs[cid] == s.proofs[cid].(verified := s.proofs[cid].verified || verifies)
    ensures cid !in s.proofs ==>
              Apply(cfg, s, c).Done? && c.SubmitProof? && c.cid == cid
              && RecordOf(c, Step(cfg, s, c).proofs[cid]) && !Step(cfg, s, c).proofs[cid].verified
  {
    match c
    case SubmitProof(_, _, _, _, _, _, _) =>
    case VerifyProof(_, _, _) =>
    case DistributeRewards(_, _) =>
  }

  /** Every stored proof is the record of one successful submission, the only one there is
      for its cid, and is verified exactly if a call of the run verified it. */
  lemma {:induction false} ProofsWereSubmitted(cfg: Config, genesis: State, calls: seq<Call>, cid: Cid) returns (k: nat)
    requires Genesis(genesis)
    requires cid in Run(cfg, genesis, calls).proofs
    ensures k < |calls| && RecordOf(calls[k], Run(cfg, genesis, calls).proofs[cid])
    ensures calls[k].cid == cid
    ensures Apply(cfg, Run(cfg, genesis, calls[..k]), calls[k]).Done? && cid !in Run(cfg, genesis, calls[..k]).proofs
    ensures Run(cfg, genesis, calls).proofs[cid].verified <==> WasVerified(cfg, genesis, calls, cid)
  {
    var front, last := calls[..|calls| - 1], calls[|calls| - 1];
    var s := Run(cfg, genesis, front);
    StepKeepsRecord(cfg, s, last, cid);
    if cid in s.proofs {
      k := ProofsWereSubmitted(cfg, genesis, front, cid);
      assert front[..k] == calls[..k];
    } else {
      k := |front|;
      NeverVerified(cfg, genesis, front, cid);
    }
  }

  lemma {:induction false} NeverVerified(cfg: Config, genesis: State, calls: seq<Call>, cid: Cid)
    requires cid !in Run(cfg, genesis, calls).proofs
    ensures !WasVerified(cfg, genesis, calls, cid)
  {
    if calls != [] {
      var s, last := Run(cfg, genesis, calls[..|calls| - 1]), calls[|calls| - 1];
      if cid !in s.proofs {
        NeverVerified(cfg, genesis, calls[..|calls| - 1], cid);
      }
    }
  }

  /** A distribution after any run mints exactly the reward for each verified, eligible
      proof, pays it to the storers account by account, and pays for no more cids than had
      a replica at genesis. */
  lemma DistributionMints(cfg: Config, genesis: State, calls: seq<Call>, who: AccountId, now: BlockNumber)
    requires Genesis(genesis)
    requires Apply(cfg, Run(cfg, genesis, calls), DistributeRewards(who, now)).Done?
    ensures var s := Run(cfg, genesis, calls);
            var t := Step(cfg, s, DistributeRewards(who, now));
            && Issuance(t.ledger) == Issuance(s.ledger) + |Earning(s.proofs)| * Reward(cfg)
            && |Earning(s.proofs)| <= |Rewardable(cfg, genesis)|
            && (forall a :: Get(t.ledger.free, a) == Get(s.ledger.free, a) + |EarningFor(s.proofs, a)| * Reward(cfg))
            && t.ledger.reserved == s.ledger.reserved
  {
    var s := Run(cfg, genesis, calls);
    RunSpendsFactors(cfg, genesis, calls);
    PaidMints(cfg, s.ledger, s.proofs);
    SubsetSize(Earning(s.proofs), Rewardable(cfg, genesis));
    forall a ensures Get(Paid(cfg, s.ledger, s.proofs).free, a) == Get(s.ledger.free, a) + |EarningFor(s.proofs, a)| * Reward(cfg) {
      PaidIs(cfg, s.ledger, s.proofs, a);
      EarningsCount(cfg, s.proofs, a);
    }
  }

  /** The reward for every cid that can ever earn. */
  ghost function MostPerDistribution(cfg: Config, genesis: State): nat {
    |Rewardable(cfg, genesis)| * Reward(cfg)
  }

  lemma StepMintsAtMost(cfg: Config, genesis: State, calls: seq<Call>, c: Call)
    requires Genesis(genesis)
    ensures var s := Run(cfg, genesis, calls);
            var most := if c.DistributeRewards? && Apply(cfg, s, c).Done? then MostPerDistribution(cfg, genesis) else 0;
            Issuance(s.ledger) <= Issuance(Step(cfg, s, c).ledger) <= Issuance(s.ledger) + most
  {
    var s := Run(cfg, genesis, calls);
    if c.DistributeRewards? && Apply(cfg, s, c).Done? {
      DistributionMints(cfg, genesis, calls, c.who, c.now);
      MulMonotone(Reward(cfg), |Earning(s.proofs)|, |Rewardable(cfg, genesis)|);
    }
  }

  ghost function Distributions(cfg: Config, genesis: State, calls: seq<Call>): nat {
    if calls == [] then 0
    else
      var front, last := calls[..|calls| - 1], calls[|calls| - 1];
      Distributions(cfg, genesis, front)
      + if last.DistributeRewards? && Apply(cfg, Run(cfg, genesis, front), last).Done? then 1 else 0
  }

  /** No call of the run is made after the block. */
  ghost predicate UpToBlock(calls: seq<Call>, block: nat) {
    calls != [] ==> UpToBlock(calls[..|calls| - 1], block) && calls[|calls| - 1].now <= block
  }

  lemma {:induction false} PrefixUpToBlock(calls: seq<Call>, block: nat, k: nat)
    requires UpToBlock(calls, block) && k <= |calls|
    ensures UpToBlock(calls[..k], block)
  {
    if k == |calls| {
      assert calls[..k] == calls;
    } else {
      PrefixUpToBlock(calls[..|calls| - 1], block, k);
      assert calls[..|calls| - 1][..k] == calls[..k];
    }
  }

  /** The `i`-th call of the run is a distribution that succeeds. */
  ghost predicate IsDistribution(cfg: Config, genesis: State, calls: seq<Call>, i: nat) {
    i < |calls| && calls[i].DistributeRewards? && Apply(cfg, Run(cfg, genesis, calls[..i]), calls[i]).Done?
  }

  /** Up to this block the 32-bit sum in the gate of `distribute_rewards` does not wrap, or
      the first period is not over. */
  predicate GateHolds(cfg: Config, block: BlockNumber) {
    block + cfg.rewardPeriod <= U32_MAX || block <= cfg.rewardPeriod
  }

  /** There the stored block of a distribution is past the first period, and the gate's sum
      over it is exact. */
  lemma {:induction false} LastIsBounded(cfg: Config, genesis: State, calls: seq<Call>, block: BlockNumber)
    requires Genesis(genesis)
    requires UpToBlock(calls, block) && GateHolds(cfg, block)
    ensures var last := Run(cfg, genesis, calls).lastDistribution;
            last.Some? ==> cfg.rewardPeriod < last.value <= block && block + cfg.rewardPeriod <= U32_MAX
  {
    if calls != [] {
      var front, last := calls[..|calls| - 1], calls[|calls| - 1];
      LastIsBounded(cfg, genesis, front, block);
    }
  }

  /** The stored block leaves a period for each distribution made. */
  lemma {:induction false} DistributionsFit(cfg: Config, genesis: State, calls: seq<Call>, block: BlockNumber)
    requires Genesis(genesis)
    requires UpToBlock(calls, block) && GateHolds(cfg, block)
    ensures var s := Run(cfg, genesis, calls);
            var last := if s.lastDistribution.Some? then s.lastDistribution.value else 0;
            Distributions(cfg, genesis, calls) * (cfg.rewardPeriod + 1) <= last <= block
  {
    LastIsBounded(cfg, genesis, calls, block);
    if calls != [] {
      var front := calls[..|calls| - 1];
      LastIsBounded(cfg, genesis, front, block);
      DistributionsFit(cfg, genesis, front, block);
      OneMorePeriod(Distributions(cfg, genesis, front), cfg.rewardPeriod);
    }
  }

  /** It is that of the latest distribution. */
  lemma {:induction false} LastIsLatest(cfg: Config, genesis: State, calls: seq<Call>, block: BlockNumber, j: nat)
    requires Genesis(genesis)
    requires UpToBlock(calls, block) && GateHolds(cfg, block)
    requires IsDistribution(cfg, genesis, calls, j)
    ensures var last := Run(cfg, genesis, calls).lastDistribution; last.Some? && calls[j].now <= last.value
  {
    var front := calls[..|calls| - 1];
    if j < |front| {
      assert front[..j] == calls[..j];
      LastIsLatest(cfg, genesis, front, block, j);
      LastIsBounded(cfg, genesis, front, block);
    }
  }

  lemma GateGap(cfg: Config, s: State, c: Call)
    requires c.DistributeRewards? && Apply(cfg, s, c).Done?
    requires s.lastDistribution.Some? && s.lastDistribution.value + cfg.rewardPeriod <= U32_MAX
    ensures c.now > s.lastDistribution.value + cfg.rewardPeriod
  {
  }

  /** Any two distributions of a run are more than a period apart. */
  lemma DistributionsAreApart(cfg: Config, genesis: State, calls: seq<Call>, block: BlockNumber, j: nat, k: nat)
    requires Genesis(genesis)
    requires UpToBlock(calls, block) && GateHolds(cfg, block)
    requires j < k && IsDistribution(cfg, genesis, calls, j) && IsDistribution(cfg, genesis, calls, k)
    ensures calls[k].now > calls[j].now + cfg.rewardPeriod
  {
    var front := calls[..k];
    PrefixUpToBlock(calls, block, k);
    assert front[..j] == calls[..j];
    LastIsLatest(cfg, genesis, front, block, j);
    LastIsBounded(cfg, genesis, front, block);
    GateGap(cfg, Run(cfg, genesis, front), calls[k]);
  }

  lemma OneMorePeriod(d: nat, period: nat)
    ensures (d + 1) * (period + 1) == d * (period + 1) + period + 1
  {
  }

  lemma {:induction false} MintedSoFar(cfg: Config, genesis: State, calls: seq<Call>)
    requires Genesis(genesis)
    ensures Issuance(genesis.ledger) <= Issuance(Run(cfg, genesis, calls).ledger)
            <= Issuance(genesis.ledger) + Distributions(cfg, genesis, calls) * MostPerDistribution(cfg, genesis)
  {
    if calls != [] {
      var front, last := calls[..|calls| - 1], calls[|calls| - 1];
      MintedSoFar(cfg, genesis, front);
      StepMintsAtMost(cfg, genesis, front, last);
      OneMore(Distributions(cfg, genesis, front), MostPerDistribution(cfg, genesis));
    }
  }

  lemma MulMonotone(x: nat, y: nat, z: nat)
    requires y <= z
    ensures 0 <= x * y <= x * z && x * y == y * x && x * z == z * x
  {
  }

  lemma QuotientBound(d: nat, x: nat, block: nat)
    requires x > 0 && d * x <= block
    ensures d <= block / x
  {
    if d > block / x {
      MulMonotone(x, block / x + 1, d);
    }
  }

  /** By block B at most B / (P + 1) distributions have happened, and no more than that many
      times the reward for every rewardable cid has been minted. */
  lemma MintedSupplyBound(cfg: Config, genesis: State, calls: seq<Call>, block: BlockNumber)
    requires Genesis(genesis)
    requires UpToBlock(calls, block) && GateHolds(cfg, block)
    ensures Distributions(cfg, genesis, calls) <= block / (cfg.rewardPeriod + 1)
    ensures WithinSupply(cfg, genesis, calls, block)
  {
    var d := Distributions(cfg, genesis, calls);
    DistributionsFit(cfg, genesis, calls, block);
    QuotientBound(d, cfg.rewardPeriod + 1, block);
    MintedSoFar(cfg, genesis, calls);
    MulMonotone(MostPerDistribution(cfg, genesis), d, block / (cfg.rewardPeriod + 1));
  }

  ghost predicate WithinSupply(cfg: Config, genesis: State, calls: seq<Call>, block: BlockNumber) {
    Issuance(Run(cfg, genesis, calls).ledger) - Issuance(genesis.ledger)
    <= (block / (cfg.rewardPeriod + 1)) * MostPerDistribution(cfg, genesis)
  }

  // ----- Beyond the gate's limit -----

  /** A run and one call more. */
  lemma Extended(cfg: Config, genesis: State, calls: seq<Call>, c: Call, block: nat) returns (more: seq<Call>)
    ensures more == calls + [c]
    ensures UpToBlock(more, block) <==> UpToBlock(calls, block) && c.now <= block
    ensures Run(cfg, genesis, more) == Step(cfg, Run(cfg, genesis, calls), c)
    ensures Distributions(cfg, genesis, more)
            == Distributions(cfg, genesis, calls)
               + if c.DistributeRewards? && Apply(cfg, Run(cfg, genesis, calls), c).Done? then 1 else 0
  {
    more := calls + [c];
    assert more[..|calls|] == calls;
  }

  /** Where the sum in the gate wraps below the block itself, the gate is open for good. */
  lemma GateStaysOpen(cfg: Config, s: State, block: BlockNumber)
    requires !GateHolds(cfg, block) && (s.lastDistribution == None || s.lastDistribution == Some(block))
    ensures PeriodElapsed(cfg, s, block)
  {
  }

  /** What grows by `x` at each step has grown by `n * x` after `n` of them. */
  lemma {:induction false} LinearGrowth(f: nat -> int, x: nat, n: nat)
    requires forall j: nat, k: nat :: j == k + 1 ==> f(j) == f(k) + x
    ensures f(n) == f(0) + n * x
  {
    if n > 0 {
      LinearGrowth(f, x, n - 1);
      OneMore(n - 1, x);
    }
  }

  /** A run, and `n` distributions at the block after it. */
  function Repeated(start: seq<Call>, block: BlockNumber, n: nat): seq<Call> {
    if n == 0 then start else Repeated(start, block, n - 1) + [DistributeRewards(0, block)]
  }

  lemma {:induction false} RepeatedUpToBlock(start: seq<Call>, block: BlockNumber, n: nat)
    requires UpToBlock(start, block)
    ensures UpToBlock(Repeated(start, block, n), block)
  {
    if n > 0 {
      RepeatedUpToBlock(start, block, n - 1);
      var calls := Repeated(start, block, n);
      assert calls[..|calls| - 1] == Repeated(start, block, n - 1);
    }
  }

  /** The distributions before found the proofs as they were, and the gate is still open. */
  ghost predicate StillOpen(cfg: Config, genesis: State, start: seq<Call>, block: BlockNumber, n: nat) {
    var s, t := Run(cfg, genesis, start), Run(cfg, genesis, Repeated(start, block, n));
    t.proofs == s.proofs && (t.lastDistribution == None || t.lastDistribution == Some(block))
  }

  lemma RepeatedStep(cfg: Config, genesis: State, start: seq<Call>, block: BlockNumber, n: nat)
    ensures var s := Run(cfg, genesis, Repeated(start, block, n));
            && Run(cfg, genesis, Repeated(start, block, n + 1)) == Step(cfg, s, DistributeRewards(0, block))
            && (Apply(cfg, s, DistributeRewards(0, block)).Done?
                ==> Distributions(cfg, genesis, Repeated(start, block, n + 1))
                    == Distributions(cfg, genesis, Repeated(start, block, n)) + 1)
  {
    var calls := Extended(cfg, genesis, Repeated(start, block, n), DistributeRewards(0, block), block);
  }

  lemma OpenDistributes(cfg: Config, s: State, block: BlockNumber)
    requires !GateHolds(cfg, block) && (s.lastDistribution == None || s.lastDistribution == Some(block))
    requires SameReward(cfg, s.proofs)
    ensures Apply(cfg, s, DistributeRewards(0, block)).Done?
    ensures var t := Step(cfg, s, DistributeRewards(0, block));
            && t.proofs == s.proofs && t.lastDistribution == Some(block)
            && (|Earning(s.proofs)| == 1 ==> Issuance(t.ledger) == Issuance(s.ledger) + Reward(cfg))
  {
    GateStaysOpen(cfg, s, block);
    PaidMints(cfg, s.ledger, s.proofs);
  }

  lemma OneMorePasses(cfg: Config, genesis: State, start: seq<Call>, block: BlockNumber, n: nat)
    requires Genesis(genesis) && !GateHolds(cfg, block) && StillOpen(cfg, genesis, start, block, n)
    ensures StillOpen(cfg, genesis, start, block, n + 1)
    ensures Distributions(cfg, genesis, Repeated(start, block, n + 1))
            == Distributions(cfg, genesis, Repeated(start, block, n)) + 1
    ensures |Earning(Run(cfg, genesis, start).proofs)| == 1
            ==> Issuance(Run(cfg, genesis, Repeated(start, block, n + 1)).ledger)
                == Issuance(Run(cfg, genesis, Repeated(start, block, n)).ledger) + Reward(cfg)
  {
    RunSpendsFactors(cfg, genesis, Repeated(start, block, n));
    OpenDistributes(cfg, Run(cfg, genesis, Repeated(start, block, n)), block);
    RepeatedStep(cfg, genesis, start, block, n);
  }

  lemma {:induction false} AllPass(cfg: Config, genesis: State, start: seq<Call>, block: BlockNumber, n: nat)
    requires Genesis(genesis) && !GateHolds(cfg, block) && Run(cfg, genesis, start).lastDistribution == None
    ensures StillOpen(cfg, genesis, start, block, n)
  {
    if n > 0 {
      AllPass(cfg, genesis, start, block, n - 1);
      OneMorePasses(cfg, genesis, start, block, n - 1);
    }
  }

  /** All of them pass. */
  lemma RepeatedCount(cfg: Config, genesis: State, start: seq<Call>, block: BlockNumber, n: nat)
    requires Genesis(genesis) && !GateHolds(cfg, block) && Run(cfg, genesis, start).lastDistribution == None
    ensures Distributions(cfg, genesis, Repeated(start, block, n)) == Distributions(cfg, genesis, start) + n
  {
    var f: nat -> int := (k: nat) => Distributions(cfg, genesis, Repeated(start, block, k));
    forall j: nat, k: nat | j == k + 1 ensures f(j) == f(k) + 1 {
      AllPass(cfg, genesis, start, block, k);
      OneMorePasses(cfg, genesis, start, block, k);
    }
    LinearGrowth(f, 1, n);
  }

  lemma MintsOneMore(cfg: Config, genesis: State, start: seq<Call>, block: BlockNumber, k: nat)
    requires Genesis(genesis) && !GateHolds(cfg, block) && Run(cfg, genesis, start).lastDistribution == None
    requires |Earning(Run(cfg, genesis, start).proofs)| == 1
    ensures IssuanceAfter(cfg, genesis, start, block, k + 1) == IssuanceAfter(cfg, genesis, start, block, k) + Reward(cfg)
  {
    AllPass(cfg, genesis, start, block, k);
    OneMorePasses(cfg, genesis, start, block, k);
  }

  ghost function IssuanceAfter(cfg: Config, genesis: State, start: seq<Call>, block: BlockNumber, k: nat): nat {
    Issuance(Run(cfg, genesis, Repeated(start, block, k)).ledger)
  }

  /** Each mints the same. */
  lemma RepeatedMints(cfg: Config, genesis: State, start: seq<Call>, block: BlockNumber, n: nat, reward: nat)
    requires Genesis(genesis) && !GateHolds(cfg, block) && Run(cfg, genesis, start).lastDistribution == None
    requires |Earning(Run(cfg, genesis, start).proofs)| == 1 && reward == Reward(cfg)
    ensures IssuanceAfter(cfg, genesis, start, block, n) == IssuanceAfter(cfg, genesis, start, block, 0) + n * reward
  {
    var f: nat -> int := (k: nat) => IssuanceAfter(cfg, genesis, start, block, k);
    forall j: nat, k: nat | j == k + 1 ensures f(j) == f(k) + reward {
      MintsOneMore(cfg, genesis, start, block, k);
    }
    LinearGrowth(f, reward, n);
  }

  /** The same call twice. */
  lemma TwoAtOnce(cfg: Config, genesis: State, block: BlockNumber) returns (calls: seq<Call>)
    requires Genesis(genesis) && !GateHolds(cfg, block)
    ensures UpToBlock(calls, block) && |calls| == 2 && calls[0].now == calls[1].now
    ensures IsDistribution(cfg, genesis, calls, 0) && IsDistribution(cfg, genesis, calls, 1)
  {
    var c := DistributeRewards(0, block);
    calls := Extended(cfg, genesis, [], c, block);
    calls := calls + [c];
    assert calls[..0] == [] && calls[..1] == [c];
    GateStaysOpen(cfg, genesis, block);
    GateStaysOpen(cfg, Run(cfg, genesis, [c]), block);
  }

  /** Distributions are never closer than a period in runs up to a block, if and only if the
      gate holds up to there. */
  lemma {:induction false} DistributionsApartIff(cfg: Config, genesis: State, block: BlockNumber)
    requires Genesis(genesis)
    ensures (forall calls: seq<Call>, j: nat, k: nat ::
               && UpToBlock(calls, block) && j < k
               && IsDistribution(cfg, genesis, calls, j) && IsDistribution(cfg, genesis, calls, k)
               ==> calls[k].now > calls[j].now + cfg.rewardPeriod)
            <==> GateHolds(cfg, block)
  {
    if GateHolds(cfg, block) {
      forall calls: seq<Call>, j: nat, k: nat
        | UpToBlock(calls, block) && j < k && IsDistribution(cfg, genesis, calls, j) && IsDistribution(cfg, genesis, calls, k)
        ensures calls[k].now > calls[j].now + cfg.rewardPeriod
      {
        DistributionsAreApart(cfg, genesis, calls, block, j, k);
      }
    } else {
      var calls := TwoAtOnce(cfg, genesis, block);
      assert IsDistribution(cfg, genesis, calls, 0) && IsDistribution(cfg, genesis, calls, 1);
    }
  }

  lemma ManyAtOnce(cfg: Config, genesis: State, block: BlockNumber, n: nat) returns (calls: seq<Call>)
    requires Genesis(genesis) && !GateHolds(cfg, block)
    ensures UpToBlock(calls, block) && Distributions(cfg, genesis, calls) == n
  {
    calls := Repeated([], block, n);
    RepeatedUpToBlock([], block, n);
    RepeatedCount(cfg, genesis, [], block, n);
  }

  /** Their number is bounded by the periods up to a block under the same condition. */
  lemma {:induction false} DistributionCountIff(cfg: Config, genesis: State, block: BlockNumber)
    requires Genesis(genesis)
    ensures (forall calls :: UpToBlock(calls, block) ==> Distributions(cfg, genesis, calls) <= block / (cfg.rewardPeriod + 1))
            <==> GateHolds(cfg, block)
  {
    if GateHolds(cfg, block) {
      forall calls | UpToBlock(calls, block)
        ensures Distributions(cfg, genesis, calls) <= block / (cfg.rewardPeriod + 1)
      {
        MintedSupplyBound(cfg, genesis, calls, block);
      }
    } else {
      var calls := ManyAtOnce(cfg, genesis, block, block / (cfg.rewardPeriod + 1) + 1);
      assert UpToBlock(calls, block);
    }
  }

  lemma SubmitAndVerify(cfg: Config, s: State, cid: Cid)
    requires Genesis(s) && cid in Rewardable(cfg, s)
    ensures var t := Step(cfg, Step(cfg, s, SubmitProof(0, cid, [], [], [], 0, 0)), VerifyProof(0, cid, 0));
            t.lastDistribution == None && t.ledger == s.ledger && |Earning(t.proofs)| == 1
  {
    var t := Step(cfg, Step(cfg, s, SubmitProof(0, cid, [], [], [], 0, 0)), VerifyProof(0, cid, 0));
    assert t.proofs.Keys == {cid} && Earns(t.proofs[cid]);
    assert Earning(t.proofs) == {cid};
  }

  /** A run that makes one cid earn. */
  lemma OneEarns(cfg: Config, genesis: State, cid: Cid, block: BlockNumber) returns (calls: seq<Call>)
    requires Genesis(genesis) && cid in Rewardable(cfg, genesis)
    ensures UpToBlock(calls, block)
    ensures var s := Run(cfg, genesis, calls);
            s.lastDistribution == None && s.ledger == genesis.ledger && |Earning(s.proofs)| == 1
  {
    calls := Extended(cfg, genesis, [], SubmitProof(0, cid, [], [], [], 0, 0), block);
    calls := Extended(cfg, genesis, calls, VerifyProof(0, cid, 0), block);
    SubmitAndVerify(cfg, genesis, cid);
  }

  lemma ProductIsZero(x: nat, y: nat)
    ensures x * y == 0 <==> x == 0 || y == 0
  {
  }

  lemma MoreThanMost(n: nat, most: nat, reward: nat)
    requires reward > 0
    ensures (n * most + 1) * reward > n * (most * reward)
  {
    OneMore(n * most, reward);
  }

  /** Past the gate's limit, one cid that earns is paid for any number of times. */
  lemma SupplyBreaks(cfg: Config, genesis: State, block: BlockNumber, cid: Cid, periods: nat, most: nat)
    returns (calls: seq<Call>)
    requires Genesis(genesis) && !GateHolds(cfg, block) && cid in Rewardable(cfg, genesis) && Reward(cfg) > 0
    ensures UpToBlock(calls, block)
    ensures Issuance(Run(cfg, genesis, calls).ledger) - Issuance(genesis.ledger) > periods * (most * Reward(cfg))
  {
    var start := OneEarns(cfg, genesis, cid, block);
    var n := periods * most + 1;
    calls := Repeated(start, block, n);
    RepeatedUpToBlock(start, block, n);
    RepeatedMints(cfg, genesis, start, block, n, Reward(cfg));
    MoreThanMost(periods, most, Reward(cfg));
  }

  /** The bound on the minted supply holds in all runs up to a block, if and only if the gate
      does, or nothing can ever be minted. */
  lemma {:induction false} MintedSupplyIff(cfg: Config, genesis: State, block: BlockNumber)
    requires Genesis(genesis)
    ensures (forall calls :: UpToBlock(calls, block) ==> WithinSupply(cfg, genesis, calls, block))
            <==> GateHolds(cfg, block) || MostPerDistribution(cfg, genesis) == 0
  {
    if GateHolds(cfg, block) {
      forall calls | UpToBlock(calls, block) ensures WithinSupply(cfg, genesis, calls, block) {
        MintedSupplyBound(cfg, genesis, calls, block);
      }
    } else if MostPerDistribution(cfg, genesis) == 0 {
      forall calls | UpToBlock(calls, block) ensures WithinSupply(cfg, genesis, calls, block) {
        MintedSoFar(cfg, genesis, calls);
        ProductIsZero(Distributions(cfg, genesis, calls), 0);
      }
    } else {
      ProductIsZero(|Rewardable(cfg, genesis)|, Reward(cfg));
      var cid :| cid in Rewardable(cfg, genesis);
      var calls := SupplyBreaks(cfg, genesis, block, cid, block / (cfg.rewardPeriod + 1), |Rewardable(cfg, genesis)|);
      assert !WithinSupply(cfg, genesis, calls, block);
    }
  }
}
