/** When a join request is decided, and how: the verdicts of `check_votes` in terms of the
    ballots that were cast. */
module PoolVerdicts {
  import opened Wrappers
  import opened Widths
  import opened Sets
  import opened SortedSeq
  import opened PoolSpec
  import opened PoolInvariant
  import opened PoolVoting
  import opened PoolHistory
  import opened PoolCapacity

  /** `check_votes` without the 16-bit conversions, which are harmless. */
  lemma VerdictMeaning(cast: PoolRequest, owner: Option<AccountId>, n: u16)
    requires |cast.voted| < U16_SIZE && cast.positiveVotes <= |cast.voted|
    ensures var byOwner := owner.Some? && owner.value in cast.voted && cast.positiveVotes >= 1;
            var against := |cast.voted| - cast.positiveVotes;
            && (Verdict(cast, owner, n) == Accepted
                <==> byOwner || (against <= n / 2 && cast.positiveVotes > Min(n / 3, 8)))
            && (Verdict(cast, owner, n) == Denied <==> !byOwner && against > n / 2)
  {
    WrapU16Identity(|cast.voted|);
    WrapU16Identity(|cast.voted| - cast.positiveVotes);
  }

  /** The next ballot on a stored request, in a pool of the size at which the request was
      last undecided. A positive ballot is never denied; it is accepted by the owner's hand
      or the threshold. A negative ballot is accepted only if it is the owner's and somebody
      was in favour; otherwise it denies as soon as more than half are against. */
  lemma NextBallotVerdict(request: PoolRequest, owner: Option<AccountId>, n: u16, voter: AccountId, positive: bool)
    requires n >= 1 && UndecidedAt(request, n) && voter !in request.voted
    requires owner.Some? && owner.value in request.voted ==> request.positiveVotes == 0
    ensures var verdict := Verdict(CastBallot(request, voter, positive), owner, n);
            var against := |request.voted| - request.positiveVotes;
            if positive then
              && verdict != Denied
              && (verdict == Accepted
                  <==> || owner == Some(voter)
                       || (owner.Some? && owner.value in request.voted)
                       || request.positiveVotes + 1 > Min(n / 3, 8))
            else
              && (verdict == Accepted <==> owner == Some(voter) && request.positiveVotes >= 1)
              && (verdict == Denied
                  <==> against + 1 > n / 2 && !(owner == Some(voter) && request.positiveVotes >= 1))
  {
    UndecidedLeavesRoom(request, n);
    WrapU16Identity(request.positiveVotes + 1);
    VerdictMeaning(CastBallot(request, voter, positive), owner, n);
  }

  /** A tally of ballots by some of `n` participants, the owner not among them. */
  ghost predicate WithoutOwner(cast: PoolRequest, owner: Option<AccountId>, n: u16) {
    && StrictlySorted(cast.voted) && |cast.voted| <= n && cast.positiveVotes <= |cast.voted|
    && !(owner.Some? && owner.value in cast.voted)
  }

  /** Only in a pool of one or of three does an acceptance without the owner's vote mean that
      more than half of the participants are in favour. */
  lemma {:induction false} MajorityIff(n: u16)
    requires n >= 1
    ensures (forall cast, owner :: WithoutOwner(cast, owner, n) && Verdict(cast, owner, n) == Accepted
                                   ==> 2 * cast.positiveVotes > n)
            <==> n == 1 || n == 3
  {
    forall cast, owner | WithoutOwner(cast, owner, n) && Verdict(cast, owner, n) == Accepted
      ensures cast.positiveVotes > Min(n / 3, 8)
    {
      VerdictMeaning(cast, owner, n);
    }
    if n != 1 && n != 3 {
      var k: u16 := Min(n / 3, 8) + 1;
      var cast := PoolRequest(seq(k, i => i), k, []);
      assert WithoutOwner(cast, None, n);
      VerdictMeaning(cast, None, n);
    }
  }

  // ----- The verdict over a run -----

  /** The owner is among the voters and somebody voted in favour. */
  ghost predicate OwnerDecides(owner: Option<AccountId>, ballots: seq<Ballot>) {
    owner.Some? && owner.value in Voters(ballots) && Positives(ballots) >= 1
  }

  ghost predicate ShouldAdmit(owner: Option<AccountId>, ballots: seq<Ballot>, n: nat) {
    || OwnerDecides(owner, ballots)
    || (|ballots| - Positives(ballots) <= n / 2 && Positives(ballots) > Min(n / 3, 8))
  }

  ghost predicate ShouldDeny(owner: Option<AccountId>, ballots: seq<Ballot>, n: nat) {
    !OwnerDecides(owner, ballots) && |ballots| - Positives(ballots) > n / 2
  }

  /** After any run, a successful vote admits, denies or keeps the applicant exactly as the
      ballots cast since the join say, whatever the 16-bit arithmetic. */
  lemma VoteFollowsBallots(cfg: Config, calls: seq<Call>, c: Call)
    requires PoolsCreated(cfg, calls) <= U32_MAX
    requires c.Vote? && Apply(cfg, Run(cfg, calls), c).Done?
    ensures var s, t := Run(cfg, calls), Run(cfg, calls + [c]);
            var p, a := c.pool, c.account;
            var n := WrapU16(|s.pools[p].participants|);
            var ballots := Ballots(cfg, calls, p, a) + [Ballot(c.voter, c.positive, n)];
            && (IsMember(t, a, p) <==> ShouldAdmit(s.pools[p].owner, ballots, n))
            && (!IsMember(t, a, p) && !IsPending(t, p, a) <==> ShouldDeny(s.pools[p].owner, ballots, n))
            && (IsPending(t, p, a) ==> Ballots(cfg, calls + [c], p, a) == ballots)
  {
    RunKeepsInv(cfg, calls);
    RunExtend(cfg, calls, c);
    assert (calls + [c])[..|calls|] == calls;
    assert IsPending(Run(cfg, calls), c.pool, c.account);
    TallyIsHistory(cfg, calls, c.pool, c.account);
    VoteFollowsTally(cfg, Run(cfg, calls), c, Ballots(cfg, calls, c.pool, c.account));
  }

  /** The verdict on a tally is the one its ballots call for. */
  lemma VerdictOfBallots(pool: Pool, cast: PoolRequest, ballots: seq<Ballot>)
    requires |cast.voted| == |ballots| < U16_SIZE && cast.positiveVotes == Positives(ballots)
    requires forall v :: v in cast.voted <==> v in Voters(ballots)
    ensures VerdictIn(pool, cast) == Accepted <==> ShouldAdmit(pool.owner, ballots, WrapU16(|pool.participants|))
    ensures VerdictIn(pool, cast) == Denied <==> ShouldDeny(pool.owner, ballots, WrapU16(|pool.participants|))
  {
    VerdictMeaning(cast, pool.owner, WrapU16(|pool.participants|));
  }

  lemma VoteFollowsTally(cfg: Config, s: State, c: Call, earlier: seq<Ballot>)
    requires Inv(cfg, s) && c.Vote? && Apply(cfg, s, c).Done?
    requires IsTallyOf(cfg, s.requests[Key(c.pool, c.account)], earlier)
    ensures var t, n := Step(cfg, s, c), WrapU16(|s.pools[c.pool].participants|);
            var ballots := earlier + [Ballot(c.voter, c.positive, n)];
            && (IsMember(t, c.account, c.pool) <==> ShouldAdmit(s.pools[c.pool].owner, ballots, n))
            && (!IsMember(t, c.account, c.pool) && !IsPending(t, c.pool, c.account)
                <==> ShouldDeny(s.pools[c.pool].owner, ballots, n))
  {
    var pool := s.pools[c.pool];
    VoteSplits(cfg, s, c);
    VoteExtendsTally(cfg, s, c, earlier);
    VerdictOfBallots(pool, CastBallot(s.requests[Key(c.pool, c.account)], c.voter, c.positive),
                     earlier + [Ballot(c.voter, c.positive, WrapU16(|pool.participants|))]);
  }

  /** The three verdicts are told apart by what becomes of the applicant. */
  lemma VoteSplits(cfg: Config, s: State, c: Call)
    requires ApplicationsAgree(s) && NobodyIsBoth(s) && c.Vote? && Apply(cfg, s, c).Done?
    ensures var t := Step(cfg, s, c);
            var verdict := VerdictIn(s.pools[c.pool], CastBallot(s.requests[Key(c.pool, c.account)], c.voter, c.positive));
            && IsPending(s, c.pool, c.account)
            && (IsMember(t, c.account, c.pool) <==> verdict == Accepted)
            && (IsPending(t, c.pool, c.account) <==> verdict == Inconclusive)
  {
    assert IsPending(s, c.pool, c.account) && IsApplicant(s, c.account, c.pool);
  }

  // ----- Decisiveness -----

  /** A request that is still open has at most n/2 + min(n/3, 8) ballots, where n is the size
      of its pool at the last of them. */
  lemma OpenRequestLimit(cfg: Config, calls: seq<Call>, p: PoolId, a: AccountId)
    requires PoolsCreated(cfg, calls) <= U32_MAX
    requires IsPending(Run(cfg, calls), p, a)
    ensures var ballots := Ballots(cfg, calls, p, a);
            ballots != [] ==> |ballots| <= UndecidedLimit(ballots[|ballots| - 1].size) < ballots[|ballots| - 1].size
  {
    TallyIsHistory(cfg, calls, p, a);
    var ballots := Ballots(cfg, calls, p, a);
    if ballots != [] {
      UndecidedLeavesRoom(Run(cfg, calls).requests[Key(p, a)], ballots[|ballots| - 1].size);
    }
  }

  /** With the size of the pool fixed at n, the deciding ballot is at the latest the
      (n/2 + min(n/3, 8) + 1)-st, so no later than the n-th. */
  lemma DecisionByLastParticipant(cfg: Config, calls: seq<Call>, c: Call, n: nat)
    requires PoolsCreated(cfg, calls) <= U32_MAX
    requires c.Vote? && Apply(cfg, Run(cfg, calls), c).Done?
    requires 1 <= n == WrapU16(|Run(cfg, calls).pools[c.pool].participants|)
    requires var ballots := Ballots(cfg, calls, c.pool, c.account); ballots != [] ==> ballots[|ballots| - 1].size == n
    ensures |Ballots(cfg, calls, c.pool, c.account)| + 1 <= UndecidedLimit(n) + 1 <= n
    ensures |Ballots(cfg, calls, c.pool, c.account)| + 1 == UndecidedLimit(n) + 1
            ==> !IsPending(Run(cfg, calls + [c]), c.pool, c.account)
  {
    assert IsPending(Run(cfg, calls), c.pool, c.account);
    OpenRequestLimit(cfg, calls, c.pool, c.account);
    CreatedUnchanged(cfg, calls, c);
    if IsPending(Run(cfg, calls + [c]), c.pool, c.account) {
      VoteFollowsBallots(cfg, calls, c);
      OpenRequestLimit(cfg, calls + [c], c.pool, c.account);
    }
  }

  /** Whatever happened before, a vote that leaves a request open leaves a participant who
      has not voted on it. */
  lemma OpenVoteLeavesSilentParticipant(cfg: Config, s: State, c: Call) returns (silent: AccountId)
    requires Inv(cfg, s) && c.Vote? && Apply(cfg, s, c).Done?
    requires IsPending(Step(cfg, s, c), c.pool, c.account)
    ensures var t := Step(cfg, s, c);
            IsParticipant(t, c.pool, silent) && silent !in t.requests[Key(c.pool, c.account)].voted
  {
    var p, a, t := c.pool, c.account, Step(cfg, s, c);
    RequestChanges(cfg, s, c, p, a);
    var pool, cast := s.pools[p], t.requests[Key(p, a)];
    var n := WrapU16(|pool.participants|);
    CastFits(cfg, s.requests[Key(p, a)], c.voter, c.positive);
    InconclusiveIff(cast, pool.owner, n);
    UndecidedLeavesRoom(cast, n);
    VotingSizeFits(pool);
    assert t.pools[p] == pool;
    SortedLength(cast.voted);
    SortedLength(pool.participants);
    if Elements(pool.participants) <= Elements(cast.voted) {
      SubsetSize(Elements(pool.participants), Elements(cast.voted));
    }
    silent :| silent in Elements(pool.participants) && silent !in Elements(cast.voted);
  }

  /** Some participant could cast a ballot on the request now. */
  ghost predicate CanBeVotedOn(cfg: Config, s: State, p: PoolId, a: AccountId) {
    exists voter, positive :: VoteCounts(cfg, s, voter, p, a, positive)
  }

  ghost predicate VoteCounts(cfg: Config, s: State, voter: AccountId, p: PoolId, a: AccountId, positive: bool) {
    Key(p, a) in s.requests && CastVote(cfg, s, voter, p, a, positive, s.requests[Key(p, a)].peerId).Done?
  }

  ghost predicate IsSilent(s: State, p: PoolId, a: AccountId, voter: AccountId) {
    Key(p, a) in s.requests && IsParticipant(s, p, voter) && voter !in s.requests[Key(p, a)].voted
  }

  /** The ballot would admit the applicant into a participant list at its bound. */
  predicate AdmitsAtBound(cfg: Config, s: State, p: PoolId, a: AccountId, voter: AccountId, positive: bool)
    requires p in s.pools && Key(p, a) in s.requests
  {
    && |s.pools[p].participants| == cfg.maxParticipants
    && VerdictIn(s.pools[p], CastBallot(s.requests[Key(p, a)], voter, positive)) == Accepted
  }

  /** From a state of a run, a ballot counts exactly when its voter is silent, the pool is not
      full, and it would not admit somebody into a list at its bound. */
  lemma VoteCountsIff(cfg: Config, s: State, p: PoolId, a: AccountId, voter: AccountId, positive: bool)
    requires Inv(cfg, s) && IsPending(s, p, a)
    ensures p in s.pools
    ensures VoteCounts(cfg, s, voter, p, a, positive)
            <==> IsSilent(s, p, a, voter) && !s.pools[p].IsFull(cfg) && !AdmitsAtBound(cfg, s, p, a, voter, positive)
  {
    CountsWhenSilent(cfg, s, p, a, voter, positive);
    InternalErrorIff(cfg, s, Vote(voter, p, a, positive, s.requests[Key(p, a)].peerId));
    assert IsParticipant(s, p, voter) <==> IsMember(s, voter, p);
  }

  lemma CountsWhenSilent(cfg: Config, s: State, p: PoolId, a: AccountId, voter: AccountId, positive: bool)
    requires Inv(cfg, s) && IsPending(s, p, a)
    ensures p in s.pools
    ensures VoteCounts(cfg, s, voter, p, a, positive) ==> IsSilent(s, p, a, voter) && !s.pools[p].IsFull(cfg)
    ensures IsSilent(s, p, a, voter) && !s.pools[p].IsFull(cfg) && !VoteCounts(cfg, s, voter, p, a, positive)
            ==> CastVote(cfg, s, voter, p, a, positive, s.requests[Key(p, a)].peerId) == Failed(InternalError)
  {
    assert IsApplicant(s, a, p);
    assert IsParticipant(s, p, voter) <==> IsMember(s, voter, p);
  }

  /** After any run, whatever the maximum: a pending request can be voted on if and only if
      the pool is not full and a silent participant has a ballot that would not overfill it. */
  lemma {:induction false} CanBeVotedOnIff(cfg: Config, calls: seq<Call>, p: PoolId, a: AccountId)
    requires PoolsCreated(cfg, calls) <= U32_MAX
    requires IsPending(Run(cfg, calls), p, a)
    ensures var s := Run(cfg, calls);
            && p in s.pools
            && (CanBeVotedOn(cfg, s, p, a)
                <==> && !s.pools[p].IsFull(cfg)
                     && exists voter, positive :: IsSilent(s, p, a, voter) && !AdmitsAtBound(cfg, s, p, a, voter, positive))
  {
    var s := Run(cfg, calls);
    RunKeepsInv(cfg, calls);
    CountsWhenSilent(cfg, s, p, a, 0, true);
    if CanBeVotedOn(cfg, s, p, a) {
      var voter, positive :| VoteCounts(cfg, s, voter, p, a, positive);
      VoteCountsIff(cfg, s, p, a, voter, positive);
    }
    if voter, positive :| IsSilent(s, p, a, voter) && !AdmitsAtBound(cfg, s, p, a, voter, positive) {
      VoteCountsIff(cfg, s, p, a, voter, positive);
    }
  }

  /** A silent participant other than the owner may always vote against. */
  lemma MayVoteAgainst(cfg: Config, s: State, p: PoolId, a: AccountId, voter: AccountId)
    requires p in s.pools && Key(p, a) in s.requests && Undecided(cfg, s.requests[Key(p, a)])
    requires OwnerNotDecisive(s.pools[p], s.requests[Key(p, a)])
    requires voter !in s.requests[Key(p, a)].voted && s.pools[p].owner != Some(voter)
    requires cfg.maxParticipants < U16_SIZE
    ensures !AdmitsAtBound(cfg, s, p, a, voter, false)
  {
    var pool, request := s.pools[p], s.requests[Key(p, a)];
    if |pool.participants| == cfg.maxParticipants {
      CastFits(cfg, request, voter, false);
      WrapU16Identity(|pool.participants|);
      VerdictMeaning(CastBallot(request, voter, false), pool.owner, |pool.participants|);
    }
  }

  /** In a list at its bound of more than 256, many are silent. */
  lemma SomebodyElseSilent(cfg: Config, s: State, p: PoolId, a: AccountId) returns (voter: AccountId)
    requires p in s.pools && Key(p, a) in s.requests && Undecided(cfg, s.requests[Key(p, a)])
    requires StrictlySorted(s.pools[p].participants) && StrictlySorted(s.requests[Key(p, a)].voted)
    requires |s.pools[p].participants| == cfg.maxParticipants > 256
    ensures IsSilent(s, p, a, voter) && s.pools[p].owner != Some(voter)
  {
    var pool, request := s.pools[p], s.requests[Key(p, a)];
    var n: nat :| 1 <= n <= cfg.maxParticipants && n < U16_SIZE && UndecidedAt(request, n);
    SortedLength(pool.participants);
    SortedLength(request.voted);
    var others := Elements(request.voted) + if pool.owner.Some? then {pool.owner.value} else {};
    if Elements(pool.participants) <= others {
      SubsetSize(Elements(pool.participants), others);
    }
    voter :| voter in Elements(pool.participants) && voter !in others;
  }

  /** After any run, as long as sizes fit into 16 bits: a pending request can be voted on if
      and only if the pool is not full and has a participant who has not voted on it. */
  lemma {:induction false} SilentParticipantSuffices(cfg: Config, calls: seq<Call>, p: PoolId, a: AccountId)
    requires PoolsCreated(cfg, calls) <= U32_MAX && cfg.maxParticipants < U16_SIZE
    requires IsPending(Run(cfg, calls), p, a)
    ensures p in Run(cfg, calls).pools
    ensures CanBeVotedOn(cfg, Run(cfg, calls), p, a)
            <==> !Run(cfg, calls).pools[p].IsFull(cfg) && exists voter :: IsSilent(Run(cfg, calls), p, a, voter)
  {
    var s := Run(cfg, calls);
    RunKeepsInv(cfg, calls);
    CanBeVotedOnIff(cfg, calls, p, a);
    if voter :| !s.pools[p].IsFull(cfg) && IsSilent(s, p, a, voter) {
      if |s.pools[p].participants| < cfg.maxParticipants {
        assert !AdmitsAtBound(cfg, s, p, a, voter, true);
      } else if cfg.maxParticipants <= 256 {
        NoInternalErrorUpTo256(cfg, calls, Vote(voter, p, a, true, s.requests[Key(p, a)].peerId));
        CountsWhenSilent(cfg, s, p, a, voter, true);
      } else {
        var other := SomebodyElseSilent(cfg, s, p, a);
        MayVoteAgainst(cfg, s, p, a, other);
      }
    }
  }
}
