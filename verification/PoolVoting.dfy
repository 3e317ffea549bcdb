/** Voting on join requests: what a ballot can do to a request, whatever happened to the
    pool since the previous ballot, and the invariant of the pallet over whole runs. */
module PoolVoting {
  import opened Wrappers
  import opened Widths
  import opened SortedSeq
  import opened PoolSpec
  import opened PoolInvariant

  // ----- Tallies -----

  /** An undecided request leaves someone silent: fewer ballots than the size it was undecided at. */
  lemma UndecidedLeavesRoom(request: PoolRequest, n: nat)
    requires 1 <= n && UndecidedAt(request, n)
    ensures |request.voted| <= UndecidedLimit(n) <= n - 1
  {
  }

  lemma UndecidedIsSmall(cfg: Config, request: PoolRequest)
    requires Undecided(cfg, request)
    ensures |request.voted| < cfg.maxParticipants && |request.voted| + 1 < U16_SIZE
    ensures request.positiveVotes <= 8 && request.positiveVotes <= |request.voted|
  {
    var n: nat :| 1 <= n <= cfg.maxParticipants && n < U16_SIZE && UndecidedAt(request, n);
    UndecidedLeavesRoom(request, n);
  }

  lemma WrapU16Identity(x: int)
    requires 0 <= x < U16_SIZE
    ensures WrapU16(x) == x
  {
  }

  /** One more ballot on a stored request: the voter list has room, neither 16-bit conversion
      truncates and the 16-bit subtraction does not underflow. */
  lemma CastFits(cfg: Config, request: PoolRequest, voter: AccountId, positive: bool)
    requires Undecided(cfg, request) && voter !in request.voted
    ensures |request.voted| < cfg.maxParticipants
    ensures var cast := CastBallot(request, voter, positive);
            && |cast.voted| == |request.voted| + 1 < U16_SIZE
            && cast.positiveVotes == request.positiveVotes + (if positive then 1 else 0)
            && cast.positiveVotes <= |cast.voted|
            && WrapU16(WrapU16(|cast.voted|) - cast.positiveVotes) == |cast.voted| - cast.positiveVotes
  {
    UndecidedIsSmall(cfg, request);
    var cast := CastBallot(request, voter, positive);
    WrapU16Identity(request.positiveVotes + 1);
    WrapU16Identity(|cast.voted|);
    WrapU16Identity(|cast.voted| - cast.positiveVotes);
  }

  /** `check_votes` leaves a request open exactly when its tally is undecided at the pool's
      size and the owner has not decided it. */
  lemma InconclusiveIff(request: PoolRequest, owner: Option<AccountId>, n: u16)
    requires 1 <= |request.voted| < U16_SIZE && request.positiveVotes <= |request.voted|
    ensures Verdict(request, owner, n).Inconclusive?
            <==> && UndecidedAt(request, n)
                 && (owner.Some? && owner.value in request.voted ==> request.positiveVotes == 0)
    ensures Verdict(request, owner, n).Inconclusive? ==> n >= 1
  {
    WrapU16Identity(|request.voted|);
    WrapU16Identity(|request.voted| - request.positiveVotes);
  }

  /** The truncated size of a pool is never larger than the pool. */
  lemma VotingSizeFits(pool: Pool)
    ensures WrapU16(|pool.participants|) <= |pool.participants|
  {
  }

  // ----- The invariant -----

  lemma VoteKeepsInv(cfg: Config, s: State, voter: AccountId, p: PoolId, a: AccountId, positive: bool, peer: Bytes)
    requires Inv(cfg, s)
    ensures match CastVote(cfg, s, voter, p, a, positive, peer)
            case Done(t) => Inv(cfg, t)
            case Failed(_) => true
  {
    if CastVote(cfg, s, voter, p, a, positive, peer).Done? {
      assert IsMember(s, voter, p);
      assert IsPending(s, p, a) && IsApplicant(s, a, p);
      CastFits(cfg, s.requests[Key(p, a)], voter, positive);
      VerdictKeepsInv(cfg, s, p, a, CastBallot(s.requests[Key(p, a)], voter, positive));
    }
  }

  lemma VerdictKeepsInv(cfg: Config, s: State, p: PoolId, a: AccountId, cast: PoolRequest)
    requires Inv(cfg, s) && IsPending(s, p, a) && p in s.pools
    requires StrictlySorted(cast.voted) && a !in cast.voted && cast.peerId == s.requests[Key(p, a)].peerId
    requires 1 <= |cast.voted| < U16_SIZE && cast.positiveVotes <= |cast.voted|
    ensures match ProcessVoteResult(cfg, s, p, a, cast, VerdictIn(s.pools[p], cast))
            case Done(t) => Inv(cfg, t)
            case Failed(_) => true
  {
    var pool := s.pools[p];
    if ProcessVoteResult(cfg, s, p, a, cast, VerdictIn(pool, cast)).Done? {
      match VerdictIn(pool, cast)
      case Accepted => AdmitKeeps(cfg, s, p, a, cast.peerId);
      case Denied => DropRequestKeeps(cfg, s, p, a);
      case Inconclusive =>
        InconclusiveIff(cast, pool.owner, WrapU16(|pool.participants|));
        VotingSizeFits(pool);
        assert Undecided(cfg, cast);
        StoreBallotsKeeps(cfg, s, p, a, cast);
    }
  }

  lemma LeaveKeepsInv(cfg: Config, s: State, caller: AccountId, p: PoolId, target: Option<AccountId>)
    requires Inv(cfg, s)
    ensures match Leave(s, caller, p, target)
            case Done(t) => Inv(cfg, t)
            case Failed(_) => true
  {
    if Leave(s, caller, p, target).Done? {
      var a := LeaveTarget(s.pools[p], caller, target).value;
      RemoveParticipantKeeps(cfg, s, p, a);
    }
  }

  lemma CancelKeepsInv(cfg: Config, s: State, caller: AccountId, p: PoolId, target: Option<AccountId>)
    requires Inv(cfg, s)
    ensures match Cancel(s, caller, p, target)
            case Done(t) => Inv(cfg, t)
            case Failed(_) => true
  {
    if Cancel(s, caller, p, target).Done? {
      var a := CancelTarget(s.pools[p], caller, target).value;
      DropRequestKeeps(cfg, s, p, a);
    }
  }

  /** If the call makes a pool, there is an identifier left for it. */
  ghost predicate IdLeft(cfg: Config, s: State, c: Call) {
    c.Create? && Apply(cfg, s, c).Done? ==> s.lastPoolId < U32_MAX
  }

  lemma FreshId(s: State)
    requires IdsContiguous(s) && s.lastPoolId < U32_MAX
    ensures NextPoolId(s) !in s.pools
  {
  }

  /** Every call keeps the invariant, as long as `create` has an identifier left. */
  lemma StepKeepsInv(cfg: Config, s: State, c: Call)
    requires Inv(cfg, s)
    requires IdLeft(cfg, s, c)
    ensures Inv(cfg, Step(cfg, s, c))
  {
    match c
    case Create(owner, name, region, peer) =>
      if CreatePool(cfg, s, owner, name, region, peer).Done? {
        AddPoolKeeps(cfg, s, owner, name, region, peer);
      }
    case LeavePool(caller, p, target) => LeaveKeepsInv(cfg, s, caller, p, target);
    case Join(a, p, peer) =>
      if RequestToJoin(cfg, s, a, p, peer).Done? {
        AddRequestKeeps(cfg, s, p, a, peer);
      }
    case CancelJoin(caller, p, target) => CancelKeepsInv(cfg, s, caller, p, target);
    case Vote(voter, p, a, positive, peer) => VoteKeepsInv(cfg, s, voter, p, a, positive, peer);
  }
}
