/** The capacity of a pool. The request counter has eight bits and `is_full` tests equality,
    so what the pallet promises depends on `MaxPoolParticipants`; the exact limits are here. */
module PoolCapacity {
  import opened Widths
  import opened PoolSpec
  import opened PoolInvariant
  import opened PoolVoting
  import opened PoolHistory

  /** Participants and pending requests together. */
  ghost function Load(s: State, p: PoolId): nat
    requires p in s.pools
  {
    |s.pools[p].participants| + |RequestsOf(s, p)|
  }

  ghost predicate CounterExact(s: State, p: PoolId)
    requires p in s.pools
  {
    s.pools[p].requestNumber == |RequestsOf(s, p)|
  }

  ghost predicate CapacityRespected(cfg: Config, s: State) {
    forall p :: p in s.pools ==> Load(s, p) <= cfg.maxParticipants && CounterExact(s, p)
  }

  /** The part of it that survives a maximum of 256: a pool that still has a participant
      is within its capacity, and below it unless somebody is waiting. */
  ghost predicate InhabitedPoolsFit(cfg: Config, s: State) {
    forall p :: p in s.pools && s.pools[p].participants != [] ==>
      && Load(s, p) <= cfg.maxParticipants
      && |s.pools[p].participants| <= MemberLimit(cfg)
  }

  /** No acceptance fills the last place of a pool; only the creator of a pool of one does. */
  function MemberLimit(cfg: Config): nat {
    if cfg.maxParticipants <= 1 then cfg.maxParticipants else cfg.maxParticipants - 1
  }

  lemma FullMeansNoRoom(cfg: Config, s: State, p: PoolId)
    requires p in s.pools && CounterExact(s, p) && Load(s, p) <= cfg.maxParticipants
    ensures s.pools[p].IsFull(cfg) <==> Load(s, p) >= cfg.maxParticipants
  {
  }

  lemma CounterIsExactBelow256(s: State, p: PoolId)
    requires CountersAgree(s) && p in s.pools && |RequestsOf(s, p)| <= 255
    ensures CounterExact(s, p)
  {
  }

  // ----- How one call moves the load of a pool -----

  /** The load grows by a `join` only, and only in a pool that is not full; an acceptance
      leaves it unchanged and happens only in a pool that is not full and has a participant. */
  ghost predicate LoadMoved(cfg: Config, s: State, c: Call, t: State, p: PoolId)
    requires p in s.pools
  {
    && p in t.pools
    && (Load(t, p) > Load(s, p) ==> Load(t, p) == Load(s, p) + 1 && c.Join? && !s.pools[p].IsFull(cfg))
    && (|t.pools[p].participants| > |s.pools[p].participants|
        ==> && |t.pools[p].participants| == |s.pools[p].participants| + 1
            && Load(t, p) == Load(s, p) && |RequestsOf(s, p)| > 0
            && s.pools[p].participants != [] && !s.pools[p].IsFull(cfg))
  }

  lemma LoadMoves(cfg: Config, s: State, c: Call, p: PoolId)
    requires Inv(cfg, s) && p in s.pools && IdLeft(cfg, s, c)
    ensures LoadMoved(cfg, s, c, Step(cfg, s, c), p)
  {
    if Apply(cfg, s, c).Done? {
      match c
      case Create(_, _, _, _) => CreateLoadMoves(cfg, s, c, p);
      case LeavePool(caller, q, target) => RemoveParticipantRequests(s, q, LeaveTarget(s.pools[q], caller, target).value);
      case Join(_, _, _) => JoinLoadMoves(cfg, s, c, p);
      case CancelJoin(_, _, _) => CancelLoadMoves(cfg, s, c, p);
      case Vote(_, _, _, _, _) => VoteLoadMoves(cfg, s, c, p);
    }
  }

  lemma CreateLoadMoves(cfg: Config, s: State, c: Call, p: PoolId)
    requires Inv(cfg, s) && p in s.pools && c.Create? && Apply(cfg, s, c).Done? && s.lastPoolId < U32_MAX
    ensures LoadMoved(cfg, s, c, Step(cfg, s, c), p)
  {
    FreshId(s);
    GroundedRequestsInPools(s);
    AddPoolCounters(s, c.owner, c.name, c.region, c.peer);
  }

  lemma JoinLoadMoves(cfg: Config, s: State, c: Call, p: PoolId)
    requires RelationsAgree(s) && CountersAgree(s) && p in s.pools && c.Join? && Apply(cfg, s, c).Done?
    ensures LoadMoved(cfg, s, c, Step(cfg, s, c), p)
  {
    AddRequestRelations(s, c.pool, c.account, c.peer);
    AddRequestCounters(s, c.pool, c.account, c.peer);
  }

  lemma CancelLoadMoves(cfg: Config, s: State, c: Call, p: PoolId)
    requires CountersAgree(s) && p in s.pools && c.CancelJoin? && Apply(cfg, s, c).Done?
    ensures LoadMoved(cfg, s, c, Step(cfg, s, c), p)
  {
    var a := CancelTarget(s.pools[c.pool], c.caller, c.target).value;
    assert IsPending(s, c.pool, a);
    DropRequestCounters(s, c.pool, a);
  }

  lemma VoteLoadMoves(cfg: Config, s: State, c: Call, p: PoolId)
    requires Inv(cfg, s) && p in s.pools && c.Vote? && Apply(cfg, s, c).Done?
    ensures LoadMoved(cfg, s, c, Step(cfg, s, c), p)
  {
    var q, a := c.pool, c.account;
    var cast := CastBallot(s.requests[Key(q, a)], c.voter, c.positive);
    assert IsPending(s, q, a);
    assert c.voter in s.pools[q].participants by {
      assert IsMember(s, c.voter, q);
      assert IsParticipant(s, q, c.voter);
    }
    VerdictLoad(cfg, s, q, a, cast, VerdictIn(s.pools[q], cast), p);
  }

  lemma VerdictLoad(cfg: Config, s: State, q: PoolId, a: AccountId, cast: PoolRequest, verdict: VoteResult, p: PoolId)
    requires CountersAgree(s) && ApplicationsAgree(s) && RelationsAgree(s)
    requires p in s.pools && q in s.pools && IsPending(s, q, a)
    requires cast.peerId == s.requests[Key(q, a)].peerId
    requires ProcessVoteResult(cfg, s, q, a, cast, verdict).Done?
    ensures var t := ProcessVoteResult(cfg, s, q, a, cast, verdict).post;
            && p in t.pools
            && Load(t, p) <= Load(s, p)
            && (|t.pools[p].participants| > |s.pools[p].participants|
                ==> && |t.pools[p].participants| == |s.pools[p].participants| + 1
                    && Load(t, p) == Load(s, p) && |RequestsOf(s, p)| > 0 && p == q)
  {
    assert Key(q, a) in RequestsOf(s, q);
    match verdict
    case Accepted => AdmitCounters(s, q, a, cast.peerId);
    case Denied => DropRequestCounters(s, q, a);
    case Inconclusive => StoreBallotsRelations(s, q, a, cast);
  }

  lemma OnlyCreateMakesPools(cfg: Config, s: State, c: Call, p: PoolId)
    requires p !in s.pools && p in Step(cfg, s, c).pools
    ensures c.Create? && Apply(cfg, s, c).Done? && p == NextPoolId(s) && cfg.maxParticipants > 0
  {
  }

  lemma NewPoolLoad(cfg: Config, s: State, c: Call, p: PoolId)
    requires RelationsAgree(s) && CountersAgree(s) && p !in s.pools && p in Step(cfg, s, c).pools
    ensures |Step(cfg, s, c).pools[p].participants| == 1 <= cfg.maxParticipants
    ensures Load(Step(cfg, s, c), p) == 1 && CounterExact(Step(cfg, s, c), p)
  {
    OnlyCreateMakesPools(cfg, s, c, p);
    GroundedRequestsInPools(s);
    AddPoolCounters(s, c.owner, c.name, c.region, c.peer);
  }

  lemma StepKeepsInhabited(cfg: Config, s: State, c: Call)
    requires Inv(cfg, s) && InhabitedPoolsFit(cfg, s) && cfg.maxParticipants <= 256
    requires IdLeft(cfg, s, c)
    ensures InhabitedPoolsFit(cfg, Step(cfg, s, c))
  {
    var t := Step(cfg, s, c);
    forall p | p in t.pools && t.pools[p].participants != []
      ensures Load(t, p) <= cfg.maxParticipants && |t.pools[p].participants| <= MemberLimit(cfg)
    {
      if p in s.pools {
        LoadMoves(cfg, s, c, p);
        assert s.pools[p].participants != [];
        CounterIsExactBelow256(s, p);
      } else {
        NewPoolLoad(cfg, s, c, p);
      }
    }
  }

  lemma StepKeepsCapacity(cfg: Config, s: State, c: Call)
    requires Inv(cfg, s) && CapacityRespected(cfg, s) && cfg.maxParticipants <= 255
    requires IdLeft(cfg, s, c)
    ensures CapacityRespected(cfg, Step(cfg, s, c))
  {
    var t := Step(cfg, s, c);
    StepKeepsInv(cfg, s, c);
    forall p | p in t.pools ensures Load(t, p) <= cfg.maxParticipants && CounterExact(t, p) {
      if p in s.pools {
        LoadMoves(cfg, s, c, p);
        FullMeansNoRoom(cfg, s, p);
      } else {
        NewPoolLoad(cfg, s, c, p);
      }
      CounterIsExactBelow256(t, p);
    }
  }

  /** Up to a maximum of 256, no acceptance ever fills a pool. */
  lemma {:induction false} RunKeepsInhabited(cfg: Config, calls: seq<Call>)
    requires PoolsCreated(cfg, calls) <= U32_MAX && cfg.maxParticipants <= 256
    ensures InhabitedPoolsFit(cfg, Run(cfg, calls))
  {
    if calls != [] {
      var front, last := calls[..|calls| - 1], calls[|calls| - 1];
      RunKeepsInhabited(cfg, front);
      RunKeepsInv(cfg, front);
      StepKeepsInhabited(cfg, Run(cfg, front), last);
    }
  }

  /** Up to a maximum of 255, capacity is respected and the counters are exact. */
  lemma {:induction false} RunKeepsCapacity(cfg: Config, calls: seq<Call>)
    requires PoolsCreated(cfg, calls) <= U32_MAX && cfg.maxParticipants <= 255
    ensures CapacityRespected(cfg, Run(cfg, calls))
  {
    if calls != [] {
      var front, last := calls[..|calls| - 1], calls[|calls| - 1];
      RunKeepsCapacity(cfg, front);
      RunKeepsInv(cfg, front);
      StepKeepsCapacity(cfg, Run(cfg, front), last);
    }
  }

  // ----- InternalError -----

  /** From a state of a run, a call ends in `InternalError` exactly when it is a vote that
      accepts an applicant into a pool whose participant list is at its bound. The other
      sources of that error (a missing participant on departure, a full voter list, an
      applicant who is already in) cannot occur. */
  lemma InternalErrorIff(cfg: Config, s: State, c: Call)
    requires Inv(cfg, s)
    ensures Apply(cfg, s, c) == Failed(InternalError)
            <==> && c.Vote?
                 && IsMember(s, c.voter, c.pool) && IsPending(s, c.pool, c.account)
                 && var request := s.requests[Key(c.pool, c.account)];
                    && request.peerId == c.peer && c.voter !in request.voted
                    && c.pool in s.pools && !s.pools[c.pool].IsFull(cfg)
                    && VerdictIn(s.pools[c.pool], CastBallot(request, c.voter, c.positive)) == Accepted
                    && |s.pools[c.pool].participants| == cfg.maxParticipants
  {
    match c
    case Create(_, _, _, _) =>
    case LeavePool(caller, p, target) =>
      if p in s.pools && LeaveTarget(s.pools[p], caller, target).Some? {
        var a := LeaveTarget(s.pools[p], caller, target).value;
        assert IsMember(s, a, p) <==> IsParticipant(s, p, a);
      }
    case Join(_, _, _) =>
    case CancelJoin(_, _, _) =>
    case Vote(voter, p, a, positive, peer) =>
      if IsPending(s, p, a) {
        assert IsApplicant(s, a, p);
        assert !IsMember(s, a, p);
        assert !IsParticipant(s, p, a);
        UndecidedIsSmall(cfg, s.requests[Key(p, a)]);
        assert p in s.pools;
      }
  }

  lemma NoInternalErrorUpTo256(cfg: Config, calls: seq<Call>, c: Call)
    requires PoolsCreated(cfg, calls) <= U32_MAX && cfg.maxParticipants <= 256
    ensures Apply(cfg, Run(cfg, calls), c) != Failed(InternalError)
  {
    var s := Run(cfg, calls);
    RunKeepsInv(cfg, calls);
    RunKeepsInhabited(cfg, calls);
    InternalErrorIff(cfg, s, c);
    if c.Vote? && c.pool in s.pools {
      assert IsMember(s, c.voter, c.pool) <==> IsParticipant(s, c.pool, c.voter);
      assert s.pools[c.pool].participants == [] || |s.pools[c.pool].participants| <= MemberLimit(cfg);
      assert IsPending(s, c.pool, c.account) ==> Key(c.pool, c.account) in RequestsOf(s, c.pool);
    }
  }

  // ----- Full pools -----

  /** `leave_pool` and `cancel_join` are the calls that make room. */
  ghost predicate MakesRoom(cfg: Config, s: State, c: Call, p: PoolId) {
    Apply(cfg, s, c).Done? && (c.LeavePool? || c.CancelJoin?) && c.pool == p
  }

  /** None of the calls `more`, made after `calls`, makes room in `p`. */
  ghost predicate NeverMakeRoom(cfg: Config, calls: seq<Call>, more: seq<Call>, p: PoolId) {
    more != [] ==>
      var front, last := more[..|more| - 1], more[|more| - 1];
      NeverMakeRoom(cfg, calls, front, p) && !MakesRoom(cfg, Run(cfg, calls + front), last, p)
  }

  /** Where `is_full` says so, every `join` is refused for want of capacity and every `vote`
      fails, whatever the maximum. */
  lemma FullPoolRefuses(cfg: Config, s: State, c: Call)
    requires (c.Join? || c.Vote?) && c.pool in s.pools && s.pools[c.pool].IsFull(cfg)
    ensures c.Join? ==> Apply(cfg, s, c) == Failed(CapacityReached)
    ensures c.Vote? ==> Apply(cfg, s, c).Failed?
  {
  }

  /** After any run, up to 255 places: a `join` is refused for want of capacity exactly when
      participants and requests have reached the maximum, and then every `vote` fails too. */
  lemma LoadedPoolRefuses(cfg: Config, calls: seq<Call>, c: Call)
    requires PoolsCreated(cfg, calls) <= U32_MAX && cfg.maxParticipants <= 255
    requires (c.Join? || c.Vote?) && c.pool in Run(cfg, calls).pools
    ensures var loaded := Load(Run(cfg, calls), c.pool) >= cfg.maxParticipants;
            && (c.Join? ==> (Apply(cfg, Run(cfg, calls), c) == Failed(CapacityReached) <==> loaded))
            && (c.Vote? && loaded ==> Apply(cfg, Run(cfg, calls), c).Failed?)
  {
    RunKeepsCapacity(cfg, calls);
    FullMeansNoRoom(cfg, Run(cfg, calls), c.pool);
    if Run(cfg, calls).pools[c.pool].IsFull(cfg) {
      FullPoolRefuses(cfg, Run(cfg, calls), c);
    }
  }

  /** Nothing about the pool or the requests to it differs between the two states. */
  ghost predicate PoolUntouched(s: State, t: State, p: PoolId) {
    && p in s.pools && p in t.pools && t.pools[p] == s.pools[p]
    && (forall a :: Key(p, a) in s.requests <==> Key(p, a) in t.requests)
    && (forall a :: Key(p, a) in s.requests && Key(p, a) in t.requests
                    ==> t.requests[Key(p, a)] == s.requests[Key(p, a)])
  }

  /** A call leaves every pool untouched but the one it names. */
  lemma OtherPoolsUntouched(cfg: Config, s: State, c: Call, p: PoolId)
    requires p in s.pools
    requires c.Create? ==> Apply(cfg, s, c).Failed? || NextPoolId(s) !in s.pools
    requires !c.Create? ==> Apply(cfg, s, c).Failed? || c.pool != p
    ensures PoolUntouched(s, Step(cfg, s, c), p)
  {
    match c
    case Create(_, _, _, _) =>
    case LeavePool(_, _, _) =>
    case Join(_, _, _) =>
    case CancelJoin(_, _, _) =>
    case Vote(_, _, _, _, _) =>
  }

  lemma FrozenStep(cfg: Config, s: State, t: State, c: Call, p: PoolId)
    requires PoolUntouched(s, t, p) && s.pools[p].IsFull(cfg) && !MakesRoom(cfg, t, c, p)
    requires c.Create? ==> Apply(cfg, t, c).Failed? || NextPoolId(t) !in t.pools
    ensures PoolUntouched(s, Step(cfg, t, c), p)
  {
    if (c.Join? || c.Vote?) && c.pool == p {
      FullPoolRefuses(cfg, t, c);
    }
    OtherPoolsUntouched(cfg, t, c, p);
  }

  /** Once `is_full` holds the pool is frozen, whatever the maximum: its record and every
      request to it stay as they are until a `leave_pool` or `cancel_join` on it. */
  lemma {:induction false} FullPoolFrozen(cfg: Config, calls: seq<Call>, more: seq<Call>, p: PoolId)
    requires PoolsCreated(cfg, calls + more) <= U32_MAX
    requires p in Run(cfg, calls).pools && Run(cfg, calls).pools[p].IsFull(cfg)
    requires NeverMakeRoom(cfg, calls, more, p)
    ensures PoolUntouched(Run(cfg, calls), Run(cfg, calls + more), p)
    decreases |more|
  {
    if more == [] {
      assert calls + more == calls;
    } else {
      var s, last := LastOfMore(cfg, calls, more);
      FullPoolFrozen(cfg, calls, more[..|more| - 1], p);
      FrozenStep(cfg, Run(cfg, calls), s, last, p);
    }
  }

  lemma NewIdIsFree(cfg: Config, s: State, c: Call)
    requires IdsContiguous(s) && IdLeft(cfg, s, c)
    ensures c.Create? ==> Apply(cfg, s, c).Failed? || NextPoolId(s) !in s.pools
  {
    if s.lastPoolId < U32_MAX {
      FreshId(s);
    }
  }

  /** The last of the calls, and the state it meets. */
  lemma LastOfMore(cfg: Config, calls: seq<Call>, more: seq<Call>) returns (s: State, last: Call)
    requires PoolsCreated(cfg, calls + more) <= U32_MAX && more != []
    ensures PoolsCreated(cfg, calls + more[..|more| - 1]) <= U32_MAX
    ensures last == more[|more| - 1]
    ensures s == Run(cfg, calls + more[..|more| - 1]) && Run(cfg, calls + more) == Step(cfg, s, last)
    ensures last.Create? ==> Apply(cfg, s, last).Failed? || NextPoolId(s) !in s.pools
  {
    var front;
    front, s, last := LastCall(cfg, calls + more);
    assert front == calls + more[..|more| - 1];
    NewIdIsFree(cfg, s, last);
  }

  /** Up to 255 places, that is so once participants and requests reach the maximum. */
  lemma LoadedPoolFrozen(cfg: Config, calls: seq<Call>, more: seq<Call>, p: PoolId)
    requires PoolsCreated(cfg, calls + more) <= U32_MAX && cfg.maxParticipants <= 255
    requires p in Run(cfg, calls).pools && Load(Run(cfg, calls), p) >= cfg.maxParticipants
    requires NeverMakeRoom(cfg, calls, more, p)
    ensures PoolUntouched(Run(cfg, calls), Run(cfg, calls + more), p)
  {
    assert (calls + more)[..|calls|] == calls;
    CreatedMonotone(cfg, calls + more, |calls|);
    RunKeepsCapacity(cfg, calls);
    FullMeansNoRoom(cfg, Run(cfg, calls), p);
    FullPoolFrozen(cfg, calls, more, p);
  }
}
