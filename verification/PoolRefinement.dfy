/** Up to 255 participants a pool, the pallet with its three maps, its 8-bit counters and its
    bisected lists answers every call as the simple pools do, and ends up in the same place. */
module PoolRefinement {
  import opened Wrappers
  import opened Widths
  import opened SortedSeq
  import opened PoolSpec
  import opened PoolInvariant
  import opened PoolVoting
  import opened PoolHistory
  import opened PoolCapacity
  import opened PoolLimits
  import opened PoolSimple

  // ----- What a storage means -----

  ghost function StatusOf(s: State, a: AccountId): Status
    requires a in s.users
  {
    var user := s.users[a];
    if user.poolId.Some? then MemberOf(user.poolId.value)
    else if user.requestPoolId.Some? && Key(user.requestPoolId.value, a) in s.requests then
      var request := s.requests[Key(user.requestPoolId.value, a)];
      Waiting(user.requestPoolId.value, Elements(request.voted), request.positiveVotes)
    else Free
  }

  ghost function InfoOf(pool: Pool): PoolInfo {
    PoolInfo(pool.name, if pool.owner.Some? then pool.owner.value else 0, pool.region)
  }

  ghost function Meaning(s: State): World {
    World(map p | p in s.pools :: InfoOf(s.pools[p]),
          map a | a in s.users :: Person(StatusOf(s, a), s.users[a].peerId))
  }

  ghost function EffectOf(outcome: Outcome): Effect {
    match outcome
    case Done(post) => Became(Meaning(post))
    case Failed(error) => Refused(error)
  }

  // ----- The sizes agree -----

  lemma MembersAreParticipants(cfg: Config, s: State, p: PoolId)
    requires Inv(cfg, s) && p in s.pools
    ensures Members(Meaning(s), p) == Elements(s.pools[p].participants)
    ensures |Members(Meaning(s), p)| == |s.pools[p].participants|
  {
    var members := Members(Meaning(s), p);
    forall a ensures a in members <==> a in Elements(s.pools[p].participants) {
      assert IsParticipant(s, p, a) <==> IsMember(s, a, p);
    }
    assert members == Elements(s.pools[p].participants);
    SortedLength(s.pools[p].participants);
  }

  lemma CandidatesIff(cfg: Config, s: State, p: PoolId, a: AccountId)
    requires Inv(cfg, s)
    ensures a in Candidates(Meaning(s), p) <==> Key(p, a) in s.requests
    ensures Key(p, a) in s.requests
            ==> && a in s.users && s.users[a].poolId.None? && s.users[a].requestPoolId == Some(p)
                && s.requests[Key(p, a)].peerId == s.users[a].peerId && p in s.pools
  {
    assert IsPending(s, p, a) <==> IsApplicant(s, a, p);
  }

  lemma {:induction false} SameSize(accounts: set<AccountId>, keys: set<Key>, p: PoolId)
    requires forall k :: k in keys ==> k.pool == p
    requires forall a :: a in accounts <==> Key(p, a) in keys
    ensures |accounts| == |keys|
  {
    if keys == {} {
      assert accounts == {} by {
        forall a ensures a !in accounts {
          assert Key(p, a) !in keys;
        }
      }
    } else {
      var k :| k in keys;
      assert k == Key(p, k.who);
      SameSize(accounts - {k.who}, keys - {k}, p);
    }
  }

  lemma CandidatesAreRequests(cfg: Config, s: State, p: PoolId)
    requires Inv(cfg, s)
    ensures |Candidates(Meaning(s), p)| == |RequestsOf(s, p)|
  {
    forall a ensures a in Candidates(Meaning(s), p) <==> Key(p, a) in RequestsOf(s, p) {
      CandidatesIff(cfg, s, p, a);
    }
    SameSize(Candidates(Meaning(s), p), RequestsOf(s, p), p);
  }

  lemma CapacityAgrees(cfg: Config, s: State, p: PoolId)
    requires Inv(cfg, s) && CapacityRespected(cfg, s) && p in s.pools
    ensures AtCapacity(cfg, Meaning(s), p) <==> s.pools[p].IsFull(cfg)
  {
    MembersAreParticipants(cfg, s, p);
    CandidatesAreRequests(cfg, s, p);
    FullMeansNoRoom(cfg, s, p);
  }

  lemma MeaningIsSound(cfg: Config, s: State)
    requires Inv(cfg, s)
    ensures TalliesMakeSense(Meaning(s))
    ensures |Meaning(s).pools| == s.lastPoolId
  {
    var w := Meaning(s);
    forall a | a in w.people && w.people[a].status.Waiting?
      ensures w.people[a].status.inFavour <= |w.people[a].status.voters|
    {
      var request := s.requests[Key(w.people[a].status.pool, a)];
      UndecidedIsSmall(cfg, request);
      SortedLength(request.voted);
    }
    ContiguousCount(s.pools.Keys, s.lastPoolId);
    assert w.pools.Keys == s.pools.Keys;
  }

  // ----- The calls agree -----

  /** Two storages mean the same except for one person. */
  lemma MeaningChanges(s: State, t: State, a: AccountId)
    requires t.pools.Keys == s.pools.Keys && forall p :: p in s.pools ==> InfoOf(t.pools[p]) == InfoOf(s.pools[p])
    requires a in t.users && t.users.Keys == s.users.Keys + {a}
    requires forall b :: b in s.users && b != a ==> t.users[b] == s.users[b]
    requires forall p, b :: b != a ==> (Key(p, b) in t.requests <==> Key(p, b) in s.requests)
    requires forall p, b :: b != a && Key(p, b) in s.requests ==> t.requests[Key(p, b)] == s.requests[Key(p, b)]
    ensures Meaning(t) == Meaning(s).(people := Meaning(s).people[a := Person(StatusOf(t, a), t.users[a].peerId)])
  {
    forall b | b in s.users && b != a ensures StatusOf(t, b) == StatusOf(s, b) {}
  }

  lemma LeaveMeaning(s: State, p: PoolId, a: AccountId)
    requires p in s.pools && a in s.users && s.users[a].requestPoolId.None?
    ensures Meaning(RemoveParticipant(s, p, a)) == SetStatus(Meaning(s), a, Free)
  {
    MeaningChanges(s, RemoveParticipant(s, p, a), a);
  }

  lemma JoinMeaning(s: State, p: PoolId, a: AccountId, peer: Bytes)
    requires p in s.pools && UserOrDefault(s, a).IsFree()
    ensures Meaning(AddRequest(s, p, a, peer))
            == Meaning(s).(people := Meaning(s).people[a := Person(Waiting(p, {}, 0), peer)])
  {
    MeaningChanges(s, AddRequest(s, p, a, peer), a);
    assert Elements([]) == {};
  }

  lemma DropMeaning(s: State, p: PoolId, a: AccountId)
    requires p in s.pools && a in s.users && s.users[a].poolId.None?
    ensures Meaning(DropRequest(s, p, a)) == SetStatus(Meaning(s), a, Free)
  {
    MeaningChanges(s, DropRequest(s, p, a), a);
  }

  lemma AdmitMeaning(s: State, p: PoolId, a: AccountId)
    requires p in s.pools && a in s.users
    ensures Meaning(Admit(s, p, a, s.users[a].peerId)) == SetStatus(Meaning(s), a, MemberOf(p))
  {
    MeaningChanges(s, Admit(s, p, a, s.users[a].peerId), a);
  }

  lemma StoreMeaning(s: State, p: PoolId, a: AccountId, cast: PoolRequest)
    requires a in s.users && s.users[a].poolId.None? && s.users[a].requestPoolId == Some(p)
    ensures Meaning(StoreBallots(s, p, a, cast))
            == SetStatus(Meaning(s), a, Waiting(p, Elements(cast.voted), cast.positiveVotes))
  {
    MeaningChanges(s, StoreBallots(s, p, a, cast), a);
  }

  lemma CreateMeaning(s: State, owner: AccountId, name: Bytes, region: Bytes, peer: Bytes)
    requires s.lastPoolId < U32_MAX
    ensures var w, id := Meaning(s), s.lastPoolId + 1;
            Meaning(AddPool(s, owner, name, region, peer))
            == World(w.pools[id := PoolInfo(name, owner, region)], w.people[owner := Person(MemberOf(id), peer)])
  {
    var w, t, id := Meaning(s), AddPool(s, owner, name, region, peer), s.lastPoolId + 1;
    assert NextPoolId(s) == id;
    forall b | b in s.users && b != owner ensures StatusOf(t, b) == StatusOf(s, b) {}
    assert Meaning(t).pools == w.pools[id := PoolInfo(name, owner, region)];
    assert Meaning(t).people == w.people[owner := Person(MemberOf(id), peer)];
  }

  lemma IdleIff(cfg: Config, s: State, a: AccountId)
    requires Inv(cfg, s)
    ensures IsIdle(Meaning(s), a) <==> UserOrDefault(s, a).IsFree()
  {
    if a in s.users && s.users[a].requestPoolId.Some? {
      assert IsApplicant(s, a, s.users[a].requestPoolId.value);
      assert IsPending(s, s.users[a].requestPoolId.value, a);
    }
  }

  lemma CreateRefines(cfg: Config, s: State, c: Call)
    requires c.Create? && s.lastPoolId < U32_MAX
    requires IsIdle(Meaning(s), c.owner) <==> UserOrDefault(s, c.owner).IsFree()
    requires TalliesMakeSense(Meaning(s)) && |Meaning(s).pools| == s.lastPoolId
    ensures Effects(cfg, Meaning(s), c) == EffectOf(Apply(cfg, s, c))
  {
    CreateMeaning(s, c.owner, c.name, c.region, c.peer);
  }

  lemma StatusIsMember(s: State, a: AccountId, p: PoolId)
    requires a in s.users
    ensures StatusOf(s, a) == MemberOf(p) <==> s.users[a].poolId == Some(p)
  {
  }

  lemma LeaveRefines(cfg: Config, s: State, c: Call)
    requires c.LeavePool? && MembershipAgrees(s) && NobodyIsBoth(s) && OwnersKnown(s)
    requires TalliesMakeSense(Meaning(s)) && |Meaning(s).pools| == s.lastPoolId
    ensures Effects(cfg, Meaning(s), c) == EffectOf(Apply(cfg, s, c))
  {
    var p := c.pool;
    if p in s.pools && LeaveTarget(s.pools[p], c.caller, c.target).Some? {
      var a := LeaveTarget(s.pools[p], c.caller, c.target).value;
      assert IsParticipant(s, p, a) <==> IsMember(s, a, p);
      if a in s.users {
        StatusIsMember(s, a, p);
        if s.users[a].poolId == Some(p) {
          LeaveMeaning(s, p, a);
        }
      }
    }
  }

  lemma JoinRefines(cfg: Config, s: State, c: Call)
    requires c.Join?
    requires IsIdle(Meaning(s), c.account) <==> UserOrDefault(s, c.account).IsFree()
    requires c.pool in s.pools ==> (AtCapacity(cfg, Meaning(s), c.pool) <==> s.pools[c.pool].IsFull(cfg))
    requires TalliesMakeSense(Meaning(s)) && |Meaning(s).pools| == s.lastPoolId
    ensures Effects(cfg, Meaning(s), c) == EffectOf(Apply(cfg, s, c))
  {
    if c.pool in s.pools && UserOrDefault(s, c.account).IsFree() {
      JoinMeaning(s, c.pool, c.account, c.peer);
    }
  }

  lemma CancelRefines(cfg: Config, s: State, c: Call)
    requires Inv(cfg, s) && c.CancelJoin?
    requires TalliesMakeSense(Meaning(s)) && |Meaning(s).pools| == s.lastPoolId
    ensures Effects(cfg, Meaning(s), c) == EffectOf(Apply(cfg, s, c))
  {
    if c.pool in s.pools && CancelTarget(s.pools[c.pool], c.caller, c.target).Some? {
      var a := CancelTarget(s.pools[c.pool], c.caller, c.target).value;
      CandidatesIff(cfg, s, c.pool, a);
      if Apply(cfg, s, c).Done? {
        DropMeaning(s, c.pool, a);
      }
    }
  }

  lemma VerdictRefines(p: PoolId, owner: AccountId, cast: PoolRequest, n: u16)
    requires StrictlySorted(cast.voted) && |cast.voted| < U16_SIZE && cast.positiveVotes <= |cast.voted|
    ensures |Elements(cast.voted)| == |cast.voted|
    ensures Decide(p, owner, Elements(cast.voted), cast.positiveVotes, n)
            == match Verdict(cast, Some(owner), n)
               case Accepted => MemberOf(p)
               case Denied => Free
               case Inconclusive => Waiting(p, Elements(cast.voted), cast.positiveVotes)
  {
    SortedLength(cast.voted);
    WrapU16Identity(|cast.voted|);
    WrapU16Identity(|cast.voted| - cast.positiveVotes);
  }

  /** The consequence of a verdict. */
  lemma ConsequenceRefines(cfg: Config, s: State, p: PoolId, a: AccountId, cast: PoolRequest, verdict: VoteResult)
    requires p in s.pools && a in s.users && s.users[a].poolId.None? && s.users[a].requestPoolId == Some(p)
    requires a !in s.pools[p].participants && |s.pools[p].participants| < cfg.maxParticipants
    requires cast.peerId == s.users[a].peerId
    ensures EffectOf(ProcessVoteResult(cfg, s, p, a, cast, verdict))
            == Became(SetStatus(Meaning(s), a,
                                match verdict
                                case Accepted => MemberOf(p)
                                case Denied => Free
                                case Inconclusive => Waiting(p, Elements(cast.voted), cast.positiveVotes)))
  {
    match verdict
    case Accepted => AdmitMeaning(s, p, a);
    case Denied => DropMeaning(s, p, a);
    case Inconclusive => StoreMeaning(s, p, a, cast);
  }

  lemma NotParticipant(cfg: Config, s: State, p: PoolId, a: AccountId)
    requires Inv(cfg, s) && Key(p, a) in s.requests && p in s.pools
    ensures a !in s.pools[p].participants
  {
    CandidatesIff(cfg, s, p, a);
    assert IsParticipant(s, p, a) <==> IsMember(s, a, p);
  }

  /** The decision on a ballot that has been cast. */
  lemma DecisionRefines(cfg: Config, s: State, p: PoolId, a: AccountId, cast: PoolRequest)
    requires p in s.pools && a in s.users && s.users[a].poolId.None? && s.users[a].requestPoolId == Some(p)
    requires a !in s.pools[p].participants && |s.pools[p].participants| < cfg.maxParticipants <= 255
    requires cast.peerId == s.users[a].peerId && s.pools[p].owner.Some?
    requires StrictlySorted(cast.voted) && |cast.voted| < U16_SIZE && cast.positiveVotes <= |cast.voted|
    ensures cast.positiveVotes <= |Elements(cast.voted)|
    ensures EffectOf(ProcessVoteResult(cfg, s, p, a, cast, VerdictIn(s.pools[p], cast)))
            == Became(SetStatus(Meaning(s), a, Decide(p, s.pools[p].owner.value, Elements(cast.voted), cast.positiveVotes,
                                                      |s.pools[p].participants|)))
  {
    WrapU16Identity(|s.pools[p].participants|);
    VerdictRefines(p, s.pools[p].owner.value, cast, |s.pools[p].participants|);
    ConsequenceRefines(cfg, s, p, a, cast, VerdictIn(s.pools[p], cast));
  }

  /** The vote passes every check of `vote`. */
  predicate Counts(cfg: Config, s: State, c: Call)
    requires c.Vote?
  {
    && c.voter in s.users && s.users[c.voter].poolId == Some(c.pool)
    && Key(c.pool, c.account) in s.requests && c.pool in s.pools && !s.pools[c.pool].IsFull(cfg)
    && var request := s.requests[Key(c.pool, c.account)];
       request.peerId == c.peer && c.voter !in request.voted
  }

  lemma CountedBallot(cfg: Config, s: State, c: Call)
    requires c.Vote? && Counts(cfg, s, c) && |s.requests[Key(c.pool, c.account)].voted| < cfg.maxParticipants
    ensures var cast := CastBallot(s.requests[Key(c.pool, c.account)], c.voter, c.positive);
            Apply(cfg, s, c) == ProcessVoteResult(cfg, s, c.pool, c.account, cast, VerdictIn(s.pools[c.pool], cast))
  {
  }

  /** What becomes of the applicant when the ballot counts. */
  ghost function NewStatus(pool: Pool, p: PoolId, cast: PoolRequest): Status
    requires cast.positiveVotes <= |Elements(cast.voted)|
  {
    Decide(p, InfoOf(pool).owner, Elements(cast.voted), cast.positiveVotes, |pool.participants|)
  }

  /** The stored request with the ballot on it. */
  ghost predicate IsCast(request: PoolRequest, c: Call, cast: PoolRequest)
    requires c.Vote?
  {
    && cast == CastBallot(request, c.voter, c.positive)
    && Elements(cast.voted) == Elements(request.voted) + {c.voter}
    && cast.positiveVotes == request.positiveVotes + (if c.positive then 1 else 0)
    && cast.positiveVotes <= |Elements(cast.voted)|
  }

  lemma BallotRefines(cfg: Config, s: State, c: Call) returns (cast: PoolRequest)
    requires Inv(cfg, s) && CapacityRespected(cfg, s) && cfg.maxParticipants <= 255
    requires c.Vote? && Counts(cfg, s, c)
    ensures IsCast(s.requests[Key(c.pool, c.account)], c, cast) && c.account in s.users
    ensures EffectOf(ProcessVoteResult(cfg, s, c.pool, c.account, cast, VerdictIn(s.pools[c.pool], cast)))
            == Became(SetStatus(Meaning(s), c.account, NewStatus(s.pools[c.pool], c.pool, cast)))
  {
    var p, a := c.pool, c.account;
    var request := s.requests[Key(p, a)];
    cast := CastBallot(request, c.voter, c.positive);
    CandidatesIff(cfg, s, p, a);
    NotParticipant(cfg, s, p, a);
    CastFits(cfg, request, c.voter, c.positive);
    assert Load(s, p) <= cfg.maxParticipants && CounterExact(s, p);
    DecisionRefines(cfg, s, p, a, cast);
  }

  /** The storage and its meaning agree about what `vote` looks at. */
  ghost predicate VoteViewAgrees(cfg: Config, s: State, p: PoolId, a: AccountId) {
    var w := Meaning(s);
    && (a in Candidates(w, p) <==> Key(p, a) in s.requests)
    && (Key(p, a) in s.requests ==>
          && p in s.pools && a in s.users
          && StatusOf(s, a) == Waiting(p, Elements(s.requests[Key(p, a)].voted), s.requests[Key(p, a)].positiveVotes)
          && s.requests[Key(p, a)].peerId == s.users[a].peerId
          && |s.requests[Key(p, a)].voted| < cfg.maxParticipants
          && |Members(w, p)| == |s.pools[p].participants|
          && (AtCapacity(cfg, w, p) <==> s.pools[p].IsFull(cfg)))
  }

  lemma VoteViews(cfg: Config, s: State, p: PoolId, a: AccountId)
    requires Inv(cfg, s) && CapacityRespected(cfg, s)
    ensures VoteViewAgrees(cfg, s, p, a)
  {
    CandidatesIff(cfg, s, p, a);
    if Key(p, a) in s.requests {
      MembersAreParticipants(cfg, s, p);
      CapacityAgrees(cfg, s, p);
      UndecidedIsSmall(cfg, s.requests[Key(p, a)]);
    }
  }

  /** A vote that does not count is refused for the same reason. */
  lemma RefusedVoteRefines(cfg: Config, s: State, c: Call)
    requires c.Vote? && !Counts(cfg, s, c) && VoteViewAgrees(cfg, s, c.pool, c.account)
    requires TalliesMakeSense(Meaning(s)) && |Meaning(s).pools| == s.lastPoolId
    ensures Effects(cfg, Meaning(s), c) == EffectOf(Apply(cfg, s, c))
  {
    if c.voter in s.users {
      StatusIsMember(s, c.voter, c.pool);
    }
  }

  /** The vote meets every condition in the world, where pool and request are as given. */
  ghost predicate Stands(cfg: Config, w: World, c: Call, pool: Pool, request: PoolRequest)
    requires c.Vote?
  {
    && c.voter in Members(w, c.pool) && c.account in Candidates(w, c.pool)
    && w.people[c.account] == Person(Waiting(c.pool, Elements(request.voted), request.positiveVotes), c.peer)
    && c.voter !in Elements(request.voted)
    && c.pool in w.pools && w.pools[c.pool] == InfoOf(pool)
    && |Members(w, c.pool)| == |pool.participants| && !AtCapacity(cfg, w, c.pool)
  }

  lemma CountedVoteStands(cfg: Config, s: State, c: Call)
    requires c.Vote? && Counts(cfg, s, c) && VoteViewAgrees(cfg, s, c.pool, c.account)
    ensures Stands(cfg, Meaning(s), c, s.pools[c.pool], s.requests[Key(c.pool, c.account)])
  {
    StatusIsMember(s, c.voter, c.pool);
  }

  lemma CountedVoteEffect(cfg: Config, w: World, c: Call, pool: Pool, request: PoolRequest, cast: PoolRequest)
    requires c.Vote? && Stands(cfg, w, c, pool, request) && IsCast(request, c, cast)
    requires TalliesMakeSense(w) && |w.pools| <= U32_MAX
    ensures Effects(cfg, w, c) == Became(SetStatus(w, c.account, NewStatus(pool, c.pool, cast)))
  {
    VoteEffect(cfg, w, c);
  }

  lemma VoteRefines(cfg: Config, s: State, c: Call)
    requires Inv(cfg, s) && CapacityRespected(cfg, s) && cfg.maxParticipants <= 255 && c.Vote?
    requires TalliesMakeSense(Meaning(s)) && |Meaning(s).pools| == s.lastPoolId
    ensures Effects(cfg, Meaning(s), c) == EffectOf(Apply(cfg, s, c))
  {
    VoteViews(cfg, s, c.pool, c.account);
    if Counts(cfg, s, c) {
      var cast := BallotRefines(cfg, s, c);
      CountedBallot(cfg, s, c);
      CountedVoteStands(cfg, s, c);
      CountedVoteEffect(cfg, Meaning(s), c, s.pools[c.pool], s.requests[Key(c.pool, c.account)], cast);
    } else {
      RefusedVoteRefines(cfg, s, c);
    }
  }

  lemma StepRefines(cfg: Config, s: State, c: Call)
    requires Inv(cfg, s) && CapacityRespected(cfg, s) && cfg.maxParticipants <= 255
    requires c.Create? ==> s.lastPoolId < U32_MAX
    ensures TalliesMakeSense(Meaning(s)) && |Meaning(s).pools| == s.lastPoolId
    ensures Effects(cfg, Meaning(s), c) == EffectOf(Apply(cfg, s, c))
  {
    MeaningIsSound(cfg, s);
    match c
    case Create(owner, _, _, _) =>
      IdleIff(cfg, s, owner);
      CreateRefines(cfg, s, c);
    case LeavePool(_, _, _) =>
      LeaveRefines(cfg, s, c);
    case Join(a, p, _) =>
      IdleIff(cfg, s, a);
      if p in s.pools {
        CapacityAgrees(cfg, s, p);
      }
      JoinRefines(cfg, s, c);
    case CancelJoin(_, _, _) => CancelRefines(cfg, s, c);
    case Vote(_, _, _, _, _) => VoteRefines(cfg, s, c);
  }

  /** After every run the next call has the effect the simple pools prescribe: the same
      error, or the same new world. */
  lemma PalletRefinesSimplePools(cfg: Config, calls: seq<Call>, c: Call)
    requires cfg.maxParticipants <= 255
    requires PoolsCreated(cfg, calls) < U32_MAX
    ensures var w := Meaning(Run(cfg, calls));
            && TalliesMakeSense(w) && |w.pools| < U32_MAX
            && Effects(cfg, w, c) == EffectOf(Apply(cfg, Run(cfg, calls), c))
            && (Effects(cfg, w, c).Became? ==> Effects(cfg, w, c).world == Meaning(Run(cfg, calls + [c])))
            && (Effects(cfg, w, c).Refused? ==> Run(cfg, calls + [c]) == Run(cfg, calls))
  {
    RunKeepsInv(cfg, calls);
    RunKeepsCapacity(cfg, calls);
    StepRefines(cfg, Run(cfg, calls), c);
    RunExtend(cfg, calls, c);
  }

  /** So every run of the pallet means the run of the simple pools on the same calls. */
  lemma {:induction false} RunRefinesSimplePools(cfg: Config, calls: seq<Call>)
    requires cfg.maxParticipants <= 255 && PoolsCreated(cfg, calls) <= U32_MAX
    ensures Meaning(Run(cfg, calls)) == SimpleRun(cfg, calls)
  {
    if calls == [] {
      assert Meaning(Init()) == World(map[], map[]);
    } else {
      var front, s, last := LastCall(cfg, calls);
      RunRefinesSimplePools(cfg, front);
      RunKeepsCapacity(cfg, front);
      MeaningIsSound(cfg, s);
      if !last.Create? || s.lastPoolId < U32_MAX {
        StepRefines(cfg, s, last);
      }
    }
  }

  /** Beyond 255 places there is a run that leaves more people waiting than the simple pools
      ever let in. */
  lemma RefinementBreaks(cfg: Config) returns (calls: seq<Call>)
    requires cfg.maxPools != Some(0) && cfg.maxParticipants >= 256
    ensures PoolsCreated(cfg, calls) <= 1
    ensures |Candidates(Meaning(Run(cfg, calls)), 1)| == cfg.maxParticipants + 1
    ensures Meaning(Run(cfg, calls)) != SimpleRun(cfg, calls)
  {
    calls := JoinAll(cfg, true, cfg.maxParticipants + 1);
    var s := Run(cfg, calls);
    RunKeepsInv(cfg, calls);
    LobbyLoad(s, [], 0, cfg.maxParticipants + 1);
    CandidatesAreRequests(cfg, s, 1);
    SimpleRunKeepsCapacity(cfg, calls);
    OccupantsSplit(SimpleRun(cfg, calls), 1);
  }

  /** Every run of the pallet means the run of the simple pools, if and only if pools have at
      most 255 places. */
  lemma {:induction false} RefinementIff(cfg: Config)
    requires cfg.maxPools != Some(0)
    ensures (forall calls :: PoolsCreated(cfg, calls) <= U32_MAX ==> Meaning(Run(cfg, calls)) == SimpleRun(cfg, calls))
            <==> cfg.maxParticipants <= 255
  {
    if cfg.maxParticipants <= 255 {
      forall calls | PoolsCreated(cfg, calls) <= U32_MAX ensures Meaning(Run(cfg, calls)) == SimpleRun(cfg, calls) {
        RunRefinesSimplePools(cfg, calls);
      }
    } else {
      var calls := RefinementBreaks(cfg);
      assert PoolsCreated(cfg, calls) <= U32_MAX;
    }
  }
}
