/** Whole runs of the pool pallet: what the storage says about the calls that led to it. */
module PoolHistory {
  import opened Wrappers
  import opened Widths
  import opened PoolSpec
  import opened PoolInvariant
  import opened PoolVoting

  // ----- Pool identifiers -----

  /** The number of successful `create` calls of a run. */
  ghost function PoolsCreated(cfg: Config, calls: seq<Call>): nat {
    if calls == [] then 0
    else
      var front, last := calls[..|calls| - 1], calls[|calls| - 1];
      PoolsCreated(cfg, front) + if last.Create? && Apply(cfg, Run(cfg, front), last).Done? then 1 else 0
  }

  lemma InitInv(cfg: Config)
    ensures Inv(cfg, Init())
  {
    assert RelationsAgree(Init());
  }

  lemma StepLastPoolId(cfg: Config, s: State, c: Call)
    ensures Step(cfg, s, c).lastPoolId
            == if c.Create? && Apply(cfg, s, c).Done? then NextPoolId(s) else s.lastPoolId
  {
  }

  /** The invariant holds after every run that does not exhaust the 32-bit pool identifiers. */
  lemma {:induction false} RunKeepsInv(cfg: Config, calls: seq<Call>)
    requires PoolsCreated(cfg, calls) <= U32_MAX
    ensures Inv(cfg, Run(cfg, calls))
    ensures Run(cfg, calls).lastPoolId == PoolsCreated(cfg, calls)
  {
    if calls == [] {
      InitInv(cfg);
    } else {
      var front, last := calls[..|calls| - 1], calls[|calls| - 1];
      RunKeepsInv(cfg, front);
      StepLastPoolId(cfg, Run(cfg, front), last);
      StepKeepsInv(cfg, Run(cfg, front), last);
    }
  }

  /** The last call of a run, and the state it meets. */
  lemma LastCall(cfg: Config, calls: seq<Call>) returns (front: seq<Call>, s: State, c: Call)
    requires calls != [] && PoolsCreated(cfg, calls) <= U32_MAX
    ensures front == calls[..|calls| - 1] && c == calls[|calls| - 1]
    ensures s == Run(cfg, front) && Run(cfg, calls) == Step(cfg, s, c)
    ensures PoolsCreated(cfg, front) <= U32_MAX
    ensures Inv(cfg, s) && IdLeft(cfg, s, c)
    ensures Inv(cfg, Step(cfg, s, c))
  {
    front, c := calls[..|calls| - 1], calls[|calls| - 1];
    s := Run(cfg, front);
    RunKeepsInv(cfg, front);
    RunKeepsInv(cfg, calls);
  }

  lemma {:induction false} RunExtend(cfg: Config, calls: seq<Call>, c: Call)
    ensures Run(cfg, calls + [c]) == Step(cfg, Run(cfg, calls), c)
  {
    assert (calls + [c])[..|calls|] == calls;
  }

  lemma CreatedUnchanged(cfg: Config, calls: seq<Call>, c: Call)
    requires !c.Create?
    ensures PoolsCreated(cfg, calls + [c]) == PoolsCreated(cfg, calls)
  {
    assert (calls + [c])[..|calls|] == calls;
  }

  lemma {:induction false} CreatedMonotone(cfg: Config, calls: seq<Call>, k: nat)
    requires k <= |calls|
    ensures PoolsCreated(cfg, calls[..k]) <= PoolsCreated(cfg, calls)
  {
    if k == |calls| {
      assert calls[..k] == calls;
    } else {
      CreatedMonotone(cfg, calls[..|calls| - 1], k);
      assert calls[..|calls| - 1][..k] == calls[..k];
    }
  }

  /** With `MaxPools` set, identifiers never run out, and the pools are never more than that. */
  lemma {:induction false} MaxPoolsBoundsRuns(cfg: Config, calls: seq<Call>)
    requires cfg.maxPools.Some?
    ensures PoolsCreated(cfg, calls) <= cfg.maxPools.value
    ensures |Run(cfg, calls).pools| == PoolsCreated(cfg, calls)
  {
    MaxPoolsBoundsCreated(cfg, calls);
    RunKeepsInv(cfg, calls);
    ContiguousCount(Run(cfg, calls).pools.Keys, Run(cfg, calls).lastPoolId);
  }

  lemma {:induction false} MaxPoolsBoundsCreated(cfg: Config, calls: seq<Call>)
    requires cfg.maxPools.Some?
    ensures PoolsCreated(cfg, calls) <= cfg.maxPools.value
  {
    if calls != [] {
      var front := calls[..|calls| - 1];
      MaxPoolsBoundsCreated(cfg, front);
      RunKeepsInv(cfg, front);
    }
  }

  lemma {:induction false} ContiguousCount(ids: set<PoolId>, n: nat)
    requires forall p: PoolId :: p in ids <==> 1 <= p <= n
    requires n <= U32_MAX
    ensures |ids| == n
  {
    if n == 0 {
      assert ids == {};
    } else {
      var top: PoolId := n;
      ContiguousCount(ids - {top}, n - 1);
    }
  }

  /** Identifiers are exactly 1 .. `LastPoolId` throughout a run if and only if the run makes
      at most 2^32 - 1 pools: one more `create` wraps the counter and makes pool 0. */
  lemma {:induction false} IdsContiguousIff(cfg: Config, calls: seq<Call>)
    ensures (forall k: nat :: k <= |calls| ==> IdsContiguous(Run(cfg, calls[..k])))
            <==> PoolsCreated(cfg, calls) <= U32_MAX
  {
    if PoolsCreated(cfg, calls) <= U32_MAX {
      forall k: nat | k <= |calls| ensures IdsContiguous(Run(cfg, calls[..k])) {
        CreatedMonotone(cfg, calls, k);
        RunKeepsInv(cfg, calls[..k]);
      }
    } else {
      var k := IdsRunOut(cfg, calls);
      assert !IdsContiguous(Run(cfg, calls[..k]));
    }
  }

  lemma IdWraps(cfg: Config, s: State, c: Call)
    requires s.lastPoolId == U32_MAX && c.Create? && Apply(cfg, s, c).Done?
    ensures !IdsContiguous(Step(cfg, s, c))
  {
    assert 0 in Step(cfg, s, c).pools;
  }

  lemma {:induction false} IdsRunOut(cfg: Config, calls: seq<Call>) returns (k: nat)
    requires PoolsCreated(cfg, calls) > U32_MAX
    ensures k <= |calls| && !IdsContiguous(Run(cfg, calls[..k]))
  {
    var front, last := calls[..|calls| - 1], calls[|calls| - 1];
    if PoolsCreated(cfg, front) > U32_MAX {
      k := IdsRunOut(cfg, front);
      assert front[..k] == calls[..k];
    } else {
      RunKeepsInv(cfg, front);
      k := |calls|;
      assert calls[..k] == calls;
      IdWraps(cfg, Run(cfg, front), last);
    }
  }

  lemma CreateOne(cfg: Config, calls: seq<Call>, owner: AccountId) returns (more: seq<Call>)
    requires cfg.maxPools.None? && cfg.maxParticipants > 0
    requires owner !in Run(cfg, calls).users
    ensures PoolsCreated(cfg, more) == PoolsCreated(cfg, calls) + 1
    ensures Run(cfg, more).users.Keys == Run(cfg, calls).users.Keys + {owner}
  {
    var c := Create(owner, [], [], []);
    more := calls + [c];
    assert more[..|calls|] == calls;
    assert Apply(cfg, Run(cfg, calls), c) == Done(AddPool(Run(cfg, calls), owner, [], [], []));
  }

  /** Without `MaxPools` a run makes as many pools as there are accounts. */
  lemma {:induction false} CreateMany(cfg: Config, n: nat) returns (calls: seq<Call>)
    requires cfg.maxPools.None? && cfg.maxParticipants > 0
    ensures PoolsCreated(cfg, calls) == n
    ensures forall a :: a in Run(cfg, calls).users ==> a < n
  {
    if n == 0 {
      calls := [];
    } else {
      calls := CreateMany(cfg, n - 1);
      calls := CreateOne(cfg, calls, n - 1);
    }
  }

  lemma {:induction false} NothingCreated(cfg: Config, calls: seq<Call>)
    requires cfg.maxParticipants == 0
    ensures PoolsCreated(cfg, calls) == 0
  {
    if calls != [] {
      NothingCreated(cfg, calls[..|calls| - 1]);
    }
  }

  /** Identifiers are 1 .. `LastPoolId` in every run, if and only if `MaxPools` is set or no
      pool can be made at all. */
  lemma {:induction false} IdsAlwaysContiguousIff(cfg: Config)
    ensures (forall calls :: IdsContiguous(Run(cfg, calls))) <==> cfg.maxPools.Some? || cfg.maxParticipants == 0
  {
    if cfg.maxPools.Some? || cfg.maxParticipants == 0 {
      forall calls ensures IdsContiguous(Run(cfg, calls)) {
        if cfg.maxPools.Some? {
          MaxPoolsBoundsCreated(cfg, calls);
        } else {
          NothingCreated(cfg, calls);
        }
        RunKeepsInv(cfg, calls);
      }
    } else {
      var calls := CreateMany(cfg, U32_MAX + 1);
      var k := IdsRunOut(cfg, calls);
      assert !IdsContiguous(Run(cfg, calls[..k]));
    }
  }

  /** What a later state may not change about a pool. */
  ghost predicate PoolPersists(s: State, t: State) {
    && (forall p :: p in s.pools ==>
          && p in t.pools
          && t.pools[p].owner == s.pools[p].owner
          && t.pools[p].name == s.pools[p].name
          && t.pools[p].region == s.pools[p].region
          && t.pools[p].parent == s.pools[p].parent)
    && (forall a :: a in s.users ==> a in t.users)
  }

  lemma StepPersists(cfg: Config, s: State, c: Call)
    requires c.Create? && Apply(cfg, s, c).Done? ==> NextPoolId(s) !in s.pools
    ensures PoolPersists(s, Step(cfg, s, c))
  {
    match c
    case Create(_, _, _, _) =>
    case LeavePool(_, _, _) =>
    case Join(_, _, _) =>
    case CancelJoin(_, _, _) =>
    case Vote(voter, p, a, positive, _) =>
      if Apply(cfg, s, c).Done? {
        var cast := CastBallot(s.requests[Key(p, a)], voter, positive);
        VerdictPersists(cfg, s, p, a, cast, VerdictIn(s.pools[p], cast));
      }
  }

  lemma VerdictPersists(cfg: Config, s: State, p: PoolId, a: AccountId, cast: PoolRequest, verdict: VoteResult)
    requires p in s.pools && ProcessVoteResult(cfg, s, p, a, cast, verdict).Done?
    ensures PoolPersists(s, ProcessVoteResult(cfg, s, p, a, cast, verdict).post)
  {
  }

  /** Pools are never removed or overwritten: whatever calls follow, a pool keeps its owner,
      name, region and parent, and users are never forgotten. */
  lemma {:induction false} PoolsPersist(cfg: Config, calls: seq<Call>, more: seq<Call>)
    requires PoolsCreated(cfg, calls + more) <= U32_MAX
    ensures PoolPersists(Run(cfg, calls), Run(cfg, calls + more))
    decreases |more|
  {
    if more == [] {
      assert calls + more == calls;
    } else {
      var front, s, last := LastCall(cfg, calls + more);
      assert front == calls + more[..|more| - 1];
      PoolsPersist(cfg, calls, more[..|more| - 1]);
      if s.lastPoolId < U32_MAX {
        FreshId(s);
      }
      StepPersists(cfg, s, last);
      PersistsTransitive(Run(cfg, calls), s, Step(cfg, s, last));
    }
  }

  /** The pool is the one this `create` makes: named as asked, owned by the caller, without
      a parent. */
  ghost predicate MadeBy(pool: Pool, c: Call) {
    && c.Create? && pool.name == c.name && pool.region == c.region
    && pool.owner == Some(c.owner) && pool.parent == None
  }

  lemma StepMakesPool(cfg: Config, s: State, c: Call, p: PoolId)
    requires p !in s.pools && p in Step(cfg, s, c).pools
    ensures Apply(cfg, s, c).Done? && MadeBy(Step(cfg, s, c).pools[p], c) && p == NextPoolId(s)
    ensures Step(cfg, s, c).pools[p].participants == [c.owner] && Step(cfg, s, c).pools[p].requestNumber == 0
  {
  }

  /** The `k`-th call of the run is a successful `create` that makes pool `p`. */
  ghost predicate CreatesAt(cfg: Config, calls: seq<Call>, k: nat, p: PoolId) {
    && k < |calls| && calls[k].Create? && Apply(cfg, Run(cfg, calls[..k]), calls[k]).Done?
    && PoolsCreated(cfg, calls[..k]) == p - 1
  }

  lemma CreatedBefore(cfg: Config, calls: seq<Call>, k: nat, p: PoolId)
    requires calls != [] && CreatesAt(cfg, calls[..|calls| - 1], k, p)
    ensures CreatesAt(cfg, calls, k, p)
  {
    assert calls[..|calls| - 1][..k] == calls[..k];
  }

  lemma StillMade(s: State, t: State, p: PoolId, c: Call)
    requires p in s.pools && MadeBy(s.pools[p], c) && PoolPersists(s, t)
    ensures p in t.pools && MadeBy(t.pools[p], c)
  {
  }

  /** Every pool comes from a successful `create` of the run, the `p`-th of them, and is still
      as that call made it but for participants and requests. */
  lemma {:induction false} PoolsWereCreated(cfg: Config, calls: seq<Call>, p: PoolId) returns (k: nat)
    requires PoolsCreated(cfg, calls) <= U32_MAX && p in Run(cfg, calls).pools
    ensures CreatesAt(cfg, calls, k, p) && MadeBy(Run(cfg, calls).pools[p], calls[k])
  {
    var front, s, last := LastCall(cfg, calls);
    if p in s.pools {
      k := PoolsWereCreated(cfg, front, p);
      CreatedBefore(cfg, calls, k, p);
      if s.lastPoolId < U32_MAX {
        FreshId(s);
      }
      StepPersists(cfg, s, last);
      StillMade(s, Step(cfg, s, last), p, calls[k]);
    } else {
      k := |front|;
      StepMakesPool(cfg, s, last, p);
      RunKeepsInv(cfg, front);
    }
  }

  /** The peer id given with the last successful `create` or `join` of the account. */
  ghost function LastPeer(cfg: Config, calls: seq<Call>, a: AccountId): Option<Bytes> {
    if calls == [] then None
    else
      var front, last := calls[..|calls| - 1], calls[|calls| - 1];
      if Apply(cfg, Run(cfg, front), last).Done? && last.Create? && last.owner == a then Some(last.peer)
      else if Apply(cfg, Run(cfg, front), last).Done? && last.Join? && last.account == a then Some(last.peer)
      else LastPeer(cfg, front, a)
  }

  ghost function PeerOf(s: State, a: AccountId): Option<Bytes> {
    if a in s.users then Some(s.users[a].peerId) else None
  }

  lemma StepPeer(cfg: Config, s: State, c: Call, a: AccountId)
    requires ApplicationsAgree(s) && RequestsGrounded(s)
    ensures PeerOf(Step(cfg, s, c), a)
            == if Apply(cfg, s, c).Done? && c.Create? && c.owner == a then Some(c.peer)
               else if Apply(cfg, s, c).Done? && c.Join? && c.account == a then Some(c.peer)
               else PeerOf(s, a)
  {
    if c.Vote? && Apply(cfg, s, c).Done? {
      assert IsPending(s, c.pool, c.account) <==> IsApplicant(s, c.account, c.pool);
    }
  }

  /** Users are exactly the accounts that ever created or joined, and the peer id stored with
      one is what it gave the last time. */
  lemma {:induction false} PeerIsHistory(cfg: Config, calls: seq<Call>, a: AccountId)
    requires PoolsCreated(cfg, calls) <= U32_MAX
    ensures PeerOf(Run(cfg, calls), a) == LastPeer(cfg, calls, a)
  {
    if calls != [] {
      var front, s, last := LastCall(cfg, calls);
      PeerIsHistory(cfg, front, a);
      StepPeer(cfg, s, last, a);
    }
  }

  lemma PersistsTransitive(s: State, t: State, u: State)
    requires PoolPersists(s, t) && PoolPersists(t, u)
    ensures PoolPersists(s, u)
  {
  }

  // ----- How accounts enter and leave pools -----

  /** The call makes `a` a member of `p`: by creating the pool, or by the ballot of a
      participant that turns the request of `a` into an accepted one. */
  ghost predicate Enters(cfg: Config, s: State, c: Call, p: PoolId, a: AccountId) {
    && Apply(cfg, s, c).Done?
    && match c
       case Create(owner, _, _, _) => owner == a && p == NextPoolId(s)
       case Vote(voter, q, b, positive, _) =>
         && q == p && b == a
         && IsParticipant(s, p, voter)
         && VerdictIn(s.pools[p], CastBallot(s.requests[Key(p, a)], voter, positive)) == Accepted
       case _ => false
  }

  /** The call removes `a` from `p`: its own `leave_pool`, or the owner's. */
  ghost predicate Exits(cfg: Config, s: State, c: Call, p: PoolId, a: AccountId) {
    && IsParticipant(s, p, a)
    && c.LeavePool? && c.pool == p
    && ((c.target == Some(a) && (c.caller == a || s.pools[p].owner == Some(c.caller)))
        || (c.target == None && c.caller == a && s.pools[p].owner == Some(a)))
  }

  /** Membership changes by these calls only, and by all of them. */
  lemma MembershipChanges(cfg: Config, s: State, c: Call, p: PoolId, a: AccountId)
    requires Inv(cfg, s) && IdLeft(cfg, s, c)
    ensures !IsMember(s, a, p) && IsMember(Step(cfg, s, c), a, p) <==> Enters(cfg, s, c, p, a)
    ensures IsMember(s, a, p) && !IsMember(Step(cfg, s, c), a, p) <==> Exits(cfg, s, c, p, a)
  {
    if c.Vote? {
      VoteMembership(cfg, s, c, p, a);
    } else if c.LeavePool? {
      LeaveMembership(cfg, s, c, p, a);
    } else {
      OtherMembership(cfg, s, c, p, a);
    }
  }

  lemma OtherMembership(cfg: Config, s: State, c: Call, p: PoolId, a: AccountId)
    requires ApplicationsAgree(s) && NobodyIsBoth(s) && !c.Vote? && !c.LeavePool?
    ensures !IsMember(s, a, p) && IsMember(Step(cfg, s, c), a, p) <==> Enters(cfg, s, c, p, a)
    ensures IsMember(s, a, p) ==> IsMember(Step(cfg, s, c), a, p)
  {
    if c.CancelJoin? && Apply(cfg, s, c).Done? {
      var b := CancelTarget(s.pools[c.pool], c.caller, c.target).value;
      assert IsPending(s, c.pool, b) <==> IsApplicant(s, b, c.pool);
    }
  }

  lemma LeaveMembership(cfg: Config, s: State, c: Call, p: PoolId, a: AccountId)
    requires MembershipAgrees(s) && OwnersKnown(s) && c.LeavePool?
    ensures !(!IsMember(s, a, p) && IsMember(Step(cfg, s, c), a, p))
    ensures IsMember(s, a, p) && !IsMember(Step(cfg, s, c), a, p) <==> Exits(cfg, s, c, p, a)
  {
    assert IsMember(s, a, p) <==> IsParticipant(s, p, a);
    if Exits(cfg, s, c, p, a) {
      assert LeaveTarget(s.pools[p], c.caller, c.target) == Some(a);
    }
  }

  lemma VoteMembership(cfg: Config, s: State, c: Call, p: PoolId, a: AccountId)
    requires MembershipAgrees(s) && ApplicationsAgree(s) && NobodyIsBoth(s) && c.Vote?
    ensures !IsMember(s, a, p) && IsMember(Step(cfg, s, c), a, p) <==> Enters(cfg, s, c, p, a)
    ensures !(IsMember(s, a, p) && !IsMember(Step(cfg, s, c), a, p))
  {
    if Apply(cfg, s, c).Done? {
      assert IsParticipant(s, c.pool, c.voter) <==> IsMember(s, c.voter, c.pool);
      assert IsPending(s, c.pool, c.account) <==> IsApplicant(s, c.account, c.pool);
    }
  }

  ghost predicate MemberSince(cfg: Config, calls: seq<Call>, k: nat, p: PoolId, a: AccountId) {
    forall j :: k < j <= |calls| ==> IsMember(Run(cfg, calls[..j]), a, p)
  }

  lemma MemberStill(cfg: Config, calls: seq<Call>, k: nat, p: PoolId, a: AccountId)
    requires k < |calls| && IsMember(Run(cfg, calls), a, p)
    requires MemberSince(cfg, calls[..|calls| - 1], k, p, a)
    ensures MemberSince(cfg, calls, k, p, a)
  {
    forall j | k < j <= |calls| ensures IsMember(Run(cfg, calls[..j]), a, p) {
      assert j < |calls| ==> calls[..|calls| - 1][..j] == calls[..j];
      assert j == |calls| ==> calls[..j] == calls;
    }
  }

  /** The `k`-th call makes `a` a member of `p`. */
  ghost predicate EntersAt(cfg: Config, calls: seq<Call>, k: nat, p: PoolId, a: AccountId) {
    k < |calls| && Enters(cfg, Run(cfg, calls[..k]), calls[k], p, a)
  }

  lemma EnteredBefore(cfg: Config, calls: seq<Call>, k: nat, p: PoolId, a: AccountId)
    requires calls != [] && EntersAt(cfg, calls[..|calls| - 1], k, p, a)
    ensures EntersAt(cfg, calls, k, p, a)
  {
    assert calls[..|calls| - 1][..k] == calls[..k];
  }

  /** Whoever is a member entered at some point of the run, and has been one since. */
  lemma {:induction false} MembersEntered(cfg: Config, calls: seq<Call>, p: PoolId, a: AccountId) returns (k: nat)
    requires PoolsCreated(cfg, calls) <= U32_MAX
    requires IsMember(Run(cfg, calls), a, p)
    ensures EntersAt(cfg, calls, k, p, a) && MemberSince(cfg, calls, k, p, a)
  {
    var front, s, last := LastCall(cfg, calls);
    if IsMember(s, a, p) {
      k := MembersEntered(cfg, front, p, a);
      EnteredBefore(cfg, calls, k, p, a);
    } else {
      MembershipChanges(cfg, s, last, p, a);
      k := |front|;
    }
    MemberStill(cfg, calls, k, p, a);
  }

  // ----- Ballots -----

  /** A ballot: who voted, how, and the size at which the vote was counted. */
  datatype Ballot = Ballot(voter: AccountId, positive: bool, size: nat)

  /** How one call changes the ballots on a request. */
  ghost function BallotsAfter(cfg: Config, before: State, c: Call, p: PoolId, a: AccountId, earlier: seq<Ballot>): seq<Ballot> {
    if Apply(cfg, before, c).Failed? then earlier
    else
      match c
      case Join(b, q, _) => if q == p && b == a then [] else earlier
      case Vote(voter, q, b, positive, _) =>
        if q == p && b == a
        then earlier + [Ballot(voter, positive, WrapU16(|before.pools[p].participants|))]
        else earlier
      case _ => earlier
  }

  /** The ballots cast on the request of `a` to `p` since it was last made. */
  ghost function Ballots(cfg: Config, calls: seq<Call>, p: PoolId, a: AccountId): seq<Ballot> {
    if calls == [] then []
    else
      var front, last := calls[..|calls| - 1], calls[|calls| - 1];
      BallotsAfter(cfg, Run(cfg, front), last, p, a, Ballots(cfg, front, p, a))
  }

  ghost function Voters(ballots: seq<Ballot>): (voters: set<AccountId>) {
    set i | 0 <= i < |ballots| :: ballots[i].voter
  }

  ghost function Positives(ballots: seq<Ballot>): (n: nat)
    ensures n <= |ballots|
  {
    if ballots == [] then 0
    else Positives(ballots[..|ballots| - 1]) + if ballots[|ballots| - 1].positive then 1 else 0
  }

  ghost predicate VotersDistinct(ballots: seq<Ballot>) {
    forall i, j :: 0 <= i < j < |ballots| ==> ballots[i].voter != ballots[j].voter
  }

  /** The stored request is the tally of the ballots, and was undecided at the last of them. */
  ghost predicate IsTallyOf(cfg: Config, request: PoolRequest, ballots: seq<Ballot>) {
    && |request.voted| == |ballots|
    && (forall v :: v in request.voted <==> v in Voters(ballots))
    && VotersDistinct(ballots)
    && request.positiveVotes == Positives(ballots)
    && (ballots != [] ==>
          var n := ballots[|ballots| - 1].size;
          1 <= n <= cfg.maxParticipants && UndecidedAt(request, n))
  }

  lemma AppendBallot(ballots: seq<Ballot>, b: Ballot)
    ensures Voters(ballots + [b]) == Voters(ballots) + {b.voter}
    ensures Positives(ballots + [b]) == Positives(ballots) + if b.positive then 1 else 0
    ensures VotersDistinct(ballots) && b.voter !in Voters(ballots) ==> VotersDistinct(ballots + [b])
  {
    var longer := ballots + [b];
    assert longer[..|ballots|] == ballots;
    forall v ensures v in Voters(longer) <==> v in Voters(ballots) + {b.voter} {
      if v in Voters(ballots) {
        var i :| 0 <= i < |ballots| && ballots[i].voter == v;
        assert longer[i].voter == v;
      }
      if v == b.voter {
        assert longer[|ballots|].voter == v;
      }
    }
    if VotersDistinct(ballots) && b.voter !in Voters(ballots) {
      forall i, j | 0 <= i < j < |longer| ensures longer[i].voter != longer[j].voter {
        assert ballots[i].voter in Voters(ballots);
      }
    }
  }

  /** The call is the successful `vote` of a participant other than the applicant that
      cast this ballot. */
  ghost predicate Casts(cfg: Config, s: State, c: Call, b: Ballot, p: PoolId, a: AccountId) {
    && c.Vote? && Apply(cfg, s, c).Done?
    && c.voter == b.voter && c.positive == b.positive && c.pool == p && c.account == a
    && IsParticipant(s, p, b.voter) && b.voter != a
    && b.size == WrapU16(|s.pools[p].participants|)
  }

  /** What one ballot does to a tally. */
  lemma CastExtendsTally(cfg: Config, request: PoolRequest, b: Ballot, ballots: seq<Ballot>)
    requires Undecided(cfg, request) && b.voter !in request.voted && IsTallyOf(cfg, request, ballots)
    ensures var cast := CastBallot(request, b.voter, b.positive);
            && 1 <= |cast.voted| == |ballots + [b]| < U16_SIZE && cast.positiveVotes <= |cast.voted|
            && (forall v :: v in cast.voted <==> v in Voters(ballots + [b]))
            && VotersDistinct(ballots + [b])
            && cast.positiveVotes == Positives(ballots + [b])
  {
    CastFits(cfg, request, b.voter, b.positive);
    AppendBallot(ballots, b);
  }

  /** The tally after one ballot more, decided or not, in a pool of its present size. */
  ghost predicate TallyExtends(cfg: Config, pool: Pool, request: PoolRequest, voter: AccountId, positive: bool, ballots: seq<Ballot>) {
    var cast := CastBallot(request, voter, positive);
    var longer := ballots + [Ballot(voter, positive, WrapU16(|pool.participants|))];
    && |cast.voted| == |longer| < U16_SIZE
    && (forall v :: v in cast.voted <==> v in Voters(longer))
    && VotersDistinct(longer)
    && cast.positiveVotes == Positives(longer)
    && (VerdictIn(pool, cast).Inconclusive? ==> IsTallyOf(cfg, cast, longer))
  }

  lemma BallotExtendsTally(cfg: Config, pool: Pool, request: PoolRequest, voter: AccountId, positive: bool, ballots: seq<Ballot>)
    requires Undecided(cfg, request) && voter !in request.voted && IsTallyOf(cfg, request, ballots)
    requires |pool.participants| <= cfg.maxParticipants
    ensures TallyExtends(cfg, pool, request, voter, positive, ballots)
  {
    var n := WrapU16(|pool.participants|);
    CastExtendsTally(cfg, request, Ballot(voter, positive, n), ballots);
    InconclusiveIff(CastBallot(request, voter, positive), pool.owner, n);
    VotingSizeFits(pool);
  }

  /** What a successful vote does to the tally. */
  lemma VoteExtendsTally(cfg: Config, s: State, c: Call, ballots: seq<Ballot>)
    requires Inv(cfg, s) && c.Vote? && Apply(cfg, s, c).Done?
    requires IsTallyOf(cfg, s.requests[Key(c.pool, c.account)], ballots)
    ensures TallyExtends(cfg, s.pools[c.pool], s.requests[Key(c.pool, c.account)], c.voter, c.positive, ballots)
  {
    BallotExtendsTally(cfg, s.pools[c.pool], s.requests[Key(c.pool, c.account)], c.voter, c.positive, ballots);
  }

  /** Only its own votes touch a stored request, and only `join` makes one. */
  lemma RequestChanges(cfg: Config, s: State, c: Call, p: PoolId, a: AccountId)
    requires ApplicationsAgree(s)
    requires IsPending(Step(cfg, s, c), p, a)
    ensures c.Join? && c.pool == p && c.account == a && Apply(cfg, s, c).Done?
            ==> !IsPending(s, p, a) && Step(cfg, s, c).requests[Key(p, a)] == PoolRequest([], 0, c.peer)
    ensures c.Vote? && c.pool == p && c.account == a && Apply(cfg, s, c).Done?
            ==> && IsPending(s, p, a)
                && var cast := CastBallot(s.requests[Key(p, a)], c.voter, c.positive);
                   VerdictIn(s.pools[p], cast).Inconclusive? && Step(cfg, s, c).requests[Key(p, a)] == cast
    ensures !((c.Join? || c.Vote?) && c.pool == p && c.account == a && Apply(cfg, s, c).Done?)
            ==> IsPending(s, p, a) && Step(cfg, s, c).requests[Key(p, a)] == s.requests[Key(p, a)]
  {
    assert IsPending(s, p, a) <==> IsApplicant(s, a, p);
    match c
    case Create(_, _, _, _) =>
    case LeavePool(_, _, _) =>
    case Join(_, _, _) =>
    case CancelJoin(_, _, _) =>
    case Vote(_, _, _, _, _) =>
  }

  lemma StepExtendsTally(cfg: Config, s: State, c: Call, p: PoolId, a: AccountId, earlier: seq<Ballot>)
    requires Inv(cfg, s) && IsPending(Step(cfg, s, c), p, a)
    requires IsPending(s, p, a) ==> IsTallyOf(cfg, s.requests[Key(p, a)], earlier)
    ensures IsTallyOf(cfg, Step(cfg, s, c).requests[Key(p, a)], BallotsAfter(cfg, s, c, p, a, earlier))
  {
    RequestChanges(cfg, s, c, p, a);
    if c.Vote? && c.pool == p && c.account == a && Apply(cfg, s, c).Done? {
      VoteExtendsTally(cfg, s, c, earlier);
    }
  }

  /** Every pending request is exactly the tally of the ballots cast since it was made. */
  lemma {:induction false} TallyIsHistory(cfg: Config, calls: seq<Call>, p: PoolId, a: AccountId)
    requires PoolsCreated(cfg, calls) <= U32_MAX
    requires IsPending(Run(cfg, calls), p, a)
    ensures IsTallyOf(cfg, Run(cfg, calls).requests[Key(p, a)], Ballots(cfg, calls, p, a))
  {
    var front, s, last := LastCall(cfg, calls);
    if IsPending(s, p, a) {
      TallyIsHistory(cfg, front, p, a);
    }
    StepExtendsTally(cfg, s, last, p, a, Ballots(cfg, front, p, a));
  }

  lemma VoteCasts(cfg: Config, s: State, c: Call)
    requires Inv(cfg, s) && c.Vote? && Apply(cfg, s, c).Done?
    ensures Casts(cfg, s, c, Ballot(c.voter, c.positive, WrapU16(|s.pools[c.pool].participants|)), c.pool, c.account)
  {
    assert IsParticipant(s, c.pool, c.voter) <==> IsMember(s, c.voter, c.pool);
    assert IsPending(s, c.pool, c.account) <==> IsApplicant(s, c.account, c.pool);
  }

  /** The `k`-th call of the run is a successful `join` of `a` to `p`. */
  ghost predicate JoinsAt(cfg: Config, calls: seq<Call>, k: nat, p: PoolId, a: AccountId) {
    && k < |calls| && calls[k].Join? && calls[k].pool == p && calls[k].account == a
    && Apply(cfg, Run(cfg, calls[..k]), calls[k]).Done?
  }

  /** It is a successful `vote` on the request of `a` to `p`. */
  ghost predicate VotesAt(cfg: Config, calls: seq<Call>, k: nat, p: PoolId, a: AccountId) {
    && k < |calls| && calls[k].Vote? && calls[k].pool == p && calls[k].account == a
    && Apply(cfg, Run(cfg, calls[..k]), calls[k]).Done?
  }

  /** The last successful `join` of `a` to `p` is just before the `m`-th call; there is none
      if `m` is zero. */
  ghost predicate JoinedBefore(cfg: Config, calls: seq<Call>, m: nat, p: PoolId, a: AccountId) {
    && m <= |calls|
    && (m > 0 ==> JoinsAt(cfg, calls, m - 1, p, a))
    && forall k :: m <= k ==> !JoinsAt(cfg, calls, k, p, a)
  }

  /** These calls, in this order and all after the last join, cast these ballots, and no
      other vote on the request has succeeded since. */
  ghost predicate CastAt(cfg: Config, calls: seq<Call>, m: nat, places: seq<nat>, ballots: seq<Ballot>, p: PoolId, a: AccountId) {
    && |places| == |ballots|
    && (forall i :: 0 <= i < |places| ==>
          && m <= places[i] < |calls|
          && Casts(cfg, Run(cfg, calls[..places[i]]), calls[places[i]], ballots[i], p, a))
    && (forall i, j :: 0 <= i < j < |places| ==> places[i] < places[j])
    && (forall k :: m <= k && VotesAt(cfg, calls, k, p, a) ==> k in places)
  }

  lemma EarlierCalls(cfg: Config, calls: seq<Call>, k: nat, p: PoolId, a: AccountId)
    requires k < |calls| - 1
    ensures calls[..|calls| - 1][..k] == calls[..k]
    ensures JoinsAt(cfg, calls, k, p, a) == JoinsAt(cfg, calls[..|calls| - 1], k, p, a)
    ensures VotesAt(cfg, calls, k, p, a) == VotesAt(cfg, calls[..|calls| - 1], k, p, a)
  {
    assert calls[..|calls| - 1][..k] == calls[..k];
  }

  lemma JoinedStill(cfg: Config, calls: seq<Call>, m: nat, p: PoolId, a: AccountId)
    requires calls != [] && JoinedBefore(cfg, calls[..|calls| - 1], m, p, a)
    requires !JoinsAt(cfg, calls, |calls| - 1, p, a)
    ensures JoinedBefore(cfg, calls, m, p, a)
  {
    if m > 0 {
      EarlierCalls(cfg, calls, m - 1, p, a);
    }
    forall k | m <= k ensures !JoinsAt(cfg, calls, k, p, a) {
      if k < |calls| - 1 {
        EarlierCalls(cfg, calls, k, p, a);
      }
    }
  }

  lemma CastStill(cfg: Config, calls: seq<Call>, m: nat, places: seq<nat>, ballots: seq<Ballot>, p: PoolId, a: AccountId)
    requires calls != [] && CastAt(cfg, calls[..|calls| - 1], m, places, ballots, p, a)
    requires !VotesAt(cfg, calls, |calls| - 1, p, a)
    ensures CastAt(cfg, calls, m, places, ballots, p, a)
  {
    forall i | 0 <= i < |places| ensures Casts(cfg, Run(cfg, calls[..places[i]]), calls[places[i]], ballots[i], p, a) {
      EarlierCalls(cfg, calls, places[i], p, a);
    }
    forall k | m <= k && VotesAt(cfg, calls, k, p, a) ensures k in places {
      EarlierCalls(cfg, calls, k, p, a);
    }
  }

  lemma CastNow(cfg: Config, calls: seq<Call>, m: nat, places: seq<nat>, ballots: seq<Ballot>, b: Ballot, p: PoolId, a: AccountId)
    requires calls != [] && m < |calls| && CastAt(cfg, calls[..|calls| - 1], m, places, ballots, p, a)
    requires Casts(cfg, Run(cfg, calls[..|calls| - 1]), calls[|calls| - 1], b, p, a)
    ensures CastAt(cfg, calls, m, places + [|calls| - 1], ballots + [b], p, a)
  {
    var more := places + [|calls| - 1];
    forall i | 0 <= i < |places| ensures Casts(cfg, Run(cfg, calls[..places[i]]), calls[places[i]], ballots[i], p, a) {
      EarlierCalls(cfg, calls, places[i], p, a);
    }
    forall k | m <= k && VotesAt(cfg, calls, k, p, a) ensures k in more {
      if k < |calls| - 1 {
        EarlierCalls(cfg, calls, k, p, a);
        assert k in places;
      } else {
        assert more[|places|] == k;
      }
    }
  }

  /** The ballots on a request are exactly the successful votes on it since the last join, in
      their order, each by a participant other than the applicant. */
  lemma {:induction false} BallotsWereCast(cfg: Config, calls: seq<Call>, p: PoolId, a: AccountId)
    returns (m: nat, places: seq<nat>)
    requires PoolsCreated(cfg, calls) <= U32_MAX
    ensures JoinedBefore(cfg, calls, m, p, a)
    ensures CastAt(cfg, calls, m, places, Ballots(cfg, calls, p, a), p, a)
  {
    if calls == [] {
      m, places := 0, [];
    } else {
      var front := calls[..|calls| - 1];
      RunKeepsInv(cfg, front);
      m, places := BallotsWereCast(cfg, front, p, a);
      m, places := OneMoreCall(cfg, calls, m, places, Ballots(cfg, front, p, a), p, a);
    }
  }

  lemma OneMoreCall(cfg: Config, calls: seq<Call>, m: nat, places: seq<nat>, ballots: seq<Ballot>, p: PoolId, a: AccountId)
    returns (m': nat, places': seq<nat>)
    requires calls != [] && Inv(cfg, Run(cfg, calls[..|calls| - 1]))
    requires JoinedBefore(cfg, calls[..|calls| - 1], m, p, a) && CastAt(cfg, calls[..|calls| - 1], m, places, ballots, p, a)
    ensures JoinedBefore(cfg, calls, m', p, a)
    ensures CastAt(cfg, calls, m', places',
                   BallotsAfter(cfg, Run(cfg, calls[..|calls| - 1]), calls[|calls| - 1], p, a, ballots), p, a)
  {
    var s, last := Run(cfg, calls[..|calls| - 1]), calls[|calls| - 1];
    if JoinsAt(cfg, calls, |calls| - 1, p, a) {
      m', places' := |calls|, [];
    } else {
      JoinedStill(cfg, calls, m, p, a);
      if VotesAt(cfg, calls, |calls| - 1, p, a) {
        VoteCasts(cfg, s, last);
        CastNow(cfg, calls, m, places, ballots, Ballot(last.voter, last.positive, WrapU16(|s.pools[p].participants|)), p, a);
        m', places' := m, places + [|calls| - 1];
      } else {
        CastStill(cfg, calls, m, places, ballots, p, a);
        m', places' := m, places;
      }
    }
  }
}
