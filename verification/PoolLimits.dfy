/** The exact values of `MaxPoolParticipants` for which the pool pallet keeps its promises.
    The runtime sets 300 (runtime/src/lib.rs:267), which is beyond all of them; the runs
    that break each promise are built here. */
module PoolLimits {
  import opened Wrappers
  import opened Widths
  import opened SortedSeq
  import opened PoolSpec
  import opened PoolInvariant
  import opened PoolHistory
  import opened PoolCapacity
  import opened PoolVerdicts

  /** Pool 1, owned by account 0, has these members; accounts lo+1 .. n wait for it, nobody
      has voted on them, and no larger account is known. */
  ghost predicate Lobby(s: State, members: seq<AccountId>, lo: nat, n: nat) {
    && lo <= n
    && 1 in s.pools && s.pools[1].owner == Some(0) && s.pools[1].participants == members
    && s.pools[1].requestNumber == (n - lo) % 0x100
    && 0 in s.users && (0 in members ==> s.users[0].poolId == Some(1))
    && (forall a :: lo < a <= n ==> Key(1, a) in s.requests && s.requests[Key(1, a)] == PoolRequest([], 0, []))
    && (forall a :: lo < a <= n ==> a in s.users)
    && (forall k :: k in s.requests ==> k.pool == 1 && lo < k.who <= n)
    && (forall a :: a > n ==> a !in s.users)
  }

  lemma JoinOne(cfg: Config, s: State, members: seq<AccountId>, lo: nat, n: nat)
    requires Lobby(s, members, lo, n)
    requires |members| + (n - lo) % 0x100 != cfg.maxParticipants
    ensures Lobby(Step(cfg, s, Join(n + 1, 1, [])), members, lo, n + 1)
  {
    CounterStep(n - lo);
  }

  lemma AdmitOne(cfg: Config, s: State, members: seq<AccountId>, lo: nat, n: nat)
    requires Lobby(s, members, lo, n) && lo < n
    requires 0 in members && lo + 1 !in members && |members| < cfg.maxParticipants
    requires |members| + (n - lo) % 0x100 != cfg.maxParticipants
    ensures Lobby(Step(cfg, s, Vote(0, 1, lo + 1, true, [])), Insert(members, lo + 1), lo + 1, n)
  {
    CounterStep(n - lo);
    var c := Vote(0, 1, lo + 1, true, []);
    var cast := CastBallot(PoolRequest([], 0, []), 0, true);
    assert 0 in cast.voted && cast.positiveVotes == 1;
    assert Apply(cfg, s, c) == Done(Admit(s, 1, lo + 1, []));
  }

  /** A run and one call more. */
  lemma Extended(cfg: Config, calls: seq<Call>, c: Call) returns (more: seq<Call>)
    requires !c.Create?
    ensures more == calls + [c] && Run(cfg, more) == Step(cfg, Run(cfg, calls), c)
    ensures PoolsCreated(cfg, more) == PoolsCreated(cfg, calls)
  {
    more := calls + [c];
    RunExtend(cfg, calls, c);
    CreatedUnchanged(cfg, calls, c);
  }

  /** A pool of one, and a pool its only participant has left. */
  lemma Opening(cfg: Config, deserted: bool) returns (calls: seq<Call>)
    requires cfg.maxParticipants > 1 && cfg.maxPools != Some(0)
    ensures PoolsCreated(cfg, calls) <= 1
    ensures Lobby(Run(cfg, calls), if deserted then [] else [0], 0, 0)
  {
    var create := Create(0, [], [], []);
    calls := [create];
    assert calls[..0] == [];
    RunExtend(cfg, [], create);
    assert [] + [create] == calls;
    assert Apply(cfg, Init(), create) == Done(AddPool(Init(), 0, [], [], []));
    if deserted {
      var leave := LeavePool(0, 1, None);
      assert Apply(cfg, Run(cfg, calls), leave) == Done(RemoveParticipant(Run(cfg, calls), 1, 0));
      calls := Extended(cfg, calls, leave);
    }
  }

  lemma {:induction false} JoinAll(cfg: Config, deserted: bool, n: nat) returns (calls: seq<Call>)
    requires cfg.maxParticipants > (if deserted then 255 else 256) && cfg.maxPools != Some(0)
    ensures PoolsCreated(cfg, calls) <= 1
    ensures Lobby(Run(cfg, calls), if deserted then [] else [0], 0, n)
  {
    if n == 0 {
      calls := Opening(cfg, deserted);
    } else {
      calls := JoinAll(cfg, deserted, n - 1);
      JoinOne(cfg, Run(cfg, calls), if deserted then [] else [0], 0, n - 1);
      calls := Extended(cfg, calls, Join(n, 1, []));
    }
  }

  /** With one request more than the maximum the pool never looks full, because its load and
      the maximum differ modulo the width of the counter. */
  lemma NeverLooksFull(max: nat, j: nat)
    requires j < max
    ensures (j + 1) + (max - j) % 0x100 != max
  {
  }

  lemma AdmitNext(cfg: Config, s: State, members: seq<AccountId>, j: nat)
    requires 0 < j < cfg.maxParticipants && Lobby(s, members, j - 1, cfg.maxParticipants)
    requires |members| == j && 0 in members && forall m :: m in members ==> m <= j - 1
    ensures Lobby(Step(cfg, s, Vote(0, 1, j, true, [])), Insert(members, j), j, cfg.maxParticipants)
    ensures |Insert(members, j)| == j + 1 && 0 in Insert(members, j)
    ensures forall m :: m in Insert(members, j) ==> m <= j
  {
    NeverLooksFull(cfg.maxParticipants, j - 1);
    AdmitOne(cfg, s, members, j - 1, cfg.maxParticipants);
  }

  lemma {:induction false} AdmitAll(cfg: Config, j: nat) returns (calls: seq<Call>, members: seq<AccountId>)
    requires cfg.maxParticipants > 256 && cfg.maxPools != Some(0) && j < cfg.maxParticipants
    ensures PoolsCreated(cfg, calls) <= 1
    ensures Lobby(Run(cfg, calls), members, j, cfg.maxParticipants)
    ensures |members| == j + 1 && 0 in members && forall m :: m in members ==> m <= j
  {
    if j == 0 {
      calls := JoinAll(cfg, false, cfg.maxParticipants);
      members := [0];
    } else {
      calls, members := AdmitAll(cfg, j - 1);
      AdmitNext(cfg, Run(cfg, calls), members, j);
      calls := Extended(cfg, calls, Vote(0, 1, j, true, []));
      members := Insert(members, j);
    }
  }

  lemma {:induction false} LobbyCount(keys: set<Key>, lo: nat, n: nat)
    requires lo <= n
    requires forall k :: k in keys <==> k.pool == 1 && lo < k.who <= n
    ensures |keys| == n - lo
  {
    if lo == n {
      assert keys == {};
    } else {
      LobbyCount(keys - {Key(1, n)}, lo, n - 1);
    }
  }

  lemma LobbyLoad(s: State, members: seq<AccountId>, lo: nat, n: nat)
    requires Lobby(s, members, lo, n)
    ensures |RequestsOf(s, 1)| == n - lo
  {
    forall k ensures k in RequestsOf(s, 1) <==> k.pool == 1 && lo < k.who <= n {
      assert k == Key(k.pool, k.who);
    }
    LobbyCount(RequestsOf(s, 1), lo, n);
  }

  // ----- The exact limits -----

  /** Counters are exact and no pool is loaded beyond its maximum, in every run, if and only
      if the maximum is at most 255. */
  lemma {:induction false} CapacityIff(cfg: Config)
    requires cfg.maxPools != Some(0)
    ensures (forall calls :: PoolsCreated(cfg, calls) <= U32_MAX ==> CapacityRespected(cfg, Run(cfg, calls)))
            <==> cfg.maxParticipants <= 255
  {
    if cfg.maxParticipants <= 255 {
      forall calls | PoolsCreated(cfg, calls) <= U32_MAX ensures CapacityRespected(cfg, Run(cfg, calls)) {
        RunKeepsCapacity(cfg, calls);
      }
    } else {
      var calls := JoinAll(cfg, true, cfg.maxParticipants + 1);
      LobbyLoad(Run(cfg, calls), [], 0, cfg.maxParticipants + 1);
      assert Load(Run(cfg, calls), 1) > cfg.maxParticipants;
      assert !CapacityRespected(cfg, Run(cfg, calls));
    }
  }

  /** The counter is wrong in the run that first overflows it: 256 requests count as none. */
  lemma CounterOverflows(cfg: Config) returns (calls: seq<Call>)
    requires cfg.maxPools != Some(0) && cfg.maxParticipants >= 256
    ensures PoolsCreated(cfg, calls) <= 1
    ensures 1 in Run(cfg, calls).pools
    ensures |RequestsOf(Run(cfg, calls), 1)| == 256 && Run(cfg, calls).pools[1].requestNumber == 0
  {
    calls := JoinAll(cfg, true, 256);
    LobbyLoad(Run(cfg, calls), [], 0, 256);
  }

  ghost predicate EndsInternally(cfg: Config, calls: seq<Call>, c: Call) {
    Apply(cfg, Run(cfg, calls), c) == Failed(InternalError)
  }

  /** No call of any run ends in `InternalError` if and only if the maximum is at most 256. */
  lemma {:induction false} NoInternalErrorIff(cfg: Config)
    requires cfg.maxPools != Some(0)
    ensures (forall calls, c :: PoolsCreated(cfg, calls) <= U32_MAX ==> !EndsInternally(cfg, calls, c))
            <==> cfg.maxParticipants <= 256
  {
    if cfg.maxParticipants <= 256 {
      forall calls, c | PoolsCreated(cfg, calls) <= U32_MAX ensures !EndsInternally(cfg, calls, c) {
        NoInternalErrorUpTo256(cfg, calls, c);
      }
    } else {
      var max := cfg.maxParticipants;
      var calls, members := AdmitAll(cfg, max - 1);
      var c := Vote(0, 1, max, true, []);
      LastVoteFails(cfg, Run(cfg, calls), members);
      assert EndsInternally(cfg, calls, c);
    }
  }

  lemma LastVoteFails(cfg: Config, s: State, members: seq<AccountId>)
    requires cfg.maxParticipants > 1 && Lobby(s, members, cfg.maxParticipants - 1, cfg.maxParticipants)
    requires |members| == cfg.maxParticipants && 0 in members
    ensures Apply(cfg, s, Vote(0, 1, cfg.maxParticipants, true, [])) == Failed(InternalError)
  {
    var cast := CastBallot(PoolRequest([], 0, []), 0, true);
    assert 0 in cast.voted && cast.positiveVotes == 1;
  }

  /** In every run all pools keep a place free, if and only if the maximum is at most 256. */
  lemma {:induction false} PoolsNeverFilledIff(cfg: Config)
    requires cfg.maxPools != Some(0) && cfg.maxParticipants >= 2
    ensures (forall calls, p :: PoolsCreated(cfg, calls) <= U32_MAX && p in Run(cfg, calls).pools
                                ==> |Run(cfg, calls).pools[p].participants| < cfg.maxParticipants)
            <==> cfg.maxParticipants <= 256
  {
    if cfg.maxParticipants <= 256 {
      forall calls, p | PoolsCreated(cfg, calls) <= U32_MAX && p in Run(cfg, calls).pools
        ensures |Run(cfg, calls).pools[p].participants| < cfg.maxParticipants
      {
        RunKeepsInhabited(cfg, calls);
      }
    } else {
      var calls, members := AdmitAll(cfg, cfg.maxParticipants - 1);
      assert |Run(cfg, calls).pools[1].participants| == cfg.maxParticipants;
    }
  }

  // ----- Decisions need the participants to stay -----

  /** Account 1, a member, votes against account 2, and the owner leaves. */
  lemma LastSteps(cfg: Config, s: State)
    requires cfg.maxParticipants >= 4 && Lobby(s, [0, 1], 1, 2) && IsMember(s, 1, 1)
    ensures var t := Step(cfg, s, Vote(1, 1, 2, false, []));
            var u := Step(cfg, t, LeavePool(0, 1, None));
            && Key(1, 2) in u.requests && 1 in u.requests[Key(1, 2)].voted
            && 1 in u.pools && u.pools[1].participants == [1] && u.pools[1].requestNumber == 1
  {
    var vote := Vote(1, 1, 2, false, []);
    var cast := CastBallot(PoolRequest([], 0, []), 1, false);
    assert cast == PoolRequest([1], 0, []);
    assert Apply(cfg, s, vote) == Done(StoreBallots(s, 1, 2, cast));
    var t := Step(cfg, s, vote);
    assert Apply(cfg, t, LeavePool(0, 1, None)) == Done(RemoveParticipant(t, 1, 0));
    assert Remove([0, 1], 0) == [1];
  }

  /** If participants leave while a vote is open, a request can be left pending in a pool that
      is neither empty nor full with nobody to vote on it: only `cancel_join`, or the arrival
      of another participant, ends that. */
  lemma OpenRequestCanBeStuck(cfg: Config) returns (calls: seq<Call>)
    requires cfg.maxParticipants >= 4 && cfg.maxPools != Some(0)
    ensures PoolsCreated(cfg, calls) <= 1
    ensures var s := Run(cfg, calls);
            && IsPending(s, 1, 2) && 1 in s.pools
            && s.pools[1].participants != [] && !s.pools[1].IsFull(cfg)
            && forall voter :: !IsSilent(s, 1, 2, voter)
  {
    calls := TwoMembersOneApplicant(cfg);
    LastSteps(cfg, Run(cfg, calls));
    calls := Extended(cfg, calls, Vote(1, 1, 2, false, []));
    calls := Extended(cfg, calls, LeavePool(0, 1, None));
  }

  lemma TwoMembersOneApplicant(cfg: Config) returns (calls: seq<Call>)
    requires cfg.maxParticipants >= 4 && cfg.maxPools != Some(0)
    ensures PoolsCreated(cfg, calls) <= 1
    ensures Lobby(Run(cfg, calls), [0, 1], 1, 2) && IsMember(Run(cfg, calls), 1, 1)
  {
    calls := OneMemberOneApplicant(cfg);
    calls := TwoMembers(cfg, calls);
    JoinOne(cfg, Run(cfg, calls), [0, 1], 1, 1);
    calls := Extended(cfg, calls, Join(2, 1, []));
    FirstIsMember(cfg, calls);
  }

  lemma OneMemberOneApplicant(cfg: Config) returns (calls: seq<Call>)
    requires cfg.maxParticipants >= 4 && cfg.maxPools != Some(0)
    ensures PoolsCreated(cfg, calls) <= 1 && Lobby(Run(cfg, calls), [0], 0, 1)
  {
    calls := Opening(cfg, false);
    JoinOne(cfg, Run(cfg, calls), [0], 0, 0);
    calls := Extended(cfg, calls, Join(1, 1, []));
  }

  lemma AdmitFirst(cfg: Config, s: State)
    requires cfg.maxParticipants >= 4 && Lobby(s, [0], 0, 1)
    ensures Lobby(Step(cfg, s, Vote(0, 1, 1, true, [])), [0, 1], 1, 1)
  {
    AdmitOne(cfg, s, [0], 0, 1);
    assert Insert([], 1) == [1];
    assert Insert([0], 1) == [0, 1];
  }

  lemma TwoMembers(cfg: Config, calls: seq<Call>) returns (more: seq<Call>)
    requires cfg.maxParticipants >= 4 && PoolsCreated(cfg, calls) <= 1 && Lobby(Run(cfg, calls), [0], 0, 1)
    ensures PoolsCreated(cfg, more) <= 1 && Lobby(Run(cfg, more), [0, 1], 1, 1)
  {
    AdmitFirst(cfg, Run(cfg, calls));
    more := Extended(cfg, calls, Vote(0, 1, 1, true, []));
  }

  lemma FirstIsMember(cfg: Config, calls: seq<Call>)
    requires PoolsCreated(cfg, calls) <= 1 && IsParticipant(Run(cfg, calls), 1, 1)
    ensures IsMember(Run(cfg, calls), 1, 1)
  {
    RunKeepsInv(cfg, calls);
  }
}
