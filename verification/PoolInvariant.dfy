/** The redundancy between the three storage maps of the pool pallet, kept by every call. */
module PoolInvariant {
  import opened Wrappers
  import opened Widths
  import opened SortedSeq
  import opened PoolSpec

  // ----- The relations stored twice -----

  predicate IsParticipant(s: State, p: PoolId, a: AccountId) {
    p in s.pools && a in s.pools[p].participants
  }

  /** `is_member`. */
  predicate IsMember(s: State, a: AccountId, p: PoolId) {
    a in s.users && s.users[a].poolId == Some(p)
  }

  predicate IsPending(s: State, p: PoolId, a: AccountId) {
    Key(p, a) in s.requests
  }

  predicate IsApplicant(s: State, a: AccountId, p: PoolId) {
    a in s.users && s.users[a].requestPoolId == Some(p)
  }

  // ----- The parts of the invariant -----

  ghost predicate MembershipAgrees(s: State) {
    forall p, a :: IsParticipant(s, p, a) <==> IsMember(s, a, p)
  }

  ghost predicate ApplicationsAgree(s: State) {
    forall p, a :: IsPending(s, p, a) <==> IsApplicant(s, a, p)
  }

  /** A request belongs to a pool, and carries the peer id stored with its applicant. */
  ghost predicate RequestsGrounded(s: State) {
    forall p, a :: IsPending(s, p, a) && a in s.users
                   ==> p in s.pools && s.requests[Key(p, a)].peerId == s.users[a].peerId
  }

  ghost predicate NobodyIsBoth(s: State) {
    forall a :: a in s.users ==> s.users[a].poolId.None? || s.users[a].requestPoolId.None?
  }

  ghost predicate ListsSorted(s: State) {
    && (forall p :: p in s.pools ==> StrictlySorted(s.pools[p].participants))
    && (forall k :: k in s.requests ==> StrictlySorted(s.requests[k].voted))
  }

  ghost predicate ListsBounded(cfg: Config, s: State) {
    forall p :: p in s.pools ==> |s.pools[p].participants| <= cfg.maxParticipants && cfg.maxParticipants > 0
  }

  /** The most ballots a request can hold undecided in a pool of `n`. */
  function UndecidedLimit(n: nat): nat {
    n / 2 + Min(n / 3, 8)
  }

  /** The tally of `request` is undecided in a pool of `n`. */
  predicate UndecidedAt(request: PoolRequest, n: nat) {
    && 0 <= |request.voted| - request.positiveVotes <= n / 2
    && request.positiveVotes <= Min(n / 3, 8)
  }

  /** The request was undecided at the size its pool had when it was last voted on. */
  ghost predicate Undecided(cfg: Config, request: PoolRequest) {
    exists n: nat :: 1 <= n <= cfg.maxParticipants && n < U16_SIZE && UndecidedAt(request, n)
  }

  /** No stored request has the owner among its voters together with a positive vote. */
  predicate OwnerNotDecisive(pool: Pool, request: PoolRequest) {
    pool.owner.Some? && pool.owner.value in request.voted ==> request.positiveVotes == 0
  }

  ghost predicate TalliesOpen(cfg: Config, s: State) {
    forall k :: k in s.requests ==>
      && Undecided(cfg, s.requests[k])
      && k.who !in s.requests[k].voted
      && (k.pool in s.pools ==> OwnerNotDecisive(s.pools[k.pool], s.requests[k]))
  }

  /** Pool ids are exactly 1 .. lastPoolId, and every pool has an owner known to `Users`. */
  ghost predicate IdsContiguous(s: State) {
    forall p: PoolId :: p in s.pools <==> 1 <= p <= s.lastPoolId
  }

  ghost predicate OwnersKnown(s: State) {
    forall p :: p in s.pools ==> s.pools[p].owner.Some? && s.pools[p].owner.value in s.users
  }

  ghost function RequestsOf(s: State, p: PoolId): (keys: set<Key>)
    ensures forall a :: Key(p, a) in keys <==> IsPending(s, p, a)
  {
    set k | k in s.requests && k.pool == p
  }

  /** The request counter is right modulo its width. */
  ghost predicate CountersAgree(s: State) {
    forall p :: p in s.pools ==> s.pools[p].requestNumber == |RequestsOf(s, p)| % 0x100
  }

  /** The three maps tell one story about every account. */
  ghost predicate RelationsAgree(s: State) {
    && MembershipAgrees(s)
    && ApplicationsAgree(s)
    && RequestsGrounded(s)
    && NobodyIsBoth(s)
  }

  ghost predicate RecordsSound(cfg: Config, s: State) {
    && ListsSorted(s)
    && ListsBounded(cfg, s)
    && TalliesOpen(cfg, s)
    && IdsContiguous(s)
    && OwnersKnown(s)
  }

  ghost predicate Inv(cfg: Config, s: State) {
    RelationsAgree(s) && RecordsSound(cfg, s) && CountersAgree(s)
  }

  // ----- create -----

  lemma AddPoolRelations(s: State, owner: AccountId, name: Bytes, region: Bytes, peer: Bytes)
    requires RelationsAgree(s) && NextPoolId(s) !in s.pools
    requires UserOrDefault(s, owner).IsFree()
    ensures RelationsAgree(AddPool(s, owner, name, region, peer))
  {
    var t := AddPool(s, owner, name, region, peer);
    forall p, a ensures IsParticipant(t, p, a) <==> IsMember(t, a, p) {
      assert IsParticipant(s, p, a) <==> IsMember(s, a, p);
    }
    forall p, a ensures IsPending(t, p, a) <==> IsApplicant(t, a, p) {
      assert IsPending(s, p, a) <==> IsApplicant(s, a, p);
    }
    forall p, a | IsPending(t, p, a) ensures a != owner {
      assert IsPending(s, p, a) <==> IsApplicant(s, a, p);
    }
  }

  lemma AddPoolRecords(cfg: Config, s: State, owner: AccountId, name: Bytes, region: Bytes, peer: Bytes)
    requires RecordsSound(cfg, s) && RequestsInPools(s) && s.lastPoolId < U32_MAX && cfg.maxParticipants > 0
    ensures RecordsSound(cfg, AddPool(s, owner, name, region, peer))
  {
    AddPoolTallies(cfg, s, owner, name, region, peer);
    AddPoolIds(s, owner, name, region, peer);
  }

  lemma AddPoolTallies(cfg: Config, s: State, owner: AccountId, name: Bytes, region: Bytes, peer: Bytes)
    requires TalliesOpen(cfg, s) && RequestsInPools(s) && NextPoolId(s) !in s.pools
    ensures TalliesOpen(cfg, AddPool(s, owner, name, region, peer))
  {
  }

  lemma AddPoolIds(s: State, owner: AccountId, name: Bytes, region: Bytes, peer: Bytes)
    requires IdsContiguous(s) && s.lastPoolId < U32_MAX
    ensures IdsContiguous(AddPool(s, owner, name, region, peer))
  {
  }

  lemma AddPoolCounters(s: State, owner: AccountId, name: Bytes, region: Bytes, peer: Bytes)
    requires CountersAgree(s) && RequestsInPools(s) && NextPoolId(s) !in s.pools
    ensures CountersAgree(AddPool(s, owner, name, region, peer))
    ensures forall p :: RequestsOf(AddPool(s, owner, name, region, peer), p) == RequestsOf(s, p)
    ensures RequestsOf(s, NextPoolId(s)) == {}
  {
    var t := AddPool(s, owner, name, region, peer);
    forall p ensures RequestsOf(t, p) == RequestsOf(s, p) {}
    assert RequestsOf(s, NextPoolId(s)) == {};
  }

  ghost predicate RequestsInPools(s: State) {
    forall k :: k in s.requests ==> k.pool in s.pools
  }

  lemma GroundedRequestsInPools(s: State)
    requires RelationsAgree(s)
    ensures RequestsInPools(s)
  {
    forall k | k in s.requests ensures k.pool in s.pools {
      assert k == Key(k.pool, k.who);
      assert IsPending(s, k.pool, k.who) && IsApplicant(s, k.who, k.pool);
    }
  }

  lemma AddPoolKeeps(cfg: Config, s: State, owner: AccountId, name: Bytes, region: Bytes, peer: Bytes)
    requires Inv(cfg, s) && s.lastPoolId < U32_MAX
    requires UserOrDefault(s, owner).IsFree() && cfg.maxParticipants > 0
    ensures Inv(cfg, AddPool(s, owner, name, region, peer))
  {
    GroundedRequestsInPools(s);
    AddPoolRelations(s, owner, name, region, peer);
    AddPoolRecords(cfg, s, owner, name, region, peer);
    AddPoolCounters(s, owner, name, region, peer);
  }

  // ----- leave_pool -----

  lemma RemoveParticipantRelations(s: State, p: PoolId, a: AccountId)
    requires RelationsAgree(s) && a in s.users && IsParticipant(s, p, a)
    requires StrictlySorted(s.pools[p].participants)
    ensures RelationsAgree(RemoveParticipant(s, p, a))
  {
    var t := RemoveParticipant(s, p, a);
    assert IsMember(s, a, p);
    forall q, b ensures IsParticipant(t, q, b) <==> IsMember(t, b, q) {
      assert IsParticipant(s, q, b) <==> IsMember(s, b, q);
    }
    forall q, b ensures IsPending(t, q, b) <==> IsApplicant(t, b, q) {
      assert IsPending(s, q, b) <==> IsApplicant(s, b, q);
    }
    forall q, b | IsPending(t, q, b) && b in t.users
      ensures q in t.pools && t.requests[Key(q, b)].peerId == t.users[b].peerId
    {
      assert IsPending(s, q, b);
    }
  }

  lemma RemoveParticipantRequests(s: State, p: PoolId, a: AccountId)
    requires p in s.pools && a in s.users
    ensures forall q :: RequestsOf(RemoveParticipant(s, p, a), q) == RequestsOf(s, q)
  {
    forall q ensures RequestsOf(RemoveParticipant(s, p, a), q) == RequestsOf(s, q) {}
  }

  lemma RemoveParticipantKeeps(cfg: Config, s: State, p: PoolId, a: AccountId)
    requires Inv(cfg, s) && IsParticipant(s, p, a)
    ensures a in s.users && Inv(cfg, RemoveParticipant(s, p, a))
  {
    assert IsMember(s, a, p);
    var t := RemoveParticipant(s, p, a);
    RemoveParticipantRelations(s, p, a);
    assert RecordsSound(cfg, t);
    RemoveParticipantRequests(s, p, a);
  }

  // ----- join -----

  lemma AddRequestRelations(s: State, p: PoolId, a: AccountId, peer: Bytes)
    requires RelationsAgree(s) && p in s.pools
    requires UserOrDefault(s, a).IsFree()
    ensures RelationsAgree(AddRequest(s, p, a, peer))
    ensures forall q :: !IsPending(s, q, a)
  {
    var t := AddRequest(s, p, a, peer);
    forall q, b ensures IsParticipant(t, q, b) <==> IsMember(t, b, q) {
      assert IsParticipant(s, q, b) <==> IsMember(s, b, q);
    }
    forall q, b ensures IsPending(t, q, b) <==> IsApplicant(t, b, q) {
      assert IsPending(s, q, b) <==> IsApplicant(s, b, q);
    }
    forall q ensures !IsPending(s, q, a) {
      assert !IsApplicant(s, a, q);
    }
    forall q, b | IsPending(t, q, b) && b in t.users
      ensures q in t.pools && t.requests[Key(q, b)].peerId == t.users[b].peerId
    {
      assert IsPending(s, q, b) || (q == p && b == a);
    }
  }

  lemma AddRequestRecords(cfg: Config, s: State, p: PoolId, a: AccountId, peer: Bytes)
    requires RecordsSound(cfg, s) && p in s.pools && cfg.maxParticipants > 0
    ensures RecordsSound(cfg, AddRequest(s, p, a, peer))
  {
    assert UndecidedAt(PoolRequest([], 0, peer), 1);
  }

  /** Wrapping steps commute with reduction to the counter's width. */
  lemma CounterStep(n: nat)
    ensures WrapU8(n % 0x100 + 1) == (n + 1) % 0x100
    ensures n > 0 ==> WrapU8(n % 0x100 - 1) == (n - 1) % 0x100
  {
    var q, r := n / 0x100, n % 0x100;
    Residue(if r == 0xFF then q + 1 else q, if r == 0xFF then 0 else r + 1);
    Residue(if r == 0 then q - 1 else q, if r == 0 then 0xFF else r - 1);
  }

  lemma Residue(q: int, r: int)
    requires 0 <= r < 0x100
    ensures (0x100 * q + r) % 0x100 == r
  {
  }

  /** A counter step and a request more or less go together. */
  lemma CounterFollows(before: set<Key>, after: set<Key>, k: Key, was: u8, now: u8)
    requires was == |before| % 0x100
    requires || (now == WrapU8(was + 1) && k !in before && after == before + {k})
             || (now == WrapU8(was - 1) && k in before && after == before - {k})
    ensures now == |after| % 0x100
  {
    assert |after| == if k in before then |before| - 1 else |before| + 1;
    CounterStep(|before|);
  }

  /** A change of one pool's counter and requests, by one each, keeps the counters right. */
  lemma CounterMoves(s: State, t: State, p: PoolId, k: Key)
    requires CountersAgree(s) && t.pools.Keys == s.pools.Keys && p in s.pools
    requires forall q :: q in s.pools && q != p ==> t.pools[q].requestNumber == s.pools[q].requestNumber
    requires forall q :: q != p ==> RequestsOf(t, q) == RequestsOf(s, q)
    requires
      || (&& t.pools[p].requestNumber == WrapU8(s.pools[p].requestNumber + 1)
          && k !in RequestsOf(s, p) && RequestsOf(t, p) == RequestsOf(s, p) + {k})
      || (&& t.pools[p].requestNumber == WrapU8(s.pools[p].requestNumber - 1)
          && k in RequestsOf(s, p) && RequestsOf(t, p) == RequestsOf(s, p) - {k})
    ensures CountersAgree(t)
  {
    CounterFollows(RequestsOf(s, p), RequestsOf(t, p), k, s.pools[p].requestNumber, t.pools[p].requestNumber);
    forall q | q in t.pools && q != p ensures t.pools[q].requestNumber == |RequestsOf(t, q)| % 0x100 {
      assert RequestsOf(t, q) == RequestsOf(s, q);
    }
  }

  lemma AddRequestCounters(s: State, p: PoolId, a: AccountId, peer: Bytes)
    requires CountersAgree(s) && p in s.pools && !IsPending(s, p, a)
    ensures CountersAgree(AddRequest(s, p, a, peer))
    ensures forall q :: q != p ==> RequestsOf(AddRequest(s, p, a, peer), q) == RequestsOf(s, q)
    ensures RequestsOf(AddRequest(s, p, a, peer), p) == RequestsOf(s, p) + {Key(p, a)}
  {
    var t := AddRequest(s, p, a, peer);
    forall q | q != p ensures RequestsOf(t, q) == RequestsOf(s, q) {}
    assert RequestsOf(t, p) == RequestsOf(s, p) + {Key(p, a)};
    CounterMoves(s, t, p, Key(p, a));
  }

  lemma AddRequestKeeps(cfg: Config, s: State, p: PoolId, a: AccountId, peer: Bytes)
    requires Inv(cfg, s) && p in s.pools
    requires UserOrDefault(s, a).IsFree() && cfg.maxParticipants > 0
    ensures Inv(cfg, AddRequest(s, p, a, peer))
    ensures !IsPending(s, p, a)
  {
    AddRequestRelations(s, p, a, peer);
    AddRequestRecords(cfg, s, p, a, peer);
    AddRequestCounters(s, p, a, peer);
  }

  // ----- cancel_join, and a denying vote -----

  lemma DropRequestRelations(s: State, p: PoolId, a: AccountId)
    requires RelationsAgree(s) && p in s.pools && a in s.users && IsPending(s, p, a)
    ensures RelationsAgree(DropRequest(s, p, a))
  {
    assert IsApplicant(s, a, p);
    var t := DropRequest(s, p, a);
    forall q, b ensures IsParticipant(t, q, b) <==> IsMember(t, b, q) {
      assert IsParticipant(s, q, b) <==> IsMember(s, b, q);
    }
    forall q, b ensures IsPending(t, q, b) <==> IsApplicant(t, b, q) {
      assert IsPending(s, q, b) <==> IsApplicant(s, b, q);
    }
    forall q, b | IsPending(t, q, b) && b in t.users
      ensures q in t.pools && t.requests[Key(q, b)].peerId == t.users[b].peerId
    {
      assert IsPending(s, q, b);
    }
  }

  lemma DropRequestCounters(s: State, p: PoolId, a: AccountId)
    requires CountersAgree(s) && p in s.pools && a in s.users && IsPending(s, p, a)
    ensures CountersAgree(DropRequest(s, p, a))
    ensures forall q :: q != p ==> RequestsOf(DropRequest(s, p, a), q) == RequestsOf(s, q)
    ensures RequestsOf(DropRequest(s, p, a), p) == RequestsOf(s, p) - {Key(p, a)}
  {
    var t := DropRequest(s, p, a);
    forall q | q != p ensures RequestsOf(t, q) == RequestsOf(s, q) {}
    assert RequestsOf(t, p) == RequestsOf(s, p) - {Key(p, a)};
    CounterMoves(s, t, p, Key(p, a));
  }

  lemma DropRequestRecords(cfg: Config, s: State, p: PoolId, a: AccountId)
    requires RecordsSound(cfg, s) && p in s.pools && a in s.users
    ensures RecordsSound(cfg, DropRequest(s, p, a))
  {
  }

  lemma DropRequestKeeps(cfg: Config, s: State, p: PoolId, a: AccountId)
    requires Inv(cfg, s) && IsPending(s, p, a)
    ensures p in s.pools && a in s.users && Inv(cfg, DropRequest(s, p, a))
  {
    assert IsApplicant(s, a, p);
    DropRequestRelations(s, p, a);
    DropRequestRecords(cfg, s, p, a);
    DropRequestCounters(s, p, a);
  }

  // ----- an accepting vote -----

  lemma AdmitRelations(s: State, p: PoolId, a: AccountId, peer: Bytes)
    requires RelationsAgree(s) && p in s.pools && IsPending(s, p, a)
    ensures RelationsAgree(Admit(s, p, a, peer))
    ensures forall q :: !IsParticipant(s, q, a)
  {
    assert IsApplicant(s, a, p);
    var t := Admit(s, p, a, peer);
    forall q ensures !IsParticipant(s, q, a) {
      assert !IsMember(s, a, q);
    }
    forall q, b ensures IsParticipant(t, q, b) <==> IsMember(t, b, q) {
      assert IsParticipant(s, q, b) <==> IsMember(s, b, q);
    }
    forall q, b ensures IsPending(t, q, b) <==> IsApplicant(t, b, q) {
      assert IsPending(s, q, b) <==> IsApplicant(s, b, q);
    }
    forall q, b | IsPending(t, q, b) && b in t.users
      ensures q in t.pools && t.requests[Key(q, b)].peerId == t.users[b].peerId
    {
      assert IsPending(s, q, b) && IsApplicant(s, b, q) && b != a;
    }
  }

  lemma AdmitRecords(cfg: Config, s: State, p: PoolId, a: AccountId, peer: Bytes)
    requires RecordsSound(cfg, s) && p in s.pools && a !in s.pools[p].participants
    requires |s.pools[p].participants| < cfg.maxParticipants
    ensures RecordsSound(cfg, Admit(s, p, a, peer))
  {
  }

  lemma AdmitCounters(s: State, p: PoolId, a: AccountId, peer: Bytes)
    requires CountersAgree(s) && p in s.pools && IsPending(s, p, a)
    ensures CountersAgree(Admit(s, p, a, peer))
    ensures forall q :: q != p ==> RequestsOf(Admit(s, p, a, peer), q) == RequestsOf(s, q)
    ensures RequestsOf(Admit(s, p, a, peer), p) == RequestsOf(s, p) - {Key(p, a)}
  {
    var t := Admit(s, p, a, peer);
    forall q | q != p ensures RequestsOf(t, q) == RequestsOf(s, q) {}
    assert RequestsOf(t, p) == RequestsOf(s, p) - {Key(p, a)};
    CounterMoves(s, t, p, Key(p, a));
  }

  lemma AdmitKeeps(cfg: Config, s: State, p: PoolId, a: AccountId, peer: Bytes)
    requires Inv(cfg, s) && IsPending(s, p, a)
    requires p in s.pools && |s.pools[p].participants| < cfg.maxParticipants
    ensures Inv(cfg, Admit(s, p, a, peer))
    ensures !IsParticipant(s, p, a)
  {
    AdmitRelations(s, p, a, peer);
    assert !IsParticipant(s, p, a);
    AdmitRecords(cfg, s, p, a, peer);
    AdmitCounters(s, p, a, peer);
  }

  // ----- a vote that does not decide -----

  lemma StoreBallotsRelations(s: State, p: PoolId, a: AccountId, request: PoolRequest)
    requires RelationsAgree(s) && IsPending(s, p, a)
    requires request.peerId == s.requests[Key(p, a)].peerId
    ensures RelationsAgree(StoreBallots(s, p, a, request))
    ensures forall q :: RequestsOf(StoreBallots(s, p, a, request), q) == RequestsOf(s, q)
  {
    var t := StoreBallots(s, p, a, request);
    forall q, b ensures IsParticipant(t, q, b) <==> IsMember(t, b, q) {
      assert IsParticipant(s, q, b) <==> IsMember(s, b, q);
    }
    forall q, b ensures IsPending(t, q, b) <==> IsApplicant(t, b, q) {
      assert IsPending(s, q, b) <==> IsApplicant(s, b, q);
    }
    forall q, b | IsPending(t, q, b) && b in t.users
      ensures q in t.pools && t.requests[Key(q, b)].peerId == t.users[b].peerId
    {
      assert IsPending(s, q, b);
    }
    forall q ensures RequestsOf(t, q) == RequestsOf(s, q) {}
  }

  lemma StoreBallotsKeeps(cfg: Config, s: State, p: PoolId, a: AccountId, request: PoolRequest)
    requires Inv(cfg, s) && IsPending(s, p, a)
    requires request.peerId == s.requests[Key(p, a)].peerId
    requires StrictlySorted(request.voted) && a !in request.voted
    requires Undecided(cfg, request) && p in s.pools && OwnerNotDecisive(s.pools[p], request)
    ensures Inv(cfg, StoreBallots(s, p, a, request))
  {
    StoreBallotsRelations(s, p, a, request);
  }
}
