/** What the listing calls of the pool pallet report, and that they agree with each other. */
module PoolViews {
  import opened Wrappers
  import opened Widths
  import opened Sets
  import opened PoolSpec
  import opened PoolInvariant
  import opened PoolHistory

  datatype Member = Member(account: AccountId, peerId: Bytes)
  datatype MemberRow = MemberRow(account: AccountId, peerId: Bytes, pool: PoolId)
  datatype RequestRow = RequestRow(account: AccountId, peerId: Bytes, block: BlockNumber)
  datatype PoolRow = PoolRow(
    id: PoolId,
    name: Bytes,
    region: Bytes,
    block: BlockNumber,
    owner: Option<AccountId>,
    ownerPeer: Option<Bytes>,
    members: seq<Member>)

  // ----- get_pool_members: a scan of `Users` -----

  /** Whether `get_pool_members` reports the user: by pool if one is given, else by account. */
  predicate Selected(s: State, pool: Option<PoolId>, account: Option<AccountId>, a: AccountId) {
    && a in s.users
    && s.users[a].poolId.Some?
    && (if pool.Some? then s.users[a].poolId == pool else account == Some(a))
  }

  function RowOf(s: State, a: AccountId): MemberRow
    requires a in s.users && s.users[a].poolId.Some?
  {
    MemberRow(a, s.users[a].peerId, s.users[a].poolId.value)
  }

  // ----- list_pools: a walk over the participants -----

  /** The participants in order, with the peer ids stored for them. */
  function Walk(users: map<AccountId, User>, participants: seq<AccountId>): (members: seq<Member>)
    ensures forall m :: m in members <==> m.account in participants && m.account in users && m.peerId == users[m.account].peerId
  {
    if participants == [] then []
    else
      var front, last := participants[..|participants| - 1], participants[|participants| - 1];
      Walk(users, front) + if last in users then [Member(last, users[last].peerId)] else []
  }

  function PoolRowOf(s: State, p: PoolId, now: BlockNumber): PoolRow
    requires p in s.pools
    requires s.pools[p].owner.Some? ==> s.pools[p].owner.value in s.users
  {
    var pool := s.pools[p];
    PoolRow(p, pool.name, pool.region, now, pool.owner,
            if pool.owner.Some? then Some(s.users[pool.owner.value].peerId) else None,
            Walk(s.users, pool.participants))
  }

  // ----- list_pool_join_requests: a scan of `PoolRequests` -----

  /** The requests asked for: those to one pool, or all. */
  ghost function Wanted(s: State, pool: Option<PoolId>): set<Key> {
    set k | k in s.requests && (pool.Some? ==> k.pool == pool.value)
  }

  function RequestRowOf(s: State, k: Key, now: BlockNumber): RequestRow
    requires k in s.requests
  {
    RequestRow(k.who, s.requests[k].peerId, now)
  }

  /** The rows are those of these requests. */
  ghost predicate RowsOf(s: State, keys: set<Key>, now: BlockNumber, rows: seq<RequestRow>)
    requires forall k :: k in keys ==> k in s.requests
  {
    && (forall k :: k in keys ==> RequestRowOf(s, k, now) in rows)
    && (forall row :: row in rows ==> exists k :: k in keys && row == RequestRowOf(s, k, now))
  }

  lemma OneMoreRow(s: State, keys: set<Key>, now: BlockNumber, rows: seq<RequestRow>, k: Key)
    requires (forall j :: j in keys ==> j in s.requests) && k in s.requests
    requires RowsOf(s, keys, now, rows)
    ensures RowsOf(s, keys + {k}, now, rows + [RequestRowOf(s, k, now)])
  {
    var longer := rows + [RequestRowOf(s, k, now)];
    assert longer[|rows|] == RequestRowOf(s, k, now);
    forall row | row in longer ensures exists j :: j in keys + {k} && row == RequestRowOf(s, j, now) {
      if row in rows {
        var j :| j in keys && row == RequestRowOf(s, j, now);
        assert j in keys + {k};
      } else {
        assert k in keys + {k};
      }
    }
  }

  // ----- What the listings should be -----

  /** The row shows the pool as it is stored: every participant in order, and everybody with
      the peer id stored for them. */
  ghost predicate ShowsPool(s: State, now: BlockNumber, row: PoolRow) {
    && row.id in s.pools
    && var pool := s.pools[row.id];
       && row.name == pool.name && row.region == pool.region && row.block == now && row.owner == pool.owner
       && (match pool.owner
           case None => row.ownerPeer == None
           case Some(owner) => owner in s.users && row.ownerPeer == Some(s.users[owner].peerId))
       && |row.members| == |pool.participants|
       && forall i :: 0 <= i < |pool.participants| ==>
            var a := pool.participants[i];
            a in s.users && row.members[i] == Member(a, s.users[a].peerId)
  }

  /** One row for each pool there is, or for the one asked for. */
  ghost predicate ListsPools(s: State, pool: Option<PoolId>, now: BlockNumber, rows: seq<PoolRow>) {
    && (forall row :: row in rows ==> ShowsPool(s, now, row) && (pool.Some? ==> row.id == pool.value))
    && (forall p :: p in s.pools && (pool.Some? ==> p == pool.value) ==> exists row :: row in rows && row.id == p)
    && (forall i, j :: 0 <= i < j < |rows| ==> rows[i].id != rows[j].id)
  }

  /** The participants of the pool asked for, whatever the account; without a pool, the
      account asked for with the pool it is a participant of; without either, nobody. */
  ghost predicate ListsMembers(s: State, pool: Option<PoolId>, account: Option<AccountId>, rows: seq<MemberRow>) {
    && (forall row :: row in rows <==>
          && IsParticipant(s, row.pool, row.account)
          && row.account in s.users && row.peerId == s.users[row.account].peerId
          && (match pool
              case Some(p) => row.pool == p
              case None => account == Some(row.account)))
    && (forall i, j :: 0 <= i < j < |rows| ==> rows[i].account != rows[j].account)
  }

  /** One row for each applicant, to any pool or to the one asked for. */
  ghost predicate ListsRequests(s: State, pool: Option<PoolId>, now: BlockNumber, rows: seq<RequestRow>) {
    && (forall row :: row in rows <==>
          && row.block == now && row.account in s.users && row.peerId == s.users[row.account].peerId
          && s.users[row.account].requestPoolId.Some?
          && (pool.Some? ==> s.users[row.account].requestPoolId == pool))
    && AccountsDistinct(rows)
  }

  ghost predicate AccountsDistinct(rows: seq<RequestRow>) {
    forall i, j :: 0 <= i < j < |rows| ==> rows[i].account != rows[j].account
  }

  // ----- The scans and the walk give them -----

  /** In an agreeing storage nobody is left out of the walk: it lists the participants, in
      order, each with the peer id of its user. */
  lemma {:induction false} WalkIsComplete(users: map<AccountId, User>, participants: seq<AccountId>)
    requires forall a :: a in participants ==> a in users
    ensures |Walk(users, participants)| == |participants|
    ensures forall i :: 0 <= i < |participants| ==>
              participants[i] in users && Walk(users, participants)[i] == Member(participants[i], users[participants[i]].peerId)
  {
    if participants != [] {
      var front, last := participants[..|participants| - 1], participants[|participants| - 1];
      assert last in users by {
        assert last in participants;
      }
      forall a | a in front ensures a in users {
        assert a in participants;
      }
      WalkIsComplete(users, front);
      assert Walk(users, participants) == Walk(users, front) + [Member(last, users[last].peerId)];
      forall i | 0 <= i < |participants|
        ensures participants[i] in users && Walk(users, participants)[i] == Member(participants[i], users[participants[i]].peerId)
      {
        assert i < |front| ==> front[i] == participants[i];
      }
    }
  }

  lemma PoolRowShows(s: State, p: PoolId, now: BlockNumber)
    requires MembershipAgrees(s) && OwnersKnown(s) && p in s.pools
    ensures ShowsPool(s, now, PoolRowOf(s, p, now)) && PoolRowOf(s, p, now).id == p
  {
    forall a | a in s.pools[p].participants ensures a in s.users {
      assert IsParticipant(s, p, a) <==> IsMember(s, a, p);
    }
    WalkIsComplete(s.users, s.pools[p].participants);
  }

  lemma PoolRowsList(s: State, pool: Option<PoolId>, now: BlockNumber, rows: seq<PoolRow>)
    requires MembershipAgrees(s) && OwnersKnown(s)
    requires forall row :: row in rows <==> row.id in s.pools && (pool.Some? ==> row.id == pool.value)
                                            && row == PoolRowOf(s, row.id, now)
    requires forall i, j :: 0 <= i < j < |rows| ==> rows[i].id != rows[j].id
    ensures ListsPools(s, pool, now, rows)
  {
    forall row | row in rows ensures ShowsPool(s, now, row) {
      PoolRowShows(s, row.id, now);
    }
    forall p | p in s.pools && (pool.Some? ==> p == pool.value) ensures exists row :: row in rows && row.id == p {
      PoolRowShows(s, p, now);
      assert PoolRowOf(s, p, now) in rows;
    }
  }

  lemma MemberRowsList(s: State, pool: Option<PoolId>, account: Option<AccountId>, rows: seq<MemberRow>)
    requires MembershipAgrees(s)
    requires forall row :: row in rows <==> Selected(s, pool, account, row.account) && row == RowOf(s, row.account)
    requires forall i, j :: 0 <= i < j < |rows| ==> rows[i].account != rows[j].account
    ensures ListsMembers(s, pool, account, rows)
  {
    forall row: MemberRow ensures IsParticipant(s, row.pool, row.account) <==> IsMember(s, row.account, row.pool) {}
  }

  lemma RequestRowsList(s: State, pool: Option<PoolId>, now: BlockNumber, rows: seq<RequestRow>)
    requires ApplicationsAgree(s) && RequestsGrounded(s)
    requires RowsOf(s, Wanted(s, pool), now, rows) && AccountsDistinct(rows)
    ensures ListsRequests(s, pool, now, rows)
  {
    forall p, a ensures IsPending(s, p, a) <==> IsApplicant(s, a, p) {}
    forall row | row in rows
      ensures row.block == now && row.account in s.users && row.peerId == s.users[row.account].peerId
      ensures s.users[row.account].requestPoolId.Some? && (pool.Some? ==> s.users[row.account].requestPoolId == pool)
    {
      var k :| k in Wanted(s, pool) && row == RequestRowOf(s, k, now);
      assert k == Key(k.pool, k.who) && IsPending(s, k.pool, k.who);
    }
    forall row: RequestRow
      | && row.block == now && row.account in s.users && row.peerId == s.users[row.account].peerId
        && s.users[row.account].requestPoolId.Some? && (pool.Some? ==> s.users[row.account].requestPoolId == pool)
      ensures row in rows
    {
      var k := Key(s.users[row.account].requestPoolId.value, row.account);
      assert IsApplicant(s, k.who, k.pool) && IsPending(s, k.pool, k.who);
      assert k in Wanted(s, pool) && row == RequestRowOf(s, k, now);
    }
  }

  /** An account has one request, so a key that has not been listed is a new account. */
  lemma NewAccount(s: State, keys: set<Key>, now: BlockNumber, rows: seq<RequestRow>, k: Key)
    requires ApplicationsAgree(s) && k in s.requests && k !in keys && forall j :: j in keys ==> j in s.requests
    requires RowsOf(s, keys, now, rows) && AccountsDistinct(rows)
    ensures AccountsDistinct(rows + [RequestRowOf(s, k, now)])
  {
    forall i | 0 <= i < |rows| ensures rows[i].account != k.who {
      assert rows[i] in rows;
      var j :| j in keys && rows[i] == RequestRowOf(s, j, now);
      assert j == Key(j.pool, j.who) && IsPending(s, j.pool, j.who) <==> IsApplicant(s, j.who, j.pool);
      assert k == Key(k.pool, k.who) && IsPending(s, k.pool, k.who) <==> IsApplicant(s, k.who, k.pool);
    }
  }

  // ----- Agreement -----

  /** After every run, `list_pools` and `get_pool_members` asked for the same pool show the
      same accounts with the same peer ids: those the accounts gave when they last created
      or joined a pool. */
  lemma ViewsAgree(cfg: Config, calls: seq<Call>, p: PoolId, account: Option<AccountId>, now: BlockNumber,
                   pools: seq<PoolRow>, members: seq<MemberRow>)
    requires PoolsCreated(cfg, calls) <= U32_MAX
    requires ListsPools(Run(cfg, calls), Some(p), now, pools)
    requires ListsMembers(Run(cfg, calls), Some(p), account, members)
    ensures p !in Run(cfg, calls).pools ==> pools == [] && members == []
    ensures p in Run(cfg, calls).pools ==>
              && |pools| == 1
              && (forall a, peer :: MemberRow(a, peer, p) in members <==> Member(a, peer) in pools[0].members)
              && (forall m :: m in pools[0].members ==> LastPeer(cfg, calls, m.account) == Some(m.peerId))
  {
    var s := Run(cfg, calls);
    if p in s.pools {
      var row :| row in pools && row.id == p;
      OneRow(pools, p);
      MembersShown(s, now, pools[0]);
      forall a ensures PeerOf(s, a) == LastPeer(cfg, calls, a) {
        PeerIsHistory(cfg, calls, a);
      }
    } else {
      assert forall row :: row !in pools;
      assert forall row :: row !in members;
      SomeRow(pools);
      SomeRow(members);
    }
  }

  lemma SomeRow<T>(rows: seq<T>)
    ensures rows == [] || exists row :: row in rows
  {
    if rows != [] {
      assert rows[0] in rows;
    }
  }

  lemma OneRow(rows: seq<PoolRow>, p: PoolId)
    requires forall row :: row in rows ==> row.id == p
    requires forall i, j :: 0 <= i < j < |rows| ==> rows[i].id != rows[j].id
    ensures |rows| <= 1
  {
    DistinctBound(seq(|rows|, i requires 0 <= i < |rows| => rows[i].id), {p});
  }

  lemma MembersShown(s: State, now: BlockNumber, row: PoolRow)
    requires ShowsPool(s, now, row)
    ensures forall m :: m in row.members
                        <==> m.account in s.pools[row.id].participants && m.account in s.users && m.peerId == s.users[m.account].peerId
  {
    forall m: Member
      | m.account in s.pools[row.id].participants && m.account in s.users && m.peerId == s.users[m.account].peerId
      ensures m in row.members
    {
      var i :| 0 <= i < |s.pools[row.id].participants| && s.pools[row.id].participants[i] == m.account;
      assert row.members[i] == m;
    }
  }

  /** After every run the storage is as the listings need it: an owner of a pool and a
      participant is always a user, and a request carries its applicant's peer id. */
  lemma ViewsAreSound(cfg: Config, calls: seq<Call>)
    requires PoolsCreated(cfg, calls) <= U32_MAX
    ensures var s := Run(cfg, calls);
            && OwnersKnown(s) && MembershipAgrees(s) && ApplicationsAgree(s) && RequestsGrounded(s)
            && (forall k :: k in s.requests ==> LastPeer(cfg, calls, k.who) == Some(s.requests[k].peerId))
  {
    var s := Run(cfg, calls);
    RunKeepsInv(cfg, calls);
    forall k | k in s.requests ensures LastPeer(cfg, calls, k.who) == Some(s.requests[k].peerId) {
      assert k == Key(k.pool, k.who);
      assert IsPending(s, k.pool, k.who) <==> IsApplicant(s, k.who, k.pool);
      PeerIsHistory(cfg, calls, k.who);
    }
  }
}
