/** The pool pallet as an object: its storage items are fields, its dispatchables are methods
    that update them in place. A dispatchable may fail after it has written; `Dispatch` takes
    a snapshot first and restores it, as the runtime's storage transaction does. */
module PoolPallet {
  import opened Wrappers
  import opened Widths
  import opened SortedSeq
  import opened PoolSpec
  import opened PoolInvariant
  import opened PoolViews

  datatype DispatchResult = Ok | Err(error: Error)

  /** The result of a dispatchable and the storage it leaves, against the specification. A
      failing dispatchable may leave any storage. */
  ghost predicate Follows(r: DispatchResult, after: State, spec: Outcome) {
    match spec
    case Done(post) => r == Ok && after == post
    case Failed(error) => r == Err(error)
  }

  /** The lists that are searched by bisection stay sorted whatever is called. */
  lemma StepKeepsSorted(cfg: Config, s: State, c: Call)
    requires ListsSorted(s)
    ensures ListsSorted(Step(cfg, s, c))
  {
    match c
    case Create(_, _, _, _) =>
    case LeavePool(_, _, _) =>
    case Join(_, _, _) =>
    case CancelJoin(_, _, _) =>
    case Vote(_, _, _, _, _) =>
  }

  class Pallet {
    const cfg: Config
    var lastPoolId: PoolId
    var pools: map<PoolId, Pool>
    var requests: map<Key, PoolRequest>
    var users: map<AccountId, User>
    ghost var history: seq<Call>

    function Storage(): State
      reads this
    {
      State(lastPoolId, pools, requests, users)
    }

    /** The storage is what the calls dispatched so far make of an empty one. */
    ghost predicate Valid()
      reads this
    {
      Storage() == Run(cfg, history) && ListsSorted(Storage())
    }

    constructor (cfg: Config)
      ensures Valid() && this.cfg == cfg && history == [] && Storage() == Init()
    {
      this.cfg := cfg;
      lastPoolId, pools, requests, users := 0, map[], map[], map[];
      history := [];
    }

    // ----- Dispatch -----

    /** One dispatched call: the specified result, and the old storage after an error. */
    method Dispatch(c: Call) returns (r: DispatchResult)
      requires Valid()
      modifies this
      ensures Valid() && history == old(history) + [c]
      ensures Storage() == Step(cfg, old(Storage()), c)
      ensures r == match Apply(cfg, old(Storage()), c) case Done(_) => Ok case Failed(error) => Err(error)
    {
      var snapshot := Storage();
      r := Perform(c);
      if r.Err? {
        lastPoolId, pools, requests, users := snapshot.lastPoolId, snapshot.pools, snapshot.requests, snapshot.users;
      }
      history := history + [c];
      StepKeepsSorted(cfg, snapshot, c);
      assert history[..|history| - 1] == old(history);
    }

    /** The dispatchable itself, which may fail half-way. */
    method Perform(c: Call) returns (r: DispatchResult)
      requires ListsSorted(Storage())
      modifies this`lastPoolId, this`pools, this`requests, this`users
      ensures Follows(r, Storage(), Apply(cfg, old(Storage()), c))
    {
      match c {
        case Create(owner, name, region, peer) => r := CreateCall(owner, name, region, peer);
        case LeavePool(caller, pool, target) => r := LeavePoolCall(caller, pool, target);
        case Join(account, pool, peer) => r := JoinCall(account, pool, peer);
        case CancelJoin(caller, pool, target) => r := CancelJoinCall(caller, pool, target);
        case Vote(voter, pool, account, positive, peer) => r := VoteCall(voter, pool, account, positive, peer);
      }
    }

    // ----- Helpers -----

    method GetOrCreateUser(who: AccountId) returns (user: User)
      modifies this`users
      ensures user == UserOrDefault(old(Storage()), who)
      ensures users == old(users)[who := user]
    {
      if who in users {
        user := users[who];
        assert users == users[who := user];
      } else {
        user := User(None, None, []);
        users := users[who := user];
      }
    }

    /** `check_votes`: the pool's record is read again, and the voters are walked for the owner. */
    method CheckVotes(request: PoolRequest, numParticipants: u16, pool: PoolId) returns (result: VoteResult)
      ensures result == Verdict(request, if pool in pools then pools[pool].owner else None, numParticipants)
    {
      var owner: Option<AccountId> := if pool in pools then pools[pool].owner else None;
      for i := 0 to |request.voted|
        invariant owner.Some? && request.positiveVotes >= 1 ==> owner.value !in request.voted[..i]
      {
        if owner.Some? {
          if request.voted[i] == owner.value && request.positiveVotes >= 1 {
            return Accepted;
          }
        }
      }
      assert request.voted[..|request.voted|] == request.voted;
      var minVotesRequired := Min(numParticipants / 3, 8);
      if WrapU16(WrapU16(|request.voted|) - request.positiveVotes) > numParticipants / 2 {
        return Denied;
      }
      if request.positiveVotes > minVotesRequired {
        return Accepted;
      }
      return Inconclusive;
    }

    method RemovePoolRequest(who: AccountId, p: PoolId, pool: Pool)
      modifies this`requests, this`pools
      ensures requests == old(requests) - {Key(p, who)}
      ensures pools == old(pools)[p := pool.(requestNumber := WrapU8(pool.requestNumber - 1))]
    {
      requests := requests - {Key(p, who)};
      pools := pools[p := pool.(requestNumber := WrapU8(pool.requestNumber - 1))];
    }

    method ProcessVoteResultCall(who: AccountId, p: PoolId, pool: Pool, request: PoolRequest, result: VoteResult)
      returns (r: DispatchResult)
      requires p in pools && pools[p] == pool && StrictlySorted(pool.participants)
      modifies this`requests, this`pools, this`users
      ensures Follows(r, Storage(), ProcessVoteResult(cfg, old(Storage()), p, who, request, result))
    {
      match result {
        case Accepted =>
          if who !in users {
            return Err(UserDoesNotExist);
          }
          requests := requests - {Key(p, who)};
          var position := BinarySearch(pool.participants, who);
          match position {
            case Found(_) =>
              return Err(InternalError);
            case Missing(index) =>
              if |pool.participants| >= cfg.maxParticipants {
                return Err(InternalError);
              }
              InsertAtIndex(pool.participants, index, who);
              var participants := pool.participants[..index] + [who] + pool.participants[index..];
              assert participants == Insert(pool.participants, who);
              users := users[who := User(Some(p), None, request.peerId)];
              RemovePoolRequest(who, p, pool.(participants := participants));
              assert old(requests) - {Key(p, who)} - {Key(p, who)} == old(requests) - {Key(p, who)};
              assert Storage() == Admit(old(Storage()), p, who, request.peerId);
              return Ok;
          }
        case Denied =>
          if who !in users {
            return Err(UserDoesNotExist);
          }
          users := users[who := users[who].(requestPoolId := None)];
          RemovePoolRequest(who, p, pool);
          return Ok;
        case Inconclusive =>
          requests := requests[Key(p, who) := request];
          return Ok;
      }
    }

    // ----- The dispatchables -----

    method CreateCall(owner: AccountId, name: Bytes, region: Bytes, peer: Bytes) returns (r: DispatchResult)
      modifies this`lastPoolId, this`pools, this`users
      ensures Follows(r, Storage(), CreatePool(cfg, old(Storage()), owner, name, region, peer))
    {
      var user := GetOrCreateUser(owner);
      if !user.IsFree() {
        return Err(UserBusy);
      }
      if cfg.maxPools.Some? {
        if !(cfg.maxPools.value > lastPoolId) {
          return Err(MaxPools);
        }
      }
      lastPoolId := WrapU32(lastPoolId + 1);
      var id := lastPoolId;
      if |name| > cfg.stringLimit {
        return Err(NameTooLong);
      }
      if |region| > cfg.stringLimit {
        return Err(NameTooLong);
      }
      if 0 >= cfg.maxParticipants {
        return Err(CapacityReached);
      }
      pools := pools[id := Pool(name, Some(owner), None, [owner], 0, region)];
      users := users[owner := user.(poolId := Some(id), peerId := peer)];
      return Ok;
    }

    method LeavePoolCall(caller: AccountId, p: PoolId, target: Option<AccountId>) returns (r: DispatchResult)
      requires ListsSorted(Storage())
      modifies this`pools, this`users
      ensures Follows(r, Storage(), Leave(old(Storage()), caller, p, target))
    {
      if p !in pools {
        return Err(PoolDoesNotExist);
      }
      var pool := pools[p];
      var account: AccountId;
      match target {
        case Some(a) =>
          if Some(caller) == pool.owner || caller == a {
            account := a;
          } else {
            return Err(AccessDenied);
          }
        case None =>
          if !(pool.owner.None? || pool.owner == Some(caller)) {
            return Err(AccessDenied);
          }
          account := caller;
      }
      if account !in users {
        return Err(UserDoesNotExist);
      }
      var user := users[account];
      if user.poolId != Some(p) {
        return Err(AccessDenied);
      }
      var position := BinarySearch(pool.participants, account);
      match position {
        case Found(index) =>
          RemoveAtIndex(pool.participants, index);
          pools := pools[p := pool.(participants := pool.participants[..index] + pool.participants[index + 1..])];
          users := users[account := user.(poolId := None)];
          return Ok;
        case Missing(_) =>
          return Err(InternalError);
      }
    }

    method JoinCall(account: AccountId, p: PoolId, peer: Bytes) returns (r: DispatchResult)
      modifies this`pools, this`requests, this`users
      ensures Follows(r, Storage(), RequestToJoin(cfg, old(Storage()), account, p, peer))
    {
      if p !in pools {
        return Err(PoolDoesNotExist);
      }
      var pool := pools[p];
      if pool.IsFull(cfg) {
        return Err(CapacityReached);
      }
      var user := GetOrCreateUser(account);
      if !user.IsFree() {
        return Err(UserBusy);
      }
      users := users[account := user.(requestPoolId := Some(p), peerId := peer)];
      requests := requests[Key(p, account) := PoolRequest([], 0, peer)];
      pools := pools[p := pool.(requestNumber := WrapU8(pool.requestNumber + 1))];
      return Ok;
    }

    method CancelJoinCall(caller: AccountId, p: PoolId, target: Option<AccountId>) returns (r: DispatchResult)
      modifies this`pools, this`requests, this`users
      ensures Follows(r, Storage(), Cancel(old(Storage()), caller, p, target))
    {
      if p !in pools {
        return Err(PoolDoesNotExist);
      }
      var pool := pools[p];
      var account: AccountId;
      match target {
        case Some(a) =>
          if Some(caller) == pool.owner {
            account := a;
          } else {
            return Err(AccessDenied);
          }
        case None =>
          account := caller;
      }
      if Key(p, account) !in requests {
        return Err(RequestDoesNotExist);
      }
      if account !in users {
        return Err(UserDoesNotExist);
      }
      users := users[account := users[account].(requestPoolId := None)];
      requests := requests - {Key(p, account)};
      RemovePoolRequest(account, p, pool);
      assert old(requests) - {Key(p, account)} - {Key(p, account)} == old(requests) - {Key(p, account)};
      return Ok;
    }

    method VoteCall(voter: AccountId, p: PoolId, account: AccountId, positive: bool, peer: Bytes)
      returns (r: DispatchResult)
      requires ListsSorted(Storage())
      modifies this`pools, this`requests, this`users
      ensures Follows(r, Storage(), CastVote(cfg, old(Storage()), voter, p, account, positive, peer))
    {
      if voter !in users {
        return Err(UserDoesNotExist);
      }
      var voterUser := users[voter];
      if Key(p, account) !in requests {
        return Err(RequestDoesNotExist);
      }
      var request := requests[Key(p, account)];
      if voterUser.poolId != Some(p) {
        return Err(AccessDenied);
      }
      if request.peerId != peer {
        return Err(AccessDenied);
      }
      var position := BinarySearch(request.voted, voter);
      match position {
        case Found(_) =>
          return Err(AlreadyVoted);
        case Missing(index) =>
          if |request.voted| >= cfg.maxParticipants {
            return Err(InternalError);
          }
          InsertAtIndex(request.voted, index, voter);
          var voted := request.voted[..index] + [voter] + request.voted[index..];
          ghost var cast := CastBallot(request, voter, positive);
          assert voted == cast.voted;
          if positive {
            request := request.(positiveVotes := WrapU16(request.positiveVotes + 1));
          }
          request := request.(voted := voted);
          assert request == cast;
          if p !in pools {
            return Err(PoolDoesNotExist);
          }
          var pool := pools[p];
          if pool.IsFull(cfg) {
            return Err(CapacityReached);
          }
          var result := CheckVotes(request, WrapU16(|pool.participants|), p);
          r := ProcessVoteResultCall(account, p, pool, request, result);
      }
    }

    // ----- Queries -----

    /** `is_member` reads the user's record only; where the maps agree, as they do after any
        run, it answers for the participant list. */
    method IsMemberOf(account: AccountId, p: PoolId) returns (b: bool)
      ensures b <==> IsMember(Storage(), account, p)
      ensures MembershipAgrees(Storage()) ==> (b <==> p in pools && account in pools[p].participants)
    {
      assert MembershipAgrees(Storage()) ==> (IsParticipant(Storage(), p, account) <==> IsMember(Storage(), account, p));
      b := account in users && users[account].poolId == Some(p);
    }

    /** The scan of `Users`, in any order. */
    method GetPoolMembers(pool: Option<PoolId>, account: Option<AccountId>) returns (rows: seq<MemberRow>)
      ensures forall row :: row in rows <==> Selected(Storage(), pool, account, row.account) && row == RowOf(Storage(), row.account)
      ensures forall i, j :: 0 <= i < j < |rows| ==> rows[i].account != rows[j].account
      ensures MembershipAgrees(Storage()) ==> ListsMembers(Storage(), pool, account, rows)
    {
      rows := [];
      var remaining := users.Keys;
      while remaining != {}
        invariant remaining <= users.Keys
        invariant forall row :: row in rows <==>
                    && row.account !in remaining
                    && Selected(Storage(), pool, account, row.account) && row == RowOf(Storage(), row.account)
        invariant forall i, j :: 0 <= i < j < |rows| ==> rows[i].account != rows[j].account
      {
        var a :| a in remaining;
        remaining := remaining - {a};
        var user := users[a];
        forall i | 0 <= i < |rows| ensures rows[i].account != a {
          assert rows[i] in rows;
        }
        match pool {
          case Some(p) =>
            if user.poolId == Some(p) {
              rows := rows + [MemberRow(a, user.peerId, p)];
            }
          case None =>
            if account == Some(a) {
              if user.poolId.Some? {
                rows := rows + [MemberRow(a, user.peerId, user.poolId.value)];
              }
            }
        }
      }
      if MembershipAgrees(Storage()) {
        MemberRowsList(Storage(), pool, account, rows);
      }
    }

    /** The walk over a pool's participants. */
    method CollectMembers(participants: seq<AccountId>) returns (members: seq<Member>)
      ensures members == Walk(users, participants)
    {
      members := [];
      for i := 0 to |participants|
        invariant members == Walk(users, participants[..i])
      {
        assert participants[..i + 1][..i] == participants[..i];
        if participants[i] in users {
          members := members + [Member(participants[i], users[participants[i]].peerId)];
        }
      }
      assert participants[..|participants|] == participants;
    }

    /** One row for every pool, or for the one asked for; the owner's record must exist. */
    method ListPools(pool: Option<PoolId>, now: BlockNumber) returns (rows: seq<PoolRow>)
      requires OwnersKnown(Storage())
      ensures forall row :: row in rows <==> row.id in pools && (pool.Some? ==> row.id == pool.value)
                                             && row == PoolRowOf(Storage(), row.id, now)
      ensures forall i, j :: 0 <= i < j < |rows| ==> rows[i].id != rows[j].id
      ensures MembershipAgrees(Storage()) ==> ListsPools(Storage(), pool, now, rows)
    {
      rows := [];
      var remaining := pools.Keys;
      while remaining != {}
        invariant remaining <= pools.Keys
        invariant forall row :: row in rows <==>
                    && row.id !in remaining && row.id in pools && (pool.Some? ==> row.id == pool.value)
                    && row == PoolRowOf(Storage(), row.id, now)
        invariant forall i, j :: 0 <= i < j < |rows| ==> rows[i].id != rows[j].id
      {
        var p :| p in remaining;
        remaining := remaining - {p};
        forall i | 0 <= i < |rows| ensures rows[i].id != p {
          assert rows[i] in rows;
        }
        if pool.None? || pool.value == p {
          var record := pools[p];
          var members := CollectMembers(record.participants);
          rows := rows + [PoolRow(p, record.name, record.region, now, record.owner,
                                  if record.owner.Some? then Some(users[record.owner.value].peerId) else None, members)];
        }
      }
      if MembershipAgrees(Storage()) {
        PoolRowsList(Storage(), pool, now, rows);
      }
    }

    /** One row for every pending request, of all pools or of the one asked for. */
    method ListPoolJoinRequests(pool: Option<PoolId>, now: BlockNumber) returns (rows: seq<RequestRow>)
      ensures |rows| == |Wanted(Storage(), pool)|
      ensures forall k :: k in Wanted(Storage(), pool) ==> RequestRowOf(Storage(), k, now) in rows
      ensures forall row :: row in rows ==> exists k :: k in Wanted(Storage(), pool) && row == RequestRowOf(Storage(), k, now)
      ensures ApplicationsAgree(Storage()) && RequestsGrounded(Storage()) ==> ListsRequests(Storage(), pool, now, rows)
    {
      rows := [];
      var remaining := requests.Keys;
      ghost var s := Storage();
      ghost var wanted, listed: set<Key> := Wanted(s, pool), {};
      while remaining != {}
        invariant remaining <= requests.Keys
        invariant forall k :: k in listed <==> k in wanted && k !in remaining
        invariant |rows| == |listed|
        invariant RowsOf(s, listed, now, rows)
        invariant ApplicationsAgree(s) ==> AccountsDistinct(rows)
      {
        var k :| k in remaining;
        remaining := remaining - {k};
        if pool.None? || k.pool == pool.value {
          OneMoreRow(s, listed, now, rows, k);
          if ApplicationsAgree(s) {
            NewAccount(s, listed, now, rows, k);
          }
          rows := rows + [RequestRow(k.who, requests[k].peerId, now)];
          listed := listed + {k};
        }
      }
      assert listed == wanted;
      if ApplicationsAgree(s) && RequestsGrounded(s) {
        RequestRowsList(s, pool, now, rows);
      }
    }
  }
}
