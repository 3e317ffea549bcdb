/** The storage of the pool pallet as a value, and what each dispatchable does to it:
    either a new storage or an error that leaves the storage as it was. */
module PoolSpec {
  import opened Wrappers
  import opened Widths
  import opened SortedSeq

  /** The pallet's constants, and the `MaxPools` storage value that no call writes. */
  datatype Config = Config(maxParticipants: nat, stringLimit: nat, maxPools: Option<u32>)

  datatype Pool = Pool(
    name: Bytes,
    owner: Option<AccountId>,
    parent: Option<PoolId>,
    participants: seq<AccountId>,
    requestNumber: u8,
    region: Bytes)
  {
    predicate IsFull(cfg: Config) {
      |participants| + requestNumber == cfg.maxParticipants
    }
  }

  datatype User = User(poolId: Option<PoolId>, requestPoolId: Option<PoolId>, peerId: Bytes) {
    predicate IsFree() {
      poolId.None? && requestPoolId.None?
    }
  }

  datatype PoolRequest = PoolRequest(voted: seq<AccountId>, positiveVotes: u16, peerId: Bytes)

  datatype VoteResult = Accepted | Denied | Inconclusive

  datatype Key = Key(pool: PoolId, who: AccountId)

  datatype State = State(
    lastPoolId: PoolId,
    pools: map<PoolId, Pool>,
    requests: map<Key, PoolRequest>,
    users: map<AccountId, User>)

  datatype Error =
    | UserBusy
    | MaxPools
    | NameTooLong
    | PoolDoesNotExist
    | RequestDoesNotExist
    | CapacityReached
    | UserDoesNotExist
    | AccessDenied
    | InternalError
    | AlreadyVoted

  datatype Outcome = Done(post: State) | Failed(error: Error)

  datatype Call =
    | Create(owner: AccountId, name: Bytes, region: Bytes, peer: Bytes)
    | LeavePool(caller: AccountId, pool: PoolId, target: Option<AccountId>)
    | Join(account: AccountId, pool: PoolId, peer: Bytes)
    | CancelJoin(caller: AccountId, pool: PoolId, target: Option<AccountId>)
    | Vote(voter: AccountId, pool: PoolId, account: AccountId, positive: bool, peer: Bytes)

  function Init(): State {
    State(0, map[], map[], map[])
  }

  function UserOrDefault(s: State, who: AccountId): User {
    if who in s.users then s.users[who] else User(None, None, [])
  }

  /** The next identifier of a pool; the counter has 32 bits. */
  function NextPoolId(s: State): PoolId {
    WrapU32(s.lastPoolId + 1)
  }

  // ----- The six ways in which a successful call changes the storage -----

  function AddPool(s: State, owner: AccountId, name: Bytes, region: Bytes, peer: Bytes): State {
    var id := NextPoolId(s);
    State(
      id,
      s.pools[id := Pool(name, Some(owner), None, [owner], 0, region)],
      s.requests,
      s.users[owner := UserOrDefault(s, owner).(poolId := Some(id), peerId := peer)])
  }

  function RemoveParticipant(s: State, p: PoolId, a: AccountId): State
    requires p in s.pools && a in s.users
  {
    s.(pools := s.pools[p := s.pools[p].(participants := Remove(s.pools[p].participants, a))],
       users := s.users[a := s.users[a].(poolId := None)])
  }

  function AddRequest(s: State, p: PoolId, a: AccountId, peer: Bytes): State
    requires p in s.pools
  {
    s.(pools := s.pools[p := s.pools[p].(requestNumber := WrapU8(s.pools[p].requestNumber + 1))],
       requests := s.requests[Key(p, a) := PoolRequest([], 0, peer)],
       users := s.users[a := UserOrDefault(s, a).(requestPoolId := Some(p), peerId := peer)])
  }

  /** A request withdrawn by `cancel_join`, or denied by a vote. */
  function DropRequest(s: State, p: PoolId, a: AccountId): State
    requires p in s.pools && a in s.users
  {
    s.(pools := s.pools[p := s.pools[p].(requestNumber := WrapU8(s.pools[p].requestNumber - 1))],
       requests := s.requests - {Key(p, a)},
       users := s.users[a := s.users[a].(requestPoolId := None)])
  }

  function Admit(s: State, p: PoolId, a: AccountId, peer: Bytes): State
    requires p in s.pools
  {
    var pool := s.pools[p];
    s.(pools := s.pools[p := pool.(participants := Insert(pool.participants, a),
                                   requestNumber := WrapU8(pool.requestNumber - 1))],
       requests := s.requests - {Key(p, a)},
       users := s.users[a := User(Some(p), None, peer)])
  }

  function StoreBallots(s: State, p: PoolId, a: AccountId, request: PoolRequest): State {
    s.(requests := s.requests[Key(p, a) := request])
  }

  // ----- Voting -----

  function CastBallot(request: PoolRequest, voter: AccountId, positive: bool): PoolRequest {
    request.(voted := Insert(request.voted, voter),
             positiveVotes := if positive then WrapU16(request.positiveVotes + 1) else request.positiveVotes)
  }

  /** `check_votes` on 16-bit integers: the owner's presence among the voters together with
      any positive vote decides at once, then the two thresholds are compared. */
  function Verdict(request: PoolRequest, owner: Option<AccountId>, n: u16): VoteResult {
    if owner.Some? && owner.value in request.voted && request.positiveVotes >= 1 then Accepted
    else if WrapU16(WrapU16(|request.voted|) - request.positiveVotes) > n / 2 then Denied
    else if request.positiveVotes > Min(n / 3, 8) then Accepted
    else Inconclusive
  }

  function ProcessVoteResult(cfg: Config, s: State, p: PoolId, a: AccountId, request: PoolRequest, result: VoteResult): Outcome
    requires p in s.pools
  {
    match result
    case Accepted =>
      if a !in s.users then Failed(UserDoesNotExist)
      else if a in s.pools[p].participants then Failed(InternalError)
      else if |s.pools[p].participants| >= cfg.maxParticipants then Failed(InternalError)
      else Done(Admit(s, p, a, request.peerId))
    case Denied =>
      if a !in s.users then Failed(UserDoesNotExist)
      else Done(DropRequest(s, p, a))
    case Inconclusive =>
      Done(StoreBallots(s, p, a, request))
  }

  // ----- The dispatchables -----

  function CreatePool(cfg: Config, s: State, owner: AccountId, name: Bytes, region: Bytes, peer: Bytes): Outcome {
    if !UserOrDefault(s, owner).IsFree() then Failed(UserBusy)
    else if cfg.maxPools.Some? && cfg.maxPools.value <= s.lastPoolId then Failed(MaxPools)
    else if |name| > cfg.stringLimit || |region| > cfg.stringLimit then Failed(NameTooLong)
    else if cfg.maxParticipants == 0 then Failed(CapacityReached)
    else Done(AddPool(s, owner, name, region, peer))
  }

  /** Whom `leave_pool` removes; `None` when the caller may not remove the target. */
  function LeaveTarget(pool: Pool, caller: AccountId, target: Option<AccountId>): Option<AccountId> {
    match target
    case Some(a) => if pool.owner == Some(caller) || caller == a then Some(a) else None
    case None => if pool.owner.None? || pool.owner == Some(caller) then Some(caller) else None
  }

  function Leave(s: State, caller: AccountId, p: PoolId, target: Option<AccountId>): Outcome {
    if p !in s.pools then Failed(PoolDoesNotExist)
    else match LeaveTarget(s.pools[p], caller, target)
      case None => Failed(AccessDenied)
      case Some(a) =>
        if a !in s.users then Failed(UserDoesNotExist)
        else if s.users[a].poolId != Some(p) then Failed(AccessDenied)
        else if a !in s.pools[p].participants then Failed(InternalError)
        else Done(RemoveParticipant(s, p, a))
  }

  function RequestToJoin(cfg: Config, s: State, a: AccountId, p: PoolId, peer: Bytes): Outcome {
    if p !in s.pools then Failed(PoolDoesNotExist)
    else if s.pools[p].IsFull(cfg) then Failed(CapacityReached)
    else if !UserOrDefault(s, a).IsFree() then Failed(UserBusy)
    else Done(AddRequest(s, p, a, peer))
  }

  /** Whose request `cancel_join` withdraws; unlike `leave_pool`, naming oneself is refused
      to everyone but the owner, and naming nobody is open to everyone. */
  function CancelTarget(pool: Pool, caller: AccountId, target: Option<AccountId>): Option<AccountId> {
    match target
    case Some(a) => if pool.owner == Some(caller) then Some(a) else None
    case None => Some(caller)
  }

  function Cancel(s: State, caller: AccountId, p: PoolId, target: Option<AccountId>): Outcome {
    if p !in s.pools then Failed(PoolDoesNotExist)
    else match CancelTarget(s.pools[p], caller, target)
      case None => Failed(AccessDenied)
      case Some(a) =>
        if Key(p, a) !in s.requests then Failed(RequestDoesNotExist)
        else if a !in s.users then Failed(UserDoesNotExist)
        else Done(DropRequest(s, p, a))
  }

  function CastVote(cfg: Config, s: State, voter: AccountId, p: PoolId, a: AccountId, positive: bool, peer: Bytes): Outcome {
    if voter !in s.users then Failed(UserDoesNotExist)
    else if Key(p, a) !in s.requests then Failed(RequestDoesNotExist)
    else
      var request := s.requests[Key(p, a)];
      if s.users[voter].poolId != Some(p) || request.peerId != peer then Failed(AccessDenied)
      else if voter in request.voted then Failed(AlreadyVoted)
      else if |request.voted| >= cfg.maxParticipants then Failed(InternalError)
      else if p !in s.pools then Failed(PoolDoesNotExist)
      else if s.pools[p].IsFull(cfg) then Failed(CapacityReached)
      else
        var cast := CastBallot(request, voter, positive);
        ProcessVoteResult(cfg, s, p, a, cast, VerdictIn(s.pools[p], cast))
  }

  /** The verdict at the pool's present size, truncated to 16 bits. */
  function VerdictIn(pool: Pool, request: PoolRequest): VoteResult {
    Verdict(request, pool.owner, WrapU16(|pool.participants|))
  }

  function Apply(cfg: Config, s: State, c: Call): Outcome {
    match c
    case Create(owner, name, region, peer) => CreatePool(cfg, s, owner, name, region, peer)
    case LeavePool(caller, p, target) => Leave(s, caller, p, target)
    case Join(a, p, peer) => RequestToJoin(cfg, s, a, p, peer)
    case CancelJoin(caller, p, target) => Cancel(s, caller, p, target)
    case Vote(voter, p, a, positive, peer) => CastVote(cfg, s, voter, p, a, positive, peer)
  }

  /** A failing dispatch is rolled back. */
  function Step(cfg: Config, s: State, c: Call): State {
    match Apply(cfg, s, c)
    case Done(post) => post
    case Failed(_) => s
  }

  /** The storage after a sequence of calls, starting from an empty chain. */
  function Run(cfg: Config, calls: seq<Call>): State {
    if calls == [] then Init()
    else Step(cfg, Run(cfg, calls[..|calls| - 1]), calls[|calls| - 1])
  }
}
