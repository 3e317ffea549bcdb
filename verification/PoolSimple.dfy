/** The pool pallet as one would explain it: every account has one status, pools have
    capacities, votes are counted. There are no request counters, no sorted lists, no
    redundant maps and no integer widths; the pallet is shown to behave like this. */
module PoolSimple {
  import opened Wrappers
  import opened Widths
  import opened Sets
  import opened PoolSpec

  datatype Status =
    | Free
    | MemberOf(pool: PoolId)
    | Waiting(pool: PoolId, voters: set<AccountId>, inFavour: nat)

  datatype Person = Person(status: Status, peerId: Bytes)

  datatype PoolInfo = PoolInfo(name: Bytes, owner: AccountId, region: Bytes)

  /** Pools are numbered from 1 in the order of their creation. */
  datatype World = World(pools: map<PoolId, PoolInfo>, people: map<AccountId, Person>)

  datatype Effect = Became(world: World) | Refused(error: Error)

  ghost function Members(w: World, p: PoolId): set<AccountId> {
    set a | a in w.people && w.people[a].status == MemberOf(p)
  }

  ghost function Candidates(w: World, p: PoolId): set<AccountId> {
    set a | a in w.people && w.people[a].status.Waiting? && w.people[a].status.pool == p
  }

  ghost predicate AtCapacity(cfg: Config, w: World, p: PoolId) {
    |Members(w, p)| + |Candidates(w, p)| >= cfg.maxParticipants
  }

  predicate IsIdle(w: World, a: AccountId) {
    a in w.people ==> w.people[a].status == Free
  }

  function SetStatus(w: World, a: AccountId, status: Status): World
    requires a in w.people
  {
    w.(people := w.people[a := w.people[a].(status := status)])
  }

  /** The owner with anybody in favour decides; then more than half against deny, and more
      than a third in favour, or nine, admit. */
  function Decide(p: PoolId, owner: AccountId, voters: set<AccountId>, inFavour: nat, n: nat): Status
    requires inFavour <= |voters|
  {
    if owner in voters && inFavour >= 1 then MemberOf(p)
    else if |voters| - inFavour > n / 2 then Free
    else if inFavour > Min(n / 3, 8) then MemberOf(p)
    else Waiting(p, voters, inFavour)
  }

  ghost predicate TalliesMakeSense(w: World) {
    forall a :: a in w.people && w.people[a].status.Waiting? ==> w.people[a].status.inFavour <= |w.people[a].status.voters|
  }

  ghost function Effects(cfg: Config, w: World, c: Call): Effect
    requires TalliesMakeSense(w) && |w.pools| <= U32_MAX
    requires c.Create? ==> |w.pools| < U32_MAX
  {
    match c
    case Create(owner, name, region, peer) =>
      if !IsIdle(w, owner) then Refused(UserBusy)
      else if cfg.maxPools.Some? && |w.pools| >= cfg.maxPools.value then Refused(MaxPools)
      else if |name| > cfg.stringLimit || |region| > cfg.stringLimit then Refused(NameTooLong)
      else if cfg.maxParticipants == 0 then Refused(CapacityReached)
      else Became(World(w.pools[|w.pools| + 1 := PoolInfo(name, owner, region)],
                        w.people[owner := Person(MemberOf(|w.pools| + 1), peer)]))
    case LeavePool(caller, p, target) =>
      if p !in w.pools then Refused(PoolDoesNotExist)
      else
        var isOwner := w.pools[p].owner == caller;
        var a := if target.Some? then target.value else caller;
        if !isOwner && target != Some(caller) then Refused(AccessDenied)
        else if a !in w.people then Refused(UserDoesNotExist)
        else if w.people[a].status != MemberOf(p) then Refused(AccessDenied)
        else Became(SetStatus(w, a, Free))
    case Join(a, p, peer) =>
      if p !in w.pools then Refused(PoolDoesNotExist)
      else if AtCapacity(cfg, w, p) then Refused(CapacityReached)
      else if !IsIdle(w, a) then Refused(UserBusy)
      else Became(w.(people := w.people[a := Person(Waiting(p, {}, 0), peer)]))
    case CancelJoin(caller, p, target) =>
      if p !in w.pools then Refused(PoolDoesNotExist)
      else
        var a := if target.Some? then target.value else caller;
        if target.Some? && w.pools[p].owner != caller then Refused(AccessDenied)
        else if a !in Candidates(w, p) then Refused(RequestDoesNotExist)
        else Became(SetStatus(w, a, Free))
    case Vote(voter, p, a, positive, peer) =>
      if voter !in w.people then Refused(UserDoesNotExist)
      else if a !in Candidates(w, p) then Refused(RequestDoesNotExist)
      else if voter !in Members(w, p) || w.people[a].peerId != peer then Refused(AccessDenied)
      else if voter in w.people[a].status.voters then Refused(AlreadyVoted)
      else if p !in w.pools then Refused(PoolDoesNotExist)
      else if AtCapacity(cfg, w, p) then Refused(CapacityReached)
      else
        var voters := w.people[a].status.voters + {voter};
        var inFavour := w.people[a].status.inFavour + if positive then 1 else 0;
        Became(SetStatus(w, a, Decide(p, w.pools[p].owner, voters, inFavour, |Members(w, p)|)))
  }

  /** A vote that meets every condition has the effect of its ballot. */
  lemma VoteEffect(cfg: Config, w: World, c: Call)
    requires TalliesMakeSense(w) && |w.pools| <= U32_MAX && c.Vote?
    requires c.voter in Members(w, c.pool) && c.account in Candidates(w, c.pool)
    requires w.people[c.account].peerId == c.peer && c.voter !in w.people[c.account].status.voters
    requires c.pool in w.pools && !AtCapacity(cfg, w, c.pool)
    ensures var status := w.people[c.account].status;
            var inFavour := status.inFavour + if c.positive then 1 else 0;
            && inFavour <= |status.voters + {c.voter}|
            && Effects(cfg, w, c)
               == Became(SetStatus(w, c.account, Decide(c.pool, w.pools[c.pool].owner, status.voters + {c.voter},
                                                        inFavour, |Members(w, c.pool)|)))
  {
  }

  lemma EffectsMakeSense(cfg: Config, w: World, c: Call)
    requires TalliesMakeSense(w) && |w.pools| <= U32_MAX
    requires c.Create? ==> |w.pools| < U32_MAX
    ensures Effects(cfg, w, c).Became?
            ==> TalliesMakeSense(Effects(cfg, w, c).world) && |Effects(cfg, w, c).world.pools| <= U32_MAX
  {
  }

  /** The world after a sequence of calls; a refused call changes nothing. */
  ghost function SimpleRun(cfg: Config, calls: seq<Call>): (w: World)
    ensures TalliesMakeSense(w) && |w.pools| <= U32_MAX
  {
    if calls == [] then World(map[], map[])
    else
      var w, c := SimpleRun(cfg, calls[..|calls| - 1]), calls[|calls| - 1];
      if c.Create? && |w.pools| == U32_MAX then w
      else
        EffectsMakeSense(cfg, w, c);
        match Effects(cfg, w, c) case Became(t) => t case Refused(_) => w
  }

  // ----- Capacity -----

  /** Members and candidates together. */
  ghost function Occupants(w: World, p: PoolId): set<AccountId> {
    set a | a in w.people && w.people[a].status != Free && w.people[a].status.pool == p
  }

  lemma OccupantsSplit(w: World, p: PoolId)
    ensures |Occupants(w, p)| == |Members(w, p)| + |Candidates(w, p)|
  {
    assert Occupants(w, p) == Members(w, p) + Candidates(w, p);
  }

  /** Pools are numbered from 1. */
  ghost predicate Numbered(pools: map<PoolId, PoolInfo>) {
    forall p: PoolId :: p in pools <==> 1 <= p <= |pools|
  }

  /** Nobody is in or waits for a pool that does not exist. */
  ghost predicate Housed(w: World) {
    forall a :: a in w.people && w.people[a].status != Free ==> w.people[a].status.pool in w.pools
  }

  ghost predicate PoolsExist(w: World) {
    Numbered(w.pools) && Housed(w)
  }

  /** No pool is loaded beyond its capacity. */
  ghost predicate WithinCapacity(cfg: Config, w: World) {
    forall p :: |Occupants(w, p)| <= cfg.maxParticipants
  }

  /** One person with a new status is one occupant more at most, and none more in a pool the
      person was in already. */
  lemma OccupantsMove(w: World, pools: map<PoolId, PoolInfo>, a: AccountId, person: Person, p: PoolId)
    ensures var t := World(pools, w.people[a := person]);
            |Occupants(t, p)| <= |Occupants(w, p)|
                                 + if person.status != Free && person.status.pool == p && a !in Occupants(w, p) then 1 else 0
  {
    var t := World(pools, w.people[a := person]);
    if person.status != Free && person.status.pool == p {
      SubsetSize(Occupants(t, p), Occupants(w, p) + {a});
    } else {
      SubsetSize(Occupants(t, p), Occupants(w, p));
    }
  }

  lemma OneMorePool(pools: map<PoolId, PoolInfo>, id: PoolId, info: PoolInfo)
    requires Numbered(pools) && id == |pools| + 1
    ensures Numbered(pools[id := info])
  {
    assert |pools[id := info]| == id;
  }

  lemma CreateKeepsPools(w: World, id: PoolId, info: PoolInfo, owner: AccountId, peer: Bytes)
    requires PoolsExist(w) && id == |w.pools| + 1
    ensures PoolsExist(World(w.pools[id := info], w.people[owner := Person(MemberOf(id), peer)]))
    ensures Occupants(w, id) == {}
  {
    OneMorePool(w.pools, id, info);
    assert id !in w.pools;
  }

  lemma CreateKeepsCapacity(cfg: Config, w: World, id: PoolId, info: PoolInfo, owner: AccountId, peer: Bytes)
    requires PoolsExist(w) && WithinCapacity(cfg, w) && cfg.maxParticipants > 0 && id == |w.pools| + 1
    ensures WithinCapacity(cfg, World(w.pools[id := info], w.people[owner := Person(MemberOf(id), peer)]))
  {
    var t := World(w.pools[id := info], w.people[owner := Person(MemberOf(id), peer)]);
    CreateKeepsPools(w, id, info, owner, peer);
    forall p ensures |Occupants(t, p)| <= cfg.maxParticipants {
      OccupantsMove(w, t.pools, owner, Person(MemberOf(id), peer), p);
    }
  }

  /** The person leaves a pool, stays in it, or comes to one that has room. */
  ghost predicate MayMove(cfg: Config, w: World, a: AccountId, status: Status) {
    status != Free
    ==> && status.pool in w.pools
        && (a in Occupants(w, status.pool) || |Occupants(w, status.pool)| < cfg.maxParticipants)
  }

  lemma MoveKeepsCapacity(cfg: Config, w: World, a: AccountId, person: Person)
    requires PoolsExist(w) && WithinCapacity(cfg, w) && MayMove(cfg, w, a, person.status)
    ensures var t := w.(people := w.people[a := person]);
            PoolsExist(t) && WithinCapacity(cfg, t)
  {
    var t := w.(people := w.people[a := person]);
    forall p ensures |Occupants(t, p)| <= cfg.maxParticipants {
      OccupantsMove(w, w.pools, a, person, p);
    }
  }

  /** Every other call than `Create` moves one person, who may move. */
  lemma EffectsMove(cfg: Config, w: World, c: Call) returns (a: AccountId, person: Person)
    requires TalliesMakeSense(w) && |w.pools| <= U32_MAX && PoolsExist(w) && !c.Create?
    requires Effects(cfg, w, c).Became?
    ensures Effects(cfg, w, c).world == w.(people := w.people[a := person]) && MayMove(cfg, w, a, person.status)
  {
    match c {
      case LeavePool(caller, p, target) => a := if target.Some? then target.value else caller;
      case Join(b, p, _) =>
        a := b;
        OccupantsSplit(w, p);
      case CancelJoin(caller, p, target) => a := if target.Some? then target.value else caller;
      case Vote(_, _, b, _, _) => a := b;
    }
    person := Effects(cfg, w, c).world.people[a];
  }

  /** The simple pools respect every maximum in every run. */
  lemma {:induction false} SimpleRunKeepsCapacity(cfg: Config, calls: seq<Call>)
    ensures PoolsExist(SimpleRun(cfg, calls)) && WithinCapacity(cfg, SimpleRun(cfg, calls))
  {
    if calls != [] {
      var front, c := calls[..|calls| - 1], calls[|calls| - 1];
      var w := SimpleRun(cfg, front);
      SimpleRunKeepsCapacity(cfg, front);
      if (!c.Create? || |w.pools| < U32_MAX) && Effects(cfg, w, c).Became? {
        EffectsKeepCapacity(cfg, w, c);
      }
    }
  }

  lemma EffectsKeepCapacity(cfg: Config, w: World, c: Call)
    requires TalliesMakeSense(w) && |w.pools| <= U32_MAX && PoolsExist(w) && WithinCapacity(cfg, w)
    requires c.Create? ==> |w.pools| < U32_MAX
    requires Effects(cfg, w, c).Became?
    ensures var t := Effects(cfg, w, c).world; PoolsExist(t) && WithinCapacity(cfg, t)
  {
    if c.Create? {
      CreateKeepsPools(w, |w.pools| + 1, PoolInfo(c.name, c.owner, c.region), c.owner, c.peer);
      CreateKeepsCapacity(cfg, w, |w.pools| + 1, PoolInfo(c.name, c.owner, c.region), c.owner, c.peer);
    } else {
      var a, person := EffectsMove(cfg, w, c);
      MoveKeepsCapacity(cfg, w, a, person);
    }
  }
}
