/** The storage of the treasury pallet together with the balances it moves, and what each
    dispatchable does to it. */
module TreasurySpec {
  import opened Wrappers
  import opened Widths
  import opened MapSum
  import opened Ledger

  type Cid = Bytes

  datatype StorageRequest = StorageRequest(
    cid: Cid,
    uploader: AccountId,
    size: u64,
    lockedTokens: nat,
    startBlock: BlockNumber,
    peerId: Bytes)

  datatype Origin = Root | Signed(who: AccountId)

  datatype State = State(ledger: Ledger, requests: map<Cid, StorageRequest>, totalLocked: nat, monthlyCost: u128)

  datatype Error = BadOrigin | InsufficientBalance | StorageRequestNotFound | CurrencyRefused

  datatype Outcome = Done(post: State) | Failed(error: Error)

  /** `allowed` is the answer of the currency where it has a say of its own. `Pay` is any
      movement of free balance outside the pallet. */
  datatype Call =
    | LockTokens(origin: Origin, cid: Cid, size: u64, peer: Bytes, now: BlockNumber, allowed: bool)
    | UnlockTokens(origin: Origin, cid: Cid)
    | ReleaseTokens(origin: Origin, cid: Cid, storer: AccountId, amount: u128, allowed: bool)
    | UpdateMonthlyStorageCost(origin: Origin, cost: u128)
    | Pay(from: AccountId, to: AccountId, amount: u128)

  /** `saturating_mul` of the price by the size. */
  function Required(cost: u128, size: u64): nat {
    Min(cost * size, U128_MAX)
  }

  function CheckedAdd(x: nat, y: nat): Option<nat> {
    if x + y <= U128_MAX then Some(x + y) else None
  }

  function CheckedSub(x: nat, y: nat): Option<nat> {
    if y <= x then Some(x - y) else None
  }

  function SaturatingSub(x: nat, y: nat): nat {
    if y <= x then x - y else 0
  }

  function Lock(s: State, uploader: AccountId, cid: Cid, size: u64, peer: Bytes, now: BlockNumber, allowed: bool): Outcome {
    var required := Required(s.monthlyCost, size);
    if Get(s.ledger.free, uploader) < required then Failed(InsufficientBalance)
    else match Reserve(s.ledger, uploader, required, allowed)
      case None => Failed(CurrencyRefused)
      case Some(ledger) =>
        match CheckedAdd(s.totalLocked, required)
        case None => Failed(InsufficientBalance)
        case Some(total) =>
          Done(State(ledger,
                     s.requests[cid := StorageRequest(cid, uploader, size, required, now, peer)],
                     total,
                     s.monthlyCost))
  }

  function Unlock(s: State, uploader: AccountId, cid: Cid): Outcome {
    if cid !in s.requests then Failed(StorageRequestNotFound)
    else if s.requests[cid].uploader != uploader then Failed(InsufficientBalance)
    else match CheckedSub(s.totalLocked, s.requests[cid].lockedTokens)
      case None => Failed(InsufficientBalance)
      case Some(total) =>
        Done(State(Unreserve(s.ledger, uploader, s.requests[cid].lockedTokens),
                   s.requests - {cid}, total, s.monthlyCost))
  }

  function Release(s: State, cid: Cid, storer: AccountId, amount: u128, allowed: bool): Outcome {
    if cid !in s.requests then Failed(StorageRequestNotFound)
    else
      var request := s.requests[cid];
      if request.lockedTokens < amount then Failed(InsufficientBalance)
      else match Transfer(Unreserve(s.ledger, request.uploader, amount), request.uploader, storer, amount, allowed)
        case None => Failed(CurrencyRefused)
        case Some(ledger) =>
          match CheckedSub(s.totalLocked, amount)
          case None => Failed(InsufficientBalance)
          case Some(total) =>
            Done(State(ledger,
                       s.requests[cid := request.(lockedTokens := SaturatingSub(request.lockedTokens, amount))],
                       total, s.monthlyCost))
  }

  function Apply(s: State, c: Call): Outcome {
    match c
    case LockTokens(origin, cid, size, peer, now, allowed) =>
      if origin.Root? then Failed(BadOrigin) else Lock(s, origin.who, cid, size, peer, now, allowed)
    case UnlockTokens(origin, cid) =>
      if origin.Root? then Failed(BadOrigin) else Unlock(s, origin.who, cid)
    case ReleaseTokens(origin, cid, storer, amount, allowed) =>
      if origin.Signed? then Failed(BadOrigin) else Release(s, cid, storer, amount, allowed)
    case UpdateMonthlyStorageCost(origin, cost) =>
      if origin.Signed? then Failed(BadOrigin) else Done(s.(monthlyCost := cost))
    case Pay(from, to, amount) =>
      match Transfer(s.ledger, from, to, amount, true)
      case None => Failed(CurrencyRefused)
      case Some(ledger) => Done(s.(ledger := ledger))
  }

  function Step(s: State, c: Call): State {
    match Apply(s, c)
    case Done(post) => post
    case Failed(_) => s
  }

  /** Some free balances, which fit into 128 bits together, and nothing locked. */
  ghost predicate Genesis(s: State) {
    Sum(s.ledger.free) <= U128_MAX && s.ledger.reserved == map[] && s.requests == map[] && s.totalLocked == 0
  }

  function Run(genesis: State, calls: seq<Call>): State {
    if calls == [] then genesis
    else Step(Run(genesis, calls[..|calls| - 1]), calls[|calls| - 1])
  }
}
