/** The treasury pallet as an object. Its dispatchables move balances before they can fail;
    `Dispatch` restores the snapshot taken before a failing one. */
module TreasuryPallet {
  import opened Widths
  import opened MapSum
  import opened Ledger
  import opened TreasurySpec

  datatype DispatchResult = Ok | Err(error: Error)

  ghost predicate Follows(r: DispatchResult, after: State, spec: Outcome) {
    match spec
    case Done(post) => r == Ok && after == post
    case Failed(error) => r == Err(error)
  }

  class Pallet {
    var ledger: Ledger
    var storageRequests: map<Cid, StorageRequest>
    var totalLockedTokens: nat
    var monthlyStorageCost: u128
    ghost const genesis: State
    ghost var history: seq<Call>

    function Storage(): State
      reads this
    {
      State(ledger, storageRequests, totalLockedTokens, monthlyStorageCost)
    }

    ghost predicate Valid()
      reads this
    {
      Genesis(genesis) && Storage() == Run(genesis, history)
    }

    constructor (free: map<AccountId, nat>, cost: u128)
      requires Sum(free) <= U128_MAX
      ensures Valid() && history == [] && Storage() == State(Ledger(free, map[]), map[], 0, cost)
    {
      ledger, storageRequests, totalLockedTokens, monthlyStorageCost := Ledger(free, map[]), map[], 0, cost;
      genesis := State(Ledger(free, map[]), map[], 0, cost);
      history := [];
    }

    method Dispatch(c: Call) returns (r: DispatchResult)
      requires Valid()
      modifies this
      ensures Valid() && history == old(history) + [c]
      ensures Storage() == Step(old(Storage()), c)
      ensures r == match Apply(old(Storage()), c) case Done(_) => Ok case Failed(error) => Err(error)
    {
      var snapshot := Storage();
      r := Perform(c);
      if r.Err? {
        ledger, storageRequests := snapshot.ledger, snapshot.requests;
        totalLockedTokens, monthlyStorageCost := snapshot.totalLocked, snapshot.monthlyCost;
      }
      history := history + [c];
      assert history[..|history| - 1] == old(history);
    }

    /** The dispatchable itself, which may fail half-way. */
    method Perform(c: Call) returns (r: DispatchResult)
      modifies this`ledger, this`storageRequests, this`totalLockedTokens, this`monthlyStorageCost
      ensures Follows(r, Storage(), Apply(old(Storage()), c))
    {
      match c {
        case LockTokens(origin, cid, size, peer, now, allowed) => r := LockTokensCall(origin, cid, size, peer, now, allowed);
        case UnlockTokens(origin, cid) => r := UnlockTokensCall(origin, cid);
        case ReleaseTokens(origin, cid, storer, amount, allowed) => r := ReleaseTokensCall(origin, cid, storer, amount, allowed);
        case UpdateMonthlyStorageCost(origin, cost) => r := UpdateMonthlyStorageCostCall(origin, cost);
        case Pay(from, to, amount) =>
          var moved := Transfer(ledger, from, to, amount, true);
          if moved.Some? {
            ledger := moved.value;
            r := Ok;
          } else {
            r := Err(CurrencyRefused);
          }
      }
    }

    method LockTokensCall(origin: Origin, cid: Cid, size: u64, peer: Bytes, now: BlockNumber, allowed: bool)
      returns (r: DispatchResult)
      modifies this`ledger, this`storageRequests, this`totalLockedTokens
      ensures Follows(r, Storage(), Apply(old(Storage()), LockTokens(origin, cid, size, peer, now, allowed)))
      ensures origin.Root? ==> r == Err(BadOrigin)
      ensures r.Ok? && monthlyStorageCost * size <= U128_MAX
              ==> Get(ledger.reserved, origin.who) == Get(old(ledger).reserved, origin.who) + monthlyStorageCost * size
    {
      if origin.Root? {
        return Err(BadOrigin);
      }
      var uploader := origin.who;
      var required := Required(monthlyStorageCost, size);
      if !(Get(ledger.free, uploader) >= required) {
        return Err(InsufficientBalance);
      }
      var reserved := Reserve(ledger, uploader, required, allowed);
      if reserved.None? {
        return Err(CurrencyRefused);
      }
      ledger := reserved.value;
      storageRequests := storageRequests[cid := StorageRequest(cid, uploader, size, required, now, peer)];
      var total := CheckedAdd(totalLockedTokens, required);
      if total.None? {
        return Err(InsufficientBalance);
      }
      totalLockedTokens := total.value;
      return Ok;
    }

    method UnlockTokensCall(origin: Origin, cid: Cid) returns (r: DispatchResult)
      modifies this`ledger, this`storageRequests, this`totalLockedTokens
      ensures Follows(r, Storage(), Apply(old(Storage()), UnlockTokens(origin, cid)))
      ensures origin.Root? ==> r == Err(BadOrigin)
      ensures r.Ok? ==> cid in old(storageRequests) && old(storageRequests)[cid].uploader == origin.who
    {
      if origin.Root? {
        return Err(BadOrigin);
      }
      var uploader := origin.who;
      if cid !in storageRequests {
        return Err(StorageRequestNotFound);
      }
      var request := storageRequests[cid];
      if request.uploader != uploader {
        return Err(InsufficientBalance);
      }
      ledger := Unreserve(ledger, uploader, request.lockedTokens);
      storageRequests := storageRequests - {cid};
      var total := CheckedSub(totalLockedTokens, request.lockedTokens);
      if total.None? {
        return Err(InsufficientBalance);
      }
      totalLockedTokens := total.value;
      return Ok;
    }

    method ReleaseTokensCall(origin: Origin, cid: Cid, storer: AccountId, amount: u128, allowed: bool)
      returns (r: DispatchResult)
      modifies this`ledger, this`storageRequests, this`totalLockedTokens
      ensures Follows(r, Storage(), Apply(old(Storage()), ReleaseTokens(origin, cid, storer, amount, allowed)))
      ensures origin.Signed? ==> r == Err(BadOrigin)
      ensures r.Ok? ==> && cid in old(storageRequests) && amount <= old(storageRequests)[cid].lockedTokens
                        && storageRequests[cid].lockedTokens == old(storageRequests)[cid].lockedTokens - amount
    {
      if origin.Signed? {
        return Err(BadOrigin);
      }
      if cid !in storageRequests {
        return Err(StorageRequestNotFound);
      }
      var request := storageRequests[cid];
      if !(request.lockedTokens >= amount) {
        return Err(InsufficientBalance);
      }
      ledger := Unreserve(ledger, request.uploader, amount);
      var moved := Transfer(ledger, request.uploader, storer, amount, allowed);
      if moved.None? {
        return Err(CurrencyRefused);
      }
      ledger := moved.value;
      if cid in storageRequests {
        var held := storageRequests[cid];
        storageRequests := storageRequests[cid := held.(lockedTokens := SaturatingSub(held.lockedTokens, amount))];
      }
      var total := CheckedSub(totalLockedTokens, amount);
      if total.None? {
        return Err(InsufficientBalance);
      }
      totalLockedTokens := total.value;
      return Ok;
    }

    method UpdateMonthlyStorageCostCall(origin: Origin, cost: u128) returns (r: DispatchResult)
      modifies this`monthlyStorageCost
      ensures Follows(r, Storage(), Apply(old(Storage()), UpdateMonthlyStorageCost(origin, cost)))
      ensures r == if origin.Root? then Ok else Err(BadOrigin)
      ensures monthlyStorageCost == if origin.Root? then cost else old(monthlyStorageCost)
    {
      if origin.Signed? {
        return Err(BadOrigin);
      }
      monthlyStorageCost := cost;
      return Ok;
    }
  }
}
