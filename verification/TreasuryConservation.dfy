/** Where the treasury's tokens are, over whole runs. Locking a cid that is already locked
    overwrites its request; the tokens of the old one stay reserved and are followed here
    as the uploader's orphaned tokens. */
module TreasuryConservation {
  import opened Widths
  import opened MapSum
  import opened Ledger
  import opened TreasurySpec

  // ----- Sums over requests -----

  /** What each live request holds for `a`. */
  ghost function Shares(requests: map<Cid, StorageRequest>, a: AccountId): map<Cid, nat> {
    map cid | cid in requests :: if requests[cid].uploader == a then requests[cid].lockedTokens else 0
  }

  ghost function LockedBy(s: State, a: AccountId): nat {
    Sum(Shares(s.requests, a))
  }

  ghost function Amounts(requests: map<Cid, StorageRequest>): map<Cid, nat> {
    map cid | cid in requests :: requests[cid].lockedTokens
  }

  ghost function LockedInAll(s: State): nat {
    Sum(Amounts(s.requests))
  }

  function AmountAt(s: State, cid: Cid): nat {
    if cid in s.requests then s.requests[cid].lockedTokens else 0
  }

  function ShareAt(s: State, cid: Cid, a: AccountId): nat {
    if cid in s.requests && s.requests[cid].uploader == a then s.requests[cid].lockedTokens else 0
  }

  lemma SharesUpdate(s: State, cid: Cid, r: StorageRequest, a: AccountId)
    ensures Sum(Shares(s.requests[cid := r], a)) + ShareAt(s, cid, a)
            == Sum(Shares(s.requests, a)) + if r.uploader == a then r.lockedTokens else 0
  {
    var share := if r.uploader == a then r.lockedTokens else 0;
    SumUpdate(Shares(s.requests, a), cid, share);
    assert Shares(s.requests[cid := r], a) == Shares(s.requests, a)[cid := share];
  }

  lemma AmountsUpdate(s: State, cid: Cid, r: StorageRequest)
    ensures Sum(Amounts(s.requests[cid := r])) + AmountAt(s, cid) == Sum(Amounts(s.requests)) + r.lockedTokens
  {
    SumUpdate(Amounts(s.requests), cid, r.lockedTokens);
    assert Amounts(s.requests[cid := r]) == Amounts(s.requests)[cid := r.lockedTokens];
  }

  lemma SharesRemove(s: State, cid: Cid, a: AccountId)
    ensures Sum(Shares(s.requests - {cid}, a)) + ShareAt(s, cid, a) == Sum(Shares(s.requests, a))
  {
    SumRemove(Shares(s.requests, a), cid);
    assert Shares(s.requests - {cid}, a) == Shares(s.requests, a) - {cid};
  }

  lemma AmountsRemove(s: State, cid: Cid)
    ensures Sum(Amounts(s.requests - {cid})) + AmountAt(s, cid) == Sum(Amounts(s.requests))
  {
    SumRemove(Amounts(s.requests), cid);
    assert Amounts(s.requests - {cid}) == Amounts(s.requests) - {cid};
  }

  lemma ShareIsHeld(s: State, cid: Cid)
    requires cid in s.requests
    ensures s.requests[cid].lockedTokens <= LockedBy(s, s.requests[cid].uploader)
  {
    SumAtLeast(Shares(s.requests, s.requests[cid].uploader), cid);
  }

  // ----- History -----

  /** What one call takes away from the live requests of `a` without returning it. */
  ghost function Overwritten(s: State, c: Call, a: AccountId): nat {
    if c.LockTokens? && Apply(s, c).Done? then ShareAt(s, c.cid, a) else 0
  }

  /** The tokens of `a` in requests that were overwritten. */
  ghost function Orphaned(genesis: State, calls: seq<Call>, a: AccountId): nat {
    if calls == [] then 0
    else
      var front, last := calls[..|calls| - 1], calls[|calls| - 1];
      Orphaned(genesis, front, a) + Overwritten(Run(genesis, front), last, a)
  }

  ghost function OverwrittenInAll(s: State, c: Call): nat {
    if c.LockTokens? && Apply(s, c).Done? then AmountAt(s, c.cid) else 0
  }

  ghost function OrphanedInAll(genesis: State, calls: seq<Call>): nat {
    if calls == [] then 0
    else
      var front, last := calls[..|calls| - 1], calls[|calls| - 1];
      var s := Run(genesis, front);
      OrphanedInAll(genesis, front) + OverwrittenInAll(s, last)
  }

  /** The monthly price: what root set last, or the one at genesis. */
  ghost function Price(genesis: State, calls: seq<Call>): nat {
    if calls == [] then genesis.monthlyCost
    else
      var front, last := calls[..|calls| - 1], calls[|calls| - 1];
      if last.UpdateMonthlyStorageCost? && last.origin == Root then last.cost else Price(genesis, front)
  }

  /** The price of storing `size` after the calls, as far as 128 bits reach. */
  ghost function PriceOf(genesis: State, calls: seq<Call>, size: nat): nat {
    if Price(genesis, calls) * size <= U128_MAX then Price(genesis, calls) * size else U128_MAX
  }

  lemma {:induction false} PriceIsHistory(genesis: State, calls: seq<Call>)
    ensures Run(genesis, calls).monthlyCost == Price(genesis, calls)
  {
    if calls != [] {
      PriceIsHistory(genesis, calls[..|calls| - 1]);
    }
  }

  lemma RequiredIs(genesis: State, calls: seq<Call>, size: u64)
    ensures Required(Run(genesis, calls).monthlyCost, size) == PriceOf(genesis, calls, size)
  {
    PriceIsHistory(genesis, calls);
  }

  /** The amount locked by the last `lock_tokens` for the cid. */
  ghost function LockedAt(genesis: State, calls: seq<Call>, cid: Cid): nat {
    if calls == [] then 0
    else
      var front, last := calls[..|calls| - 1], calls[|calls| - 1];
      var s := Run(genesis, front);
      if last.LockTokens? && last.cid == cid && Apply(s, last).Done? then PriceOf(genesis, front, last.size)
      else LockedAt(genesis, front, cid)
  }

  /** The amounts released from the request since then. */
  ghost function ReleasedSince(genesis: State, calls: seq<Call>, cid: Cid): nat {
    if calls == [] then 0
    else
      var front, last := calls[..|calls| - 1], calls[|calls| - 1];
      var s := Run(genesis, front);
      if last.LockTokens? && last.cid == cid && Apply(s, last).Done? then 0
      else if last.ReleaseTokens? && last.cid == cid && Apply(s, last).Done?
      then ReleasedSince(genesis, front, cid) + last.amount
      else ReleasedSince(genesis, front, cid)
  }

  // ----- One call -----

  /** Everything the pallet promises about a state, given what `a` has lost track of. */
  ghost predicate Covered(s: State, a: AccountId, orphaned: nat) {
    Get(s.ledger.reserved, a) == LockedBy(s, a) + orphaned
  }

  ghost predicate TotalsAgree(s: State) {
    s.totalLocked == Sum(s.ledger.reserved) && Issuance(s.ledger) <= U128_MAX
  }

  /** The request's tokens are there: its uploader has at least that much reserved. */
  ghost predicate Backed(s: State) {
    forall cid :: cid in s.requests ==> s.requests[cid].lockedTokens <= Get(s.ledger.reserved, s.requests[cid].uploader)
  }

  lemma StepTotals(s: State, c: Call)
    requires TotalsAgree(s) && Backed(s)
    ensures TotalsAgree(Step(s, c)) && Issuance(Step(s, c).ledger) == Issuance(s.ledger)
  {
    match c
    case LockTokens(origin, cid, size, peer, now, allowed) =>
      if origin.Signed? {
        ReserveConserves(s.ledger, origin.who, Required(s.monthlyCost, size), allowed);
      }
    case UnlockTokens(origin, cid) =>
      if Apply(s, c).Done? {
        UnreserveConserves(s.ledger, origin.who, s.requests[cid].lockedTokens);
      }
    case ReleaseTokens(origin, cid, storer, amount, allowed) =>
      if Apply(s, c).Done? {
        var uploader := s.requests[cid].uploader;
        UnreserveConserves(s.ledger, uploader, amount);
        TransferConserves(Unreserve(s.ledger, uploader, amount), uploader, storer, amount, allowed);
      }
    case UpdateMonthlyStorageCost(_, _) =>
    case Pay(from, to, amount) =>
      TransferConserves(s.ledger, from, to, amount, true);
  }

  lemma StepCovered(s: State, c: Call, a: AccountId, orphaned: nat)
    requires Covered(s, a, orphaned) && Backed(s)
    ensures Covered(Step(s, c), a, orphaned + Overwritten(s, c, a))
  {
    if Apply(s, c).Done? {
      match c
      case LockTokens(origin, cid, size, peer, now, allowed) =>
        SharesUpdate(s, cid, StorageRequest(cid, origin.who, size, Required(s.monthlyCost, size), now, peer), a);
      case UnlockTokens(origin, cid) =>
        SharesRemove(s, cid, a);
      case ReleaseTokens(origin, cid, storer, amount, allowed) =>
        SharesUpdate(s, cid, s.requests[cid].(lockedTokens := SaturatingSub(s.requests[cid].lockedTokens, amount)), a);
      case UpdateMonthlyStorageCost(_, _) =>
      case Pay(_, _, _) =>
    }
  }

  lemma StepLocked(s: State, c: Call, orphaned: nat)
    requires s.totalLocked == LockedInAll(s) + orphaned
    ensures Step(s, c).totalLocked == LockedInAll(Step(s, c)) + orphaned + OverwrittenInAll(s, c)
  {
    if Apply(s, c).Done? {
      match c
      case LockTokens(origin, cid, size, peer, now, allowed) =>
        AmountsUpdate(s, cid, StorageRequest(cid, origin.who, size, Required(s.monthlyCost, size), now, peer));
      case UnlockTokens(origin, cid) =>
        AmountsRemove(s, cid);
      case ReleaseTokens(origin, cid, storer, amount, allowed) =>
        AmountsUpdate(s, cid, s.requests[cid].(lockedTokens := SaturatingSub(s.requests[cid].lockedTokens, amount)));
      case UpdateMonthlyStorageCost(_, _) =>
      case Pay(_, _, _) =>
    }
  }

  // ----- Whole runs -----

  /** For every account, what is reserved is what its live requests hold and what its
      overwritten requests held. */
  lemma {:induction false} ReservedIsLockedPlusOrphaned(genesis: State, calls: seq<Call>, a: AccountId)
    requires Genesis(genesis)
    ensures Get(Run(genesis, calls).ledger.reserved, a)
            == LockedBy(Run(genesis, calls), a) + Orphaned(genesis, calls, a)
    decreases |calls|, 0
  {
    if calls == [] {
      assert Shares(genesis.requests, a) == map[];
    } else {
      var front, last := calls[..|calls| - 1], calls[|calls| - 1];
      ReservedIsLockedPlusOrphaned(genesis, front, a);
      RequestsAreBacked(genesis, front);
      StepCovered(Run(genesis, front), last, a, Orphaned(genesis, front, a));
    }
  }

  /** So `unreserve` never falls short. */
  lemma {:induction false} RequestsAreBacked(genesis: State, calls: seq<Call>)
    requires Genesis(genesis)
    ensures Backed(Run(genesis, calls))
    decreases |calls|, 1
  {
    var s := Run(genesis, calls);
    forall cid | cid in s.requests
      ensures s.requests[cid].lockedTokens <= Get(s.ledger.reserved, s.requests[cid].uploader)
    {
      ReservedIsLockedPlusOrphaned(genesis, calls, s.requests[cid].uploader);
      ShareIsHeld(s, cid);
    }
  }

  /** The running total is the sum of all reserved balances, and no call makes or destroys
      tokens, whether or not requests are overwritten. */
  lemma {:induction false} TotalIsReserved(genesis: State, calls: seq<Call>)
    requires Genesis(genesis)
    ensures Run(genesis, calls).totalLocked == Sum(Run(genesis, calls).ledger.reserved)
    ensures Issuance(Run(genesis, calls).ledger) == Issuance(genesis.ledger) <= U128_MAX
  {
    if calls != [] {
      var front, last := calls[..|calls| - 1], calls[|calls| - 1];
      TotalIsReserved(genesis, front);
      RequestsAreBacked(genesis, front);
      StepTotals(Run(genesis, front), last);
    }
  }

  /** The running total is what the live requests hold and what the overwritten ones held. */
  lemma {:induction false} TotalIsLockedPlusOrphaned(genesis: State, calls: seq<Call>)
    requires Genesis(genesis)
    ensures Run(genesis, calls).totalLocked == LockedInAll(Run(genesis, calls)) + OrphanedInAll(genesis, calls)
  {
    if calls == [] {
      assert Amounts(genesis.requests) == map[];
    } else {
      var front, last := calls[..|calls| - 1], calls[|calls| - 1];
      TotalIsLockedPlusOrphaned(genesis, front);
      StepLocked(Run(genesis, front), last, OrphanedInAll(genesis, front));
    }
  }

  /** No `lock_tokens` of the run that succeeds meets a request that still holds tokens. */
  ghost predicate NothingOverwritten(genesis: State, calls: seq<Call>) {
    calls != [] ==>
      var front, last := calls[..|calls| - 1], calls[|calls| - 1];
      && NothingOverwritten(genesis, front)
      && (last.LockTokens? && Apply(Run(genesis, front), last).Done? ==> AmountAt(Run(genesis, front), last.cid) == 0)
  }

  lemma {:induction false} OrphanedInAllIff(genesis: State, calls: seq<Call>)
    ensures OrphanedInAll(genesis, calls) == 0 <==> NothingOverwritten(genesis, calls)
  {
    if calls != [] {
      OrphanedInAllIff(genesis, calls[..|calls| - 1]);
    }
  }

  /** The running total is exactly what the stored requests hold, if and only if that is so. */
  lemma TotalIsLockedIff(genesis: State, calls: seq<Call>)
    requires Genesis(genesis)
    ensures Run(genesis, calls).totalLocked == LockedInAll(Run(genesis, calls)) <==> NothingOverwritten(genesis, calls)
  {
    TotalIsLockedPlusOrphaned(genesis, calls);
    OrphanedInAllIff(genesis, calls);
  }

  lemma {:induction false} NobodyLoses(genesis: State, calls: seq<Call>, a: AccountId)
    requires NothingOverwritten(genesis, calls)
    ensures Orphaned(genesis, calls, a) == 0
  {
    if calls != [] {
      NobodyLoses(genesis, calls[..|calls| - 1], a);
    }
  }

  lemma {:induction false} SomebodyLoses(genesis: State, calls: seq<Call>) returns (a: AccountId)
    requires !NothingOverwritten(genesis, calls)
    ensures Orphaned(genesis, calls, a) > 0
  {
    var front, last := calls[..|calls| - 1], calls[|calls| - 1];
    if NothingOverwritten(genesis, front) {
      a := Run(genesis, front).requests[last.cid].uploader;
    } else {
      a := SomebodyLoses(genesis, front);
    }
  }

  /** Then, and only then, what is reserved of every account is exactly what its requests hold. */
  lemma {:induction false} ReservedIsLockedIff(genesis: State, calls: seq<Call>)
    requires Genesis(genesis)
    ensures (forall a :: Get(Run(genesis, calls).ledger.reserved, a) == LockedBy(Run(genesis, calls), a))
            <==> NothingOverwritten(genesis, calls)
  {
    if NothingOverwritten(genesis, calls) {
      forall a ensures Get(Run(genesis, calls).ledger.reserved, a) == LockedBy(Run(genesis, calls), a) {
        NobodyLoses(genesis, calls, a);
        ReservedIsLockedPlusOrphaned(genesis, calls, a);
      }
    } else {
      var a := SomebodyLoses(genesis, calls);
      ReservedIsLockedPlusOrphaned(genesis, calls, a);
    }
  }

  lemma {:induction false} OrphanedGrows(genesis: State, calls: seq<Call>, more: seq<Call>, a: AccountId)
    ensures Orphaned(genesis, calls, a) <= Orphaned(genesis, calls + more, a)
    decreases |more|
  {
    if more == [] {
      assert calls + more == calls;
    } else {
      OrphanedGrows(genesis, calls, more[..|more| - 1], a);
      assert (calls + more)[..|calls + more| - 1] == calls + more[..|more| - 1];
    }
  }

  /** Orphaned tokens stay reserved for good: no later call brings the reserved balance of
      their owner below them. */
  lemma OrphanedStaysReserved(genesis: State, calls: seq<Call>, more: seq<Call>, a: AccountId)
    requires Genesis(genesis)
    ensures Get(Run(genesis, calls + more).ledger.reserved, a) >= Orphaned(genesis, calls, a)
  {
    OrphanedGrows(genesis, calls, more, a);
    ReservedIsLockedPlusOrphaned(genesis, calls + more, a);
  }

  // ----- The life of a request -----

  lemma StepAmount(s: State, c: Call, cid: Cid)
    requires cid in Step(s, c).requests
    ensures if c.LockTokens? && c.cid == cid && Apply(s, c).Done?
            then Step(s, c).requests[cid].lockedTokens == Required(s.monthlyCost, c.size)
            else && cid in s.requests
                 && s.requests[cid].lockedTokens
                    == Step(s, c).requests[cid].lockedTokens
                       + if c.ReleaseTokens? && c.cid == cid && Apply(s, c).Done? then c.amount else 0
  {
  }

  /** What was locked for a live request is what it still holds and what was released. */
  lemma {:induction false} LifeCycle(genesis: State, calls: seq<Call>, cid: Cid)
    requires Genesis(genesis)
    requires cid in Run(genesis, calls).requests
    ensures Run(genesis, calls).requests[cid].lockedTokens + ReleasedSince(genesis, calls, cid)
            == LockedAt(genesis, calls, cid)
  {
    var front, last := calls[..|calls| - 1], calls[|calls| - 1];
    StepAmount(Run(genesis, front), last, cid);
    if last.LockTokens? {
      RequiredIs(genesis, front, last.size);
    }
    if cid in Run(genesis, front).requests {
      LifeCycle(genesis, front, cid);
    }
  }

  /** Nobody's balances differ but those of one account, or of two. */
  ghost predicate OthersKeep(l: Ledger, m: Ledger, a: AccountId, b: AccountId) {
    forall x :: x != a && x != b ==> Get(m.free, x) == Get(l.free, x) && Get(m.reserved, x) == Get(l.reserved, x)
  }

  /** `unlock_tokens` succeeds exactly for the uploader of a live request, and then returns
      to the uploader exactly what was locked less what was released. */
  lemma UnlockReturnsTheRest(genesis: State, calls: seq<Call>, origin: Origin, cid: Cid)
    requires Genesis(genesis)
    ensures var s := Run(genesis, calls);
            var outcome := Apply(s, UnlockTokens(origin, cid));
            if origin == Root then outcome == Failed(BadOrigin)
            else if cid !in s.requests then outcome == Failed(StorageRequestNotFound)
            else if s.requests[cid].uploader != origin.who then outcome == Failed(InsufficientBalance)
            else
              && ReleasedSince(genesis, calls, cid) <= LockedAt(genesis, calls, cid)
              && var rest := LockedAt(genesis, calls, cid) - ReleasedSince(genesis, calls, cid);
                 outcome.Done? && Unlocks(s, outcome.post, origin.who, cid, rest)
  {
    var s := Run(genesis, calls);
    if cid in s.requests {
      RequestsAreBacked(genesis, calls);
      TotalIsReserved(genesis, calls);
      SumAtLeast(s.ledger.reserved, s.requests[cid].uploader);
      LifeCycle(genesis, calls, cid);
    }
  }

  ghost predicate Unlocks(s: State, t: State, who: AccountId, cid: Cid, amount: nat) {
    && Get(t.ledger.free, who) == Get(s.ledger.free, who) + amount
    && Get(t.ledger.reserved, who) == Get(s.ledger.reserved, who) - amount
    && OthersKeep(s.ledger, t.ledger, who, who)
    && t.requests == s.requests - {cid} && t.totalLocked == s.totalLocked - amount && t.monthlyCost == s.monthlyCost
  }

  ghost predicate Releases(s: State, t: State, cid: Cid, storer: AccountId, amount: nat)
    requires cid in s.requests && amount <= s.requests[cid].lockedTokens
  {
    var request := s.requests[cid];
    && Get(t.ledger.free, storer) == Get(s.ledger.free, storer) + amount
    && (request.uploader != storer ==> Get(t.ledger.free, request.uploader) == Get(s.ledger.free, request.uploader)
                                       && Get(t.ledger.reserved, storer) == Get(s.ledger.reserved, storer))
    && Get(t.ledger.reserved, request.uploader) == Get(s.ledger.reserved, request.uploader) - amount
    && OthersKeep(s.ledger, t.ledger, request.uploader, storer)
    && t.requests == s.requests[cid := request.(lockedTokens := request.lockedTokens - amount)]
    && t.totalLocked == s.totalLocked - amount && t.monthlyCost == s.monthlyCost
  }

  lemma ReleaseEffect(s: State, cid: Cid, storer: AccountId, amount: u128, allowed: bool)
    requires cid in s.requests && amount <= s.requests[cid].lockedTokens <= s.totalLocked
    requires s.requests[cid].lockedTokens <= Get(s.ledger.reserved, s.requests[cid].uploader)
    ensures var outcome := Release(s, cid, storer, amount, allowed);
            if !allowed && amount > 0 && s.requests[cid].uploader != storer then outcome == Failed(CurrencyRefused)
            else outcome.Done? && Releases(s, outcome.post, cid, storer, amount)
  {
  }

  /** `release_tokens` is root's, and succeeds exactly when the request holds the amount and
      the currency lets it go; the storer receives it and the uploader's reserve shrinks by it. */
  lemma ReleasePaysTheStorer(genesis: State, calls: seq<Call>, origin: Origin, cid: Cid, storer: AccountId,
                             amount: u128, allowed: bool)
    requires Genesis(genesis)
    ensures var s := Run(genesis, calls);
            var outcome := Apply(s, ReleaseTokens(origin, cid, storer, amount, allowed));
            if origin != Root then outcome == Failed(BadOrigin)
            else if cid !in s.requests then outcome == Failed(StorageRequestNotFound)
            else if s.requests[cid].lockedTokens < amount then outcome == Failed(InsufficientBalance)
            else if !allowed && amount > 0 && s.requests[cid].uploader != storer then outcome == Failed(CurrencyRefused)
            else outcome.Done? && Releases(s, outcome.post, cid, storer, amount)
  {
    var s := Run(genesis, calls);
    if origin == Root && cid in s.requests && amount <= s.requests[cid].lockedTokens {
      RequestsAreBacked(genesis, calls);
      TotalIsReserved(genesis, calls);
      SumAtLeast(s.ledger.reserved, s.requests[cid].uploader);
      ReleaseEffect(s, cid, storer, amount, allowed);
    }
  }

  /** `lock_tokens` succeeds exactly when the last price root has set, times the size, is
      covered and the currency agrees: the running total never overflows. Then that amount
      moves from free to reserved. */
  lemma LockNeverOverflows(genesis: State, calls: seq<Call>, c: Call)
    requires Genesis(genesis) && c.LockTokens?
    ensures var s := Run(genesis, calls);
            var product := Price(genesis, calls) * c.size;
            var amount := if product <= U128_MAX then product else U128_MAX;
            if c.origin == Root then Apply(s, c) == Failed(BadOrigin)
            else if Get(s.ledger.free, c.origin.who) < amount then Apply(s, c) == Failed(InsufficientBalance)
            else if !c.allowed && amount > 0 then Apply(s, c) == Failed(CurrencyRefused)
            else Apply(s, c).Done? && Locks(s, Apply(s, c).post, c, amount)
  {
    var s := Run(genesis, calls);
    RequiredIs(genesis, calls, c.size);
    if c.origin.Signed? {
      TotalIsReserved(genesis, calls);
      if Required(s.monthlyCost, c.size) <= Get(s.ledger.free, c.origin.who) {
        SumAtLeast(s.ledger.free, c.origin.who);
      }
    }
  }

  ghost predicate Locks(s: State, t: State, c: Call, amount: nat)
    requires c.LockTokens? && c.origin.Signed?
  {
    var who := c.origin.who;
    && Get(t.ledger.free, who) == Get(s.ledger.free, who) - amount
    && Get(t.ledger.reserved, who) == Get(s.ledger.reserved, who) + amount
    && OthersKeep(s.ledger, t.ledger, who, who)
    && t.requests == s.requests[c.cid := StorageRequest(c.cid, who, c.size, amount, c.now, c.peer)]
    && t.totalLocked == s.totalLocked + amount && t.monthlyCost == s.monthlyCost
  }

  // ----- Runs that overwrite a request -----

  /** Two `lock_tokens` for one cid by an account that can pay both: the first price is
      orphaned. */
  lemma LockTwice(genesis: State, calls: seq<Call>, a: AccountId, cid: Cid, size: u64, again: u64) returns (more: seq<Call>)
    requires Genesis(genesis) && AmountAt(Run(genesis, calls), cid) == 0
    requires var s := Run(genesis, calls); Required(s.monthlyCost, size) + Required(s.monthlyCost, again) <= Get(s.ledger.free, a)
    ensures more == calls + [LockTokens(Signed(a), cid, size, [], 0, true)] + [LockTokens(Signed(a), cid, again, [], 0, true)]
    ensures var s, t := Run(genesis, calls), Run(genesis, more);
            && Orphaned(genesis, more, a) == Orphaned(genesis, calls, a) + Required(s.monthlyCost, size)
            && t.totalLocked == s.totalLocked + Required(s.monthlyCost, size) + Required(s.monthlyCost, again)
            && LockedInAll(t) == LockedInAll(s) + Required(s.monthlyCost, again)
  {
    var first := LockOnce(genesis, calls, a, cid, size);
    more := LockOnce(genesis, first, a, cid, again);
  }

  /** `a` locks the price of `size` in place of what the cid held. */
  ghost predicate LocksAnew(s: State, t: State, a: AccountId, cid: Cid, size: u64) {
    var required := Required(s.monthlyCost, size);
    && t.totalLocked == s.totalLocked + required && t.monthlyCost == s.monthlyCost
    && LockedInAll(t) + AmountAt(s, cid) == LockedInAll(s) + required
    && ShareAt(t, cid, a) == AmountAt(t, cid) == required
    && Get(t.ledger.free, a) == Get(s.ledger.free, a) - required
  }

  lemma LockEffect(s: State, c: Call, a: AccountId)
    requires c.LockTokens? && c.origin == Signed(a) && c.allowed
    requires Required(s.monthlyCost, c.size) <= Get(s.ledger.free, a) && Apply(s, c).Done?
    ensures LocksAnew(s, Step(s, c), a, c.cid, c.size)
  {
    AmountsUpdate(s, c.cid, Step(s, c).requests[c.cid]);
  }

  lemma LockOnce(genesis: State, calls: seq<Call>, a: AccountId, cid: Cid, size: u64) returns (more: seq<Call>)
    requires Genesis(genesis)
    requires Required(Run(genesis, calls).monthlyCost, size) <= Get(Run(genesis, calls).ledger.free, a)
    ensures more == calls + [LockTokens(Signed(a), cid, size, [], 0, true)]
    ensures Orphaned(genesis, more, a) == Orphaned(genesis, calls, a) + ShareAt(Run(genesis, calls), cid, a)
    ensures LocksAnew(Run(genesis, calls), Run(genesis, more), a, cid, size)
  {
    var c := LockTokens(Signed(a), cid, size, [], 0, true);
    more := calls + [c];
    assert more[..|calls|] == calls;
    RequiredIs(genesis, calls, size);
    LockNeverOverflows(genesis, calls, c);
    LockEffect(Run(genesis, calls), c, a);
  }

  /** One token is enough for that, since the price is root's to set and a size of zero
      costs nothing. */
  lemma OverwriteOne(genesis: State, a: AccountId) returns (calls: seq<Call>)
    requires Genesis(genesis) && Get(genesis.ledger.free, a) > 0
    ensures Run(genesis, calls).totalLocked == 1 && LockedInAll(Run(genesis, calls)) == 0
  {
    var cost := [UpdateMonthlyStorageCost(Root, 1)];
    assert cost[..0] == [];
    assert Run(genesis, cost) == genesis.(monthlyCost := 1);
    TotalIsLockedPlusOrphaned(genesis, cost);
    calls := LockTwice(genesis, cost, a, [], 1, 0);
  }

  /** So the total is what the requests hold in every run only where nobody has a token. */
  lemma {:induction false} TotalAlwaysLockedIff(genesis: State)
    requires Genesis(genesis)
    ensures (forall calls :: Run(genesis, calls).totalLocked == LockedInAll(Run(genesis, calls)))
            <==> Issuance(genesis.ledger) == 0
  {
    if Issuance(genesis.ledger) == 0 {
      forall calls ensures Run(genesis, calls).totalLocked == LockedInAll(Run(genesis, calls)) {
        TotalIsReserved(genesis, calls);
        TotalIsLockedPlusOrphaned(genesis, calls);
      }
    } else {
      var a := SomebodyHasTokens(genesis.ledger);
      var calls := OverwriteOne(genesis, a);
    }
  }

  lemma SomebodyHasTokens(l: Ledger) returns (a: AccountId)
    requires Issuance(l) > 0 && l.reserved == map[]
    ensures Get(l.free, a) > 0
  {
    if forall b :: b in l.free ==> l.free[b] == 0 {
      SumOfZeros(l.free);
    }
    a :| a in l.free && l.free[a] > 0;
  }
}
