/** Who may do what in the treasury: which origin each call demands, and who can take tokens
    out of a balance or a request. */
module TreasuryRights {
  import opened Widths
  import opened MapSum
  import opened TreasurySpec
  import opened TreasuryConservation

  /** `release_tokens` and `update_monthly_storage_cost` are refused to every signed origin,
      `lock_tokens` and `unlock_tokens` to root, and nobody else is refused for the origin. */
  lemma OriginsAreChecked(genesis: State, calls: seq<Call>, c: Call)
    ensures Apply(Run(genesis, calls), c) == Failed(BadOrigin)
            <==> || (c.ReleaseTokens? && c.origin != Root)
                 || (c.UpdateMonthlyStorageCost? && c.origin != Root)
                 || (c.LockTokens? && c.origin == Root)
                 || (c.UnlockTokens? && c.origin == Root)
  {
  }

  /** Root sets the price, which changes nothing else. */
  lemma RootSetsThePrice(genesis: State, calls: seq<Call>, cost: u128)
    ensures Apply(Run(genesis, calls), UpdateMonthlyStorageCost(Root, cost))
            == Done(Run(genesis, calls).(monthlyCost := cost))
    ensures forall c :: Step(Run(genesis, calls), c).monthlyCost != Run(genesis, calls).monthlyCost
                        ==> c.UpdateMonthlyStorageCost? && c.origin == Root
  {
  }

  /** The amount in a request shrinks by a release of root's, the uploader's own unlock, or
      a lock of the same cid, and by nothing else. */
  lemma RequestsAreSafe(genesis: State, calls: seq<Call>, c: Call, cid: Cid)
    requires AmountAt(Step(Run(genesis, calls), c), cid) < AmountAt(Run(genesis, calls), cid)
    ensures cid in Run(genesis, calls).requests
    ensures || (c.ReleaseTokens? && c.origin == Root && c.cid == cid)
            || (c.UnlockTokens? && c.origin == Signed(Run(genesis, calls).requests[cid].uploader) && c.cid == cid)
            || (c.LockTokens? && c.origin.Signed? && c.cid == cid)
  {
  }

  /** The reserved balance of an account shrinks by its own unlock or a release of root's
      from a request of its own, and its free balance by its own lock or payment. */
  lemma BalancesAreSafe(genesis: State, calls: seq<Call>, c: Call, a: AccountId)
    requires Genesis(genesis)
    ensures var s, t := Run(genesis, calls), Step(Run(genesis, calls), c);
            && (Get(t.ledger.reserved, a) < Get(s.ledger.reserved, a)
                ==> || (c.UnlockTokens? && c.origin == Signed(a))
                    || (c.ReleaseTokens? && c.origin == Root && c.cid in s.requests && s.requests[c.cid].uploader == a))
            && (Get(t.ledger.free, a) < Get(s.ledger.free, a)
                ==> (c.LockTokens? && c.origin == Signed(a)) || (c.Pay? && c.from == a))
  {
    RequestsAreBacked(genesis, calls);
  }

  /** The `k`-th call is a lock of the cid that succeeds. */
  ghost predicate LocksAt(genesis: State, calls: seq<Call>, k: nat, cid: Cid) {
    && k < |calls| && calls[k].LockTokens? && calls[k].cid == cid
    && Apply(Run(genesis, calls[..k]), calls[k]).Done?
  }

  /** The request is what that lock stored, apart from the amount. */
  ghost predicate StoredBy(request: StorageRequest, c: Call) {
    && c.LockTokens? && c.origin == Signed(request.uploader) && request.cid == c.cid
    && request.size == c.size && request.startBlock == c.now && request.peerId == c.peer
  }

  lemma StepKeepsRequest(s: State, c: Call, cid: Cid)
    requires cid in Step(s, c).requests
    ensures if c.LockTokens? && c.cid == cid && Apply(s, c).Done? then StoredBy(Step(s, c).requests[cid], c)
            else && cid in s.requests
                 && Step(s, c).requests[cid] == s.requests[cid].(lockedTokens := Step(s, c).requests[cid].lockedTokens)
  {
  }

  /** Every stored request is that of the last successful lock of its cid. */
  lemma {:induction false} RequestsWereLocked(genesis: State, calls: seq<Call>, cid: Cid) returns (k: nat)
    requires Genesis(genesis) && cid in Run(genesis, calls).requests
    ensures LocksAt(genesis, calls, k, cid) && StoredBy(Run(genesis, calls).requests[cid], calls[k])
    ensures forall j :: k < j ==> !LocksAt(genesis, calls, j, cid)
  {
    var front, last := calls[..|calls| - 1], calls[|calls| - 1];
    StepKeepsRequest(Run(genesis, front), last, cid);
    if LocksAt(genesis, calls, |front|, cid) {
      k := |front|;
    } else {
      k := RequestsWereLocked(genesis, front, cid);
      assert front[..k] == calls[..k];
      forall j | k < j ensures !LocksAt(genesis, calls, j, cid) {
        assert j < |front| ==> front[..j] == calls[..j];
        assert !LocksAt(genesis, front, j, cid);
      }
    }
  }
}
