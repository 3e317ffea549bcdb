/** The currency as the treasury and proof pallets use it: free and reserved balances.
    `allowed` stands for whatever else the balances pallet may object to. */
module Ledger {
  import opened Wrappers
  import opened Widths
  import opened MapSum

  datatype Ledger = Ledger(free: map<AccountId, nat>, reserved: map<AccountId, nat>)

  ghost function Issuance(l: Ledger): nat {
    Sum(l.free) + Sum(l.reserved)
  }

  function MoveFree(l: Ledger, from: AccountId, to: AccountId, amount: nat): Ledger
    requires amount <= Get(l.free, from)
  {
    var taken := l.free[from := Get(l.free, from) - amount];
    l.(free := taken[to := Get(taken, to) + amount])
  }

  function Reserve(l: Ledger, who: AccountId, amount: nat, allowed: bool): Option<Ledger> {
    if amount == 0 then Some(l)
    else if amount > Get(l.free, who) || !allowed then None
    else Some(Ledger(l.free[who := Get(l.free, who) - amount], l.reserved[who := Get(l.reserved, who) + amount]))
  }

  /** Returns at most what is reserved. */
  function Unreserve(l: Ledger, who: AccountId, amount: nat): Ledger {
    var actual := Min(amount, Get(l.reserved, who));
    Ledger(l.free[who := Get(l.free, who) + actual], l.reserved[who := Get(l.reserved, who) - actual])
  }

  function Transfer(l: Ledger, from: AccountId, to: AccountId, amount: nat, allowed: bool): Option<Ledger> {
    if amount == 0 || from == to then Some(l)
    else if amount > Get(l.free, from) || !allowed then None
    else Some(MoveFree(l, from, to, amount))
  }

  function Deposit(l: Ledger, who: AccountId, amount: nat): Ledger {
    l.(free := l.free[who := Get(l.free, who) + amount])
  }

  // ----- Conservation -----

  lemma ReserveConserves(l: Ledger, who: AccountId, amount: nat, allowed: bool)
    ensures match Reserve(l, who, amount, allowed)
            case None => true
            case Some(t) => Issuance(t) == Issuance(l) && Sum(t.reserved) == Sum(l.reserved) + amount
  {
    if Reserve(l, who, amount, allowed).Some? && amount > 0 {
      SumUpdate(l.free, who, Get(l.free, who) - amount);
      SumUpdate(l.reserved, who, Get(l.reserved, who) + amount);
    }
  }

  lemma UnreserveConserves(l: Ledger, who: AccountId, amount: nat)
    ensures Issuance(Unreserve(l, who, amount)) == Issuance(l)
    ensures amount <= Get(l.reserved, who) ==> Sum(Unreserve(l, who, amount).reserved) == Sum(l.reserved) - amount
  {
    var actual := Min(amount, Get(l.reserved, who));
    SumUpdate(l.free, who, Get(l.free, who) + actual);
    SumUpdate(l.reserved, who, Get(l.reserved, who) - actual);
  }

  lemma TransferConserves(l: Ledger, from: AccountId, to: AccountId, amount: nat, allowed: bool)
    ensures match Transfer(l, from, to, amount, allowed)
            case None => true
            case Some(t) => Issuance(t) == Issuance(l) && t.reserved == l.reserved
  {
    if amount != 0 && from != to && amount <= Get(l.free, from) && allowed {
      var taken := l.free[from := Get(l.free, from) - amount];
      SumUpdate(l.free, from, Get(l.free, from) - amount);
      SumUpdate(taken, to, Get(taken, to) + amount);
    }
  }

  lemma DepositMints(l: Ledger, who: AccountId, amount: nat)
    ensures Issuance(Deposit(l, who, amount)) == Issuance(l) + amount
  {
    SumUpdate(l.free, who, Get(l.free, who) + amount);
  }
}
