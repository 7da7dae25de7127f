/** The loyalty keeper: the module's tables, the parameter record, the
    recovery-operation sequence, the daily rollup watermark, the bank
    balances the handlers move coins through, and the emitted events. */
module LoyaltyKeeper {
  import opened Base
  import opened LoyaltyParams
  import opened Types

  /** Balances are kept per (account bytes, denom); a missing entry is 0. */
  type Balances = map<(Bytes, string), nat>

  function BalanceOf(balances: Balances, addr: Bytes, denom: string): nat
  {
    if (addr, denom) in balances then balances[(addr, denom)] else 0
  }

  /** Moving `amount` of `denom` from one account to another: first the debit,
      then the credit, as the bank does it. */
  function Transfer(balances: Balances, from: Bytes, to: Bytes, denom: string, amount: nat): (b: Balances)
    requires amount <= BalanceOf(balances, from, denom)
    ensures forall a, d :: (a, d) in b <==> (a, d) in balances || (a, d) in {(from, denom), (to, denom)}
  {
    var debited := balances[(from, denom) := BalanceOf(balances, from, denom) - amount];
    debited[(to, denom) := BalanceOf(debited, to, denom) + amount]
  }

  /** A transfer debits the sender and credits the recipient by the amount,
      leaves every other balance alone, and so conserves the total of the
      two accounts. */
  lemma TransferEffect(balances: Balances, from: Bytes, to: Bytes, denom: string, amount: nat,
                       addr: Bytes, d: string)
    requires amount <= BalanceOf(balances, from, denom)
    ensures var after := Transfer(balances, from, to, denom, amount);
      BalanceOf(after, addr, d) ==
        if d != denom || (addr != from && addr != to) || from == to then BalanceOf(balances, addr, d)
        else if addr == from then BalanceOf(balances, from, denom) - amount
        else BalanceOf(balances, to, denom) + amount
  {
  }

  /** After a transfer the recipient holds at least the amount moved. */
  lemma TransferCredits(balances: Balances, from: Bytes, to: Bytes, denom: string, amount: nat)
    requires amount <= BalanceOf(balances, from, denom)
    ensures amount <= BalanceOf(Transfer(balances, from, to, denom, amount), to, denom)
  {
  }

  lemma TransferConserves(balances: Balances, from: Bytes, to: Bytes, denom: string, amount: nat)
    requires amount <= BalanceOf(balances, from, denom)
    requires from != to
    ensures var after := Transfer(balances, from, to, denom, amount);
      BalanceOf(after, from, denom) + BalanceOf(after, to, denom)
      == BalanceOf(balances, from, denom) + BalanceOf(balances, to, denom)
  {
    TransferEffect(balances, from, to, denom, amount, from, denom);
    TransferEffect(balances, from, to, denom, amount, to, denom);
  }

  class Keeper {
    /** The collaborators; fixed for the keeper's lifetime. */
    const env: Env

    var params: Params
    var allowlist: map<string, AllowlistEntry>
    var tokens: map<string, VerifiedToken>
    var accruals: map<string, RewardAccrual>
    var allocations: map<string, MerchantAllocation>
    var ops: map<U64, RecoveryOperation>
    /** The next recovery-operation id the sequence hands out. */
    var opSeq: U64
    var lastRollup: Option<string>
    var balances: Balances
    var events: seq<Event>

    /** Every stored record satisfies its invariant. */
    predicate Valid()
      reads this`tokens, this`ops, this`accruals, this`allocations, this`allowlist
    {
      && TokensValid(tokens)
      && OperationsValid(ops)
      && AccrualsValid(accruals)
      && AllocationsValid(allocations)
      && AllowlistValid(allowlist)
    }

    /** Every stored operation id was handed out before the current sequence
        value, so the next one is fresh. */
    predicate SeqAhead()
      reads this
    {
      forall id :: id in ops ==> id < opSeq
    }

    constructor(env: Env, params: Params)
      ensures this.env == env && this.params == params
      ensures allowlist == map[] && tokens == map[] && accruals == map[] && allocations == map[]
      ensures ops == map[] && opSeq == 0 && lastRollup == None
      ensures balances == map[] && events == []
      ensures Valid() && SeqAhead()
    {
      this.env := env;
      this.params := params;
      allowlist := map[];
      tokens := map[];
      accruals := map[];
      allocations := map[];
      ops := map[];
      opSeq := 0;
      lastRollup := None;
      balances := map[];
      events := [];
    }

    // ----- the store's Set and Remove on each table -----

    /** Storing a token under its denom. */
    method SetToken(t: VerifiedToken)
      requires Valid() && TokenInvariant(t.denom, t)
      modifies this`tokens
      ensures Valid() && tokens == old(tokens)[t.denom := t]
    {
      TokensValidUpdate(tokens, t);
      tokens := tokens[t.denom := t];
    }

    method RemoveToken(denom: string)
      requires Valid()
      modifies this`tokens
      ensures Valid() && tokens == old(tokens) - {denom}
    {
      tokens := tokens - {denom};
    }

    /** Storing an operation under its id. */
    method SetOperation(op: RecoveryOperation)
      requires Valid() && OperationInvariant(op.id, op)
      modifies this`ops
      ensures Valid() && ops == old(ops)[op.id := op]
    {
      OperationsValidUpdate(ops, op);
      ops := ops[op.id := op];
    }

    /** Storing an accrual under its key. */
    method SetAccrual(rec: RewardAccrual)
      requires Valid() && AccrualInvariant(rec.key, rec)
      modifies this`accruals
      ensures Valid() && accruals == old(accruals)[rec.key := rec]
    {
      AccrualsValidUpdate(accruals, rec);
      accruals := accruals[rec.key := rec];
    }

    method RemoveAccrual(key: string)
      requires Valid()
      modifies this`accruals
      ensures Valid() && accruals == old(accruals) - {key}
    {
      accruals := accruals - {key};
    }

    /** Storing an allocation under its key. */
    method SetAllocation(a: MerchantAllocation)
      requires Valid() && AllocationInvariant(a.key, a)
      modifies this`allocations
      ensures Valid() && allocations == old(allocations)[a.key := a]
    {
      AllocationsValidUpdate(allocations, a);
      allocations := allocations[a.key := a];
    }

    /** Storing an allowlist entry under its address. */
    method SetAllowlistEntry(e: AllowlistEntry)
      requires Valid()
      modifies this`allowlist
      ensures Valid() && allowlist == old(allowlist)[e.address := e]
    {
      allowlist := allowlist[e.address := e];
    }

    method RemoveAllowlistEntry(address: string)
      requires Valid()
      modifies this`allowlist
      ensures Valid() && allowlist == old(allowlist) - {address}
    {
      allowlist := allowlist - {address};
    }

    function Balance(addr: Bytes, denom: string): nat
      reads this`balances
    {
      BalanceOf(balances, addr, denom)
    }

    /** MintCoins into the module account. */
    method MintCoins(denom: string, amount: U64)
      modifies this`balances
      ensures balances == old(balances)[(env.moduleAddress, denom) := old(Balance(env.moduleAddress, denom)) + amount]
      ensures Balance(env.moduleAddress, denom) == old(Balance(env.moduleAddress, denom)) + amount
    {
      balances := balances[(env.moduleAddress, denom) := Balance(env.moduleAddress, denom) + amount];
    }

    /** A bank send: insufficient funds fail and change nothing; otherwise the
        amount moves from `from` to `to`. */
    method SendCoins(from: Bytes, to: Bytes, denom: string, amount: U64) returns (r: Outcome)
      modifies this`balances
      ensures amount > old(Balance(from, denom)) ==> r == Fail(InsufficientFunds) && balances == old(balances)
      ensures amount <= old(Balance(from, denom)) ==>
        r == Pass && balances == Transfer(old(balances), from, to, denom, amount)
    {
      if amount > Balance(from, denom) {
        return Fail(InsufficientFunds);
      }
      balances := Transfer(balances, from, to, denom, amount);
      r := Pass;
    }
  }
}
