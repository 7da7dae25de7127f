/** ClaimReward: an account claims its whole accrued reward in a denom, paid
    from the module account's pool; the accrual record is then deleted. */
module ClaimRewardMsgs {
  import opened Base
  import opened LoyaltyParams
  import opened Types
  import opened Policy
  import opened LoyaltyKeeper
  import opened RewardAccrualMsgs

  datatype MsgClaimReward = MsgClaimReward(creator: string, denom: string)

  datatype ClaimResponse = ClaimResponse(address: string, denom: string, amountClaimed: U64)

  /** ClaimReward up to the payment: the record claimed in full, or the
      error. The pool is the module account's balance of the denom. */
  function ClaimSpec(env: Env, balances: Balances, accruals: map<string, RewardAccrual>, msg: MsgClaimReward)
    : (r: Result<RewardAccrual>)
    ensures r.Ok? ==>
      && IsAddress(env, msg.creator)
      && RewardAccrualKey(msg.creator, msg.denom) in accruals
      && r.value == accruals[RewardAccrualKey(msg.creator, msg.denom)]
      && 0 < r.value.amount <= BalanceOf(balances, env.moduleAddress, msg.denom)
    ensures r.Err? ==> r.error in {AddressCodec, InvalidDenom, AccrualNotFound, InvalidRequest, RewardPoolInsufficient}
  {
    if !IsAddress(env, msg.creator) then Err(AddressCodec)
    else if !env.validDenom(msg.denom) then Err(InvalidDenom)
    else
      var key := RewardAccrualKey(msg.creator, msg.denom);
      if key !in accruals then Err(AccrualNotFound)
      else
        var rec := accruals[key];
        if rec.address != msg.creator || rec.denom != msg.denom then Err(InvalidRequest)
        else if rec.amount == 0 then Err(InvalidRequest)
        else if BalanceOf(balances, env.moduleAddress, msg.denom) < rec.amount then Err(RewardPoolInsufficient)
        else Ok(rec)
  }

  /** A claim is refused exactly by the pool check when the pool holds less
      than the accrued amount; a missing record is ErrAccrualNotFound. */
  lemma ClaimRefusals(env: Env, balances: Balances, accruals: map<string, RewardAccrual>, msg: MsgClaimReward)
    requires IsAddress(env, msg.creator) && env.validDenom(msg.denom)
    ensures RewardAccrualKey(msg.creator, msg.denom) !in accruals ==>
      ClaimSpec(env, balances, accruals, msg) == Err(AccrualNotFound)
    ensures var key := RewardAccrualKey(msg.creator, msg.denom);
      key in accruals && accruals[key].address == msg.creator && accruals[key].denom == msg.denom
      && accruals[key].amount > 0 ==>
        (ClaimSpec(env, balances, accruals, msg) == Err(RewardPoolInsufficient)
         <==> BalanceOf(balances, env.moduleAddress, msg.denom) < accruals[key].amount)
  {
  }

  /** There is no partial claim: once the record is deleted a second claim
      finds nothing, whatever the pool holds. */
  lemma ClaimIsOnce(env: Env, balances: Balances, later: Balances, accruals: map<string, RewardAccrual>,
                    msg: MsgClaimReward)
    requires ClaimSpec(env, balances, accruals, msg).Ok?
    ensures ClaimSpec(env, later, accruals - {RewardAccrualKey(msg.creator, msg.denom)}, msg) == Err(AccrualNotFound)
  {
  }

  /** The payment: the claimant gains the amount and the pool loses it, when
      the claimant is not the module account itself. */
  lemma {:induction false} ClaimPays(balances: Balances, pool: Bytes, claimant: Bytes, denom: string, amount: nat)
    requires amount <= BalanceOf(balances, pool, denom) && pool != claimant
    ensures var after := Transfer(balances, pool, claimant, denom, amount);
      && BalanceOf(after, claimant, denom) == BalanceOf(balances, claimant, denom) + amount
      && BalanceOf(after, pool, denom) == BalanceOf(balances, pool, denom) - amount
  {
    TransferEffect(balances, pool, claimant, denom, amount, claimant, denom);
    TransferEffect(balances, pool, claimant, denom, amount, pool, denom);
  }

  /** A recorded reward can be claimed back in full: right after the
      authority records an accrual for the claimant, a claim with a funded
      pool pays exactly the recorded total. Addresses are bech32 strings,
      which never hold the key separator `|`. */
  lemma {:induction false} RecordThenClaim(env: Env, ctx: Ctx, params: Params, accruals: map<string, RewardAccrual>,
                                           balances: Balances, rec: MsgRecordRewardAccrual, claim: MsgClaimReward)
    requires AccrualsValid(accruals)
    requires rec.address == claim.creator && rec.denom == claim.denom && '|' !in rec.address
    requires var key := RewardAccrualKey(rec.address, rec.denom); key in accruals ==> '|' !in accruals[key].address
    requires AccrualSpec(env, ctx, params, accruals, rec).Ok?
    requires AccrualSpec(env, ctx, params, accruals, rec).value.amount <= BalanceOf(balances, env.moduleAddress, claim.denom)
    ensures var stored := accruals[RewardAccrualKey(rec.address, rec.denom) := AccrualSpec(env, ctx, params, accruals, rec).value];
      ClaimSpec(env, balances, stored, claim) == Ok(AccrualSpec(env, ctx, params, accruals, rec).value)
  {
    AccrualAccumulates(env, ctx, params, accruals, rec);
    var key := RewardAccrualKey(rec.address, rec.denom);
    if key in accruals {
      RewardAccrualKeyInjective(rec.address, rec.denom, accruals[key].address, accruals[key].denom);
    }
  }

  /** The claim: the whole accrued amount moves from the module account to
      the claimant and the record is deleted; no other record changes. */
  method ClaimReward(k: Keeper, msg: MsgClaimReward) returns (r: Result<ClaimResponse>)
    requires k.Valid()
    modifies k`accruals, k`balances
    ensures k.Valid()
    ensures var s := old(ClaimSpec(k.env, k.balances, k.accruals, msg));
      && (s.Err? ==> r == Err(s.error) && k.accruals == old(k.accruals) && k.balances == old(k.balances))
      && (s.Ok? ==>
            && r == Ok(ClaimResponse(msg.creator, msg.denom, s.value.amount))
            && k.balances == Transfer(old(k.balances), k.env.moduleAddress, k.env.addressBytes(msg.creator).value,
                                      msg.denom, s.value.amount)
            && k.accruals == old(k.accruals) - {RewardAccrualKey(msg.creator, msg.denom)})
  {
    var s := ClaimSpec(k.env, k.balances, k.accruals, msg);
    if s.Err? {
      return Err(s.error);
    }
    var claimant := k.env.addressBytes(msg.creator).value;
    var sent := k.SendCoins(k.env.moduleAddress, claimant, msg.denom, s.value.amount);
    // The pool check has already refused a pool that cannot pay.
    assert sent == Pass;
    k.RemoveAccrual(RewardAccrualKey(msg.creator, msg.denom));
    r := Ok(ClaimResponse(msg.creator, msg.denom, s.value.amount));
  }
}
