/** RecordRewardAccrual: the authority credits a reward to an account in a
    denom, creating the account's accrual record or adding to it. */
module RewardAccrualMsgs {
  import opened Base
  import opened Dates
  import opened LoyaltyParams
  import opened Types
  import opened Policy
  import opened LoyaltyKeeper
  import opened DailyRollupClock

  datatype MsgRecordRewardAccrual = MsgRecordRewardAccrual(
    creator: string, address: string, denom: string, amount: U64, date: string)

  datatype AccrualResponse = AccrualResponse(
    key: string, address: string, denom: string, amountAdded: U64, totalAmount: U64, rollupDate: string)

  /** The record the credit starts from: the stored one, or a fresh record of
      amount 0 owned by the caller. */
  function AccrualBase(accruals: map<string, RewardAccrual>, msg: MsgRecordRewardAccrual, date: string): RewardAccrual
  {
    var key := RewardAccrualKey(msg.address, msg.denom);
    if key in accruals then accruals[key]
    else RewardAccrual(msg.creator, key, msg.address, msg.denom, 0, date)
  }

  /** The credit as the handler writes it: `record.Amount += msg.Amount` on
      uint64, which wraps. */
  function AccrueAsWritten(stored: U64, amount: U64): (r: U64)
    ensures stored + amount <= MAX_U64 ==> r == stored + amount
    ensures stored + amount > MAX_U64 ==> r < stored
  {
    WrapAdd(stored, amount)
  }

  /** A balance at the top of the range plus one wraps to zero: the account's
      accrued rewards vanish. */
  lemma AccrueWrapsToZero()
    ensures AccrueAsWritten(MAX_U64, 1) == 0
  {
  }

  /** RecordRewardAccrual: the record to store at `address|denom`, or the
      error. A credit that would pass the uint64 range is refused with
      ErrInvalidRequest instead of wrapping. */
  function AccrualSpec(env: Env, ctx: Ctx, params: Params, accruals: map<string, RewardAccrual>,
                       msg: MsgRecordRewardAccrual): (r: Result<RewardAccrual>)
    ensures r.Ok? ==> r.value.amount >= msg.amount > 0
    ensures r.Ok? ==> RollupDate(env, ctx, params, msg.date).Ok?
                      && r.value.lastRollupDate == RollupDate(env, ctx, params, msg.date).value
    ensures r.Err? ==> r.error in {AddressCodec, InvalidAddress, InvalidDenom, InvalidRequest, InvalidSigner}
  {
    if !IsAddress(env, msg.creator) then Err(AddressCodec)
    else if !IsAddress(env, msg.address) then Err(InvalidAddress)
    else if !env.validDenom(msg.denom) then Err(InvalidDenom)
    else if msg.amount == 0 then Err(InvalidRequest)
    else if EnsureAuthority(env, msg.creator).Fail? then Err(EnsureAuthority(env, msg.creator).error)
    else
      match RollupDate(env, ctx, params, msg.date)
      case Err(e) => Err(e)
      case Ok(date) =>
        var base := AccrualBase(accruals, msg, date);
        if base.amount + msg.amount > MAX_U64 then Err(InvalidRequest)
        else Ok(base.(amount := base.amount + msg.amount, lastRollupDate := date))
  }

  /** A credit adds to what is stored (or starts from zero), keeps the
      record's owner, address and denom, stamps the rollup date, and keeps
      the accrual invariant. Within the uint64 range it is exactly the
      handler's unchecked add. */
  lemma AccrualAccumulates(env: Env, ctx: Ctx, params: Params, accruals: map<string, RewardAccrual>,
                           msg: MsgRecordRewardAccrual)
    requires AccrualsValid(accruals)
    requires AccrualSpec(env, ctx, params, accruals, msg).Ok?
    ensures var key := RewardAccrualKey(msg.address, msg.denom);
      var rec := AccrualSpec(env, ctx, params, accruals, msg).value;
      var date := RollupDate(env, ctx, params, msg.date).value;
      && RollupDate(env, ctx, params, msg.date).Ok?
      && (key in accruals ==>
            rec == accruals[key].(amount := accruals[key].amount + msg.amount, lastRollupDate := date))
      && (key !in accruals ==>
            rec == RewardAccrual(msg.creator, key, msg.address, msg.denom, msg.amount, date))
      && rec.amount == AccrueAsWritten(if key in accruals then accruals[key].amount else 0, msg.amount)
      && AccrualInvariant(key, rec)
  {
  }

  /** Only the authority records accruals; a zero amount is refused first. */
  lemma AccrualRefusals(env: Env, ctx: Ctx, params: Params, accruals: map<string, RewardAccrual>,
                        msg: MsgRecordRewardAccrual)
    requires IsAddress(env, msg.creator) && IsAddress(env, msg.address) && env.validDenom(msg.denom)
    ensures msg.amount == 0 ==> AccrualSpec(env, ctx, params, accruals, msg) == Err(InvalidRequest)
    ensures msg.amount > 0 && !IsAuthority(env, msg.creator) ==>
      AccrualSpec(env, ctx, params, accruals, msg) == Err(InvalidSigner)
  {
  }

  /** The credit never wraps: where the stored amount plus the credit passes
      the uint64 range, the record is refused. */
  lemma AccrualNeverWraps(env: Env, ctx: Ctx, params: Params, accruals: map<string, RewardAccrual>,
                          msg: MsgRecordRewardAccrual)
    requires RewardAccrualKey(msg.address, msg.denom) in accruals
    requires accruals[RewardAccrualKey(msg.address, msg.denom)].amount + msg.amount > MAX_U64
    ensures AccrualSpec(env, ctx, params, accruals, msg).Err?
  {
  }

  /** 100 and then 25 for the same account and denom give one record of
      125. */
  lemma {:induction false} AccrualScenario(env: Env, ctx: Ctx, params: Params,
                                           first: MsgRecordRewardAccrual, second: MsgRecordRewardAccrual)
    requires first.amount == 100 && second.amount == 25
    requires second.address == first.address && second.denom == first.denom
    requires AccrualSpec(env, ctx, params, map[], first).Ok?
    ensures var rec := AccrualSpec(env, ctx, params, map[], first).value;
      var s := AccrualSpec(env, ctx, params, map[rec.key := rec], second);
      && rec.amount == 100
      && (s.Ok? ==> s.value.key == rec.key && s.value.amount == 125)
  {
    var rec := AccrualSpec(env, ctx, params, map[], first).value;
    AccrualAccumulates(env, ctx, params, map[], first);
    assert AccrualsValid(map[rec.key := rec]);
    var s := AccrualSpec(env, ctx, params, map[rec.key := rec], second);
    if s.Ok? {
      AccrualAccumulates(env, ctx, params, map[rec.key := rec], second);
    }
  }

  /** The record: written at `address|denom` and nowhere else; the response
      reports the credit, the new total and the rollup date. */
  method RecordRewardAccrual(k: Keeper, ctx: Ctx, msg: MsgRecordRewardAccrual) returns (r: Result<AccrualResponse>)
    requires k.Valid()
    modifies k`accruals
    ensures k.Valid()
    ensures var s := old(AccrualSpec(k.env, ctx, k.params, k.accruals, msg));
      && (s.Err? ==> r == Err(s.error) && k.accruals == old(k.accruals))
      && (s.Ok? ==>
            var key := RewardAccrualKey(msg.address, msg.denom);
            && k.accruals == old(k.accruals)[key := s.value]
            && r == Ok(AccrualResponse(key, s.value.address, s.value.denom, msg.amount, s.value.amount,
                                       s.value.lastRollupDate)))
  {
    var s := AccrualSpec(k.env, ctx, k.params, k.accruals, msg);
    if s.Err? {
      return Err(s.error);
    }
    AccrualAccumulates(k.env, ctx, k.params, k.accruals, msg);
    var key := RewardAccrualKey(msg.address, msg.denom);
    var rec := s.value;
    k.SetAccrual(rec);
    r := Ok(AccrualResponse(key, rec.address, rec.denom, msg.amount, rec.amount, rec.lastRollupDate));
  }
}
