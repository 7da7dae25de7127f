/** The authority's direct create, update and delete of reward accrual
    records. */
module RewardAccrualCrud {
  import opened Base
  import opened Types
  import opened Policy
  import opened LoyaltyKeeper

  /** The create and update messages carry the same fields. */
  datatype MsgRewardAccrual = MsgRewardAccrual(
    creator: string, key: string, address: string, denom: string, amount: U64, lastRollupDate: string)

  datatype MsgDeleteRewardAccrual = MsgDeleteRewardAccrual(creator: string, key: string)

  /** The checks create and update share, in their order: a well-formed
      authority signer, a well-formed account, a valid denom, the key
      `address|denom` and a positive amount. */
  function CheckAccrualMsg(env: Env, msg: MsgRewardAccrual): (r: Outcome)
    ensures r.Pass? <==>
      && IsAuthority(env, msg.creator) && IsAddress(env, msg.address) && env.validDenom(msg.denom)
      && msg.key == RewardAccrualKey(msg.address, msg.denom) && msg.amount > 0
    ensures r.Fail? ==> r.error in {InvalidAddress, InvalidSigner, InvalidDenom, InvalidRequest}
  {
    if !IsAddress(env, msg.creator) then Fail(InvalidAddress)
    else if EnsureAuthority(env, msg.creator).Fail? then EnsureAuthority(env, msg.creator)
    else if !IsAddress(env, msg.address) then Fail(InvalidAddress)
    else if !env.validDenom(msg.denom) then Fail(InvalidDenom)
    else if msg.key != RewardAccrualKey(msg.address, msg.denom) then Fail(InvalidRequest)
    else if msg.amount == 0 then Fail(InvalidRequest)
    else Pass
  }

  /** CreateRewardaccrual: the new record, or the error; an existing key is
      ErrInvalidRequest. */
  function CreateAccrualSpec(env: Env, accruals: map<string, RewardAccrual>, msg: MsgRewardAccrual)
    : (r: Result<RewardAccrual>)
    ensures r.Ok? <==> CheckAccrualMsg(env, msg).Pass? && msg.key !in accruals
    ensures r.Ok? ==> r.value == RewardAccrual(msg.creator, msg.key, msg.address, msg.denom, msg.amount, msg.lastRollupDate)
    ensures r.Ok? ==> AccrualInvariant(msg.key, r.value)
  {
    if CheckAccrualMsg(env, msg).Fail? then Err(CheckAccrualMsg(env, msg).error)
    else if msg.key in accruals then Err(InvalidRequest)
    else Ok(RewardAccrual(msg.creator, msg.key, msg.address, msg.denom, msg.amount, msg.lastRollupDate))
  }

  /** UpdateRewardaccrual: the replacement record, or the error; a missing
      key is ErrKeyNotFound. */
  function UpdateAccrualSpec(env: Env, accruals: map<string, RewardAccrual>, msg: MsgRewardAccrual)
    : (r: Result<RewardAccrual>)
    ensures r.Ok? <==> CheckAccrualMsg(env, msg).Pass? && msg.key in accruals
    ensures r.Ok? ==> AccrualInvariant(msg.key, r.value)
  {
    if CheckAccrualMsg(env, msg).Fail? then Err(CheckAccrualMsg(env, msg).error)
    else if msg.key !in accruals then Err(KeyNotFound)
    else Ok(RewardAccrual(accruals[msg.key].creator, msg.key, msg.address, msg.denom, msg.amount, msg.lastRollupDate))
  }

  /** DeleteRewardaccrual: Pass when the authority deletes a stored key. */
  function DeleteAccrualSpec(env: Env, accruals: map<string, RewardAccrual>, msg: MsgDeleteRewardAccrual): (r: Outcome)
    ensures r.Pass? <==> IsAuthority(env, msg.creator) && msg.key in accruals
    ensures r.Fail? ==> r.error in {InvalidAddress, InvalidSigner, KeyNotFound}
  {
    if !IsAddress(env, msg.creator) then Fail(InvalidAddress)
    else if EnsureAuthority(env, msg.creator).Fail? then EnsureAuthority(env, msg.creator)
    else if msg.key !in accruals then Fail(KeyNotFound)
    else Pass
  }

  /** Update keeps the record's original creator and overwrites the amount
      with the message's, it does not add to it. */
  lemma UpdateAccrualOverwrites(env: Env, accruals: map<string, RewardAccrual>, msg: MsgRewardAccrual)
    requires UpdateAccrualSpec(env, accruals, msg).Ok?
    ensures var rec := UpdateAccrualSpec(env, accruals, msg).value;
      && rec.creator == accruals[msg.key].creator
      && rec.amount == msg.amount
      && rec.address == msg.address && rec.denom == msg.denom && rec.lastRollupDate == msg.lastRollupDate
  {
  }

  /** Each of the three refuses a signer other than the authority, with
      ErrInvalidSigner. */
  lemma AccrualCrudAuthorityOnly(env: Env, accruals: map<string, RewardAccrual>, msg: MsgRewardAccrual,
                                 del: MsgDeleteRewardAccrual)
    requires IsAddress(env, msg.creator) && !IsAuthority(env, msg.creator)
    requires IsAddress(env, del.creator) && !IsAuthority(env, del.creator)
    ensures CreateAccrualSpec(env, accruals, msg) == Err(InvalidSigner)
    ensures UpdateAccrualSpec(env, accruals, msg) == Err(InvalidSigner)
    ensures DeleteAccrualSpec(env, accruals, del) == Fail(InvalidSigner)
  {
  }

  /** Create never overwrites, and delete undoes it: creating a record and
      deleting its key gives back the table as it was. */
  lemma {:induction false} CreateThenDeleteRestores(env: Env, accruals: map<string, RewardAccrual>, msg: MsgRewardAccrual,
                                                    del: MsgDeleteRewardAccrual)
    requires CreateAccrualSpec(env, accruals, msg).Ok?
    requires del.key == msg.key && IsAuthority(env, del.creator)
    ensures var created := accruals[msg.key := CreateAccrualSpec(env, accruals, msg).value];
      && DeleteAccrualSpec(env, created, del) == Pass
      && created - {del.key} == accruals
  {
    var created := accruals[msg.key := CreateAccrualSpec(env, accruals, msg).value];
    assert msg.key !in accruals;
    assert created - {del.key} == accruals by {
      forall key | key in accruals
        ensures key in created - {del.key}
      {
      }
    }
  }

  method CreateRewardAccrual(k: Keeper, msg: MsgRewardAccrual) returns (r: Outcome)
    requires k.Valid()
    modifies k`accruals
    ensures k.Valid()
    ensures var s := old(CreateAccrualSpec(k.env, k.accruals, msg));
      && (s.Err? ==> r == Fail(s.error) && k.accruals == old(k.accruals))
      && (s.Ok? ==> r == Pass && k.accruals == old(k.accruals)[msg.key := s.value])
  {
    var s := CreateAccrualSpec(k.env, k.accruals, msg);
    if s.Err? {
      return Fail(s.error);
    }
    k.SetAccrual(s.value);
    r := Pass;
  }

  method UpdateRewardAccrual(k: Keeper, msg: MsgRewardAccrual) returns (r: Outcome)
    requires k.Valid()
    modifies k`accruals
    ensures k.Valid()
    ensures var s := old(UpdateAccrualSpec(k.env, k.accruals, msg));
      && (s.Err? ==> r == Fail(s.error) && k.accruals == old(k.accruals))
      && (s.Ok? ==> r == Pass && k.accruals == old(k.accruals)[msg.key := s.value])
  {
    var s := UpdateAccrualSpec(k.env, k.accruals, msg);
    if s.Err? {
      return Fail(s.error);
    }
    k.SetAccrual(s.value);
    r := Pass;
  }

  method DeleteRewardAccrual(k: Keeper, msg: MsgDeleteRewardAccrual) returns (r: Outcome)
    requires k.Valid()
    modifies k`accruals
    ensures k.Valid()
    ensures var s := old(DeleteAccrualSpec(k.env, k.accruals, msg));
      && r == s
      && (s.Fail? ==> k.accruals == old(k.accruals))
      && (s.Pass? ==> k.accruals == old(k.accruals) - {msg.key})
  {
    r := DeleteAccrualSpec(k.env, k.accruals, msg);
    if r.Fail? {
      return;
    }
    k.RemoveAccrual(msg.key);
  }
}
