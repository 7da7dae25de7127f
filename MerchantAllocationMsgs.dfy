/** RecordMerchantAllocation: the authority records a merchant's share of the
    day's bucket C for a token, split between stakers and the treasury by the
    token's routing. */
module MerchantAllocationMsgs {
  import opened Base
  import opened Strings
  import opened Dates
  import opened LoyaltyParams
  import opened Types
  import opened Policy
  import opened LoyaltyKeeper
  import opened DailyRollupClock

  datatype MsgRecordMerchantAllocation = MsgRecordMerchantAllocation(
    creator: string, date: string, denom: string, activityScore: U64, bucketCAmount: U64)

  datatype AllocationResponse = AllocationResponse(record: MerchantAllocation, updated: bool)

  // ----- the stakers' share -----

  /** The stakers' share as the handler computes it: `bucket * bps` on
      uint64, which wraps, then divided by 10000. */
  function StakersShareAsWritten(bucket: U64, stakersBps: U64): (r: U64)
    ensures r <= MAX_U64 / TOTAL_BPS
  {
    WrapMul(bucket, stakersBps) / TOTAL_BPS
  }

  /** The stakers' share as intended: ⌊bucket · bps / 10000⌋ on the exact
      product. */
  function StakersShare(bucket: U64, stakersBps: U64): (r: U64)
    requires stakersBps <= TOTAL_BPS
    ensures r <= bucket
    ensures r * TOTAL_BPS <= bucket * stakersBps < r * TOTAL_BPS + TOTAL_BPS
  {
    var product := bucket * stakersBps;
    assert product <= bucket * 10000 by {
      assert bucket * 10000 - product == bucket * (10000 - stakersBps);
    }
    var share := product / 10000;
    assert share * 10000 <= product;
    assert share <= bucket;
    share
  }

  /** Where the product fits in 64 bits the written share is the intended
      one. */
  lemma StakersShareAgreesWithoutOverflow(bucket: U64, stakersBps: U64)
    requires stakersBps <= TOTAL_BPS
    requires bucket * stakersBps <= MAX_U64
    ensures StakersShareAsWritten(bucket, stakersBps) == StakersShare(bucket, stakersBps)
  {
  }

  /** A bucket of 2^62 at 5000 bps: the product is a multiple of 2^64, so the
      written share is 0 and the whole bucket goes to the treasury, where half
      of it was meant for the stakers. */
  lemma StakersShareWraps()
    ensures StakersShareAsWritten(0x4000_0000_0000_0000, 5000) == 0
    ensures StakersShare(0x4000_0000_0000_0000, 5000) == 0x2000_0000_0000_0000
  {
    assert 0x4000_0000_0000_0000 * 5000 == 1250 * TWO_64;
  }

  // ----- the handler -----

  /** RecordMerchantAllocation: the record to store and whether it replaces
      one, or the error. */
  function AllocationSpec(env: Env, ctx: Ctx, params: Params, tokens: map<string, VerifiedToken>,
                          allocations: map<string, MerchantAllocation>, msg: MsgRecordMerchantAllocation)
    : (r: Result<AllocationResponse>)
    ensures r.Ok? ==>
      && msg.denom in tokens
      && r.value.record.key == MerchantAllocationKey(r.value.record.date, msg.denom)
      && r.value.updated == (r.value.record.key in allocations)
    ensures r.Err? ==> r.error in {InvalidAddress, InvalidSigner, InvalidDenom, InvalidRequest, TokenNotFound,
                                   MerchantRouting}
  {
    if !IsAddress(env, msg.creator) then Err(InvalidAddress)
    else if EnsureAuthority(env, msg.creator).Fail? then Err(EnsureAuthority(env, msg.creator).error)
    else if !env.validDenom(msg.denom) then Err(InvalidDenom)
    else if msg.activityScore == 0 then Err(InvalidRequest)
    else if msg.bucketCAmount == 0 then Err(InvalidRequest)
    else
      match RollupDate(env, ctx, params, TrimSpace(msg.date))
      case Err(e) => Err(e)
      case Ok(date) =>
        if msg.denom !in tokens then Err(TokenNotFound)
        else
          var token := NormalizeMerchantIncentiveRouting(tokens[msg.denom]);
          var sBps := token.merchantIncentiveStakersBps;
          var tBps := token.merchantIncentiveTreasuryBps;
          if ValidateMerchantIncentiveRouting(sBps, tBps).Fail? then Err(MerchantRouting)
          else
            var stakers := StakersShare(msg.bucketCAmount, sBps);
            var key := MerchantAllocationKey(date, msg.denom);
            Ok(AllocationResponse(
              MerchantAllocation(msg.creator, key, date, msg.denom, msg.activityScore, msg.bucketCAmount,
                                 stakers, msg.bucketCAmount - stakers, sBps, tBps),
              key in allocations))
  }

  /** A stored allocation splits the whole bucket: the stakers get
      ⌊bucket · bps / 10000⌋ at the token's normalised routing, the treasury
      the rest; the record keeps the allocation invariant. */
  lemma AllocationSplitsBucket(env: Env, ctx: Ctx, params: Params, tokens: map<string, VerifiedToken>,
                               allocations: map<string, MerchantAllocation>, msg: MsgRecordMerchantAllocation)
    requires AllocationSpec(env, ctx, params, tokens, allocations, msg).Ok?
    ensures var a := AllocationSpec(env, ctx, params, tokens, allocations, msg).value.record;
      var t := NormalizeMerchantIncentiveRouting(tokens[msg.denom]);
      && a.merchantIncentiveStakersBps == t.merchantIncentiveStakersBps
      && a.merchantIncentiveTreasuryBps == t.merchantIncentiveTreasuryBps
      && a.bucketCAmount == msg.bucketCAmount && a.activityScore == msg.activityScore
      && a.stakersAmount + a.treasuryAmount == a.bucketCAmount
      && a.stakersAmount == a.bucketCAmount * a.merchantIncentiveStakersBps / TOTAL_BPS
      && AllocationInvariant(a.key, a)
  {
  }

  /** Only the authority records allocations, with a positive score and
      bucket, and the date is the explicit one (which must parse) or today's
      local date. */
  lemma AllocationRequires(env: Env, ctx: Ctx, params: Params, tokens: map<string, VerifiedToken>,
                           allocations: map<string, MerchantAllocation>, msg: MsgRecordMerchantAllocation)
    requires AllocationSpec(env, ctx, params, tokens, allocations, msg).Ok?
    ensures IsAuthority(env, msg.creator) && env.validDenom(msg.denom)
    ensures msg.activityScore > 0 && msg.bucketCAmount > 0
    ensures var date := AllocationSpec(env, ctx, params, tokens, allocations, msg).value.record.date;
      && (TrimSpace(msg.date) != "" ==> date == TrimSpace(msg.date) && ParseDate(date).Some?)
      && (TrimSpace(msg.date) == "" ==>
            date == FormatDate(env.localDate(ctx.blockTime, params.dailyRollupTimezone)))
  {
  }

  /** A signer other than the authority gets ErrInvalidSigner; a zero score
      or bucket, or an explicit date that does not parse, ErrInvalidRequest;
      a token that is not registered, ErrTokenNotFound. */
  lemma AllocationRefusals(env: Env, ctx: Ctx, params: Params, tokens: map<string, VerifiedToken>,
                           allocations: map<string, MerchantAllocation>, msg: MsgRecordMerchantAllocation)
    requires IsAddress(env, msg.creator)
    ensures !IsAuthority(env, msg.creator) ==> AllocationSpec(env, ctx, params, tokens, allocations, msg) == Err(InvalidSigner)
    ensures IsAuthority(env, msg.creator) && env.validDenom(msg.denom) && (msg.activityScore == 0 || msg.bucketCAmount == 0)
      ==> AllocationSpec(env, ctx, params, tokens, allocations, msg) == Err(InvalidRequest)
    ensures IsAuthority(env, msg.creator) && env.validDenom(msg.denom) && msg.activityScore > 0 && msg.bucketCAmount > 0
      && TrimSpace(msg.date) != "" && ParseDate(TrimSpace(msg.date)).None?
      ==> AllocationSpec(env, ctx, params, tokens, allocations, msg) == Err(InvalidRequest)
    ensures IsAuthority(env, msg.creator) && env.validDenom(msg.denom) && msg.activityScore > 0 && msg.bucketCAmount > 0
      && RollupDate(env, ctx, params, TrimSpace(msg.date)).Ok? && msg.denom !in tokens
      ==> AllocationSpec(env, ctx, params, tokens, allocations, msg) == Err(TokenNotFound)
  {
  }

  /** A second allocation for the same token and the same explicit date
      lands on the first one's key and reports that it replaced it, even
      when the token's routing changed in between. */
  lemma {:induction false} AllocationSameDayReplaces(env: Env, ctx: Ctx, params: Params, tokens: map<string, VerifiedToken>,
                                                     later: map<string, VerifiedToken>,
                                                     allocations: map<string, MerchantAllocation>,
                                                     first: MsgRecordMerchantAllocation, second: MsgRecordMerchantAllocation)
    requires TrimSpace(first.date) != "" && TrimSpace(second.date) == TrimSpace(first.date) && second.denom == first.denom
    requires AllocationSpec(env, ctx, params, tokens, allocations, first).Ok?
    ensures var a := AllocationSpec(env, ctx, params, tokens, allocations, first).value.record;
      var s := AllocationSpec(env, ctx, params, later, allocations[a.key := a], second);
      s.Ok? ==> s.value.record.key == a.key && s.value.updated
  {
    var a := AllocationSpec(env, ctx, params, tokens, allocations, first).value.record;
    AllocationRequires(env, ctx, params, tokens, allocations, first);
    var s := AllocationSpec(env, ctx, params, later, allocations[a.key := a], second);
    if s.Ok? {
      AllocationRequires(env, ctx, params, later, allocations[a.key := a], second);
    }
  }

  /** 1000 at the default 5000/5000 routing splits 500/500 as a new record;
      after the routing becomes 7000/3000, 2000 on the same date splits
      1400/600 and replaces it. */
  lemma {:induction false} AllocationScenario(env: Env, ctx: Ctx, params: Params, tokens: map<string, VerifiedToken>,
                                              rerouted: map<string, VerifiedToken>,
                                              first: MsgRecordMerchantAllocation, second: MsgRecordMerchantAllocation)
    requires TrimSpace(first.date) != "" && TrimSpace(second.date) == TrimSpace(first.date) && second.denom == first.denom
    requires first.bucketCAmount == 1000 && second.bucketCAmount == 2000
    requires first.denom in tokens && tokens[first.denom].merchantIncentiveStakersBps == 5000
    requires first.denom in rerouted && rerouted[first.denom].merchantIncentiveStakersBps == 7000
    requires AllocationSpec(env, ctx, params, tokens, map[], first).Ok?
    ensures var r1 := AllocationSpec(env, ctx, params, tokens, map[], first).value;
      && r1.record.stakersAmount == 500 && r1.record.treasuryAmount == 500 && !r1.updated
    ensures var a := AllocationSpec(env, ctx, params, tokens, map[], first).value.record;
      var s := AllocationSpec(env, ctx, params, rerouted, map[a.key := a], second);
      s.Ok? ==> s.value.record.stakersAmount == 1400 && s.value.record.treasuryAmount == 600 && s.value.updated
  {
    var a := AllocationSpec(env, ctx, params, tokens, map[], first).value.record;
    SplitAt(env, ctx, params, tokens, map[], first, 1000, 5000, 500);
    var s := AllocationSpec(env, ctx, params, rerouted, map[a.key := a], second);
    if s.Ok? {
      SplitAt(env, ctx, params, rerouted, map[a.key := a], second, 2000, 7000, 1400);
      AllocationSameDayReplaces(env, ctx, params, tokens, rerouted, map[], first, second);
    }
  }

  /** A bucket at a stored stakers share other than the legacy 0 splits by
      that share. */
  lemma SplitAt(env: Env, ctx: Ctx, params: Params, tokens: map<string, VerifiedToken>,
                allocations: map<string, MerchantAllocation>, msg: MsgRecordMerchantAllocation,
                bucket: U64, bps: U64, stakers: U64)
    requires 0 < bps <= TOTAL_BPS && stakers == bucket * bps / TOTAL_BPS
    requires msg.bucketCAmount == bucket
    requires msg.denom in tokens && tokens[msg.denom].merchantIncentiveStakersBps == bps
    requires AllocationSpec(env, ctx, params, tokens, allocations, msg).Ok?
    ensures var a := AllocationSpec(env, ctx, params, tokens, allocations, msg).value.record;
      a.stakersAmount == stakers && a.treasuryAmount == bucket - stakers
  {
    AllocationSplitsBucket(env, ctx, params, tokens, allocations, msg);
  }

  /** The record: stored at `date|denom`, replacing whatever was there, and
      no other allocation changes. */
  method RecordMerchantAllocation(k: Keeper, ctx: Ctx, msg: MsgRecordMerchantAllocation) returns (r: Result<AllocationResponse>)
    requires k.Valid()
    modifies k`allocations
    ensures k.Valid()
    ensures var s := old(AllocationSpec(k.env, ctx, k.params, k.tokens, k.allocations, msg));
      && r == s
      && (s.Err? ==> k.allocations == old(k.allocations))
      && (s.Ok? ==> k.allocations == old(k.allocations)[s.value.record.key := s.value.record])
  {
    r := AllocationSpec(k.env, ctx, k.params, k.tokens, k.allocations, msg);
    if r.Err? {
      return;
    }
    AllocationSplitsBucket(k.env, ctx, k.params, k.tokens, k.allocations, msg);
    k.SetAllocation(r.value.record);
  }
}
