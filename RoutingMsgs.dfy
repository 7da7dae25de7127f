/** SetMerchantIncentiveRouting: the owner, or the authority, sets how a
    token's merchant incentive is split between stakers and the treasury. */
module RoutingMsgs {
  import opened Base
  import opened LoyaltyParams
  import opened Types
  import opened LoyaltyKeeper
  import opened VerifiedTokenMsgs

  datatype MsgSetMerchantIncentiveRouting = MsgSetMerchantIncentiveRouting(
    creator: string, denom: string, stakersBps: U64, treasuryBps: U64)

  datatype RoutingResponse = RoutingResponse(denom: string, stakersBps: U64, treasuryBps: U64)

  /** SetMerchantIncentiveRouting: the token record with the new split, or
      the error. A renounced admin does not stop the split from changing. */
  function RoutingSpec(env: Env, tokens: map<string, VerifiedToken>, msg: MsgSetMerchantIncentiveRouting)
    : (r: Result<VerifiedToken>)
    ensures r.Ok? ==>
      && env.resolveDenom(msg.denom).Some?
      && env.resolveDenom(msg.denom).value in tokens
      && r.value == tokens[env.resolveDenom(msg.denom).value].(merchantIncentiveStakersBps := msg.stakersBps,
                                                               merchantIncentiveTreasuryBps := msg.treasuryBps)
    ensures r.Err? ==> r.error in {InvalidAddress, Logic, TokenNotFound, Unauthorized, MerchantRouting}
  {
    if !IsAddress(env, msg.creator) then Err(InvalidAddress)
    else
      match env.resolveDenom(msg.denom)
      case None => Err(Logic)
      case Some(denom) =>
        if denom !in tokens then Err(TokenNotFound)
        else
          var token := tokens[denom];
          if !MayManage(env, msg.creator, token) then Err(Unauthorized)
          else if ValidateMerchantIncentiveRouting(msg.stakersBps, msg.treasuryBps).Fail? then Err(MerchantRouting)
          else Ok(token.(merchantIncentiveStakersBps := msg.stakersBps,
                         merchantIncentiveTreasuryBps := msg.treasuryBps))
  }

  /** A split is stored only by the owner or the authority, only when its
      shares add up to 100%, and it keeps the token invariant. */
  lemma RoutingStoresValidSplit(env: Env, tokens: map<string, VerifiedToken>, msg: MsgSetMerchantIncentiveRouting)
    requires RoutingSpec(env, tokens, msg).Ok?
    ensures var t := RoutingSpec(env, tokens, msg).value;
      && MayManage(env, msg.creator, tokens[env.resolveDenom(msg.denom).value])
      && IsRouting(t.merchantIncentiveStakersBps, t.merchantIncentiveTreasuryBps)
    ensures TokensValid(tokens) ==>
      && RoutingSpec(env, tokens, msg).value.denom == env.resolveDenom(msg.denom).value
      && TokenInvariant(env.resolveDenom(msg.denom).value, RoutingSpec(env, tokens, msg).value)
  {
  }

  /** With the signer, the denom and the owner in order, the split is taken
      exactly when its shares add up to 100%, and refused with
      ErrMerchantRouting otherwise. */
  lemma RoutingAcceptsExactlyFullSplits(env: Env, tokens: map<string, VerifiedToken>, msg: MsgSetMerchantIncentiveRouting)
    requires IsAddress(env, msg.creator)
    requires env.resolveDenom(msg.denom).Some? && env.resolveDenom(msg.denom).value in tokens
    requires MayManage(env, msg.creator, tokens[env.resolveDenom(msg.denom).value])
    ensures RoutingSpec(env, tokens, msg).Ok? <==> IsRouting(msg.stakersBps, msg.treasuryBps)
    ensures !IsRouting(msg.stakersBps, msg.treasuryBps) ==> RoutingSpec(env, tokens, msg) == Err(MerchantRouting)
  {
  }

  /** The split: the stored token gets the new shares, and the response
      echoes the denom and the shares. */
  method SetMerchantIncentiveRouting(k: Keeper, msg: MsgSetMerchantIncentiveRouting) returns (r: Result<RoutingResponse>)
    requires k.Valid()
    modifies k`tokens
    ensures k.Valid()
    ensures var s := old(RoutingSpec(k.env, k.tokens, msg));
      && (s.Err? ==> r == Err(s.error) && k.tokens == old(k.tokens))
      && (s.Ok? ==>
            && r == Ok(RoutingResponse(s.value.denom, msg.stakersBps, msg.treasuryBps))
            && k.tokens == old(k.tokens)[s.value.denom := s.value])
  {
    var s := RoutingSpec(k.env, k.tokens, msg);
    if s.Err? {
      return Err(s.error);
    }
    RoutingStoresValidSplit(k.env, k.tokens, msg);
    k.SetToken(s.value);
    r := Ok(RoutingResponse(s.value.denom, s.value.merchantIncentiveStakersBps, s.value.merchantIncentiveTreasuryBps));
  }
}
