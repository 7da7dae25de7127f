/** The verified-token message handlers: create, update and delete. Each
    handler is a method on the keeper, proved equal to a specification
    function that gives the record to write or the error, in the handlers'
    own order of checks. */
module VerifiedTokenMsgs {
  import opened Base
  import opened Strings
  import opened LoyaltyParams
  import opened Types
  import opened TokenFactoryDenom
  import opened Policy
  import opened LoyaltyKeeper

  /** The fields of MsgCreateVerifiedtoken and MsgUpdateVerifiedtoken, which
      are the same. */
  datatype MsgVerifiedToken = MsgVerifiedToken(
    creator: string,
    denom: string,
    issuer: string,
    name: string,
    symbol: string,
    description: string,
    website: string,
    maxSupply: U64,
    mintedSupply: U64,
    verified: bool,
    seizureOptIn: bool,
    recoveryGroupPolicy: string,
    recoveryTimelockHours: U64)

  datatype MsgDeleteVerifiedToken = MsgDeleteVerifiedToken(creator: string, denom: string)

  /** The issuer a create message stands for: the creator when left empty. */
  function EffectiveIssuer(msg: MsgVerifiedToken): (issuer: string)
    ensures msg.issuer != "" ==> issuer == msg.issuer
    ensures msg.issuer == "" ==> issuer == msg.creator
  {
    if msg.issuer == "" then msg.creator else msg.issuer
  }

  /** The signer may manage a token: its creator, or the authority. */
  predicate MayManage(env: Env, signer: string, t: VerifiedToken)
  {
    signer == t.creator || IsAuthority(env, signer)
  }

  // ----- create -----

  /** CreateVerifiedtoken: the record a create writes, or its error. */
  function CreateSpec(env: Env, ctx: Ctx, params: Params, allowlist: map<string, AllowlistEntry>,
                      tokens: map<string, VerifiedToken>, msg: MsgVerifiedToken): (r: Result<VerifiedToken>)
    ensures r.Ok? ==>
      && r.value.denom !in tokens
      && TokenInvariant(r.value.denom, r.value)
      && r.value.creator == msg.creator
      && r.value.issuer == EffectiveIssuer(msg)
      && r.value.maxSupply == msg.maxSupply > 0
      && r.value.mintedSupply == 0
      && !r.value.adminRenounced
      && r.value.merchantIncentiveStakersBps == DEFAULT_MERCHANT_STAKERS_BPS
      && r.value.merchantIncentiveTreasuryBps == DEFAULT_MERCHANT_TREASURY_BPS
      && r.value.seizureOptIn == msg.seizureOptIn
    ensures r == Err(InvalidCap) ==> msg.maxSupply == 0
    ensures r == Err(CreatorNotAllowed) ==>
      CreatorCanCreateToken(env, allowlist, msg.creator, params.creationMode) == Ok(false)
  {
    if !IsAddress(env, msg.creator) then Err(InvalidAddress)
    else
      var issuer := EffectiveIssuer(msg);
      if !IsAddress(env, issuer) then Err(InvalidAddress)
      else
        match CanonicalBusinessDenom(env, msg.denom, issuer)
        case Err(e) => Err(e)
        case Ok(denom) =>
          if msg.maxSupply == 0 then Err(InvalidCap)
          else if msg.mintedSupply != 0 then Err(InvalidRequest)
          else
            match CreatorCanCreateToken(env, allowlist, msg.creator, params.creationMode)
            case Err(e) => Err(e)
            case Ok(allowed) =>
              if !allowed then Err(CreatorNotAllowed)
              else if denom in tokens then Err(TokenExists)
              else
                match ValidateRecoverySettings(env, ctx.chainId, params, msg.seizureOptIn,
                                               msg.recoveryGroupPolicy, msg.recoveryTimelockHours)
                case Err(e) => Err(e)
                case Ok((policy, timelock)) =>
                  if ValidateMerchantIncentiveRouting(DEFAULT_MERCHANT_STAKERS_BPS, DEFAULT_MERCHANT_TREASURY_BPS).Fail?
                  then Err(MerchantRouting)
                  else
                    Ok(VerifiedToken(
                      msg.creator, denom, issuer, msg.name, msg.symbol, msg.description, msg.website,
                      msg.maxSupply, 0, msg.verified, msg.seizureOptIn, policy, timelock, false,
                      DEFAULT_MERCHANT_STAKERS_BPS, DEFAULT_MERCHANT_TREASURY_BPS))
  }

  /** Creating a token that exists changes nothing: the handler fails before
      writing. */
  lemma CreateNeverOverwrites(env: Env, ctx: Ctx, params: Params, allowlist: map<string, AllowlistEntry>,
                              tokens: map<string, VerifiedToken>, msg: MsgVerifiedToken)
    requires CanonicalBusinessDenom(env, msg.denom, EffectiveIssuer(msg)).Ok?
    requires CanonicalBusinessDenom(env, msg.denom, EffectiveIssuer(msg)).value in tokens
    ensures CreateSpec(env, ctx, params, allowlist, tokens, msg).Err?
  {
  }

  /** A create succeeds only for a well-formed signer the creation mode
      admits. */
  lemma CreateAdmitsOnly(env: Env, ctx: Ctx, params: Params, allowlist: map<string, AllowlistEntry>,
                         tokens: map<string, VerifiedToken>, msg: MsgVerifiedToken)
    requires CreateSpec(env, ctx, params, allowlist, tokens, msg).Ok?
    ensures IsAddress(env, msg.creator) && IsAddress(env, EffectiveIssuer(msg))
    ensures CreatorCanCreateToken(env, allowlist, msg.creator, params.creationMode) == Ok(true)
  {
  }

  /** A created token is stored under the canonical denom of the effective
      issuer, with the recovery settings as validated. */
  lemma CreateStoresCanonical(env: Env, ctx: Ctx, params: Params, allowlist: map<string, AllowlistEntry>,
                              tokens: map<string, VerifiedToken>, msg: MsgVerifiedToken)
    requires CreateSpec(env, ctx, params, allowlist, tokens, msg).Ok?
    ensures var t := CreateSpec(env, ctx, params, allowlist, tokens, msg).value;
      CanonicalBusinessDenom(env, msg.denom, EffectiveIssuer(msg)) == Ok(t.denom)
    ensures var t := CreateSpec(env, ctx, params, allowlist, tokens, msg).value;
      ValidateRecoverySettings(env, ctx.chainId, params, msg.seizureOptIn, msg.recoveryGroupPolicy,
                               msg.recoveryTimelockHours)
      == Ok((t.recoveryGroupPolicy, t.recoveryTimelockHours))
  {
    var issuer := EffectiveIssuer(msg);
    assert IsAddress(env, msg.creator) && IsAddress(env, issuer);
    var c := CanonicalBusinessDenom(env, msg.denom, issuer);
    assert c.Ok?;
    assert msg.maxSupply != 0 && msg.mintedSupply == 0;
    assert CreatorCanCreateToken(env, allowlist, msg.creator, params.creationMode) == Ok(true);
    assert c.value !in tokens;
    var v := ValidateRecoverySettings(env, ctx.chainId, params, msg.seizureOptIn, msg.recoveryGroupPolicy,
                                      msg.recoveryTimelockHours);
    assert v.Ok?;
  }

  /** With a well-formed signer, issuer and denom, the cap and the minted
      supply are checked first: a zero cap is ErrInvalidCap and a non-zero
      minted supply is ErrInvalidRequest. */
  lemma CreateRejectsBadSupply(env: Env, ctx: Ctx, params: Params, allowlist: map<string, AllowlistEntry>,
                               tokens: map<string, VerifiedToken>, msg: MsgVerifiedToken)
    requires IsAddress(env, msg.creator) && IsAddress(env, EffectiveIssuer(msg))
    requires CanonicalBusinessDenom(env, msg.denom, EffectiveIssuer(msg)).Ok?
    ensures msg.maxSupply == 0 ==> CreateSpec(env, ctx, params, allowlist, tokens, msg) == Err(InvalidCap)
    ensures msg.maxSupply != 0 && msg.mintedSupply != 0 ==>
      CreateSpec(env, ctx, params, allowlist, tokens, msg) == Err(InvalidRequest)
  {
  }

  method CreateVerifiedToken(k: Keeper, ctx: Ctx, msg: MsgVerifiedToken) returns (r: Result<string>)
    requires k.Valid()
    modifies k`tokens
    ensures k.Valid()
    ensures var s := old(CreateSpec(k.env, ctx, k.params, k.allowlist, k.tokens, msg));
      && (s.Ok? ==> r == Ok(s.value.denom) && k.tokens == old(k.tokens)[s.value.denom := s.value])
      && (s.Err? ==> r == Err(s.error) && k.tokens == old(k.tokens))
  {
    var s := CreateSpec(k.env, ctx, k.params, k.allowlist, k.tokens, msg);
    if s.Err? {
      return Err(s.error);
    }
    var t := s.value;
    k.SetToken(t);
    r := Ok(t.denom);
  }

  // ----- update -----

  /** The cap and recovery settings of a message differ from a token's. */
  predicate ChangesLockedSettings(msg: MsgVerifiedToken, val: VerifiedToken)
  {
    || msg.maxSupply != val.maxSupply
    || msg.seizureOptIn != val.seizureOptIn
    || TrimSpace(msg.recoveryGroupPolicy) != val.recoveryGroupPolicy
    || msg.recoveryTimelockHours != val.recoveryTimelockHours
  }

  /** The update's checks against the stored token, in their order: the
      issuer is kept and is the denom's, the cap stays at or above the
      minted supply, seizure is switched on only before anything is minted,
      a renounced token's cap and recovery settings stay as they are, and the
      signer may manage the token. */
  function UpdateGuards(env: Env, msg: MsgVerifiedToken, val: VerifiedToken, denomIssuer: string): (r: Outcome)
    ensures r.Pass? <==>
      && msg.issuer == val.issuer == denomIssuer
      && msg.maxSupply >= val.mintedSupply
      && !(!val.seizureOptIn && msg.seizureOptIn && val.mintedSupply > 0)
      && !(val.adminRenounced && ChangesLockedSettings(msg, val))
      && MayManage(env, msg.creator, val)
    ensures r == Fail(InvalidCap) ==> msg.maxSupply < val.mintedSupply
    ensures r == Fail(AdminRenounced) ==> val.adminRenounced && ChangesLockedSettings(msg, val)
    ensures r == Fail(Unauthorized) ==>
      !MayManage(env, msg.creator, val) && !(val.adminRenounced && ChangesLockedSettings(msg, val))
    ensures r.Fail? ==> r.error in {InvalidRequest, InvalidCap, RecoveryPolicy, AdminRenounced, Unauthorized}
  {
    if msg.issuer != val.issuer then Fail(InvalidRequest)
    else if msg.issuer != denomIssuer then Fail(InvalidRequest)
    else if msg.maxSupply < val.mintedSupply then Fail(InvalidCap)
    else if !val.seizureOptIn && msg.seizureOptIn && val.mintedSupply > 0 then Fail(RecoveryPolicy)
    else if val.adminRenounced && ChangesLockedSettings(msg, val) then Fail(AdminRenounced)
    else if !MayManage(env, msg.creator, val) then Fail(Unauthorized)
    else Pass
  }

  /** UpdateVerifiedtoken: the record an update writes, or its error. */
  function UpdateSpec(env: Env, ctx: Ctx, params: Params, tokens: map<string, VerifiedToken>,
                      msg: MsgVerifiedToken): (r: Result<VerifiedToken>)
    ensures r.Ok? ==>
      && env.resolveDenom(msg.denom) == Some(r.value.denom)
      && r.value.denom in tokens
      && r.value.creator == tokens[r.value.denom].creator
      && r.value.mintedSupply == tokens[r.value.denom].mintedSupply <= r.value.maxSupply
      && r.value.adminRenounced == tokens[r.value.denom].adminRenounced
    ensures r.Ok? && TokenInvariant(r.value.denom, tokens[r.value.denom]) ==>
      TokenInvariant(r.value.denom, r.value)
  {
    if !IsAddress(env, msg.creator) then Err(InvalidAddress)
    else
      match env.resolveDenom(msg.denom)
      case None => Err(Logic)
      case Some(denom) =>
        if denom !in tokens then Err(KeyNotFound)
        else
          var val := NormalizeMerchantIncentiveRouting(tokens[denom]);
          if !IsAddress(env, msg.issuer) then Err(InvalidAddress)
          else
            var v := ValidateTokenFactoryDenom(env, denom);
            if v.Fail? then Err(v.error)
            else
              match SplitTokenFactoryDenom(denom)
              case Err(e) => Err(e)
              case Ok((denomIssuer, _)) =>
                var guard := UpdateGuards(env, msg, val, denomIssuer);
                if guard.Fail? then Err(guard.error)
                else
                  match ValidateRecoverySettings(env, ctx.chainId, params, msg.seizureOptIn,
                                                 msg.recoveryGroupPolicy, msg.recoveryTimelockHours)
                  case Err(e) => Err(e)
                  case Ok((policy, timelock)) =>
                    Ok(VerifiedToken(
                      val.creator, denom, msg.issuer, msg.name, msg.symbol, msg.description, msg.website,
                      msg.maxSupply, val.mintedSupply, msg.verified, msg.seizureOptIn, policy, timelock,
                      val.adminRenounced, val.merchantIncentiveStakersBps, val.merchantIncentiveTreasuryBps))
  }

  /** A successful update was sent by the token's creator or the authority,
      keeps the issuer, which must be the one in the denom, and keeps the
      (normalised) routing split. */
  lemma UpdateKeepsOwnership(env: Env, ctx: Ctx, params: Params, tokens: map<string, VerifiedToken>,
                             msg: MsgVerifiedToken)
    requires UpdateSpec(env, ctx, params, tokens, msg).Ok?
    ensures var t := UpdateSpec(env, ctx, params, tokens, msg).value;
      var val := tokens[t.denom];
      && MayManage(env, msg.creator, val)
      && t.issuer == val.issuer == msg.issuer
      && ValidateTokenFactoryDenom(env, t.denom).Pass?
      && SplitTokenFactoryDenom(t.denom).value.0 == msg.issuer
      && t.merchantIncentiveStakersBps == NormalizeMerchantIncentiveRouting(val).merchantIncentiveStakersBps
      && t.merchantIncentiveTreasuryBps == NormalizeMerchantIncentiveRouting(val).merchantIncentiveTreasuryBps
  {
  }

  /** Seizure can be switched on only before anything is minted. */
  lemma UpdateSeizureOnlyBeforeMint(env: Env, ctx: Ctx, params: Params, tokens: map<string, VerifiedToken>,
                                    msg: MsgVerifiedToken)
    requires UpdateSpec(env, ctx, params, tokens, msg).Ok?
    ensures var t := UpdateSpec(env, ctx, params, tokens, msg).value;
      var val := tokens[t.denom];
      !val.seizureOptIn && t.seizureOptIn ==> val.mintedSupply == 0
  {
  }

  /** The renounce check comes before the owner check: ErrUnauthorized is
      only ever raised for a non-owner that leaves a renounced token's locked
      settings alone, and ErrAdminRenounced only for a change to them. */
  lemma UpdateErrorCauses(env: Env, ctx: Ctx, params: Params, tokens: map<string, VerifiedToken>,
                          msg: MsgVerifiedToken)
    ensures var r := UpdateSpec(env, ctx, params, tokens, msg);
      r == Err(Unauthorized) || r == Err(AdminRenounced) || r == Err(InvalidCap) ==>
      && env.resolveDenom(msg.denom).Some?
      && env.resolveDenom(msg.denom).value in tokens
      && var val := tokens[env.resolveDenom(msg.denom).value];
      && (r == Err(Unauthorized) ==>
            !MayManage(env, msg.creator, val) && !(val.adminRenounced && ChangesLockedSettings(msg, val)))
      && (r == Err(AdminRenounced) ==> val.adminRenounced && ChangesLockedSettings(msg, val))
      && (r == Err(InvalidCap) ==> msg.maxSupply < val.mintedSupply)
  {
    var r := UpdateSpec(env, ctx, params, tokens, msg);
    if !IsAddress(env, msg.creator) {
      assert r == Err(InvalidAddress);
    } else if env.resolveDenom(msg.denom).None? {
      assert r == Err(Logic);
    } else if env.resolveDenom(msg.denom).value !in tokens {
      assert r == Err(KeyNotFound);
    } else {
      var denom := env.resolveDenom(msg.denom).value;
      var raw := tokens[denom];
      var val := NormalizeMerchantIncentiveRouting(raw);
      assert val.creator == raw.creator && val.adminRenounced == raw.adminRenounced
        && val.mintedSupply == raw.mintedSupply && ChangesLockedSettings(msg, val) == ChangesLockedSettings(msg, raw);
      UpdateErrorFromGuards(env, ctx, params, tokens, msg, denom);
    }
  }

  /** Past the lookup, ErrUnauthorized, ErrAdminRenounced and ErrInvalidCap
      come only from the update's guards. */
  lemma UpdateErrorFromGuards(env: Env, ctx: Ctx, params: Params, tokens: map<string, VerifiedToken>,
                              msg: MsgVerifiedToken, denom: string)
    requires IsAddress(env, msg.creator) && env.resolveDenom(msg.denom) == Some(denom) && denom in tokens
    ensures var r := UpdateSpec(env, ctx, params, tokens, msg);
      r == Err(Unauthorized) || r == Err(AdminRenounced) || r == Err(InvalidCap) ==>
        && SplitTokenFactoryDenom(denom).Ok?
        && UpdateGuards(env, msg, NormalizeMerchantIncentiveRouting(tokens[denom]),
                        SplitTokenFactoryDenom(denom).value.0) == Fail(r.error)
  {
    var r := UpdateSpec(env, ctx, params, tokens, msg);
    var val := NormalizeMerchantIncentiveRouting(tokens[denom]);
    var v := ValidateTokenFactoryDenom(env, denom);
    if !IsAddress(env, msg.issuer) {
      assert r == Err(InvalidAddress);
    } else if v.Fail? {
      assert r == Err(v.error);
    } else {
      var split := SplitTokenFactoryDenom(denom);
      assert split.Ok?;
      var guard := UpdateGuards(env, msg, val, split.value.0);
      if guard.Fail? {
        assert r == Err(guard.error);
      } else {
        var rs := ValidateRecoverySettings(env, ctx.chainId, params, msg.seizureOptIn,
                                           msg.recoveryGroupPolicy, msg.recoveryTimelockHours);
        assert rs.Err? ==> r == Err(rs.error);
        assert rs.Ok? ==> r.Ok?;
      }
    }
  }

  /** An update of a renounced token that succeeds leaves its cap and its
      recovery settings exactly as they were, whoever sends it. */
  lemma UpdateKeepsRenouncedSettings(env: Env, ctx: Ctx, params: Params, tokens: map<string, VerifiedToken>,
                                     msg: MsgVerifiedToken)
    requires TokensValid(tokens)
    requires UpdateSpec(env, ctx, params, tokens, msg).Ok?
    requires tokens[UpdateSpec(env, ctx, params, tokens, msg).value.denom].adminRenounced
    ensures var t := UpdateSpec(env, ctx, params, tokens, msg).value;
      var val := tokens[t.denom];
      && t.maxSupply == val.maxSupply
      && t.seizureOptIn == val.seizureOptIn == false
      && t.recoveryGroupPolicy == val.recoveryGroupPolicy
      && t.recoveryTimelockHours == val.recoveryTimelockHours
  {
    var t := UpdateSpec(env, ctx, params, tokens, msg).value;
    assert TokenInvariant(t.denom, tokens[t.denom]);
  }

  method UpdateVerifiedToken(k: Keeper, ctx: Ctx, msg: MsgVerifiedToken) returns (r: Outcome)
    requires k.Valid()
    modifies k`tokens
    ensures k.Valid()
    ensures var s := old(UpdateSpec(k.env, ctx, k.params, k.tokens, msg));
      && (s.Ok? ==> r == Pass && k.tokens == old(k.tokens)[s.value.denom := s.value])
      && (s.Err? ==> r == Fail(s.error) && k.tokens == old(k.tokens))
  {
    var s := UpdateSpec(k.env, ctx, k.params, k.tokens, msg);
    if s.Err? {
      return Fail(s.error);
    }
    k.SetToken(s.value);
    r := Pass;
  }

  // ----- delete -----

  /** DeleteVerifiedtoken: the denom a delete removes, or its error. */
  function DeleteSpec(env: Env, tokens: map<string, VerifiedToken>, msg: MsgDeleteVerifiedToken): (r: Result<string>)
    ensures r.Ok? ==>
      && env.resolveDenom(msg.denom) == Some(r.value)
      && r.value in tokens
      && MayManage(env, msg.creator, tokens[r.value])
      && tokens[r.value].mintedSupply == 0
    ensures r == Err(Unauthorized) ==>
      && env.resolveDenom(msg.denom).Some? && env.resolveDenom(msg.denom).value in tokens
      && !MayManage(env, msg.creator, tokens[env.resolveDenom(msg.denom).value])
    ensures IsAddress(env, msg.creator) && env.resolveDenom(msg.denom).Some? ==>
      var denom := env.resolveDenom(msg.denom).value;
      && (denom !in tokens ==> r == Err(KeyNotFound))
      && (denom in tokens && MayManage(env, msg.creator, tokens[denom]) && tokens[denom].mintedSupply > 0
          ==> r == Err(InvalidRequest))
  {
    if !IsAddress(env, msg.creator) then Err(InvalidAddress)
    else
      match env.resolveDenom(msg.denom)
      case None => Err(Logic)
      case Some(denom) =>
        if denom !in tokens then Err(KeyNotFound)
        else if !MayManage(env, msg.creator, tokens[denom]) then Err(Unauthorized)
        else if tokens[denom].mintedSupply > 0 then Err(InvalidRequest)
        else Ok(denom)
  }

  method DeleteVerifiedToken(k: Keeper, msg: MsgDeleteVerifiedToken) returns (r: Outcome)
    requires k.Valid()
    modifies k`tokens
    ensures k.Valid()
    ensures var s := old(DeleteSpec(k.env, k.tokens, msg));
      && (s.Ok? ==> r == Pass && k.tokens == old(k.tokens) - {s.value})
      && (s.Err? ==> r == Fail(s.error) && k.tokens == old(k.tokens))
  {
    var s := DeleteSpec(k.env, k.tokens, msg);
    if s.Err? {
      return Fail(s.error);
    }
    k.RemoveToken(s.value);
    r := Pass;
  }
}
