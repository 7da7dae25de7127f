/** The keeper's policy helpers: the authority check, the token creation
    modes, the network-dependent minimum recovery timelock, the validation
    of recovery settings and the normalisation of a legacy routing split. */
module Policy {
  import opened Base
  import opened Strings
  import opened LoyaltyParams
  import opened Types

  /** ensureAuthority: the signer must decode, and decode to the authority. */
  function EnsureAuthority(env: Env, signer: string): (r: Outcome)
    ensures r.Pass? <==> IsAuthority(env, signer)
    ensures r == Fail(InvalidAddress) <==> !IsAddress(env, signer)
    ensures r.Fail? ==> r.error == InvalidAddress || r.error == InvalidSigner
  {
    match env.addressBytes(signer)
    case None => Fail(InvalidAddress)
    case Some(bz) => if bz != env.authority then Fail(InvalidSigner) else Pass
  }

  /** creatorCanCreateToken: the authority may always create; everybody else
      depends on the creation mode. */
  function CreatorCanCreateToken(env: Env, allowlist: map<string, AllowlistEntry>, signer: string, mode: string)
    : (r: Result<bool>)
    ensures IsAuthority(env, signer) ==> r == Ok(true)
    ensures r.Err? <==> !IsAuthority(env, signer) && !IsCreationMode(mode)
    ensures r.Err? ==> r.error == InvalidCreationMode
    ensures r == Ok(true) <==>
      || IsAuthority(env, signer)
      || mode == CREATION_MODE_PERMISSIONLESS
      || (mode == CREATION_MODE_ALLOWLISTED && signer in allowlist && allowlist[signer].enabled)
  {
    if EnsureAuthority(env, signer).Pass? then Ok(true)
    else if mode == CREATION_MODE_ADMIN_ONLY then Ok(false)
    else if mode == CREATION_MODE_ALLOWLISTED then
      if signer in allowlist then Ok(allowlist[signer].enabled) else Ok(false)
    else if mode == CREATION_MODE_PERMISSIONLESS then Ok(true)
    else Err(InvalidCreationMode)
  }

  /** A chain id counts as a test network when, lowercased, it is empty or
      mentions `testnet` or `localnet`. */
  predicate IsTestnetChain(chainId: string)
  {
    var id := ToLowerAscii(chainId);
    id == "" || Contains(id, "testnet") || Contains(id, "localnet")
  }

  /** minimumRecoveryTimelockHours: the testnet minimum on test networks,
      the mainnet minimum everywhere else. */
  function MinimumRecoveryTimelockHours(chainId: string, params: Params): (h: U64)
    ensures h == params.testnetTimelockHours <==>
      (IsTestnetChain(chainId) || params.testnetTimelockHours == params.mainnetTimelockHours)
    ensures h == params.testnetTimelockHours || h == params.mainnetTimelockHours
  {
    if IsTestnetChain(chainId) then params.testnetTimelockHours else params.mainnetTimelockHours
  }

  /** Under valid parameters the minimum is positive and never exceeds the
      mainnet minimum, which a mainnet chain always gets. */
  lemma MinimumTimelockBounds(chainId: string, params: Params, tzLoadable: string -> bool)
    requires Validate(params, tzLoadable).Pass?
    ensures 0 < params.testnetTimelockHours <= MinimumRecoveryTimelockHours(chainId, params)
    ensures MinimumRecoveryTimelockHours(chainId, params) <= params.mainnetTimelockHours
    ensures !IsTestnetChain(chainId) ==> MinimumRecoveryTimelockHours(chainId, params) == params.mainnetTimelockHours
  {
  }

  /** A chain id that mentions `testnet` or `localnet` in lower case is a
      test network. */
  lemma MentionMakesTestnet(chainId: string, i: int)
    requires OccursAt(chainId, "testnet", i) || OccursAt(chainId, "localnet", i)
    ensures IsTestnetChain(chainId)
  {
    var id := ToLowerAscii(chainId);
    if OccursAt(chainId, "testnet", i) {
      assert id[i..i + 7] == chainId[i..i + 7];
      assert OccursAt(id, "testnet", i);
    } else {
      assert id[i..i + 8] == chainId[i..i + 8];
      assert OccursAt(id, "localnet", i);
    }
  }

  /** The network kind ignores letter case. */
  lemma TestnetIgnoresCase(chainId: string)
    ensures IsTestnetChain(ToLowerAscii(chainId)) == IsTestnetChain(chainId)
  {
    var id := ToLowerAscii(chainId);
    assert ToLowerAscii(id) == id;
  }

  /** ensureGroupPolicyExists: no group keeper wired in is ErrLogic; a policy
      the registry does not know is ErrRecoveryPolicy. */
  function EnsureGroupPolicyExists(env: Env, policy: string): (r: Outcome)
    ensures r.Pass? <==> env.groupPolicyInfo.Some? && env.groupPolicyInfo.value(policy)
    ensures r.Fail? ==> (r.error == Logic <==> env.groupPolicyInfo.None?)
    ensures r.Fail? ==> r.error == Logic || r.error == RecoveryPolicy
  {
    match env.groupPolicyInfo
    case None => Fail(Logic)
    case Some(info) => if !info(policy) then Fail(RecoveryPolicy) else Pass
  }

  /** The conditions under which recovery settings with seizure enabled are
      accepted. */
  predicate RecoverySettingsAcceptable(env: Env, chainId: string, params: Params, policy: string, timelock: U64)
  {
    var p := TrimSpace(policy);
    && p != ""
    && IsAddress(env, p)
    && EnsureGroupPolicyExists(env, p).Pass?
    && timelock >= MinimumRecoveryTimelockHours(chainId, params)
  }

  /** validateRecoverySettings: without seizure the settings are cleared;
      with seizure the trimmed policy must be a known group policy and the
      timelock must meet the network minimum. */
  function ValidateRecoverySettings(env: Env, chainId: string, params: Params, seizureOptIn: bool,
                                    policy: string, timelock: U64): (r: Result<(string, U64)>)
    ensures !seizureOptIn ==> r == Ok(("", 0))
    ensures seizureOptIn ==>
      (r.Ok? <==> RecoverySettingsAcceptable(env, chainId, params, policy, timelock))
    ensures seizureOptIn && r.Ok? ==> r.value == (TrimSpace(policy), timelock) && r.value.0 != ""
    ensures r.Err? ==> r.error == RecoveryPolicy || r.error == Logic
    ensures r.Err? && r.error == Logic ==> env.groupPolicyInfo.None?
  {
    if !seizureOptIn then Ok(("", 0))
    else
      var p := TrimSpace(policy);
      if p == "" then Err(RecoveryPolicy)
      else if !IsAddress(env, p) then Err(RecoveryPolicy)
      else
        var g := EnsureGroupPolicyExists(env, p);
        if g.Fail? then Err(g.error)
        else if timelock < MinimumRecoveryTimelockHours(chainId, params) then Err(RecoveryPolicy)
        else Ok((p, timelock))
  }

  /** normalizeMerchantIncentiveRouting: a legacy 0/0 split reads as the
      default 5000/5000; any other split, and every other field, is kept. */
  function NormalizeMerchantIncentiveRouting(t: VerifiedToken): (r: VerifiedToken)
    ensures r == t.(merchantIncentiveStakersBps := r.merchantIncentiveStakersBps,
                    merchantIncentiveTreasuryBps := r.merchantIncentiveTreasuryBps)
    ensures t.merchantIncentiveStakersBps == 0 && t.merchantIncentiveTreasuryBps == 0 ==>
      r.merchantIncentiveStakersBps == DEFAULT_MERCHANT_STAKERS_BPS
      && r.merchantIncentiveTreasuryBps == DEFAULT_MERCHANT_TREASURY_BPS
    ensures !(t.merchantIncentiveStakersBps == 0 && t.merchantIncentiveTreasuryBps == 0) ==> r == t
    ensures StoredRouting(t.merchantIncentiveStakersBps, t.merchantIncentiveTreasuryBps) ==>
      IsRouting(r.merchantIncentiveStakersBps, r.merchantIncentiveTreasuryBps)
  {
    if t.merchantIncentiveStakersBps == 0 && t.merchantIncentiveTreasuryBps == 0 then
      t.(merchantIncentiveStakersBps := DEFAULT_MERCHANT_STAKERS_BPS,
         merchantIncentiveTreasuryBps := DEFAULT_MERCHANT_TREASURY_BPS)
    else t
  }

  /** Normalising twice is normalising once, and a normalised stored token
      still satisfies the token invariant. */
  lemma NormalizeIdempotent(key: string, t: VerifiedToken)
    ensures NormalizeMerchantIncentiveRouting(NormalizeMerchantIncentiveRouting(t))
      == NormalizeMerchantIncentiveRouting(t)
    ensures TokenInvariant(key, t) ==> TokenInvariant(key, NormalizeMerchantIncentiveRouting(t))
  {
  }

  lemma KeySeparatorAt(address: string, denom: string)
    ensures RewardAccrualKey(address, denom)[|address|] == '|'
  {
  }

  /** rewardAccrualKey is injective over addresses without a `|`: distinct
      (address, denom) pairs get distinct keys. */
  lemma {:induction false} RewardAccrualKeyInjective(a1: string, d1: string, a2: string, d2: string)
    requires '|' !in a1 && '|' !in a2
    requires RewardAccrualKey(a1, d1) == RewardAccrualKey(a2, d2)
    ensures a1 == a2 && d1 == d2
  {
    var k := RewardAccrualKey(a1, d1);
    if |a1| < |a2| {
      KeySeparatorAt(a1, d1);
      assert false;
    } else if |a2| < |a1| {
      KeySeparatorAt(a2, d2);
      assert false;
    } else {
      assert k == a1 + ("|" + d1) == a2 + ("|" + d2);
      assert a1 == k[..|a1|] == a2;
      assert d1 == k[|a1| + 1..] == d2;
    }
  }
}
