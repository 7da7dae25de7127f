/** Module parameters of x/loyalty: the token creation modes, the basis-point
    total, the defaults and the validation of a parameter set and of a
    per-token merchant routing split. */
module LoyaltyParams {
  import opened Base

  const CREATION_MODE_ADMIN_ONLY: string := "admin_only"
  const CREATION_MODE_ALLOWLISTED: string := "allowlisted"
  const CREATION_MODE_PERMISSIONLESS: string := "permissionless"

  /** 100% in basis points. */
  const TOTAL_BPS: U64 := 10000

  const DEFAULT_DAILY_ROLLUP_TIMEZONE: string := "America/Edmonton"
  const DEFAULT_MERCHANT_STAKERS_BPS: U64 := 5000
  const DEFAULT_MERCHANT_TREASURY_BPS: U64 := 5000

  datatype Params = Params(
    creationMode: string,
    dailyRollupTimezone: string,
    testnetTimelockHours: U64,
    mainnetTimelockHours: U64,
    feeSplitValidatorBps: U64,
    feeSplitTokenStakersBps: U64,
    feeSplitMerchantPoolBps: U64,
    seizureOptInDefault: bool)

  function DefaultParams(): (p: Params)
    ensures p.creationMode == CREATION_MODE_ADMIN_ONLY && !p.seizureOptInDefault
  {
    Params(CREATION_MODE_ADMIN_ONLY, DEFAULT_DAILY_ROLLUP_TIMEZONE, 1, 24, 7000, 2000, 1000, false)
  }

  predicate IsCreationMode(mode: string)
  {
    mode == CREATION_MODE_ADMIN_ONLY || mode == CREATION_MODE_ALLOWLISTED
    || mode == CREATION_MODE_PERMISSIONLESS
  }

  /** validateCreationMode: the three mode names and nothing else. */
  function ValidateCreationMode(mode: string): (r: Outcome)
    ensures r.Pass? <==> mode in {CREATION_MODE_ADMIN_ONLY, CREATION_MODE_ALLOWLISTED, CREATION_MODE_PERMISSIONLESS}
    ensures r.Fail? ==> r.error == InvalidParams
  {
    match mode
    case "admin_only" => Pass
    case "allowlisted" => Pass
    case "permissionless" => Pass
    case _ => Fail(InvalidParams)
  }

  /** Params.Validate, each field check in the source's order. The time zone
      database is the parameter `tzLoadable`. The final sum cannot wrap in
      64 bits because each term has already been bounded by TOTAL_BPS. */
  function Validate(p: Params, tzLoadable: string -> bool): (r: Outcome)
    ensures r.Pass? <==>
      IsCreationMode(p.creationMode)
      && p.dailyRollupTimezone != "" && tzLoadable(p.dailyRollupTimezone)
      && 0 < p.testnetTimelockHours <= p.mainnetTimelockHours
      && p.feeSplitValidatorBps + p.feeSplitTokenStakersBps + p.feeSplitMerchantPoolBps == TOTAL_BPS
    ensures r.Fail? ==> r.error == InvalidParams
  {
    if ValidateCreationMode(p.creationMode).Fail? then ValidateCreationMode(p.creationMode)
    else if p.dailyRollupTimezone == "" || !tzLoadable(p.dailyRollupTimezone) then Fail(InvalidParams)
    else if p.testnetTimelockHours == 0 then Fail(InvalidParams)
    else if p.mainnetTimelockHours == 0 then Fail(InvalidParams)
    else if p.feeSplitValidatorBps > TOTAL_BPS then Fail(InvalidParams)
    else if p.feeSplitTokenStakersBps > TOTAL_BPS then Fail(InvalidParams)
    else if p.feeSplitMerchantPoolBps > TOTAL_BPS then Fail(InvalidParams)
    else if p.mainnetTimelockHours < p.testnetTimelockHours then Fail(InvalidParams)
    else if p.feeSplitValidatorBps + p.feeSplitTokenStakersBps + p.feeSplitMerchantPoolBps != TOTAL_BPS
    then Fail(InvalidParams)
    else Pass
  }

  /** The defaults validate wherever the default time zone can be loaded. */
  lemma DefaultParamsValid(tzLoadable: string -> bool)
    requires tzLoadable(DEFAULT_DAILY_ROLLUP_TIMEZONE)
    ensures Validate(DefaultParams(), tzLoadable) == Pass
  {
  }

  /** A stored routing split that sums to 100%; the bounds on each share
      follow from the sum because shares are unsigned. */
  predicate IsRouting(stakersBps: U64, treasuryBps: U64)
  {
    stakersBps + treasuryBps == TOTAL_BPS
  }

  /** ValidateMerchantIncentiveRouting: the separate upper bounds on each
      share are implied by the sum check, so the split is valid exactly when
      the shares add up to 100%. */
  function ValidateMerchantIncentiveRouting(stakersBps: U64, treasuryBps: U64): (r: Outcome)
    ensures r.Pass? <==> IsRouting(stakersBps, treasuryBps)
    ensures r.Pass? ==> stakersBps <= TOTAL_BPS && treasuryBps == TOTAL_BPS - stakersBps
    ensures r.Fail? ==> r.error == InvalidParams
  {
    if stakersBps > TOTAL_BPS then Fail(InvalidParams)
    else if treasuryBps > TOTAL_BPS then Fail(InvalidParams)
    else if WrapAdd(stakersBps, treasuryBps) != TOTAL_BPS then Fail(InvalidParams)
    else Pass
  }

  lemma DefaultMerchantRoutingValid()
    ensures ValidateMerchantIncentiveRouting(DEFAULT_MERCHANT_STAKERS_BPS, DEFAULT_MERCHANT_TREASURY_BPS) == Pass
  {
  }
}
