/** DailyRollupStatus: a read-only query reporting the zone, the current
    local date, the watermark, whether today was rolled up and the date of
    the next rollup. */
module RollupStatus {
  import opened Base
  import opened Dates
  import opened LoyaltyParams
  import opened Types
  import opened DailyRollupClock

  datatype StatusResponse = StatusResponse(
    timezone: string,
    currentLocalDate: string,
    lastDailyRollupDate: string,
    hasRolledToday: bool,
    nextRollupDate: string)

  /** The day after a "2006-01-02" date, or "" when the date does not parse
      (time.ParseInLocation, then AddDate(0, 0, 1)). */
  function NextRollupDate(current: string): (next: string)
    ensures ParseDate(current).None? ==> next == ""
  {
    match ParseDate(current)
    case None => ""
    case Some(d) => FormatDate(NextDay(d))
  }

  /** DailyRollupStatus over the stored watermark; an unloadable zone is an
      internal error. */
  function DailyRollupStatus(env: Env, ctx: Ctx, params: Params, last: Option<string>): (r: Result<StatusResponse>)
    ensures r.Err? <==> !env.tzLoadable(params.dailyRollupTimezone)
    ensures r.Err? ==> r.error == StatusInternal
    ensures r.Ok? ==>
      var today := FormatDate(env.localDate(ctx.blockTime, params.dailyRollupTimezone));
      && r.value.timezone == params.dailyRollupTimezone
      && r.value.currentLocalDate == today
      && (r.value.hasRolledToday <==> last == Some(today))
      && (last.None? ==> r.value.lastDailyRollupDate == "")
      && (last.Some? ==> r.value.lastDailyRollupDate == last.value)
  {
    match LocalToday(env, ctx, params.dailyRollupTimezone)
    case Err(_) => Err(StatusInternal)
    case Ok(today) =>
      var lastDate := if last.Some? then last.value else "";
      Ok(StatusResponse(params.dailyRollupTimezone, today, lastDate, last == Some(today), NextRollupDate(today)))
  }

  /** The next rollup date is the calendar day after the current local date
      (for the four-digit years the layout reads back). */
  lemma NextRollupIsNextDay(env: Env, ctx: Ctx, params: Params, last: Option<string>)
    requires env.tzLoadable(params.dailyRollupTimezone)
    requires env.localDate(ctx.blockTime, params.dailyRollupTimezone).year <= 9999
    ensures var d := env.localDate(ctx.blockTime, params.dailyRollupTimezone);
      DailyRollupStatus(env, ctx, params, last).value.nextRollupDate == FormatDate(NextDay(d))
  {
    ParseFormatDate(env.localDate(ctx.blockTime, params.dailyRollupTimezone));
  }

  /** The status agrees with the clock: today counts as rolled up exactly
      when a rollup now would emit nothing. */
  lemma StatusAgreesWithRollup(env: Env, ctx: Ctx, params: Params, last: Option<string>)
    requires env.tzLoadable(params.dailyRollupTimezone)
    ensures DailyRollupStatus(env, ctx, params, last).value.hasRolledToday
      <==> RollupSpec(env, ctx, params, last) == Ok(None)
  {
  }

  /** 2026-02-26 is followed by 2026-02-27. */
  lemma NextRollupScenario()
    ensures NextRollupDate("2026-02-26") == "2026-02-27"
  {
    var d := Date(2026, 2, 26);
    ParseFormatDate(d);
    assert FormatDate(d) == "2026-02-26";
    assert NextDay(d) == Date(2026, 2, 27);
    assert FormatDate(Date(2026, 2, 27)) == "2026-02-27";
  }
}
